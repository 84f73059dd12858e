/**
 * The active-link update of js/main.js (`initActiveNav`): when a section
 * becomes visible, each header nav link is marked active exactly when its
 * href, with the first '#' removed, is the section's id.
 */
module ActiveNav {
  import opened Wrappers
  import opened Text

  /** `href.replace('#', '')`: a string pattern replaces only its first
      occurrence. */
  function StripFirstHash(s: string): (r: string)
    ensures IndexOf(s, '#').None? ==> r == s
    ensures IndexOf(s, '#').Some? ==>
      var k := IndexOf(s, '#').value; r == s[..k] + s[k + 1..]
  {
    if s == [] then []
    else if s[0] == '#' then s[1..]
    else [s[0]] + StripFirstHash(s[1..])
  }

  /** A link of the header nav: its href, the `active` class and the
      `aria-current` attribute (absent or with a value). */
  datatype Link = Link(href: string, active: bool, ariaCurrent: Option<string>)

  /** `toggleAttribute(name, force)`: the attribute is present afterwards
      exactly when forced on; an existing value is kept and a missing one
      becomes empty. */
  function ToggleAttribute(a: Option<string>, force: bool): (r: Option<string>)
    ensures r.Some? <==> force
    ensures force ==> r == if a.Some? then a else Some("")
  {
    if !force then None else if a.Some? then a else Some("")
  }

  /** The body of the `navLinks.forEach` callback for one visible section: the
      class toggle, the attribute toggle, then the set or remove that decides
      the attribute's final value. */
  function UpdateLink(link: Link, id: string): (r: Link)
    ensures r.href == link.href
    ensures r.active <==> StripFirstHash(link.href) == id
    ensures r.ariaCurrent == if r.active then Some("page") else None
  {
    var isActive := StripFirstHash(link.href) == id;
    var classed := link.(active := isActive);
    var toggled := classed.(ariaCurrent := ToggleAttribute(classed.ariaCurrent, isActive));
    if isActive then toggled.(ariaCurrent := Some("page"))
    else toggled.(ariaCurrent := None)
  }

  /** The loop over the nav links when the section `id` becomes visible. */
  method Highlight(links: seq<Link>, id: string) returns (out: seq<Link>)
    ensures |out| == |links|
    ensures forall k :: 0 <= k < |links| ==> out[k].href == links[k].href
    ensures forall k :: 0 <= k < |links| ==> (out[k].active <==> StripFirstHash(links[k].href) == id)
    ensures forall k :: 0 <= k < |links| ==>
      out[k].ariaCurrent == if out[k].active then Some("page") else None
  {
    out := links;
    var i := 0;
    while i < |links|
      invariant 0 <= i <= |links| == |out|
      invariant forall k :: 0 <= k < i ==> out[k] == UpdateLink(links[k], id)
      invariant forall k :: i <= k < |links| ==> out[k] == links[k]
    {
      out := out[i := UpdateLink(out[i], id)];
      i := i + 1;
    }
  }

  /** A link written `#<id>` is active exactly for the section `<id>`. */
  lemma {:induction false} HashLinkMatchesSection(target: string, id: string)
    ensures StripFirstHash("#" + target) == id <==> target == id
  {
    assert ("#" + target)[0] == '#';
    assert ("#" + target)[1..] == target;
  }
}

/**
 * The class assignment of js/main.js (`initScrollReveal`): for each entry of
 * the reveal table, every element the selector matches gets the entry's
 * animation class, and the second, third and later elements of the match get
 * a stagger delay class capped at 3. Elements are numbered; the page's class
 * lists are a sequence indexed by element; what each selector matches is an
 * input.
 */
module Reveal {

  type ElementId = nat

  /** The three animation classes of the table. */
  datatype Direction = Plain | Left | Right

  function DirectionClass(d: Direction): string {
    match d
    case Plain => "reveal"
    case Left => "reveal-left"
    case Right => "reveal-right"
  }

  /** The table of selectors and the animation each one gets, in order. */
  const RevealMap: seq<(string, Direction)> := [
    (".hero-content", Left), (".hero-image", Right),
    (".about-content", Left), (".about-image", Right),
    (".expert-content", Left), (".expert-quote-card", Right),
    (".fish-feature-image", Left), (".fish-cards", Right),
    (".expert-advice-banner", Plain),
    (".fish-care-content", Left), (".fish-care-quote", Right),
    (".products-header", Plain), (".product-card", Plain),
    (".exclusive-content", Plain),
    (".contact-content", Left), (".contact-form-wrapper", Right),
    (".review-card", Plain)
  ]

  /** `Math.min(i, 3)` for a position `i > 0`: always a step from 1 to 3. */
  function StaggerStep(i: nat): (k: nat)
    requires i > 0
    ensures 1 <= k <= 3
    ensures k <= i && (k < 3 ==> k == i)
  {
    if i < 3 then i else 3
  }

  /** The table has seventeen entries, and each selector is a class selector
      that appears once. */
  lemma RevealMapShape()
    ensures |RevealMap| == 17
    ensures forall i :: 0 <= i < |RevealMap| ==> |RevealMap[i].0| >= 2 && RevealMap[i].0[0] == '.'
    ensures forall i, j :: 0 <= i < j < |RevealMap| ==> RevealMap[i].0 != RevealMap[j].0
  {
  }

  /** `reveal-delay-${k}` for a single-digit step: the prefix, then the digit
      that spells `k`. */
  function DelayClass(k: nat): (r: string)
    requires 1 <= k <= 3
    ensures |r| == 14 && r[..13] == "reveal-delay-"
    ensures '1' <= r[13] <= '3' && r[13] as int - '0' as int == k
  {
    "reveal-delay-" + [(('0' as int) + k) as char]
  }

  /** The classes the element at position `i` of a match receives. */
  function RevealTags(cls: string, i: nat): set<string> {
    if i > 0 then {cls, DelayClass(StaggerStep(i))} else {cls}
  }

  /** A delay class is never an animation class, and distinct steps give
      distinct delay classes. */
  lemma DelayClassesDistinct(k: nat, j: nat, d: Direction)
    requires 1 <= k <= 3 && 1 <= j <= 3
    ensures DelayClass(k) != DirectionClass(d)
    ensures DelayClass(k) == DelayClass(j) <==> k == j
  {
    if DelayClass(k) == DelayClass(j) {
      assert DelayClass(k)[13] == DelayClass(j)[13];
    }
    assert |DelayClass(k)| == 14;
  }

  /** Position `i` of a match gets its animation class, no delay class when
      it is the first, and exactly the delay class `min(i, 3)` otherwise. */
  lemma TagsAtPosition(d: Direction, i: nat, k: nat)
    requires 1 <= k <= 3
    ensures DirectionClass(d) in RevealTags(DirectionClass(d), i)
    ensures DelayClass(k) in RevealTags(DirectionClass(d), i) <==> i > 0 && k == StaggerStep(i)
  {
    DelayClassesDistinct(k, k, d);
    if i > 0 {
      DelayClassesDistinct(k, StaggerStep(i), d);
    }
  }

  /** One table entry applied to a class list: its matched elements, and the
      class its selector maps to. */
  datatype Group = Group(matched: seq<ElementId>, cls: string)

  /** Every matched element is an element of the page. */
  predicate InPage(els: seq<ElementId>, n: nat) {
    forall i :: 0 <= i < |els| ==> els[i] < n
  }

  /** The class lists after the elements of `els` are handled in order. */
  function ApplyGroup(classes: seq<set<string>>, els: seq<ElementId>, cls: string): (r: seq<set<string>>)
    requires InPage(els, |classes|)
    ensures |r| == |classes|
    decreases |els|
  {
    if els == [] then classes
    else
      var i := |els| - 1;
      var prev := ApplyGroup(classes, els[..i], cls);
      prev[els[i] := prev[els[i]] + RevealTags(cls, i)]
  }

  /** The class lists after all groups are handled in order. */
  function ApplyAll(classes: seq<set<string>>, gs: seq<Group>): (r: seq<set<string>>)
    requires forall g :: 0 <= g < |gs| ==> InPage(gs[g].matched, |classes|)
    ensures |r| == |classes|
    decreases |gs|
  {
    if gs == [] then classes
    else
      var g := |gs| - 1;
      ApplyGroup(ApplyAll(classes, gs[..g]), gs[g].matched, gs[g].cls)
  }

  /** After one group, an element holds exactly its old classes plus the tags
      of every position at which the group matched it. */
  lemma {:induction false} GroupMembership(classes: seq<set<string>>, els: seq<ElementId>, cls: string, e: ElementId, c: string)
    requires InPage(els, |classes|) && e < |classes|
    ensures c in ApplyGroup(classes, els, cls)[e] <==>
      c in classes[e] || exists i :: 0 <= i < |els| && els[i] == e && c in RevealTags(cls, i)
    decreases |els|
  {
    if els != [] {
      var i := |els| - 1;
      var front := els[..i];
      GroupMembership(classes, front, cls, e, c);
      if exists j :: 0 <= j < |els| && els[j] == e && c in RevealTags(cls, j) {
        var j :| 0 <= j < |els| && els[j] == e && c in RevealTags(cls, j);
        if j < i {
          assert front[j] == e;
        }
      }
      if exists j :: 0 <= j < |front| && front[j] == e && c in RevealTags(cls, j) {
        var j :| 0 <= j < |front| && front[j] == e && c in RevealTags(cls, j);
        assert els[j] == e;
      }
    }
  }

  /** After all groups, an element holds exactly its old classes plus the tags
      of every position at which some group matched it: nothing is removed and
      nothing else is added. */
  lemma {:induction false} AllMembership(classes: seq<set<string>>, gs: seq<Group>, e: ElementId, c: string)
    requires forall g :: 0 <= g < |gs| ==> InPage(gs[g].matched, |classes|)
    requires e < |classes|
    ensures c in ApplyAll(classes, gs)[e] <==>
      c in classes[e] ||
      exists g, i :: 0 <= g < |gs| && 0 <= i < |gs[g].matched| && gs[g].matched[i] == e &&
        c in RevealTags(gs[g].cls, i)
    decreases |gs|
  {
    if gs != [] {
      var last := |gs| - 1;
      var front := gs[..last];
      AllMembership(classes, front, e, c);
      GroupMembership(ApplyAll(classes, front), gs[last].matched, gs[last].cls, e, c);
      if exists g, i :: 0 <= g < |gs| && 0 <= i < |gs[g].matched| && gs[g].matched[i] == e &&
          c in RevealTags(gs[g].cls, i) {
        var g, i :| 0 <= g < |gs| && 0 <= i < |gs[g].matched| && gs[g].matched[i] == e &&
          c in RevealTags(gs[g].cls, i);
        if g < last {
          assert front[g] == gs[g];
        }
      }
      if exists g, i :: 0 <= g < |front| && 0 <= i < |front[g].matched| && front[g].matched[i] == e &&
          c in RevealTags(front[g].cls, i) {
        var g, i :| 0 <= g < |front| && 0 <= i < |front[g].matched| && front[g].matched[i] == e &&
          c in RevealTags(front[g].cls, i);
        assert gs[g] == front[g];
      }
    }
  }

  /** The reveal table applied to what each selector matched. */
  function Groups(matches: seq<seq<ElementId>>): (gs: seq<Group>)
    requires |matches| == |RevealMap|
    ensures |gs| == |RevealMap|
    ensures forall g :: 0 <= g < |gs| ==> gs[g] == Group(matches[g], DirectionClass(RevealMap[g].1))
  {
    seq(|RevealMap|, g requires 0 <= g < |RevealMap| => Group(matches[g], DirectionClass(RevealMap[g].1)))
  }

  /** `qsa(sel).forEach((el, i) => ...)` for one table entry: each element
      gets the animation class, and from the second on a delay class. */
  method AssignGroup(classes: seq<set<string>>, els: seq<ElementId>, cls: string)
    returns (out: seq<set<string>>)
    requires InPage(els, |classes|)
    ensures out == ApplyGroup(classes, els, cls)
  {
    out := classes;
    var i := 0;
    while i < |els|
      invariant 0 <= i <= |els|
      invariant out == ApplyGroup(classes, els[..i], cls)
    {
      var e := els[i];
      ghost var prev := out;
      out := out[e := out[e] + {cls}];
      if i > 0 {
        out := out[e := out[e] + {DelayClass(StaggerStep(i))}];
        assert prev[e] + {cls} + {DelayClass(StaggerStep(i))} == prev[e] + RevealTags(cls, i);
      }
      assert out == prev[e := prev[e] + RevealTags(cls, i)];
      assert els[..i + 1][..i] == els[..i] && els[..i + 1][i] == e;
      i := i + 1;
    }
    assert els[..|els|] == els;
  }

  /** The class-assignment loop of `initScrollReveal` over the whole table.
      With reduced motion requested the function returns before touching
      anything. */
  method AssignRevealClasses(reducedMotion: bool, matches: seq<seq<ElementId>>, classes: seq<set<string>>)
    returns (out: seq<set<string>>)
    requires |matches| == |RevealMap|
    requires forall g :: 0 <= g < |matches| ==> InPage(matches[g], |classes|)
    ensures reducedMotion ==> out == classes
    ensures !reducedMotion ==> out == ApplyAll(classes, Groups(matches))
  {
    out := classes;
    if reducedMotion {
      return;
    }
    ghost var gs := Groups(matches);
    var n := |matches|;
    var g := 0;
    while g < n
      invariant 0 <= g <= n == |gs|
      invariant forall h :: 0 <= h < |gs| ==> InPage(gs[h].matched, |classes|)
      invariant out == ApplyAll(classes, gs[..g]) && |out| == |classes|
    {
      var cls := DirectionClass(RevealMap[g].1);
      assert gs[g] == Group(matches[g], cls);
      out := AssignGroup(out, matches[g], cls);
      assert gs[..g + 1][..g] == gs[..g];
      g := g + 1;
    }
    assert gs[..n] == gs;
  }

  /** Whatever the selectors match: the element at position `i` of the match
      of table entry `g` ends up with that entry's animation class, and when
      `i > 0` with the delay class `min(i, 3)`; an element no entry matched
      keeps exactly its old classes. */
  lemma EveryMatchGetsItsClasses(classes: seq<set<string>>, matches: seq<seq<ElementId>>, g: nat, i: nat, e: ElementId)
    requires |matches| == |RevealMap|
    requires forall h :: 0 <= h < |matches| ==> InPage(matches[h], |classes|)
    requires e < |classes|
    ensures var out := ApplyAll(classes, Groups(matches));
      && (g < |matches| && i < |matches[g]| && matches[g][i] == e ==>
            DirectionClass(RevealMap[g].1) in out[e] &&
            (i > 0 ==> DelayClass(StaggerStep(i)) in out[e]))
      && ((forall h, j :: 0 <= h < |matches| && 0 <= j < |matches[h]| ==> matches[h][j] != e) ==>
            out[e] == classes[e])
  {
    var gs := Groups(matches);
    var out := ApplyAll(classes, gs);
    if g < |matches| && i < |matches[g]| && matches[g][i] == e {
      assert gs[g].matched[i] == e;
      AllMembership(classes, gs, e, DirectionClass(RevealMap[g].1));
      if i > 0 {
        AllMembership(classes, gs, e, DelayClass(StaggerStep(i)));
      }
    }
    if forall h, j :: 0 <= h < |matches| && 0 <= j < |matches[h]| ==> matches[h][j] != e {
      forall c ensures c in out[e] <==> c in classes[e] {
        AllMembership(classes, gs, e, c);
      }
    }
  }
}

/**
 * The mobile navigation drawer of js/main.js (`initMobileNav`). Elements are
 * identified by number; the attributes the drawer writes are fields of the
 * `Drawer` class; the set of focusable elements inside the panel, which the
 * source recomputes on every key press, is a parameter of the key handler.
 */
module NavDrawer {
  import opened Wrappers

  type ElementId = nat

  datatype Key = Tab | Escape | OtherKey

  /** What the keydown listener does: nothing (the browser's default runs),
      prevent the default and move focus to `target`, or close the drawer. */
  datatype TrapAction = Pass | MoveFocus(target: ElementId) | Close

  /** The focus-trap decision of the keydown listener. `first` and `last` are
      undefined in the source when nothing is focusable, and the active
      element is never undefined, so an empty set never wraps. */
  function TrapDecision(isOpen: bool, focusable: seq<ElementId>, active: ElementId, key: Key, shift: bool): (r: TrapAction)
    ensures !isOpen ==> r == Pass
    ensures r == Close <==> isOpen && key == Escape
    ensures r.MoveFocus? ==> isOpen && key == Tab && r.target in focusable
    ensures isOpen && key == Tab && !shift ==>
      (r.MoveFocus? <==> |focusable| > 0 && active == focusable[|focusable| - 1])
    ensures isOpen && key == Tab && shift ==>
      (r.MoveFocus? <==> |focusable| > 0 && active == focusable[0])
    ensures r.MoveFocus? ==> r.target == if shift then focusable[|focusable| - 1] else focusable[0]
  {
    if !isOpen then Pass
    else if key == Tab && |focusable| > 0 then
      if shift && active == focusable[0] then MoveFocus(focusable[|focusable| - 1])
      else if !shift && active == focusable[|focusable| - 1] then MoveFocus(focusable[0])
      else Pass
    else if key == Escape then Close
    else Pass
  }

  /** No element occurs twice in the focusable list (it comes from one DOM query). */
  predicate Distinct(s: seq<ElementId>) {
    forall i, j :: 0 <= i < j < |s| ==> s[i] != s[j]
  }

  /** Where focus lands after Tab (or Shift-Tab) on `focusable[i]` while the
      drawer is open: the trap's target when it wraps, otherwise the browser's
      default move, taken here to be the neighbour in the focusable order. */
  function FocusAfterTab(focusable: seq<ElementId>, i: nat, shift: bool): ElementId
    requires i < |focusable|
  {
    var d := TrapDecision(true, focusable, focusable[i], Tab, shift);
    if d.MoveFocus? then d.target
    else if shift then focusable[i - 1]
    else focusable[i + 1]
  }

  /** With the trap in place, Tab and Shift-Tab cycle through the panel's
      focusable elements: focus never leaves the panel and wraps at both ends. */
  lemma TabCyclesInsidePanel(focusable: seq<ElementId>, i: nat, shift: bool)
    requires Distinct(focusable) && i < |focusable|
    ensures FocusAfterTab(focusable, i, shift) ==
      if shift then focusable[if i == 0 then |focusable| - 1 else i - 1]
      else focusable[if i == |focusable| - 1 then 0 else i + 1]
  {
    var n := |focusable|;
    if shift && i != 0 {
      assert focusable[i] != focusable[0];
    } else if !shift && i != n - 1 {
      assert focusable[i] != focusable[n - 1];
    }
  }

  /** Tab on the last element goes to the first, and Shift-Tab from there
      comes back to the last. */
  lemma TabThenShiftTabReturns(focusable: seq<ElementId>)
    requires |focusable| > 0
    ensures var last := focusable[|focusable| - 1];
      var d := TrapDecision(true, focusable, last, Tab, false);
      d == MoveFocus(focusable[0]) &&
      TrapDecision(true, focusable, d.target, Tab, true) == MoveFocus(last)
  {
  }

  /** The elements a click can hit: the hamburger toggles, the rest close. */
  datatype ClickTarget = Hamburger | CloseButton | Overlay | NavLink

  /** True when every entry of `s` is `v`. */
  predicate AllAre(s: seq<string>, v: string) {
    forall k :: 0 <= k < |s| ==> s[k] == v
  }

  /** The drawer's closure state (`isOpen`, `lastFocused`), the document's
      focus, and every attribute and class the drawer writes. */
  class Drawer {
    const closeButton: ElementId
    var isOpen: bool
    var lastFocused: Option<ElementId>
    var activeElement: ElementId
    var panelOpen: bool          // `is-open` on the panel
    var overlayVisible: bool     // `is-visible` on the overlay
    var hamburgerOpen: bool      // `is-open` on the hamburger
    var ariaExpanded: string     // on the hamburger
    var panelAriaHidden: string
    var overlayAriaHidden: string
    var linkTabIndex: seq<string>  // `tabindex` of each `.mobile-nav-link`
    var bodyOverflow: string

    /** The attributes agree with the state: all say open, or all say closed. */
    ghost predicate Consistent()
      reads this
    {
      if isOpen then
        && panelOpen && overlayVisible && hamburgerOpen
        && ariaExpanded == "true" && panelAriaHidden == "false" && overlayAriaHidden == "false"
        && AllAre(linkTabIndex, "0") && bodyOverflow == "hidden"
      else
        && !panelOpen && !overlayVisible && !hamburgerOpen
        && ariaExpanded == "false" && panelAriaHidden == "true" && overlayAriaHidden == "true"
        && AllAre(linkTabIndex, "-1") && bodyOverflow == ""
    }

    /** The page as loaded: closed, nothing remembered, attributes as the
        markup has them. */
    constructor (closeButton: ElementId, focus: ElementId,
                 expanded: string, panelHidden: string, overlayHidden: string, tabIndex: seq<string>)
      ensures this.closeButton == closeButton
      ensures !isOpen && lastFocused == None && activeElement == focus
      ensures !panelOpen && !overlayVisible && !hamburgerOpen && bodyOverflow == ""
      ensures ariaExpanded == expanded && panelAriaHidden == panelHidden
      ensures overlayAriaHidden == overlayHidden && linkTabIndex == tabIndex
    {
      this.closeButton := closeButton;
      isOpen := false;
      lastFocused := None;
      activeElement := focus;
      panelOpen, overlayVisible, hamburgerOpen := false, false, false;
      ariaExpanded, panelAriaHidden, overlayAriaHidden := expanded, panelHidden, overlayHidden;
      linkTabIndex := tabIndex;
      bodyOverflow := "";
    }

    /** `mobileLinks.forEach(l => l.setAttribute('tabindex', v))`. */
    method SetLinkTabIndex(v: string)
      modifies this`linkTabIndex
      ensures |linkTabIndex| == |old(linkTabIndex)| && AllAre(linkTabIndex, v)
    {
      var i := 0;
      while i < |linkTabIndex|
        invariant 0 <= i <= |linkTabIndex| == |old(linkTabIndex)|
        invariant forall k :: 0 <= k < i ==> linkTabIndex[k] == v
      {
        linkTabIndex := linkTabIndex[i := v];
        i := i + 1;
      }
    }

    /** `openNav`: remembers the focused element, shows the panel and the
        overlay, makes the links tabbable and focuses the close button (the
        panel is focused first, then the close button). */
    method OpenNav()
      modifies this
      ensures isOpen && Consistent()
      ensures lastFocused == Some(old(activeElement))
      ensures activeElement == closeButton
      ensures |linkTabIndex| == |old(linkTabIndex)|
    {
      isOpen := true;
      lastFocused := Some(activeElement);
      panelOpen, overlayVisible, hamburgerOpen := true, true, true;
      ariaExpanded := "true";
      panelAriaHidden := "false";
      overlayAriaHidden := "false";
      SetLinkTabIndex("0");
      bodyOverflow := "hidden";
      activeElement := closeButton;
    }

    /** `closeNav`: hides everything, takes the links out of the tab order and
        gives focus back to the remembered element, if there is one. The
        remembered element is kept. */
    method CloseNav()
      modifies this
      ensures !isOpen && Consistent()
      ensures lastFocused == old(lastFocused)
      ensures activeElement == if lastFocused.Some? then lastFocused.value else old(activeElement)
      ensures |linkTabIndex| == |old(linkTabIndex)|
    {
      isOpen := false;
      panelOpen, overlayVisible, hamburgerOpen := false, false, false;
      ariaExpanded := "false";
      panelAriaHidden := "true";
      overlayAriaHidden := "true";
      SetLinkTabIndex("-1");
      bodyOverflow := "";
      if lastFocused.Some? {
        activeElement := lastFocused.value;
      }
    }

    /** The click listeners: the hamburger toggles, the close button, the
        overlay and every nav link close. */
    method Click(target: ClickTarget)
      modifies this
      ensures Consistent()
      ensures target == Hamburger ==> isOpen == !old(isOpen)
      ensures target != Hamburger ==> !isOpen
      ensures isOpen ==> lastFocused == Some(old(activeElement)) && activeElement == closeButton
      ensures !isOpen ==> (lastFocused == old(lastFocused) &&
        activeElement == if lastFocused.Some? then lastFocused.value else old(activeElement))
      ensures |linkTabIndex| == |old(linkTabIndex)|
    {
      if target == Hamburger && !isOpen {
        OpenNav();
      } else {
        CloseNav();
      }
    }

    /** The keydown listener on the panel: it does exactly what `TrapDecision`
        says, and reports whether it prevented the default action. */
    method KeyDown(key: Key, shift: bool, focusable: seq<ElementId>) returns (prevented: bool)
      modifies this
      ensures var d := TrapDecision(old(isOpen), focusable, old(activeElement), key, shift);
        && (prevented <==> d.MoveFocus?)
        && lastFocused == old(lastFocused)
        && |linkTabIndex| == |old(linkTabIndex)|
        && (d.MoveFocus? ==> activeElement == d.target)
        && (d == Pass ==> activeElement == old(activeElement))
        && (d == Close ==>
              (!isOpen && Consistent() &&
               activeElement == if lastFocused.Some? then lastFocused.value else old(activeElement)))
        && (d != Close ==>
              (&& isOpen == old(isOpen)
               && panelOpen == old(panelOpen) && overlayVisible == old(overlayVisible)
               && hamburgerOpen == old(hamburgerOpen) && ariaExpanded == old(ariaExpanded)
               && panelAriaHidden == old(panelAriaHidden) && overlayAriaHidden == old(overlayAriaHidden)
               && linkTabIndex == old(linkTabIndex) && bodyOverflow == old(bodyOverflow)))
    {
      prevented := false;
      if !isOpen {
        return;
      }
      if key == Tab && |focusable| > 0 {
        var first, last := focusable[0], focusable[|focusable| - 1];
        if shift {
          if activeElement == first {
            prevented := true;
            activeElement := last;
          }
        } else {
          if activeElement == last {
            prevented := true;
            activeElement := first;
          }
        }
      }
      if key == Escape {
        CloseNav();
      }
    }
  }

  /** Opening and then closing the drawer gives focus back to the element that
      had it before, even when a key press moved focus inside the panel. */
  method OpenTabClose(d: Drawer, focusable: seq<ElementId>, shift: bool)
    requires !d.isOpen
    modifies d
    ensures !d.isOpen && d.Consistent()
    ensures d.activeElement == old(d.activeElement)
  {
    d.Click(Hamburger);
    var _ := d.KeyDown(Tab, shift, focusable);
    d.Click(Hamburger);
  }
}

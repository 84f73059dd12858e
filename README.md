# Annerley Aquarium page script — a Dafny model

This project models the logic that sits under the event handlers of the
Annerley Aquarium marketing site (`js/main.js`), with the DOM abstracted away.
Elements are numbers, attributes and classes are record or object fields,
focus is an element number or an index, and the page is a list of fields,
links or class lists.

- **Contact form** (`contact_form.dfy`, module `ContactForm`). It covers the
  three validators (name, email, message) and the `blur`, `input` and
  `submit` handlers. A form field is a `Field` record holding the value, the
  error-region text and the `is-invalid` flag. The form's invariant is that
  the flag is set exactly when the error text is non-empty, and that a flagged
  field shows the message of its current value. The email regular expression
  `^[^\s@]+@[^\s@]+\.[^\s@]+$` is written as a structural predicate. It is
  proved equal to an executable scanner that splits at the first `@`. In the
  submit loop, the `if (!hasErrors) el.focus()` branch is dead. It is modelled
  as an `assert false` that the verifier discharges.
- **Mobile nav drawer** (`nav_drawer.dfy`, module `NavDrawer`). The focus
  trap is a pure decision function. The drawer is a class with the closure
  state (`isOpen`, `lastFocused`), the document's focus, and every attribute
  `openNav`/`closeNav` write. One lemma shows that with the trap, Tab and
  Shift-Tab cycle through the panel and wrap at both ends.
- **Product carousel** (`carousel.dfy`, module `Carousel`). It covers the
  modular next and previous indices and the `Slider` class that holds
  `current`.
- **Scroll-reveal classes** (`scroll_reveal.dfy`, module `Reveal`). It covers
  the selector table, the stagger step `min(i, 3)`, and the loops that add
  the classes. The loops are proved against a fold, and the fold's exact
  effect on each element is proved as a lemma.
- **Active nav link** (`active_nav.dfy`, module `ActiveNav`). It covers the
  per-link update when a section becomes visible.
- `text.dfy` (module `Text`) holds character search and JavaScript
  whitespace/trim. `wrappers.dfy` holds `Option`.

Facts about the code that the model keeps:
- `closeNav` never clears `lastFocused` (js/main.js:61-78). Every close
  therefore restores focus to it, not just the first close after an open.
- `initProductsNav` has no guard for zero cards (js/main.js:320).
- The drawer's ARIA and tabindex attributes before the first open or close
  are whatever the markup has (js/main.js:26-110 never writes them at load).
  `Consistent()` is established by the first open or close, not at load.
- Name and message lengths are JavaScript `.length` values, counted in UTF-16
  code units (js/main.js:224, 242). A character above U+FFFF counts twice, so
  an emoji above U+FFFF, such as U+1F600, is on its own a long enough name.

## Model

| member | source | states |
|---|---|---|
| Text.Trim | js/main.js:223-224 | `val.trim()` is no longer than the value and, when non-empty, neither starts nor ends with whitespace |
| Text.Utf16Length | js/main.js:224 | `.length` counts UTF-16 units: at least the number of characters and at most twice it |
| Text.Utf16LengthConcat | js/main.js:224 | `.length` of a concatenation is the sum of the lengths |
| Text.SpanInside | js/main.js:223-224 | a span between two non-space characters lies inside the trimmed slice and is no longer than it in UTF-16 units |
| Text.TrimEmptyIffAllSpace | js/main.js:223 | `!val.trim()` holds exactly when every character of the value is whitespace |
| Text.TrimLengthAtLeast | js/main.js:224 | for `n >= 1`, the trimmed value's `.length` is at least `n` exactly when two non-space characters of the value span at least `n` UTF-16 units |
| Text.TrimSlice | js/main.js:223-224 | the trimmed value is a slice of the value; everything outside it is whitespace and its ends are not |
| Text.IndexOf | js/main.js:142 | finds the first occurrence of a character, or reports that there is none |
| ContactForm.ValidateLength | js/main.js:222-226 | the shared shape of the name and message validators: the "missing" message iff all whitespace, the "too short" message iff not blank but the non-space span is below the minimum in UTF-16 units, "" iff the span reaches it |
| ContactForm.ValidateName | js/main.js:222-226 | "Please enter your name." iff blank; "Name must be at least 2 characters." iff not blank but the trimmed `.length` (UTF-16 units) is below 2; "" iff it is at least 2 |
| ContactForm.ValidateMessage | js/main.js:240-244 | the same with "Please enter a message.", "Message must be at least 10 characters." and minimum 10 |
| ContactForm.ValidateEmail | js/main.js:231-235 | the blank message takes precedence; otherwise "" iff the untrimmed value matches the email pattern, else "Please enter a valid email address." |
| ContactForm.EmailMatch | js/main.js:233 | splitting at the first '@' and checking both sides accepts exactly the strings the regular expression matches |
| ContactForm.SplitIsShaped | js/main.js:233 | a value the scanner accepts at an '@' matches the regular expression |
| ContactForm.ShapedSplitsAtFirstAt | js/main.js:233 | a value the regular expression matches has its '@' first, and both sides pass the scanner's tests |
| ContactForm.EmailEnds | js/main.js:233 | a value the pattern accepts neither starts nor ends with whitespace |
| ContactForm.EmailRejectsOuterSpace | js/main.js:231-234 | a value with leading or trailing whitespace is never a valid email, because the pattern sees the untrimmed value |
| ContactForm.NameExamples | js/main.js:222-226 | "" gets the name-required message, "A" is too short and "Amy" passes |
| ContactForm.EmojiName | js/main.js:222-226 | a character above U+FFFF such as the emoji U+1F600 is two UTF-16 units, so on its own it is a long enough name |
| ContactForm.EmailExamples | js/main.js:231-235 | "bad" is an invalid email and "a@b.c" passes |
| ContactForm.MessageExamples | js/main.js:240-244 | "hi" is too short, "hello there!" passes, and so do five U+1F600 emoji (ten UTF-16 units) |
| ContactForm.Revalidated | js/main.js:252-254 | after validation the error text is the validator's message and the flag is set iff that text is non-empty |
| ContactForm.FirstInvalid | js/main.js:280-281 | `querySelector('.is-invalid')`: the least flagged index, or none exactly when no field is flagged |
| ContactForm.Form.constructor | js/main.js:213-246 | the loaded form has every error region empty and no field flagged |
| ContactForm.Form.Blur | js/main.js:251-255 | blur revalidates the one field and keeps the form invariant |
| ContactForm.Form.Input | js/main.js:256-262 | input revalidates only a flagged field; a field that was not flagged stays unflagged |
| ContactForm.Form.RevalidateAll | js/main.js:268-276 | every field is revalidated with no early exit, and `hasErrors` is true iff some field ends up flagged |
| ContactForm.Form.Submit | js/main.js:265-288 | with errors, the button is untouched and focus goes to the first invalid field in form order; without errors, the button is disabled and its label is "Sending…" |
| NavDrawer.TrapDecision | js/main.js:81-101 | closed: nothing. Escape: close. Tab on the last focusable: move to the first. Shift-Tab on the first: move to the last. Any other Tab: the default. A wrap target is always inside the panel |
| NavDrawer.TabCyclesInsidePanel | js/main.js:81-99 | with distinct focusables, focus after Tab is the next element cyclically and after Shift-Tab the previous one, wrapping at both ends |
| NavDrawer.TabThenShiftTabReturns | js/main.js:87-99 | Tab on the last element goes to the first, and Shift-Tab there comes back to the last |
| NavDrawer.Drawer.constructor | js/main.js:26-29 | the drawer starts closed with no remembered element, no open classes and no body overflow; ARIA and tabindex attributes are as the markup has them |
| NavDrawer.Drawer.SetLinkTabIndex | js/main.js:51 | every mobile nav link gets the given tabindex |
| NavDrawer.Drawer.OpenNav | js/main.js:38-59 | opens with every attribute saying open, remembers the previously focused element and focuses the close button |
| NavDrawer.Drawer.CloseNav | js/main.js:61-78 | closes with every attribute saying closed, keeps `lastFocused` and restores focus to it when there is one |
| NavDrawer.Drawer.Click | js/main.js:103-110 | the hamburger flips `isOpen`; the close button, overlay and links close; the attributes are consistent afterwards and the number of links is unchanged |
| NavDrawer.Drawer.KeyDown | js/main.js:81-101 | the handler does what `TrapDecision` says and prevents the default exactly when it wraps focus; unless it closes, every attribute, the link tabindexes and `isOpen` are unchanged |
| NavDrawer.OpenTabClose | js/main.js:38-103 | opening, pressing Tab inside and closing gives focus back to the element focused before opening |
| Carousel.NextIndex | js/main.js:320 | the next index stays in range, is the successor before the end and 0 from the last card |
| Carousel.PrevIndex | js/main.js:325 | the previous index stays in range, is the predecessor after the start and the last card from 0 |
| Carousel.NextPrevInverse | js/main.js:319-327 | next then previous, and previous then next, return to the starting card |
| Carousel.AdvanceNoWrap | js/main.js:319-322 | `k` presses of next before the end move exactly `k` cards |
| Carousel.AdvanceAdd | js/main.js:319-322 | `a` presses followed by `b` presses equal `a + b` presses |
| Carousel.AdvanceFullCycle | js/main.js:319-322 | pressing next once per card returns to the starting card |
| Carousel.Slider.constructor | js/main.js:310-311 | the carousel starts at card 0 of at least one card |
| Carousel.Slider.Next | js/main.js:319-322 | `current` becomes the next index and stays in range |
| Carousel.Slider.Prev | js/main.js:324-327 | `current` becomes the previous index and stays in range |
| Reveal.RevealMapShape | js/main.js:166-184 | the table has 17 entries, and every selector is a class selector used once |
| Reveal.DelayClass | js/main.js:190 | `reveal-delay-${k}` is the 13-character prefix followed by the single digit that spells `k` |
| Reveal.StaggerStep | js/main.js:190 | the delay step `min(i, 3)` for `i > 0` is between 1 and 3, and is `i` itself below 3 |
| Reveal.DelayClassesDistinct | js/main.js:190 | the delay classes differ from each other and from the animation classes |
| Reveal.TagsAtPosition | js/main.js:186-191 | position `i` gets its animation class, no delay class at 0, and exactly `reveal-delay-min(i,3)` otherwise |
| Reveal.GroupMembership | js/main.js:187-191 | after one table entry, an element's classes are its old ones plus the tags of every position the entry matched it at |
| Reveal.AllMembership | js/main.js:186-192 | after the whole table, an element's classes are its old ones plus the tags of every match; nothing is removed and nothing else is added |
| Reveal.AssignGroup | js/main.js:187-191 | the loop over one selector's matches computes the one-entry fold |
| Reveal.AssignRevealClasses | js/main.js:161-192 | with reduced motion nothing changes; otherwise the loop over the table computes the whole fold |
| Reveal.EveryMatchGetsItsClasses | js/main.js:186-192 | every matched element gets its entry's animation class and, past position 0, its delay class; unmatched elements are untouched |
| ActiveNav.StripFirstHash | js/main.js:142 | `replace('#', '')` removes the first '#' only, and leaves a string without one unchanged |
| ActiveNav.ToggleAttribute | js/main.js:145 | `toggleAttribute(name, force)` leaves the attribute present exactly when forced, keeping an existing value and creating an empty one |
| ActiveNav.UpdateLink | js/main.js:142-147 | after the class toggle, the attribute toggle and the set or remove, a link is active iff its stripped href equals the section id, and `aria-current` is "page" when active and absent otherwise |
| ActiveNav.Highlight | js/main.js:141-148 | every link is updated that way and keeps its href |
| ActiveNav.HashLinkMatchesSection | js/main.js:142-143 | a link `#x` is active for section `id` exactly when `x == id` |

## Left out

- Viewport observers are not modelled: the IntersectionObserver setups, their thresholds and root margins, the one-way `is-visible` reveal, and what triggers the active-link update. These are browser layout.
- The sticky header (`scrollY > 50`), smooth anchor scrolling with the `--nav-height` offset, the footer year and the lazy-image fallback are not modelled. They are scroll geometry, clock access and feature detection.
- The 800 ms `setTimeout` after a valid submit (reset, hide, reveal and focus the success region) is not modelled. It is a timer callback; only the submit decision is modelled.
- `scrollToCard` / `scrollIntoView` is layout and is not modelled. With at least one card, `current` is always a valid card index, so its `if (!card)` guard never fires.
- The reduced-motion media query is a boolean parameter of `AssignRevealClasses`. What each selector matches is an input.
- The panel's focusable set (the `getFocusable` selector query) is a parameter of `KeyDown`. The browser's own Tab movement is not modelled. `FocusAfterTab` takes it to be the neighbour in that set.
- `openNav` focuses the panel and then the close button. Only the final focus, the close button, is kept.
- The page is assumed to have the overlay, the close button, each input's error region and the submit button. When one of these is missing, the source throws a TypeError. The drawer's own `if (!hamburger || !mobileNav) return` is the decision not to build a `Drawer` at all.
- An input missing from the page is simply absent from `Form.fields`, which matches `if (!el) return`. The fields are assumed to be in document order, so `querySelector('.is-invalid')` finds the first flagged one in the sequence.
- The page markup (index.html) is not part of this model. Of the drawer's attributes at load, `ariaExpanded`, `panelAriaHidden`, `overlayAriaHidden` and `linkTabIndex` come from constructor parameters. `panelOpen`, `overlayVisible`, `hamburgerOpen` and `bodyOverflow` start as false and "" (no class, no inline style).
- ContactForm.Form.constructor assumes that the markup loads with every error region empty and no field carrying `is-invalid`. The script never clears these at load.
- NavDrawer.Drawer.Click: for a nav link, its focus is only what the drawer's own listener leaves. The document-level smooth-scroll handler (js/main.js:334-355) handles the same click and then scrolls, which can move focus. That handler is not modelled.
- ActiveNav.Link holds an href string. A nav link without an `href` makes `getAttribute` return null. Then `.replace` throws at js/main.js:142 and the `forEach` stops for the remaining links. That case is not modelled.
- Strings are sequences of Unicode scalar values, so a lone UTF-16 surrogate in a field's value cannot be represented.
- Carousel.Slider.constructor requires at least one card. The source does not guard an empty grid: `% 0` gives NaN and `scrollToCard` returns silently.

# Portfolio page interactions, modelled in Dafny

This project models the page script of a one-page portfolio site
(`scripts.js`). On page load the script wires up five behaviours. The model
covers each of them:

- **Section navigation.** ArrowDown and ArrowUp move to the next or previous
  `.page` section of the snap container `#mainSnap`, wrapping at both ends.
  Nav links scroll to the section their `data-target` names.
  Module `SectionNav` holds this as pure functions. It uses the first-match
  search in `Search`, which plays the part of `findIndex` and `getElementById`.
- **Theme toggle.** A theme saved in local storage under `site-theme` is put
  on the body at load. A click switches `light` to `dark` and anything else
  to `light`, and stores the new value. See module `Theme` and class
  `Theme.Page`. `classList.contains` is modelled in `ClassList` as the
  whitespace split of the class attribute, and proved equal to a declarative
  reading: the token occurs with whitespace or a string end on both sides.
- **Project filter.** A click on a chip makes it the only active chip. It
  then shows each project card whose `data-type` matches the chip's
  `data-filter`, or every card for `all`, and hides the rest. Enter or Space
  on a chip acts as a click. See module `ProjectFilter` and class
  `ProjectFilter.Grid` (arrays updated by the two `forEach` loops).
- **Contact form.** A submit is rejected when any of name, email or message
  is empty after `trim()`. Otherwise the button is disabled and relabelled
  `Sending...`, and a timer is scheduled. When the timer fires, the form is
  reset and the button is enabled again with the text `Send`. See module
  `ContactForm` and class `ContactForm.Form`. `TextTrim` models ECMAScript's
  `String.prototype.trim` with its full white-space set.
- **Nav highlight.** The intersection observer's callback runs over one
  batch of entries. Each intersecting entry gives the `active` class to
  exactly the links whose `data-target` is that entry's id, so the last
  intersecting entry wins. See module `NavHighlight` and class
  `NavHighlight.Nav`.

State that the script changes in place is modelled as classes: `Page`,
`Grid`, `Form` and `Nav`. Each class method's `ensures` ties the new state
to a specification function of the old state. These functions are
`NextTheme`, `ClickStep`, `AfterSubmit`, `AfterTimer` and `ApplyBatch`, and
the lemmas state the script's promises about them. The browser supplies
several inputs, and the model takes them as parameters:

- the focused element's tag;
- the sections' bounding-rect tops (as reals);
- `innerHeight`;
- the key pressed;
- the saved theme;
- the intersection entries.

Where this model and a design reading of the page differ, the model follows
the code:

- The current section is the first section whose top lies in
  `[-20, innerHeight/2)`. It is not the section "closest to" the viewport
  top, which is what the code comment says. The header offset `viewportTop`
  is computed and never used.
- The theme is any string, not a two-valued flag. A toggle reads the
  `light` class token; it does not compare the whole attribute.
- `form.reset()` restores each control's default value, which the markup
  gives. It need not be the empty string.
- With an empty section list, an arrow key still prevents the default
  action. The chosen `sections[i]` is then `undefined`, and calling
  `scrollIntoView` on it throws. The model returns `NoSection` for that
  outcome and does not exclude the case by a precondition.
- A chip without `data-filter` has filter `undefined`. Such a chip shows
  exactly the cards without a `data-type` (`undefined === undefined`), and
  the model keeps that through `Option`.

## Model

| member | source | states |
|---|---|---|
| `Search.FindIndex` | scripts.js:45-49 | the result is -1 iff no element satisfies the predicate, else the smallest index of one that does |
| `SectionNav.FocusInFormControl` | scripts.js:41 | the guard fires exactly when the focused element's tag is INPUT, TEXTAREA, SELECT or BUTTON; a null active element never fires it |
| `SectionNav.InBand` | scripts.js:48 | a section is in the band exactly when -20 <= top and twice its top is below innerHeight |
| `SectionNav.CurrentIndex` | scripts.js:45-49 | the current index is -1 iff no section top lies in [-20, innerHeight/2), else the first section whose top does |
| `SectionNav.NextIndex` | scripts.js:52 | for a non-empty list and any index in [-1, len) the ArrowDown target is in [0, len); it is ci+1 inside the list and 0 from the last section or from -1 |
| `SectionNav.PrevIndex` | scripts.js:56 | for a non-empty list and any index in [-1, len) the ArrowUp target is in [0, len); it is ci-1 above the first and len-1 from 0 or -1 |
| `SectionNav.ScrollTarget` | scripts.js:52-57 | a chosen index yields a scroll to that section exactly when it indexes the list, otherwise the undefined-section outcome |
| `SectionNav.KeyDown` | scripts.js:40-59 | any scroll the handler makes is to a listed section; the undefined-section outcome arises only with an empty list |
| `SectionNav.GuardsIgnore` | scripts.js:41-58 | focus on INPUT/TEXTAREA/SELECT/BUTTON, a missing snap container, or a key other than the two arrows changes nothing |
| `SectionNav.ArrowKeysScroll` | scripts.js:45-57 | with sections present and no guard, both arrows scroll; ArrowDown goes to 0 from the last section or from -1 and to ci+1 otherwise, ArrowUp goes to len-1 from 0 or -1 and to ci-1 otherwise |
| `SectionNav.EmptyListHasNoTarget` | scripts.js:50-57 | with no sections, both arrow keys reach an undefined section |
| `SectionNav.UpUndoesDown` | scripts.js:52-56 | on every valid index, ArrowUp after ArrowDown returns to it |
| `SectionNav.DownUndoesUp` | scripts.js:52-56 | on every valid index, ArrowDown after ArrowUp returns to it |
| `SectionNav.DownIsRotation` | scripts.js:52 | k < len ArrowDown presses from section i reach section i+k, wrapped past the end |
| `SectionNav.UpIsRotation` | scripts.js:56 | k < len ArrowUp presses from section i reach section i-k, wrapped past the start |
| `SectionNav.FullCycle` | scripts.js:50-57 | len presses of either arrow return to the start, and every section is reached by some number of presses |
| `SectionNav.LinkClick` | scripts.js:28-37 | a nav-link click scrolls iff the target id is non-empty and some element has it, and then to the first such element in document order; an empty id never scrolls |
| `ClassList.Tokens` | scripts.js:19 | every token of a class attribute is a non-empty name without whitespace |
| `ClassList.Contains` | scripts.js:19 | `classList.contains(t)` is true only of a class name, and for a class name exactly when it occurs delimited by whitespace or a string end |
| `ClassList.SingleToken` | scripts.js:19-20 | an attribute holding one class name has exactly that one class |
| `ClassList.ContainsIffDelimited` | scripts.js:19 | a class name is among the split tokens iff it occurs in the attribute with whitespace or a string end on both sides |
| `Theme.Restore` | scripts.js:16-17 | a saved non-empty theme becomes the body class at load; an absent or empty one leaves the markup's class |
| `Theme.NextTheme` | scripts.js:19 | a toggle yields `dark` iff the body has the class token `light`, and `light` otherwise; nothing else is ever produced |
| `Theme.ToggleFlips` | scripts.js:19-20 | a body of class exactly `light` toggles to `dark`, and `dark` to `light` |
| `Theme.ToggleTwiceRestores` | scripts.js:18-22 | two toggles starting from `light` or `dark` restore it |
| `Theme.ToggleAlwaysChangesAfterFirst` | scripts.js:18-22 | after the first toggle each further toggle changes the theme |
| `Theme.ReloadKeepsToggledTheme` | scripts.js:16-21 | the value a toggle stores is the class a later page load restores, whatever the markup says |
| `Theme.Page.Load` | scripts.js:14-17 | the stored value is the saved one and the body class is the restored one; a truthy saved value leaves class and storage equal |
| `Theme.Page.Toggle` | scripts.js:18-22 | the body class becomes the next theme of the old class, and the stored value equals the body class |
| `ProjectFilter.CardDisplay` | scripts.js:69-76 | a card is displayed (`''`) iff the filter is `all` or its type equals the filter, else hidden (`'none'`) |
| `ProjectFilter.Displays` | scripts.js:69-76 | after a click, card k is displayed iff the filter is `all` or type[k] equals the filter, and every card is `''` or `'none'` |
| `ProjectFilter.OnlyActive` | scripts.js:66-67 | after a click on chip k, the set of active chips is exactly {k} |
| `ProjectFilter.Cleared` | scripts.js:66 | removing `active` from every chip leaves no chip active and the chip count unchanged |
| `ProjectFilter.ClickStep` | scripts.js:65-76 | one click applied to any earlier state keeps one flag per chip and one display per card |
| `ProjectFilter.Clicked` | scripts.js:65-76 | the closed form of a click on chip k: exactly chip k active, and card j displayed iff the filter is `all` or type[j] equals it |
| `ProjectFilter.ClickForgetsOldState` | scripts.js:65-76 | a click from any earlier state yields the closed form, so its result does not depend on what was active or shown before |
| `ProjectFilter.ClickIdempotent` | scripts.js:64-77 | clicking the same chip a second time, from any state, leaves the state of the first click unchanged |
| `ProjectFilter.Grid.constructor` | scripts.js:62-63 | the grid holds the chips' filters, the cards' types and their initial flags and displays |
| `ProjectFilter.Grid.Click` | scripts.js:65-77 | the two loops leave the click step of the old state: exactly the clicked chip active, each card's display decided by its type and the chip's filter |
| `ProjectFilter.Grid.KeyDown` | scripts.js:80 | Enter or Space leaves the same state as a click on the chip; any other key changes nothing |
| `TextTrim.Trim` | scripts.js:88-90 | the trimmed value is a slice of the input after its leading white space and before a blank tail, with no white space at either end |
| `TextTrim.TrimEmptyIffBlank` | scripts.js:91 | a value trims to the empty string iff it consists of white space only |
| `TextTrim.TrimIdempotent` | scripts.js:88-90 | trimming twice is trimming once |
| `ContactForm.Filled` | scripts.js:88-91 | the trimmed-field test passes iff none of the three fields is blank (empty or white space only) |
| `ContactForm.AfterSubmit` | scripts.js:86-94 | a submit never edits the fields; if it changes anything, the button is disabled with `Sending...` and exactly one timer is added |
| `ContactForm.AfterTimer` | scripts.js:94-96 | a fired timer leaves the fields at their defaults, the button enabled with text `Send`, and one timer fewer pending |
| `ContactForm.RejectedSubmitChangesNothing` | scripts.js:91 | if any field is blank, the submit leaves fields, button state, label and timers unchanged |
| `ContactForm.AcceptedSubmitSends` | scripts.js:92-94 | otherwise the submit keeps the fields, disables the button, labels it `Sending...` and schedules one timer |
| `ContactForm.SendThenComplete` | scripts.js:93-96 | after an accepted submit the timer's completion resets the fields to their defaults and re-enables the button with text `Send` |
| `ContactForm.Form.constructor` | scripts.js:84 | the loaded form holds its default values and the markup's button, with no timer pending |
| `ContactForm.Form.Submit` | scripts.js:86-99 | the submit is accepted iff every trimmed field is non-empty, and the new state is the submit step of the old |
| `ContactForm.Form.TimerFires` | scripts.js:94-98 | the timer callback resets the fields, enables the button, sets its text to `Send` and consumes one pending timer |
| `NavHighlight.Highlight` | scripts.js:108 | for an intersecting entry, link a is active iff its `data-target` equals the entry's id |
| `NavHighlight.Step` | scripts.js:106-108 | an intersecting entry sets link a active iff its target equals the entry's id; a non-intersecting entry changes nothing |
| `NavHighlight.ApplyBatch` | scripts.js:105-110 | a batch keeps one flag per link, and a batch with no intersecting entry changes no flag |
| `NavHighlight.LastIntersecting` | scripts.js:105-106 | the index is -1 iff no entry intersects, else that of an intersecting entry with none after it |
| `NavHighlight.LastIntersectingWins` | scripts.js:104-110 | after a batch with an intersecting entry the flags are the highlight of the last intersecting entry's id; otherwise they are unchanged |
| `NavHighlight.Nav.constructor` | scripts.js:108 | the nav holds each link's target and initial active flag |
| `NavHighlight.Nav.Observe` | scripts.js:104-110 | the links' flags after the callback are the batch applied in order to the old flags |

## Left out

- The footer year (scripts.js:10-11): it reads the clock.
- Smooth scrolling, `preventDefault` and `alert`: these are browser side
  effects. The model gives the chosen section index, the `NoSection`
  outcome, or the accepted/rejected result of a submit.
- `document.getElementById` lookups of `#themeToggle`, `#mainSnap` and
  `#contactForm`: the model assumes these elements exist, except the snap
  container, which is the `hasSnap` parameter. A missing element means no
  handler at all.
- The unused `viewportTop` (scripts.js:44).
- `getBoundingClientRect` floating point: tops and `innerHeight` are exact
  reals, with only the two comparisons of the band test.
- Local storage: a single optional string field for the `site-theme` key.
  Storage errors and other keys are not modelled.
- The 900 ms `setTimeout` delay: each scheduled timer is one `TimerFires`
  call. All timers do the same thing, so their order does not matter.
- `IntersectionObserver` geometry (threshold 0.6, root) and the calls that
  register the sections (scripts.js:111-112): each batch of
  (id, isIntersecting) entries is an input.
- `chip.tabIndex = 0` (scripts.js:79): it makes the chip focusable and
  changes no state this model tracks.
- Classes other than `active` on chips and nav links. The body's class is
  modelled in full.
- ContactForm.Form.Submit: does not model a form without a `.btn.primary`
  button. There `submitBtn.disabled = true` would throw after validation
  has passed.
- Typed-text, particle, cursor-trail and staggered-reveal animations: they
  are not part of `scripts.js`, and this model covers only that file.

# Portfolio page: verified model of its interactive state

The portfolio is a single-page site built as one React component (`App` in
`Portfolio.jsx`). Apart from markup it has four small state machines, and
this project models and proves them in Dafny:

- **Theme controller**: on load, the preference stored under
  `portfolio-theme` resolves to `light` only when it equals `"light"`, and to
  `dark` otherwise. The toggle flips the theme, writes the new value to
  storage and makes it the document body's theme class.
- **Scroll tracker**: the scroll-to-top button shows when `scrollY > 400`.
  The active section becomes the first of `about, skills, projects, contact`
  whose element exists and whose extent `[offsetTop, offsetTop + offsetHeight)`
  contains `scrollY + 100`. When no section matches, the active section stays
  as it was.
- **Visibility latch**: each intersecting observer entry adds its section to
  a set. Nothing is ever removed.
- **Contact form**: each field is checked on its own. `name` and `message`
  are required after trimming. `email` is required after trimming and must
  match `^[^\s@]+@[^\s@]+\.[^\s@]+$`, tested on the value as entered. A valid
  submit clears both the data and the errors. An invalid submit keeps the data
  and stores the errors.

Modules:

- `Wrappers`: an `Option` type.
- `Text`: JavaScript's whitespace set, `trim`, and the email pattern. The
  pattern comes twice: `MatchesEmailPattern` gives its regular-expression
  meaning (a split into local part, host and top part) and `EmailTest` is an
  executable check. `EmailTestMatchesPattern` proves they agree.
- `ThemeController`: theme resolution, persisting, and applying the body class.
- `Scroll`: the threshold and the first-match search.
- `Visibility`: the latch.
- `ContactForm`: the form record and the field-by-field specification of the
  errors a submit must report.
- `Portfolio`: class `App`. Its fields are the component's state plus the
  browser's local storage (a `map`) and the body's class list (a `set`). Its
  methods are the component's effects and handlers. Each method's `modifies`
  clause names only the fields that handler writes.

The browser is modelled as follows:

- `localStorage` and `document.body.classList` are fields of `App`.
- `window.scrollY` is a method parameter.
- The elements `document.getElementById` finds are a map from section to
  `offsetTop`/`offsetHeight`. A section missing from the map has no element on
  the page.
- An intersection-observer callback is a sequence of entries, each a target
  section and an `isIntersecting` flag.
- The acknowledgment `alert` is the `acknowledged` result of `HandleSubmit`.

The model follows the code. Two consequences of the code are made explicit:

- The email pattern is tested on the untrimmed value. An email with whitespace
  around it passes the "required" check but is then reported as invalid
  (`PaddedEmailIsInvalid`).
- Loading the theme reads the storage and never writes it. So "toggling twice
  restores everything" holds only once the storage already holds the current
  theme, which is true after any toggle (`ToggleTwiceRestores`,
  `App.ToggleThemeTwice`). With empty storage, two toggles leave `"dark"`
  stored (`ToggleTwiceFromEmptyStorageWritesIt`).

## Model

| member | source | states |
|---|---|---|
| `Text.LeadingSpaces` | Portfolio.jsx:85 | counts the whitespace a string starts with: those characters are all whitespace and the next one, if any, is not |
| `Text.TrailingSpaces` | Portfolio.jsx:85 | counts the whitespace a string ends with: those characters are all whitespace and the one before them, if any, is not |
| `Text.TrailingSpacesOfSuffix` | Portfolio.jsx:85 | the whitespace a suffix of a string ends with is whitespace at the end of the whole string |
| `Text.Trim` | Portfolio.jsx:85-98 | `trim` returns the contiguous part of the input that starts where the leading whitespace ends; everything cut off is whitespace, and the result neither starts nor ends with whitespace |
| `Text.TrimEmptyIffBlank` | Portfolio.jsx:85-98 | `!s.trim()` holds exactly when every character of `s` is whitespace |
| `Text.IndexOf` | Portfolio.jsx:93 | finds the first occurrence of a character, or reports that there is none |
| `Text.FirstAtSign` | Portfolio.jsx:93 | an `@` with only `[^\s@]` characters before it is the first `@` of the string |
| `Text.EmailTestSound` | Portfolio.jsx:93 | every string the executable email test accepts matches the pattern |
| `Text.EmailTestComplete` | Portfolio.jsx:93 | every string the pattern matches passes the executable email test |
| `Text.EmailTestMatchesPattern` | Portfolio.jsx:93 | the executable email test accepts exactly the strings that `^[^\s@]+@[^\s@]+\.[^\s@]+$` matches |
| `Text.ShapeFromEmailTest` | Portfolio.jsx:93 | a string the executable test accepts has no whitespace, exactly one `@` with something before it, and an inner dot after it |
| `Text.EmailTestFromShape` | Portfolio.jsx:93 | a string of that shape passes the executable test |
| `Text.EmailPatternShape` | Portfolio.jsx:93 | the pattern matches exactly when there is no whitespace, exactly one `@` with something before it, and a dot after it that is neither the first nor the last character after the `@` |
| `ThemeController.Name` | Portfolio.jsx:15-26 | a theme's name is one of the two theme classes, and that name read back from storage resolves to the same theme |
| `ThemeController.Opposite` | Portfolio.jsx:22 | the toggle always switches to the other theme |
| `ThemeController.Resolve` | Portfolio.jsx:15 | the stored value resolves to `light` exactly when it is present and equals `"light"`; absent or any other value gives `dark` |
| `ThemeController.Lookup` | Portfolio.jsx:15 | reading the key gives its value when the key is present and nothing (`null`) otherwise |
| `ThemeController.Persist` | Portfolio.jsx:24 | after writing, the key holds the theme's name and every other key is unchanged |
| `ThemeController.ApplyClass` | Portfolio.jsx:17-26 | of the two theme classes, exactly the theme's own remains on the body, and every other class is unchanged |
| `ThemeController.PersistedThemeSurvivesReload` | Portfolio.jsx:15-24 | the value a toggle writes resolves to the new theme on the next load |
| `ThemeController.OppositeInvolutive` | Portfolio.jsx:22 | toggling twice gives back the original theme, with no precondition |
| `ThemeController.ToggleTwiceFromEmptyStorageWritesIt` | Portfolio.jsx:14-27 | with empty storage and the dark theme, two toggles do not restore the storage: the load step never writes it |
| `ThemeController.ToggleTwiceRestores` | Portfolio.jsx:21-27 | two toggles restore the stored value and the body classes, once storage and body agree with the theme |
| `Scroll.FirstHit` | Portfolio.jsx:39-48 | returns the index of the first section whose element exists and holds the point, with no earlier section holding it; returns none exactly when no section holds it |
| `Scroll.FirstHitUnique` | Portfolio.jsx:39-48 | a section that holds the point, with no earlier section holding it, is the one the search returns |
| `Scroll.NextActive` | Portfolio.jsx:36-48 | when some section holds `scrollY + 100`, the new active section is the first in order that does; when none does, the active section is unchanged |
| `Scroll.NonOverlappingPicksContainingSection` | Portfolio.jsx:36-48 | if section extents do not overlap, the active section becomes the one section holding the probe point |
| `Scroll.OnlyHitSectionBecomesActive` | Portfolio.jsx:36-48 | when the probe point lies in exactly one section's extent, that section becomes active (the probe inside "skills" and no other gives "skills") |
| `Visibility.Add` | Portfolio.jsx:63-67 | the update removes nothing, adds the id and nothing else, and leaves the set equal exactly when the id was already present |
| `Visibility.IntersectingTargets` | Portfolio.jsx:61-69 | a section is added by a callback exactly when one of its entries targets that section and is intersecting |
| `Visibility.LatchNeverForgets` | Portfolio.jsx:61-69 | over any sequence of callbacks nothing seen is lost, and a section is seen exactly when it was seen before or some callback reported it intersecting |
| `Visibility.RepeatedCallbackIsIdempotent` | Portfolio.jsx:61-69 | delivering the same callback twice leaves the same set as delivering it once |
| `ContactForm.ValidIffEveryFieldPasses` | Portfolio.jsx:81-104 | the form is valid exactly when name and message are not blank, the email is not blank, and the email matches the pattern |
| `ContactForm.ErrorsAreFieldwise` | Portfolio.jsx:82-101 | each field's error depends on that field alone |
| `ContactForm.PaddedEmailIsInvalid` | Portfolio.jsx:90-96 | a non-blank email that starts or ends with whitespace gets "Please enter a valid email" |
| `ContactForm.InvalidSubmissionExample` | Portfolio.jsx:81-104 | name `""`, email `"bad"`, message `"hi"` give errors "Name is required", "Please enter a valid email", `""` |
| `ContactForm.ValidSubmissionExample` | Portfolio.jsx:81-114 | name `"A"`, email `"a@b.co"`, message `"hello"` give no error |
| `Portfolio.App.constructor` | Portfolio.jsx:5-11 | initial state: dark theme, `about` active, button hidden, empty form data and errors, no section visible |
| `Portfolio.App.LoadTheme` | Portfolio.jsx:14-19 | on load the theme is the resolved stored value and the body shows it; storage is not written |
| `Portfolio.App.ToggleTheme` | Portfolio.jsx:21-27 | the theme becomes the opposite theme and is persisted under the key and applied to the body; afterwards storage and body agree with the theme |
| `Portfolio.App.ToggleThemeTwice` | Portfolio.jsx:21-27 | when storage and body agree with the theme, two toggles leave theme, storage and body as they were |
| `Portfolio.App.HandleScroll` | Portfolio.jsx:31-49 | the button shows exactly when `scrollY > 400`; the active section follows `NextActive`: first match in order, sticky when nothing matches |
| `Portfolio.App.Mount` | Portfolio.jsx:14-53 | mounting loads the theme, then runs the scroll handler once |
| `Portfolio.App.ObserveEntries` | Portfolio.jsx:61-69 | the visible set grows by exactly the targets of the intersecting entries and never loses an element |
| `Portfolio.App.Edit` | Portfolio.jsx:631-681 | typing replaces exactly one field of the form data and leaves the errors alone |
| `Portfolio.App.ValidateForm` | Portfolio.jsx:81-105 | the stored errors are the field-by-field specification's errors for the current data, and the result is true exactly when all three are empty |
| `Portfolio.App.HandleSubmit` | Portfolio.jsx:107-114 | the submit is acknowledged exactly when the data has no error; then data and errors are both cleared; otherwise the data is kept and the errors are the computed ones |

## Left out

- Rendering: the JSX, inline styles, class strings and icons (Portfolio.jsx:184-745). This is presentation with no logic.
- The mobile-menu flag and its toggle (Portfolio.jsx:8): trivial UI state. `scrollToSection` closes the menu as well as scrolling, and is left out with it.
- `scrollToTop` and `scrollToSection` smooth scrolling (Portfolio.jsx:116-126): calls to browser scrolling with no state kept by the component.
- Adding and removing the scroll listener, and creating, observing and disconnecting the `IntersectionObserver` (Portfolio.jsx:51-54, 59-77): event plumbing. The observer's 0.1 visibility threshold is viewport geometry in floating point. The model starts from the entries the browser delivers.
- The static `skills` and `projects` arrays (Portfolio.jsx:128-182): constant content.
- `e.preventDefault()` and the text of the `alert`: browser side effects. The acknowledgment is the boolean result of `HandleSubmit`.
- Scroll offsets are integers here. In browsers `scrollY` may be fractional, and the comparisons are on doubles.
- React runs state updates as a batch before the next render. Here each handler's updates take effect in order, which gives the same final state for these handlers.
- Section ids are the four sections of the page, not arbitrary strings. These four are the only `section[id]` elements the page renders (Portfolio.jsx:282-595).
- Storage failures (such as storage being unavailable) are not modelled. Storage is a map that always accepts a write.
- Strings are sequences of Unicode scalar values here, while JavaScript strings are UTF-16 code units. `Trim` and `EmailTest` give the same result either way, because every character they test (whitespace, `@`, `.`) is in the Basic Multilingual Plane. Strings holding a lone surrogate cannot be represented.

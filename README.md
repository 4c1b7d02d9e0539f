# Portfolio page script — a Dafny model of its decision logic

The portfolio site's `assets/js/script.js` wires up a personal page: a mobile
navigation menu, highlighting of the section being read, a typing effect in the
hero, a contact form that simulates sending, counters that animate once when
they come into view, lazily loaded images and a throttled background parallax.
This project models the decision logic behind those behaviours and proves what
the script promises about it. DOM state becomes fields of classes. Timers and
animation frames become explicit methods that the environment calls.

Modules, one per component:

- `Email` (`email.dfy`): `isValidEmail`. `IsWhitespace` is the `\s` class of
  ECMAScript regular expressions (WhiteSpace and LineTerminator, ECMA-262
  sections 12.2 and 12.3). `MatchesPattern` is the regular expression
  `^[^\s@]+@[^\s@]+\.[^\s@]+$` written as a definition. `IsValidEmail` is an
  executable scan, and its contract says it accepts exactly the strings the
  expression matches.
- `ContactForm` (`contact_form.dfy`): the submit handler, `showMessage`, and the
  two timer callbacks (completion of the simulated send, clearing of the
  message class). Each scheduled callback is a pending count. A callback can
  only run while its count is positive.
- `Navigation` (`navigation.dfy`): the hamburger and menu `active` flags, the
  menu-closing link click, and the scroll handler. The handler picks the
  current section, marks matching links active and sets the navbar's
  `scrolled` flag.
- `HeroTyping` (`typewriter.dfy`): the character-by-character reveal.
- `ScrollObservers` (`observers.dfy`): the counter trigger and the lazy image
  loader, each a callback over a batch of intersection entries.
- `HeroParallax` (`parallax.dfy`): the `ticking` throttle and the clamp of the
  scroll offset to the hero's height.
- `Options` (`options.dfy`): an optional value, used for attributes that may be
  null.

Choices made where the script leaves something open:

- A section's `id` is `Option<string>`, because `getAttribute('id')` returns
  null when the attribute is missing. `current` starts as `Some("")`. A link
  is active when `Some(href.slice(1))` equals `current`, so no link matches a
  section without an id.
- `form.reset()` restores each field's default value. The markup is not part
  of this model, so the defaults are taken to be empty.
- The constructors take the page as it is before any event: the four fields
  empty, the message box with text "" and class `form-message`, the submit
  control enabled with its idle label, no `.nav-link` with the class `active`,
  neither menu flag set and the navbar not `scrolled`.
- The invalid-e-mail text at assets/js/script.js:178 is stored mis-encoded
  (`vÃ¡lido`, as are lines 323, 325 and 379-381). The model uses the evidently
  intended "Por favor, insira um e-mail válido." (`InvalidEmailText`).
- Offsets and scroll positions are integers.
- Elements watched by the observers are identified by natural numbers.
- The counter animation (`animateValue`) is recorded as a list of the elements
  it was started on.

Notes on what the script does:

- The delayed clear of `showMessage` (assets/js/script.js:206-208) resets only
  the class to `form-message`; the text stays.
- The submit handler (assets/js/script.js:162-187) does not itself check
  whether the submit control is disabled, and neither does `Submit`.
- A section counts as reached when `pageYOffset >= offsetTop - 200`
  (assets/js/script.js:49): its top minus 200 is at or below the scroll
  offset.

## Model

| member | source | states |
|---|---|---|
| `Email.IsValidEmail` | assets/js/script.js:211-214 | accepts a string exactly when it is A + "@" + B + "." + C for three non-empty runs free of white space and '@', which is what the anchored regular expression matches |
| `Email.ShapeOf` | assets/js/script.js:212 | the pattern matches exactly the strings with no white space, exactly one '@' that is not the first character, and a '.' after the '@' that is neither the first nor the last character of the domain |
| `Email.AcceptsShortest` | assets/js/script.js:211-213 | "a@b.c" is accepted |
| `Email.RejectsDotless` | assets/js/script.js:211-213 | "a@b" is rejected |
| `ContactForm.ClassFor` | assets/js/script.js:204 | a category class `form-message <type>` starts with the base class `form-message` and is longer than it, so a shown category is never the cleared state |
| `ContactForm.Validate` | assets/js/script.js:171-181 | the verdict is "missing field" exactly when one of the four fields is empty; "accepted" exactly when all four are non-empty and the e-mail matches the pattern; a "bad e-mail" verdict means the e-mail does not match |
| `ContactForm.EmptyFieldDecidesFirst` | assets/js/script.js:172-180 | while name, subject or message is empty, the e-mail's format does not affect the outcome, which is the missing-field error |
| `ContactForm.SampleAddressValid` | assets/js/script.js:211-213 | "ana@mail.com" matches the pattern |
| `ContactForm.Form.constructor` | assets/js/script.js:156-160 | the form starts with empty fields, an enabled control with its idle label, the message box in its base class, and no pending timers |
| `ContactForm.Form.Fill` | assets/js/script.js:166-169 | the visitor's input sets the four field values and changes nothing else |
| `ContactForm.Form.ShowMessage` | assets/js/script.js:202-208 | text and class `form-message <type>` are set together and one class-clear is scheduled; fields and control are untouched |
| `ContactForm.Form.ClearMessageClass` | assets/js/script.js:206-208 | the class goes back to `form-message`, the text is kept, one pending clear is consumed |
| `ContactForm.Form.Submit` | assets/js/script.js:162-187 | fields never change; an empty field shows "Por favor, preencha todos os campos." as an error and leaves the control as it was; a malformed e-mail shows the invalid-e-mail error; otherwise the control becomes disabled with the "Enviando..." label and a completion is scheduled, with the message box untouched; the invariant that the control is disabled exactly while it shows "Enviando..." and only while a completion is pending is kept |
| `ContactForm.Form.CompleteSubmission` | assets/js/script.js:188-199 | shows the success message as a success, empties all four fields, re-enables the control with its idle label |
| `Navigation.LastReached` | assets/js/script.js:46-52 | returns the index of a reached section (`scrollY >= top - 200`) after which no section is reached, or -1 when none is reached |
| `Navigation.CurrentCases` | assets/js/script.js:43-52 | `current` is "" when no section is reached, and otherwise the id of the last reached section in document order |
| `Navigation.SliceFromOne` | assets/js/script.js:56 | `href.slice(1)` is the href without its first character, and "" for an empty href |
| `Navigation.FindCurrent` | assets/js/script.js:43-52 | the loop over the sections leaves in `current` the value described by `CurrentCases` |
| `Navigation.Navbar.constructor` | assets/js/script.js:22-25 | the navbar starts with both menu flags off, not scrolled, and no link active |
| `Navigation.Navbar.ToggleMenu` | assets/js/script.js:28-31 | both `active` flags flip, so flags that were equal stay equal |
| `Navigation.Navbar.CloseMenu` | assets/js/script.js:34-39 | both `active` flags are cleared |
| `Navigation.Navbar.OnScroll` | assets/js/script.js:42-67 | afterwards a link is active exactly when its href without the first character equals the current section's id; the navbar is `scrolled` exactly when `scrollY > 100`; the menu flags are unchanged |
| `Navigation.ToggleTwice` | assets/js/script.js:28-31 | toggling the menu twice restores both flags |
| `HeroTyping.Revealed` | assets/js/script.js:141-147 | the text shown after n calls is a prefix of the original text, of length min(n, its length) |
| `HeroTyping.RevealedStep` | assets/js/script.js:141-147 | each call before the end adds exactly the next character; once the whole text is shown, further calls change nothing |
| `HeroTyping.Typewriter.constructor` | assets/js/script.js:136-149 | the text is captured, the element is cleared, the first call is scheduled |
| `HeroTyping.Typewriter.Step` | assets/js/script.js:141-147 | runs only as a scheduled call; while `i < length` one character `text[i]` is appended, `i` grows by one and the next call is scheduled; at the end nothing changes and nothing is scheduled; the shown text stays `text[..i]` and a call is pending while characters remain |
| `HeroTyping.Typewriter.Run` | assets/js/script.js:141-149 | n turns of the timer, each running the pending call if there is one, show `Revealed(text, i + n)`; a call stays pending while the text is not complete |
| `ScrollObservers.HitsMembers` | assets/js/script.js:230-231 | the hits of a batch are exactly the targets named by some intersecting entry |
| `ScrollObservers.FirstStarts` | assets/js/script.js:229-235 | the animations a batch starts are distinct and are exactly the intersecting targets not already animated |
| `ScrollObservers.AnimatedNeverRestart` | assets/js/script.js:231 | entries, intersecting or not, for elements already marked `animated` start nothing |
| `ScrollObservers.CounterTrigger.constructor` | assets/js/script.js:238-240 | no counter is animated at first |
| `ScrollObservers.CounterTrigger.OnEntries` | assets/js/script.js:229-236 | the intersecting targets are marked `animated` and the new ones are started in entry order; every started element is marked and no element is ever started twice |
| `ScrollObservers.LazyImages.Loaded` | assets/js/script.js:361-366 | an image loaded by a batch was hit by it and has a deferred source |
| `ScrollObservers.LazyImages.Loads` | assets/js/script.js:363-364 | the new `src` values of a batch are exactly the deferred sources of the loaded images |
| `ScrollObservers.LazyImages.LoadedComplete` | assets/js/script.js:361-366 | every hit image with a non-empty `data-src` is loaded |
| `ScrollObservers.LazyImages.constructor` | assets/js/script.js:372-373 | every image carrying `data-src` is observed, none is loaded yet |
| `ScrollObservers.LazyImages.Visit` | assets/js/script.js:360-368 | an intersecting entry copies `data-src` to `src` and adds `loaded` when `data-src` is non-empty, and unobserves the image in any case; a non-intersecting entry changes nothing |
| `ScrollObservers.LazyImages.OnEntries` | assets/js/script.js:359-370 | after a batch, `src` is the old `src` updated by the batch's loads, the loaded images are added to `loaded`, hit images are no longer observed, and every loaded image shows its deferred source |
| `HeroParallax.Clamp` | assets/js/script.js:324 | the limit is the smaller of the scroll offset and the hero's height |
| `HeroParallax.Throttle.constructor` | assets/js/script.js:317 | nothing is ticking and no frame is pending |
| `HeroParallax.Throttle.OnScroll` | assets/js/script.js:319-331 | a frame is requested only when none is pending, so at most one frame is ever pending |
| `HeroParallax.Throttle.RunFrame` | assets/js/script.js:321-328 | the frame applies the clamped offset and clears `ticking` |

## Left out

- GSAP entrance tweens and hover effects (assets/js/script.js:91-132, 267-306) and the AOS setup (lines 5-9). They are calls into foreign animation libraries.
- The counter tick arithmetic of `animateValue` (lines 243-262). It relies on `parseInt`, floating-point steps, `Math.floor` and `setInterval`. Only the once-only trigger is modelled.
- The parallax background position `limit * 0.15` (line 326) is floating point. `requestAnimationFrame` scheduling is reduced to a pending count.
- Smooth scrolling with `window.scrollTo`, and `preventDefault` (lines 69-83, 336-353). These are browser side effects. Only the menu-closing part of a link click is modelled.
- Observer thresholds and root margins (lines 224-227), and the `IntersectionObserver` feature test (line 358). They depend on browser geometry. Which entries arrive in a batch is an input.
- Timer durations (100 ms, 1500 ms, 5000 ms) and the ordering between independent timers. The environment chooses when each pending callback runs.
- The markup of the submit button's label (lines 186, 192-198). It is an abstract label, `Idle` or `Sending`.
- Existence guards for missing elements (`if (!form) return`, `if (typingText)`, `if (!hero) return`). Each model class stands for a component whose elements exist.
- A `.nav-link` without an `href`: `slice` would throw on null. Links are modelled as always carrying an `href`.
- `section.clientHeight` is read (line 48) but never used.
- The console messages (lines 379-381).
- HeroTyping.Revealed, HeroTyping.Typewriter.Step: a Dafny `char` here is a Unicode scalar value, while `text.length` and `text.charAt(i)` count UTF-16 code units. A character outside the Basic Multilingual Plane takes two calls in the script and one in the model, and the state in between, where the element shows a lone surrogate, is not represented. `Navigation.SliceFromOne` likewise drops a whole such character where `href.slice(1)` drops one code unit.
- ContactForm.Form.ClearMessageClass: each pending clear is a count, not a timer bound to the message that scheduled it. The model therefore does not say which message a clear ends early. An older timer can clear the class of a newer message.

# Portfolio site UI logic, modelled in Dafny

The site is plain browser JavaScript: `index.js` drives the home page and
`writings.js` drives the writings page. Event handlers and timers hold the
logic. This project lifts the decision rules and counter-driven state
machines out of those handlers and proves what they guarantee:

- **`JsString`**: `String.prototype.trim` as section 22.1.3.32 of ECMA-262, 15th edition (2024), defines it, which strips the WhiteSpace and LineTerminator code points from both ends.
- **`ContactForm`**: the contact form's submit gate. It trims five fields and checks the four required ones first. It then compares the security answer with `"15"`. The outcome is a popup text, a popup kind and whether the form is reset.
- **`Carousel`**: the two-layer background crossfade over six images, driven by the cursor `bgIndex`.
- **`HeroRotator`**: the heading rotator (nine texts) and the paragraph rotator (six texts), each with its own modular cursor.
- **`NavToggle`**: the mobile menu. Its state is the `aria-expanded` attribute and the two `open` classes; its events are a toggle click and a link click.
- **`Reveal`**: the reveal-on-scroll observer. It holds an observed set and an `in-view` set, and its callback runs over a batch of `(target, isIntersecting)` entries. This module also holds the home page's two observe passes.
- **`Writings`**: the writings page's set-up of the same observer over its cards.
- **`Preloader`**: dismissal of the loading overlay by the `load` event or by the 4.5 s failsafe, each followed by a delayed removal.
- **`BackToTop`**: the back-to-top button's visibility threshold.

Form follows the source. The form gate, `trim` and the visibility threshold
are pure functions. Everything the page updates in place is a class:
- the carousel's layers and cursor;
- each rotator's element and cursor;
- the nav elements;
- the observer's sets;
- the preloader;
- the button's style.

Each class method is proved equal to a pure transition function of the old
state. The properties are lemmas about those functions.

## Model

| member | source | states |
|---|---|---|
| JsString.TrimStart | index.js:285-289 | the leading trim never lengthens its input, and what it keeps does not start with whitespace |
| JsString.TrimEnd | index.js:285-289 | the trailing trim never lengthens its input, and what it keeps does not end with whitespace |
| JsString.Trim | index.js:285-289 | `trim` never lengthens its input, and its result has no whitespace at either end |
| JsString.TrimStartSpec | index.js:285-289 | the leading trim keeps a suffix of the input; everything it drops is whitespace; what it keeps does not start with whitespace |
| JsString.TrimEndSpec | index.js:285-289 | the trailing trim keeps a prefix; everything it drops is whitespace; what it keeps does not end with whitespace |
| JsString.TrimSplit | index.js:285-289 | every string is whitespace + `trim(s)` + whitespace, and `trim(s)` neither starts nor ends with whitespace |
| JsString.TrimOfTrimmed | index.js:285-289 | a string with no whitespace at either end is its own trim |
| JsString.TrimUnique | index.js:285-289 | padding a trimmed string with whitespace on both sides trims back to that string |
| JsString.TrimStartOfPadded | index.js:285-289 | whitespace before a string that does not start with whitespace is exactly what the leading trim removes |
| JsString.TrimEndOfPadded | index.js:285-289 | whitespace after a string that does not end with whitespace is exactly what the trailing trim removes |
| JsString.TrimIdempotent | index.js:285-289 | trimming twice is trimming once |
| JsString.TrimEmptyIff | index.js:285-292 | a field trims to empty, and so counts as missing, exactly when it is all whitespace |
| ContactForm.SuccessPopup | index.js:304 | the success popup has kind success; its text is the fixed greeting, then the name, then the full stop |
| ContactForm.SuccessPopupNamesSender | index.js:304 | two success popups are equal only for the same name |
| ContactForm.MissingRequired | index.js:292 | a submission lacks a required field exactly when name, e-mail, subject or message is all whitespace |
| ContactForm.Submit | index.js:281-308 | the form is reset exactly when the popup is the success one |
| ContactForm.MissingFieldWins | index.js:285-295 | if any of name, e-mail, subject or message is all whitespace, the outcome is the fill-in error with no reset, whatever the question holds |
| ContactForm.FillInOnlyWhenMissing | index.js:292-295 | the fill-in error appears only when some required field is all whitespace |
| ContactForm.AnswerDecides | index.js:289-307 | with the required fields present, success and reset happen exactly when the trimmed answer is `"15"`; success carries the trimmed name, and otherwise the outcome is the incorrect-answer error with no reset |
| ContactForm.AcceptedAnswers | index.js:289-298 | an answer is accepted exactly when it is `"15"` with whitespace, and only whitespace, on either side |
| ContactForm.PaddedAnswerAccepted | index.js:289-298 | `" 15 "` is accepted |
| ContactForm.NumericVariantsRejected | index.js:289-298 | `"015"` and `"15.0"` trim to themselves, so they are not `"15"` |
| ContactForm.CleanSubmission | index.js:285-307 | with non-empty, already trimmed required fields, the outcome is success naming the given name with a reset, or the incorrect-answer error without one |
| ContactForm.AlexSubmitsCorrectAnswer | index.js:281-307 | a complete submission answering `"15"` yields the success popup for "Alex" and a reset |
| ContactForm.AlexSubmitsWrongAnswer | index.js:281-307 | the same submission answering `"14"` yields the incorrect-answer error with no reset |
| ContactForm.EmptyMessageSubmission | index.js:285-295 | an empty message yields the fill-in error whatever the answer |
| Carousel.Init | index.js:163-176 | set-up puts the cursor at 1 and makes `bg1` the only opaque layer, showing the first image, while `bg2` is left as created |
| Carousel.TickSwapsRoles | index.js:179-189 | with an even number of images, a tick swaps the roles: the layer it loads becomes current, opaque at rest scale with the image at the old cursor, and the old current layer becomes next, faded out at exit scale |
| Carousel.Advance | index.js:189 | the advanced cursor stays inside the image list |
| Carousel.AdvanceIsIncrementMod | index.js:189 | the cursor step is `(i + 1) % n` and stays in range; stepping back undoes it |
| Carousel.ShowNextBg | index.js:178-191 | a tick keeps the cursor inside the image list |
| Carousel.Ticks | index.js:192 | any number of ticks keeps the cursor inside the image list |
| Carousel.TickKeepsSettled | index.js:174-191 | with an even number of images, a tick from any state with the cursor in range leaves exactly one layer opaque; that layer is the one parity names as current and shows the image at the old cursor; the layer that faded out keeps its picture |
| Carousel.InitSettled | index.js:163-176 | after set-up, `bg1` is the only opaque layer and shows the first image |
| Carousel.AlwaysSettled | index.js:174-192 | with an even number of images, every state reachable from set-up is settled and has exactly one opaque layer |
| Carousel.CursorAfterTicks | index.js:148-189 | with six images the cursor after `k` ticks is `(1 + k) mod 6` |
| Carousel.TicksFromInit | index.js:174-189 | after `k` ticks the layer on screen shows image `k mod 6` |
| Carousel.EveryImageRecurs | index.js:147-192 | every image is shown again after any number of ticks |
| Carousel.AlternationBeforeWrap | index.js:174-189 | before the cursor first wraps, the opaque layer alternates between `bg1` and `bg2` on every tick |
| Carousel.OddLengthBreaksParity | index.js:179-189 | with an odd number of images, the layer parity names as current is transparent after `n - 1` ticks, so the parity rule needs an even length |
| Carousel.BackgroundCarousel.constructor | index.js:163-176 | set-up gives the initial state, zero ticks in |
| Carousel.BackgroundCarousel.Tick | index.js:178-191 | the layers and cursor move to the next tick's state; the cursor becomes `(1 + ticks) mod 6`; the new state is settled with one opaque layer, which shows `bgImages[old bgIndex]` |
| HeroRotator.Step | index.js:259-275 | the callback's cursor stays below the list length and wraps to 0 after the last entry |
| HeroRotator.CursorAfter | index.js:244-275 | the cursor stays in bounds after any number of swaps |
| HeroRotator.TextCounts | index.js:220-239 | there are nine headings and six paragraphs |
| HeroRotator.HeadingCursor | index.js:244-265 | after `k` heading swaps, `headIndex` is `k mod 9` |
| HeroRotator.ParagraphCursor | index.js:245-275 | after `m` paragraph swaps, `paraIndex` is `m mod 6` |
| HeroRotator.CursorPeriodic | index.js:259-275 | the cursor comes back every list-length swaps |
| HeroRotator.CursorBeforeWrap | index.js:259-275 | before it first wraps, the cursor equals the number of swaps |
| HeroRotator.TextRotator.constructor | index.js:241-245 | a rotator starts with its cursor at 0 and the element as the markup has it |
| HeroRotator.TextRotator.FadeOut | index.js:249 | fading out sets the opacity to 0 and touches nothing else |
| HeroRotator.TextRotator.Swap | index.js:251-255 | the swap steps the cursor modulo the list length, shows the text at the new cursor and sets the opacity to 1; it changes only its own rotator |
| HeroRotator.HeadingShown | index.js:259-265 | after `k >= 1` heading swaps the heading shows `headingTexts[k mod 9]` |
| HeroRotator.ParagraphShown | index.js:269-275 | after `m >= 1` paragraph swaps the paragraph shows `paragraphTexts[m mod 6]` |
| NavToggle.IsExpanded | index.js:128 | only a present attribute can read as expanded |
| NavToggle.ToggleClick | index.js:127-132 | a toggle click flips both classes and what the attribute reads as, and always leaves the attribute as `"true"` or `"false"` |
| NavToggle.LinkClick | index.js:134-140 | after a link click the menu is closed; if it was open, the button is closed and the attribute is `"false"`; otherwise nothing changes |
| NavToggle.BoolString | index.js:129 | the string written reads back as expanded exactly when its boolean is true |
| NavToggle.ToggleKeepsConsistent | index.js:127-132 | a toggle click keeps a consistent nav consistent and flips it between open and closed |
| NavToggle.LinkKeepsConsistent | index.js:134-140 | a link click keeps a consistent nav consistent |
| NavToggle.LinkClickCloses | index.js:134-140 | with the menu open, a link click closes everything; with the menu not open, it changes nothing; a second link click changes nothing |
| NavToggle.DoubleToggle | index.js:127-132 | two toggle clicks restore both classes and the attribute's reading; they restore the attribute itself exactly when it was `"true"` or `"false"` |
| NavToggle.AbsentReadsAsClosed | index.js:128-129 | an absent `aria-expanded` reads as false, so the first click writes `"true"` |
| NavToggle.ExpandedIffBothOpenNotKept | index.js:127-132 | the weaker agreement "the attribute is true exactly when both are open" can be broken by one toggle click |
| NavToggle.NavMenu.constructor | index.js:123-126 | the menu starts in whatever state the markup gives |
| NavToggle.NavMenu.OnToggleClick | index.js:127-132 | the toggle listener performs the toggle transition and keeps consistency |
| NavToggle.NavMenu.OnLinkClick | index.js:134-140 | the link listener performs the link transition and keeps consistency |
| Reveal.OnEntry | index.js:110-113 | one entry never removes `in-view` nor adds to the observed set, and changes only its own target; an intersecting entry's target gains `in-view` and is unobserved; a non-intersecting entry changes nothing |
| Reveal.OnBatch | index.js:109-114 | a batch never removes `in-view` and never adds to the observed set |
| Reveal.BatchClosedForm | index.js:108-115 | after a batch, `inView' = inView + I` and `observed' = observed - I`, where `I` is the set of intersecting targets |
| Reveal.IntersectingCons | index.js:109-114 | a batch's intersecting targets are the first entry's target, if it intersects, plus those of the rest |
| Reveal.BatchOrderIrrelevant | writings.js:5-11 | two batches with the same entries, in any order and with any repeats, have the same effect |
| Reveal.RevealIsOneShot | writings.js:7-9 | `in-view` is never removed; a target gains it only through an intersecting entry, and it is unobserved in the same batch |
| Reveal.NonIntersectingIsNoOp | writings.js:7 | a batch with no intersecting entries changes neither set |
| Reveal.RevealedWereObserved | index.js:108-115 | if the browser reports only observed targets, every newly revealed target was observed |
| Reveal.Observe | index.js:117 | observing adds the target and nothing else |
| Reveal.ObserveIdempotent | index.js:200-203 | observing a target twice is observing it once, and observing an observed target changes nothing |
| Reveal.RevealObserver.constructor | index.js:108 | a new observer observes nothing |
| Reveal.RevealObserver.ObserveTarget | index.js:117 | one `observe` call |
| Reveal.RevealObserver.ObserveAll | index.js:117 | observing a list adds exactly its elements |
| Reveal.RevealObserver.OnEntries | index.js:108-115 | the callback's loop over a batch has the batch's closed-form effect |
| Reveal.SetUpHomePage | index.js:108-203 | after both observe passes, the observed set is exactly the reveal targets; the second pass changes nothing |
| Writings.SetUpWritingsPage | writings.js:1-16 | after set-up, every card is observed, the observed set is exactly the cards, and `in-view` is as before |
| Preloader.Start | index.js:5-6 | the page starts with the overlay in the document exactly when the markup has it, not hidden, with nothing scheduled or fired |
| Preloader.OnLoad | index.js:4-10 | `load` hides an overlay still in the document and schedules one more removal; with the overlay gone it changes nothing but recording that it fired |
| Preloader.OnFailsafe | index.js:12-19 | the failsafe leaves the overlay hidden if it was hidden or still present, and schedules a removal only for an overlay present and not yet hidden |
| Preloader.OnRemoveTimer | index.js:8-16 | a removal timer leaves the overlay detached, uses up one scheduled removal, and counts an effective removal only if the overlay was still in the document |
| Preloader.Step | index.js:4-19 | no event undoes hiding, removal or a trigger having fired, and the removal count never falls |
| Preloader.Run | index.js:4-19 | over any trace of events, hiding, removal and the fired triggers are never undone, and the removal count never falls |
| Preloader.StartValid | index.js:4-19 | the page starts in a state satisfying the overlay invariant |
| Preloader.StepKeepsValid | index.js:4-19 | each event keeps the overlay invariant: a removal is pending only after `hide`, and the element is detached by exactly one effective removal |
| Preloader.RunKeepsValid | index.js:4-19 | every sequence of events keeps the invariant; the overlay is removed at most once and never before it is hidden |
| Preloader.RemovedExactlyOnce | index.js:4-19 | once a trigger has fired and the scheduled removals have run, an overlay that was present is gone, removed exactly once |
| Preloader.FailsafeAfterHide | index.js:12-18 | the failsafe does nothing if the overlay is already hidden or gone |
| Preloader.SecondRemovalNoOp | index.js:8-16 | a removal of an already detached overlay changes nothing else |
| Preloader.BothOrdersRemoveOnce | index.js:4-19 | load first or failsafe first, the overlay is removed once |
| Preloader.PreloaderOverlay.constructor | index.js:5-13 | the overlay starts in the document exactly when the markup has it |
| Preloader.PreloaderOverlay.OnLoadEvent | index.js:4-10 | the `load` listener performs the load transition and keeps the invariant |
| Preloader.PreloaderOverlay.OnFailsafeTimer | index.js:12-18 | the failsafe callback performs the failsafe transition and keeps the invariant |
| Preloader.PreloaderOverlay.OnRemoval | index.js:8-16 | a removal timer performs the removal transition and keeps the invariant; it only ever detaches a hidden overlay |
| BackToTop.StyleFor | index.js:80-90 | the button is shown exactly when it is scrolled more than 350 px down, and hidden otherwise |
| BackToTop.FieldsAgree | index.js:80-90 | the three style fields always switch together |
| BackToTop.Monotone | index.js:80-90 | scrolling further down never hides the button, and scrolling up never shows it |
| BackToTop.Boundary | index.js:81 | at exactly 350 px the button is hidden |
| BackToTop.BackToTopButton.constructor | index.js:72-74 | the button is created hidden |
| BackToTop.BackToTopButton.Toggle | index.js:80-91 | one run of the toggle sets the style for the current scroll offset |

## Left out

- Scroll progress bar and dim layer (index.js:40-46, 195-199): floating-point ratios and `toFixed` formatting.
- Stagger delays (index.js:103-106, 201): float-to-string `transitionDelay` values. They do not affect which targets are observed.
- Nav-link entrance animation and the hero `in-view` line (index.js:204-215): animation only. The initial `in-view` set is a parameter of the reveal set-up.
- Popup lifecycle (index.js:311-327): creating, showing and removing the popup element on timers. Only the popup's text and kind are modelled.
- `contactForm.reset()` and `e.preventDefault()`: reset is a flag in the outcome. Field values are inputs, not page state.
- Timing and event-loop interleaving: `setTimeout`, `setInterval` and `requestAnimationFrame` are not modelled. Each tick, swap, click or timer callback is one atomic step.
- Carousel.BackgroundCarousel.Tick: takes `showNextBg` and its animation frame as one step. The intermediate state between them, with the next layer transparent and loaded, is not modelled. Carousel.AlwaysSettled and Carousel.TickKeepsSettled describe the page only when each animation frame runs before the next interval tick. The source reads `bgIndex` when the interval fires but advances it only in the frame (index.js:179-189). Browsers pause animation frames in a background tab while the interval keeps firing. Two ticks whose frames both run late therefore load the same layer, and the parity rule can then name a transparent layer.
- HeroRotator.TextRotator.FadeOut: the fade-out and the delayed swap are separate methods. Their interleaving across the two rotators' intervals is not modelled. Each rotator is its own object, so one rotator's methods cannot change the other's fields.
- IntersectionObserver geometry (thresholds, `rootMargin`): the browser computes it, so `isIntersecting` is an input.
- Image preloading (index.js:151), smooth `scrollTo` (index.js:93) and all style literals that are written once and never read.
- Missing elements: the nav handlers, the rotators and the preloader's effects depend on `getElementById` finding the element. The nav and rotator models assume the elements exist. The preloader models absence explicitly. The script does not guard `hero.classList.add` (index.js:215), `contactForm.addEventListener` (index.js:281) or the five `getElementById(...).value` reads (index.js:285-289). A page without `.hero-content` stops at index.js:215, before the rotators and the submit handler are set up. `ContactForm` assumes the form and its five inputs exist.
- JsString.Trim: works on code points as `char`. JavaScript strings are UTF-16, so a lone surrogate is not modelled.
- BackToTop.StyleFor: `scrollY` is a real number, and rounding in the browser is not modelled.
- NavToggle.ToggleKeepsConsistent: it is proved for the stronger agreement "both classes equal, and the attribute reads true exactly when they are open". The weaker agreement "the attribute reads true exactly when both are open" is not kept by a toggle click. NavToggle.ExpandedIffBothOpenNotKept gives the state that shows this.

# Balhir Apartment site: the lightbox, text reveal and booking form, in Dafny

The site is a single-page marketing site for a rental apartment. Almost all of it is
declarative markup animated by scroll and viewport triggers. This project models the
three parts whose behaviour can be stated exactly:

- **Gallery lightbox** (`gallery.dfy`, module `Gallery`). There are four fixed images.
  Clicking a thumbnail opens the lightbox on that image. The backdrop and the close
  button close it. The previous and next arrows step through the images and wrap at
  both ends; they stop propagation, so they never close the lightbox. The caption shows
  "position / 4". The `Lightbox` class holds `selectedIndex: Option<nat>`, and its
  invariant keeps the index in range. The pure `NextIndex` and `PrevIndex` are proved
  against arithmetic modulo the image count. Lemmas show that they undo each other and
  that four presses of "next" come back to the start.
- **Text reveal** (`animated_text.dfy`, module `AnimatedText`). This part is pure.
  `Split` is JavaScript's `split` for a one-character separator: empty pieces are kept,
  and there is one piece more than there are separators. It is proved to be the inverse
  of `Join` in both directions. `Partition` builds the animated units for the `chars`,
  `words` (the default) and `lines` modes. Unit i has the start delay
  `delay + i * step` (0.02 s, 0.05 s or 0.15 s), computed as an exact `real`. In `chars`
  mode a space is shown as U+00A0. Each unit gets its visible target only when
  `isInView` is true.
- **Booking form** (`contact.dfy`, module `Contact`). The `BookingForm` class holds a
  seven-field `Draft`, the `isSubmitting` flag and the toasts shown so far.
  - Every input handler replaces exactly one field (`WithField`).
  - The asynchronous submit is split into two steps at its `await`.
  - `BeginSubmit` is the press of "Send Inquiry". It does nothing while the button is
    disabled or a `required` input is empty. Otherwise it sets the flag.
  - `CompleteSubmit` is what runs after the delay. It shows exactly one "Inquiry Sent!"
    toast, clears the flag and resets the draft.

`wrappers.dfy` holds the `Option` type used for the nullable selection.

Two behaviours of the code that are easy to miss:
- The form resets to its initial draft, which keeps `guests = "2"`. It does not reset to
  all-empty values.
- In `words` and `lines` mode an empty text still gives one (empty) unit, because
  `split` with a one-character separator never returns an empty array. `chars` mode (`split('')`) gives no unit for the
  empty text.

## Model

| member | source | states |
|---|---|---|
| Gallery.NextIndex | src/components/Gallery.tsx:34-38 | next from index i is (i + 1) mod 4: the last image wraps to the first, and the result stays in range |
| Gallery.PrevIndex | src/components/Gallery.tsx:28-32 | previous from index i is (i + 3) mod 4: the first image wraps to the last, and the result stays in range |
| Gallery.NextThenPrev | src/components/Gallery.tsx:28-38 | previous after next returns to the original index |
| Gallery.PrevThenNext | src/components/Gallery.tsx:28-38 | next after previous returns to the original index |
| Gallery.NextNIsRotation | src/components/Gallery.tsx:34-38 | pressing next k times from i lands on (i + k) mod 4 |
| Gallery.FullCycleReturns | src/components/Gallery.tsx:10-15 | pressing next once per image (4 times) returns to the starting image |
| Gallery.Lightbox.constructor | src/components/Gallery.tsx:19 | the lightbox starts closed |
| Gallery.Lightbox.Open | src/components/Gallery.tsx:128 | clicking thumbnail i selects exactly image i |
| Gallery.Lightbox.Close | src/components/Gallery.tsx:207-216 | the backdrop and the close button both clear the selection |
| Gallery.Lightbox.Prev | src/components/Gallery.tsx:28-32 | does nothing while closed; otherwise selects PrevIndex of the current image; the index stays in range |
| Gallery.Lightbox.Next | src/components/Gallery.tsx:34-38 | does nothing while closed; otherwise selects NextIndex of the current image; the index stays in range |
| Gallery.Lightbox.Displayed | src/components/Gallery.tsx:200-273 | the overlay shows something exactly when an image is selected: that image, with the counter selectedIndex + 1 out of 4, which lies in 1..4 |
| AnimatedText.Split | src/components/AnimatedText.tsx:71 | `split` on one separator: one piece more than the separators, no piece holds the separator, and joining the pieces with it gives back the text |
| AnimatedText.SplitJoin | src/components/AnimatedText.tsx:47 | splitting the join of separator-free pieces gives those pieces back, so Split is the only such decomposition |
| AnimatedText.SplitChars | src/components/AnimatedText.tsx:23 | `split('')` gives exactly one unit per character, with unit i equal to character i |
| AnimatedText.Partition | src/components/AnimatedText.tsx:22-91 | one unit per piece of the mode's split; every delay is at least the base delay and delays strictly increase with the index; every unit has the mode's duration (0.5 s chars, 0.8 s lines, 0.6 s words); each unit gets its visible target iff isInView |
| AnimatedText.Render | src/components/AnimatedText.tsx:12-18 | without `type` the units are exactly the words of `split(' ')` (spaces + 1 of them); without `delay` the first unit starts at exactly 0 and none starts earlier |
| AnimatedText.UnitDelays | src/components/AnimatedText.tsx:34-82 | unit i of any text, including a one-unit text, starts at exactly `delay + i * step` |
| AnimatedText.StaggerSpacing | src/components/AnimatedText.tsx:34-82 | the first unit starts at the base delay and each next unit exactly one step later: 0.02 s for chars, 0.15 s for lines, 0.05 s for words |
| AnimatedText.CharsUnits | src/components/AnimatedText.tsx:23-39 | chars mode has one unit per character, in order; a space shows as U+00A0 and any other character shows as itself |
| AnimatedText.WordsUnits | src/components/AnimatedText.tsx:71-86 | words mode has (number of spaces + 1) units, none holding a space, and joining them with spaces gives back the text |
| AnimatedText.LinesUnits | src/components/AnimatedText.tsx:47-62 | lines mode has (number of newlines + 1) units, none holding a newline, and joining them with newlines gives back the text |
| Contact.InitialDraft | src/components/Contact.tsx:15-23 | every input of the initial draft is empty except guests, which is "2" |
| Contact.WithField | src/components/Contact.tsx:164 | the spread update sets the edited input and leaves the other six unchanged |
| Contact.EditsCommute | src/components/Contact.tsx:164-288 | edits to two different inputs give the same draft in either order |
| Contact.LastEditWins | src/components/Contact.tsx:164-288 | a second edit to the same input overwrites the first |
| Contact.SubmittableFields | src/components/Contact.tsx:160-270 | the form can be submitted iff name, email, check-in and check-out are all non-empty |
| Contact.OptionalFieldsIrrelevant | src/components/Contact.tsx:202-291 | editing phone, guests or message never changes whether the form can be submitted |
| Contact.InitialNotSubmittable | src/components/Contact.tsx:45-53 | a freshly reset form cannot be submitted again until its required inputs are filled in |
| Contact.BookingForm.constructor | src/components/Contact.tsx:14-23 | the form starts with the initial draft, idle, with no toast shown |
| Contact.BookingForm.UpdateField | src/components/Contact.tsx:222-231 | one input changes and nothing else does; the guest count stays one of "1" to "4" |
| Contact.BookingForm.BeginSubmit | src/components/Contact.tsx:32-34 | a submission starts iff none is in flight (the button is disabled) and the required inputs are filled; if it starts, the flag is set; the draft and the toasts are unchanged |
| Contact.BookingForm.CompleteSubmit | src/components/Contact.tsx:37-53 | after the delay: exactly one "Inquiry Sent!" toast is added, the flag is cleared and the draft equals the initial draft, whatever it held |

## Left out

- Contact.BookingForm.BeginSubmit: the model does not check the email format that the browser enforces on the `type="email"` input. It only checks that the input is non-empty, so it starts some submissions that the browser would block.
- The timing of the submission delay (1.5 s `setTimeout`) and the toast's rendering. Only the states before and after the `await` are modelled.
- Scroll-linked animation (`useScroll`, `useTransform`, `useSpring`) in the hooks and section components. The interpolation and spring physics belong to the animation library and work in floating point.
- Viewport detection (`useInView`, `whileInView`) and the `once` prop. `isInView` is an input boolean.
- The animation poses and easing curves of the reveal units. Only the delay, the duration and whether the visible target is given are modelled. The gallery thumbnails' own entrance stagger (`index * 0.15`) is not modelled either.
- Floating-point rounding. Delays are exact reals, so `0.1 + 1 * 0.05` is exactly 0.15 here, while JavaScript's doubles give 0.15000000000000002.
- AnimatedText.SplitChars: strings here are sequences of Unicode scalar values, while `split('')` works on UTF-16 code units. For a character outside the Basic Multilingual Plane (an emoji, say), `chars` mode gives one unit here where JavaScript gives two, one per surrogate.
- The map in the location section (a dynamic import of the map client, marker DOM construction and the embed URL). These are foreign calls and DOM I/O.
- The hero's mouse parallax and its inline title-letter stagger. The stagger repeats the `chars` pattern.
- The navigation bar's scroll flag and menu toggle, the footer's scroll-to-top and year, and the static content sections. These are constant data and markup.
- React's batching of state updates and stale closures. Each handler is modelled as one atomic update of the current state.

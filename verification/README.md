# Analog clock face — a Dafny model

This project models the core of the `analog-clock` web component. The
component samples the local time, turns it into three hand angles and renders
an SVG clock face:

- a face circle of radius 45 centred on (50, 50) in a 100 × 100 view box;
- 12 major tick marks, 12 numerals and 48 minor tick marks;
- the hour, minute and second hands;
- a centre dot.

Everything in the core is pure, so the model is pure too: datatypes,
functions over sequences, and lemmas.

- `degrees.dfy` (module `ClockDegrees`) holds the three angle functions
  `getSecondDegree`, `getMinuteDegree` and `getHourDegree`. Their input is
  an already decomposed local time `LocalTime` (hours 0–23, minutes and
  seconds 0–59), which is what a `Date` reports. Angles are exact Dafny
  `real`s.
- `face.dfy` (module `ClockFace`) holds the SVG primitives as a datatype
  `Prim` (`Circle`, `Line`, `Text`). It also holds the builders `thick`,
  `thin`, `num` and `hand`. The `Array(n).fill(0).map(...).filter(...).map(...)`
  pipelines become `Iota`, `Filter` and `MapPrims`, and `render()` becomes
  `Frame(t)`.
- `frame.dfy` (module `ClockFrame`) holds the properties of the rendered
  frame:
  - its layout and painting order;
  - that only the hands depend on the time;
  - that the 60 ticks cover the dial's 60 minute marks exactly once;
  - that the numerals are 1–12;
  - that the hands give the time back: `ReadTime(Frame(t)) == Some(t)`, so
    `Frame` is injective.

Three details of the code are kept as written:

- `getHourDegree` does not reduce the hour modulo 12
  (analog-clock/index.js:28). Afternoon times give angles in [360, 720), and
  15:00 gives 450 degrees. On screen this is the same position as 90 degrees. `HourDegreeAfternoon` and `HourDegreeIncreasing` state this.
- The numerals are rotated with their group and are not turned back to read
  upright (analog-clock/index.js:109-111).
- The major ticks set no `stroke-width` (analog-clock/index.js:73). The
  model records this as `width == None`.

## Model

| member | source | states |
|---|---|---|
| ClockDegrees.SecondDegree | analog-clock/index.js:8-10 | the second angle is 6·s, lies in [0, 360), and is 0 exactly when s = 0 |
| ClockDegrees.MinuteDegree | analog-clock/index.js:17-20 | the minute angle is 6·m + s/10, which is the seconds elapsed in the hour divided by 10; it lies in [0, 360) |
| ClockDegrees.HourDegree | analog-clock/index.js:27-30 | the hour angle is 30·h + m/2, which is the minutes since midnight divided by 2; it lies in [0, 720) and is below 360 exactly for hours before noon (no 12-hour reduction) |
| ClockDegrees.SecondDegreeIncreasing | analog-clock/index.js:8-10 | within a minute the second angle strictly increases with the second |
| ClockDegrees.MinuteDegreeIncreasing | analog-clock/index.js:17-20 | within an hour the minute angle strictly increases with every second, including when the minute stays fixed |
| ClockDegrees.MinuteDegreeIncreasingInSeconds | analog-clock/index.js:17-20 | with the minute fixed, a later second gives a strictly larger minute angle |
| ClockDegrees.HourDegreeIgnoresSeconds | analog-clock/index.js:27-30 | the hour angle does not depend on the seconds |
| ClockDegrees.HourDegreeIncreasing | analog-clock/index.js:27-30 | over the whole day, one time is earlier to the minute than another exactly when its hour angle is smaller |
| ClockDegrees.HourDegreeAfternoon | analog-clock/index.js:28 | hour h+12 gives exactly one full turn (360 degrees) more than hour h |
| ClockDegrees.HourFollowsMinute | analog-clock/index.js:17-30 | the hour angle is the hour's mark plus one twelfth of the whole-minute part of the minute angle |
| ClockDegrees.DegreeExamples | analog-clock/index.js:8-30 | 3:00 gives 90, 15:00 gives 450, 6:30 gives 195, 5 min 30 s gives a minute angle of 33, 15 s gives a second angle of 90 |
| ClockFace.Iota | analog-clock/index.js:126 | `Array(n).fill(0).map((_, i) => i)` has n elements and element k is k (also at lines 129 and 132-134) |
| ClockFace.MapPrims | analog-clock/index.js:136 | `.map(f)` gives one primitive per element, the k-th being f of the k-th element (also at lines 126 and 129) |
| ClockFace.Filter | analog-clock/index.js:135 | `filter` never lengthens its input |
| ClockFace.FilterMembers | analog-clock/index.js:135 | `filter` keeps exactly the elements that satisfy the predicate |
| ClockFace.FilterAppend | analog-clock/index.js:135 | filtering a concatenation is the concatenation of the filtered parts |
| ClockFace.FilterKeepsOrder | analog-clock/index.js:135 | `filter` keeps the order of what it keeps: the result of filtering a strictly increasing sequence is strictly increasing |
| ClockFace.MinorIndicesClosedForm | analog-clock/index.js:132-135 | filtering the indices 0..5q−1 for non-multiples of 5 leaves 4q indices; the k-th is k + k/4 + 1 |
| ClockFace.MinorTickIndices | analog-clock/index.js:132-135 | the minor-tick indices are 48 in number; the k-th is k + k/4 + 1 |
| ClockFace.MinorTickIndicesSpec | analog-clock/index.js:132-135 | an index is a minor-tick index exactly when it is in 0..59 and not a multiple of 5; the indices are strictly increasing |
| ClockFace.Thick | analog-clock/index.js:71-76 | a major tick is a black line with the default width; it starts on the rim and is 5 units long; tick i is rotated 30·i degrees |
| ClockFace.Thin | analog-clock/index.js:83-88 | a minor tick is a black line of width 0.5; it starts on the rim and is 3 units long; tick i is rotated 6·i degrees |
| ClockFace.Num | analog-clock/index.js:107-116 | numeral i is size-10 text, 35 units above the centre, rotated 30·i degrees; for i in 0..11 its label is in 1..12 and congruent to i mod 12 (0 is labelled 12) |
| ClockFace.Hand | analog-clock/index.js:95-100 | a hand is a line from the centre (50, 50) to (50, 50 − length); it is rotated by its angle and drawn in its colour and width; it lies on a radius and is not a tick |
| ClockFace.FaceCircle | analog-clock/index.js:122 | the face outline is a circle of radius 45 (the rim on which every tick starts) centred on (50, 50), with a transparent fill and a black stroke |
| ClockFace.CentreDot | analog-clock/index.js:165 | the centre dot is a circle of radius 1.5 centred on (50, 50), with fill and stroke left unset |
| ClockFace.MajorTicks | analog-clock/index.js:126 | there are 12 major ticks; the i-th is `thick(i)` |
| ClockFace.Numerals | analog-clock/index.js:129 | there are 12 numerals; the i-th is `num(i)` |
| ClockFace.MinorTicks | analog-clock/index.js:132-137 | there are 48 minor ticks; the k-th is `thin(k + k/4 + 1)`, i.e. the k-th minute mark that is not a multiple of 5 |
| ClockFace.Decoration | analog-clock/index.js:122-138 | the decoration has 73 primitives: the face circle, then major ticks 0..11, numerals 0..11 and the 48 minor ticks |
| ClockFace.HourHand | analog-clock/index.js:141-146 | the hour hand is at the hour angle, red, width 2, length 20 |
| ClockFace.MinuteHand | analog-clock/index.js:149-154 | the minute hand is at the minute angle, blue, width 1, length 40 |
| ClockFace.SecondHand | analog-clock/index.js:157-162 | the second hand is at the second angle, black, width 0.5, length 40 |
| ClockFace.HandProportions | analog-clock/index.js:141-162 | the hour hand is the shortest and widest; the minute and second hands are equally long, and the second hand is the thinnest; each hand has a positive length of at most 40, so it ends inside the ring of ticks; the hour and minute hands differ in colour, as do the minute and second hands |
| ClockFace.Frame | analog-clock/index.js:118-167 | the frame has 77 primitives: the time-independent decoration first; then the hour, minute and second hands, in that order; the centre dot last |
| ClockFrame.FrameLayout | analog-clock/index.js:118-167 | position by position: 0 is the face circle; 1–12 major ticks 0..11; 13–24 numerals 0..11; 25–72 minor ticks k + k/4 + 1; 73–75 the hour hand (red, width 2, length 20), the minute hand (blue, 1, 40) and the second hand (black, 0.5, 40) at their angles; 76 the centre dot |
| ClockFrame.FrameKinds | analog-clock/index.js:118-167 | ticks are exactly at positions 1–12 and 25–72, text exactly at 13–24, hands exactly at 73–75 |
| ClockFrame.HandsPaintedOverDecoration | analog-clock/index.js:140-165 | nothing but hands and the centre dot comes after a hand; every other primitive comes before every hand; the last primitive is the circle at the centre |
| ClockFrame.OnlyHandsDependOnTime | analog-clock/index.js:118-167 | any two frames agree on every primitive that is not a hand, including the first 73 |
| ClockFrame.MinorTickOffHourMarks | analog-clock/index.js:132-137 | no minor tick is rotated by a multiple of 30 degrees |
| ClockFrame.TickPairDistinct | analog-clock/index.js:124-138 | any two ticks of the frame have different rotations |
| ClockFrame.TickRotationsDistinct | analog-clock/index.js:124-138 | no two ticks of the frame have the same rotation |
| ClockFrame.TicksOnMinuteMarks | analog-clock/index.js:124-138 | every tick stands at a minute mark 6·i, 0 ≤ i < 60 |
| ClockFrame.MinuteMarkHasTick | analog-clock/index.js:124-138 | every minute mark 6·i, 0 ≤ i < 60, carries a tick |
| ClockFrame.TickRotationsCoverDial | analog-clock/index.js:124-138 | the set of tick rotations is exactly the 60 minute marks |
| ClockFrame.HourHasNumeral | analog-clock/index.js:107-129 | each of the hours 1..12 labels some text of the frame |
| ClockFrame.NumeralIsHour | analog-clock/index.js:107-129 | every text of the frame is labelled with an hour 1..12 |
| ClockFrame.NumeralLabels | analog-clock/index.js:107-129 | the frame's text labels are exactly 1..12, and each numeral has the rotation of the major tick of its hour mark |
| ClockFrame.ReadHands | analog-clock/index.js:140-162 | any 77-primitive scene whose hands are drawn for time t reads back as t |
| ClockFrame.FrameRoundTrip | analog-clock/index.js:140-162 | reading the hands back gives the time: hour = ⌊hour angle / 30⌋, minute = ⌊minute angle / 6⌋, second = second angle / 6 |
| ClockFrame.FrameInjective | analog-clock/index.js:118-167 | two frames are equal exactly when their times are equal |

## Left out

- Lit framework plumbing is not modelled (analog-clock/index.js:1, 42-52, 171). This covers the `LitElement` base class, reactive properties, styles, the `svg` tagged templates and `customElements.define`. These are foreign library calls and page registration.
- The refresh timer is not modelled (analog-clock/index.js:54-64). This is the `setInterval` at 1000/30 ms in `connectedCallback` and the `clearInterval` in `disconnectedCallback`. It is host timer plumbing, so the attach/detach behaviour of a refresh scheduler is not modelled.
- Sampling `new Date()` and the local time zone are not modelled (analog-clock/index.js:38, 57). The model takes the decomposed (hours, minutes, seconds) as input.
- Angles are exact reals. The component computes them in IEEE-754 doubles, which can differ in the last bit.
- The outer `<svg viewBox="0 0 100 100" width="200">` element and the `<g>` groups only wrap the primitives. The model lists the primitives in document order. A numeral carries its group's rotation as its own.
- The numerals' `text-anchor="middle"` and `dominant-baseline="central"` are constant and are not fields of `Text`.
- What SVG draws for `rotate`, default paint and default stroke width is not modelled. `None` stands for an attribute the component leaves unset.

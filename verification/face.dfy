/** The scene the clock component renders: a list of SVG primitives in a
    100 x 100 view box whose centre is (50, 50). The face decoration never
    depends on the time; only the three hands do. */
module ClockFace {
  import opened ClockDegrees

  datatype Option<+T> = None | Some(value: T)

  /** The paints the component names. */
  datatype Color = Black | Red | Blue | Transparent

  /** One SVG element. An attribute the component does not set is `None`;
      a circle's `outline` is its `stroke` attribute.
      `rot` is the `rotate(rot 50 50)` transform: degrees clockwise about the
      centre. A numeral takes the rotation of the group around it. */
  datatype Prim =
    | Circle(r: real, cx: real, cy: real, fill: Option<Color>, outline: Option<Color>)
    | Line(x1: real, y1: real, x2: real, y2: real, stroke: Color, width: Option<real>, rot: real)
    | Text(x: real, y: real, content: int, fontSize: real, rot: real)

  /** The argument of `hand`: angle, colour, stroke width and length. */
  datatype HandSpec = HandSpec(degree: real, color: Color, width: real, length: real)

  const Centre: real := 50.0
  const FaceRadius: real := 45.0

  /** The rotation of a primitive; a circle carries no transform. */
  function Rotation(p: Prim): real {
    match p
    case Circle(_, _, _, _, _) => 0.0
    case Line(_, _, _, _, _, _, rot) => rot
    case Text(_, _, _, _, rot) => rot
  }

  /** A line that, before rotation, runs straight up from below the centre
      point; rotating it about the centre keeps it on a radius. */
  predicate Radial(p: Prim) {
    p.Line? && p.x1 == Centre && p.x2 == Centre && p.y1 <= Centre && p.y2 <= Centre
  }

  /** A tick mark: a line that starts on the rim of the face. */
  predicate IsTick(p: Prim) {
    Radial(p) && Centre - p.y1 == FaceRadius
  }

  // ---------------------------------------------------------------------
  // Array pipelines: `Array(n).fill(0).map((_, i) => i)`, `.filter`, `.map`
  // ---------------------------------------------------------------------

  /** `Array(n).fill(0).map((_, i) => i)`: the indices 0 .. n-1. */
  function Iota(n: nat): (r: seq<int>)
    ensures |r| == n
    ensures forall k :: 0 <= k < n ==> r[k] == k
  {
    seq(n, k => k)
  }

  /** `xs.filter(p)`: the elements of `xs` that satisfy `p`, in order. */
  function Filter(p: int -> bool, xs: seq<int>): (r: seq<int>)
    ensures |r| <= |xs|
  {
    if xs == [] then []
    else if p(xs[0]) then [xs[0]] + Filter(p, xs[1..])
    else Filter(p, xs[1..])
  }

  /** The filter keeps exactly the elements that satisfy the predicate. */
  lemma {:induction false} FilterMembers(p: int -> bool, xs: seq<int>)
    ensures forall x :: x in Filter(p, xs) <==> x in xs && p(x)
  {
    if xs != [] {
      FilterMembers(p, xs[1..]);
      assert xs == [xs[0]] + xs[1..];
    }
  }

  /** A filter applied to an increasing sequence gives an increasing
      sequence: `filter` keeps the order of what it keeps. */
  lemma {:induction false} FilterKeepsOrder(p: int -> bool, xs: seq<int>)
    requires forall i, j :: 0 <= i < j < |xs| ==> xs[i] < xs[j]
    ensures forall i, j :: 0 <= i < j < |Filter(p, xs)| ==> Filter(p, xs)[i] < Filter(p, xs)[j]
  {
    if xs != [] {
      var rest := xs[1..];
      FilterKeepsOrder(p, rest);
      FilterMembers(p, rest);
      var r := Filter(p, rest);
      assert forall y :: y in rest ==> xs[0] < y;
      assert forall k :: 0 <= k < |r| ==> r[k] in r;
    }
  }

  /** `xs.map(f)` for the primitive builders below: one primitive per
      element, in the same order. */
  function MapPrims(f: int -> Prim, xs: seq<int>): (r: seq<Prim>)
    ensures |r| == |xs|
    ensures forall k :: 0 <= k < |xs| ==> r[k] == f(xs[k])
  {
    seq(|xs|, k requires 0 <= k < |xs| => f(xs[k]))
  }

  // ---------------------------------------------------------------------
  // Primitive builders: `thick`, `thin`, `num`, `hand` and the two circles
  // ---------------------------------------------------------------------

  /** `thick(i)`: the major tick for hour mark i, five units long, on the rim,
      in the default stroke width. */
  function Thick(i: int): (p: Prim)
    ensures IsTick(p) && Centre - p.y2 == FaceRadius - 5.0
    ensures p.stroke == Black && p.width == None
    ensures Rotation(p) == 30.0 * i as real
  {
    Line(50.0, 5.0, 50.0, 10.0, Black, None, (i as real / 12.0) * 360.0)
  }

  /** `thin(i)`: the minor tick for minute mark i, three units long, on the
      rim, half a unit wide. */
  function Thin(i: int): (p: Prim)
    ensures IsTick(p) && Centre - p.y2 == FaceRadius - 3.0
    ensures p.stroke == Black && p.width == Some(0.5)
    ensures Rotation(p) == 6.0 * i as real
  {
    Line(50.0, 5.0, 50.0, 8.0, Black, Some(0.5), (i as real / 60.0) * 360.0)
  }

  /** `num(i)`: the numeral for hour mark i, 35 units from the centre, turned
      with its group. Mark 0 is labelled 12, so a label always names its mark
      on a twelve-hour dial. */
  function Num(i: int): (p: Prim)
    ensures p.Text? && Centre - p.y == 35.0 && p.x == Centre && p.fontSize == 10.0
    ensures Rotation(p) == 30.0 * i as real
    ensures 0 <= i < 12 ==> 1 <= p.content <= 12 && p.content % 12 == i
  {
    Text(50.0, 15.0, if i == 0 then 12 else i, 10.0, (i as real / 12.0) * 360.0)
  }

  /** `hand(spec)`: a line from the centre, `length` units long, turned by the
      hand's angle, in the hand's colour and width. */
  function Hand(spec: HandSpec): (p: Prim)
    ensures p.Line? && p.x1 == Centre && p.y1 == Centre && p.x2 == Centre
    ensures Centre - p.y2 == spec.length
    ensures Rotation(p) == spec.degree
    ensures p.stroke == spec.color && p.width == Some(spec.width)
    ensures spec.length >= 0.0 ==> Radial(p) && !IsTick(p)
  {
    Line(50.0, 50.0, 50.0, 50.0 - spec.length, spec.color, Some(spec.width), spec.degree)
  }

  /** The outline of the face: radius 45, transparent fill, black stroke. */
  function FaceCircle(): (c: Prim)
    ensures c.Circle? && c.r == FaceRadius && c.cx == Centre && c.cy == Centre
    ensures c.fill == Some(Transparent) && c.outline == Some(Black)
  {
    Circle(45.0, 50.0, 50.0, Some(Transparent), Some(Black))
  }

  /** The dot over the hands' common origin: radius 1.5, default paint. */
  function CentreDot(): (c: Prim)
    ensures c.Circle? && c.r == 1.5 && c.cx == Centre && c.cy == Centre
    ensures c.fill == None && c.outline == None
  {
    Circle(1.5, 50.0, 50.0, None, None)
  }

  // ---------------------------------------------------------------------
  // The decoration
  // ---------------------------------------------------------------------

  predicate NotMultipleOf5(i: int) {
    i % 5 != 0
  }

  /** The minute marks that get a thin tick: 0 .. 59 without the multiples of
      five. The k-th of them is k + k/4 + 1: four marks in each five. */
  function MinorTickIndices(): (r: seq<int>)
    ensures |r| == 48
    ensures forall k :: 0 <= k < 48 ==> r[k] == k + k / 4 + 1
  {
    MinorIndicesClosedForm(12);
    Filter(NotMultipleOf5, Iota(60))
  }

  /** Filtering a concatenation filters each part. */
  lemma {:induction false} FilterAppend(p: int -> bool, a: seq<int>, b: seq<int>)
    ensures Filter(p, a + b) == Filter(p, a) + Filter(p, b)
  {
    if a != [] {
      assert (a + b)[0] == a[0];
      assert (a + b)[1..] == a[1..] + b;
      FilterAppend(p, a[1..], b);
    } else {
      assert a + b == b;
    }
  }

  /** The indices 0 .. 5q+4 are those below 5q followed by one block of five. */
  lemma IotaNextBlock(q: nat)
    ensures Iota(5 * q + 5) == Iota(5 * q) + [5 * q, 5 * q + 1, 5 * q + 2, 5 * q + 3, 5 * q + 4]
  {
  }

  /** An element that satisfies the predicate is kept in front. */
  lemma FilterKeep(p: int -> bool, x: int, xs: seq<int>)
    requires p(x)
    ensures Filter(p, [x] + xs) == [x] + Filter(p, xs)
  {
    assert ([x] + xs)[1..] == xs;
  }

  /** An element that fails the predicate is dropped. */
  lemma FilterDrop(p: int -> bool, x: int, xs: seq<int>)
    requires !p(x)
    ensures Filter(p, [x] + xs) == Filter(p, xs)
  {
    assert ([x] + xs)[1..] == xs;
  }

  /** Of a block of five that starts at a multiple of five, all but the first
      survive the filter. */
  lemma MinorBlock(n: int)
    requires n % 5 == 0
    ensures Filter(NotMultipleOf5, [n, n + 1, n + 2, n + 3, n + 4]) == [n + 1, n + 2, n + 3, n + 4]
  {
    var tail := [n + 1, n + 2, n + 3, n + 4];
    assert NotMultipleOf5(n + 1) && NotMultipleOf5(n + 2) && NotMultipleOf5(n + 3) && NotMultipleOf5(n + 4);
    calc {
      Filter(NotMultipleOf5, [n + 1, n + 2, n + 3, n + 4]);
      { FilterKeep(NotMultipleOf5, n + 1, [n + 2, n + 3, n + 4]); }
      [n + 1] + Filter(NotMultipleOf5, [n + 2, n + 3, n + 4]);
      { FilterKeep(NotMultipleOf5, n + 2, [n + 3, n + 4]); }
      [n + 1] + ([n + 2] + Filter(NotMultipleOf5, [n + 3, n + 4]));
      { FilterKeep(NotMultipleOf5, n + 3, [n + 4]); }
      [n + 1] + ([n + 2] + ([n + 3] + Filter(NotMultipleOf5, [n + 4])));
      { FilterKeep(NotMultipleOf5, n + 4, []); assert [n + 4] + [] == [n + 4]; }
      [n + 1] + ([n + 2] + ([n + 3] + ([n + 4] + Filter(NotMultipleOf5, []))));
      tail;
    }
    assert !NotMultipleOf5(n);
    FilterDrop(NotMultipleOf5, n, tail);
    assert [n] + tail == [n, n + 1, n + 2, n + 3, n + 4];
  }

  /** Filtering 0 .. 5q-1 keeps 4q marks, the k-th of them being k + k/4 + 1. */
  lemma {:induction false} MinorIndicesClosedForm(q: nat)
    ensures |Filter(NotMultipleOf5, Iota(5 * q))| == 4 * q
    ensures forall k :: 0 <= k < 4 * q ==> Filter(NotMultipleOf5, Iota(5 * q))[k] == k + k / 4 + 1
  {
    if q > 0 {
      var p := q - 1;
      MinorIndicesClosedForm(p);
      IotaNextBlock(p);
      FilterAppend(NotMultipleOf5, Iota(5 * p), [5 * p, 5 * p + 1, 5 * p + 2, 5 * p + 3, 5 * p + 4]);
      MinorBlock(5 * p);
      var r := Filter(NotMultipleOf5, Iota(5 * q));
      forall k | 4 * p <= k < 4 * q
        ensures r[k] == k + k / 4 + 1
      {
        assert k / 4 == p;
      }
    }
  }

  /** The thin ticks sit exactly at the minute marks that are not multiples of
      five, and in increasing order. */
  lemma MinorTickIndicesSpec()
    ensures forall i :: i in MinorTickIndices() <==> 0 <= i < 60 && i % 5 != 0
    ensures forall j, k :: 0 <= j < k < 48 ==> MinorTickIndices()[j] < MinorTickIndices()[k]
  {
    var r := MinorTickIndices();
    FilterMembers(NotMultipleOf5, Iota(60));
    forall i | 0 <= i < 60 && i % 5 != 0
      ensures i in r
    {
      assert Iota(60)[i] == i;
    }
  }

  /** The twelve major ticks, tick i at 30·i degrees. */
  function MajorTicks(): (r: seq<Prim>)
    ensures |r| == 12
    ensures forall i :: 0 <= i < 12 ==> r[i] == Thick(i)
  {
    MapPrims(Thick, Iota(12))
  }

  /** The twelve numerals, numeral i at 30·i degrees. */
  function Numerals(): (r: seq<Prim>)
    ensures |r| == 12
    ensures forall i :: 0 <= i < 12 ==> r[i] == Num(i)
  {
    MapPrims(Num, Iota(12))
  }

  /** The 48 minor ticks, one per minute mark that is not a multiple of five,
      in increasing order of mark. */
  function MinorTicks(): (r: seq<Prim>)
    ensures |r| == 48
    ensures forall k :: 0 <= k < 48 ==> r[k] == Thin(k + k / 4 + 1)
  {
    MapPrims(Thin, MinorTickIndices())
  }

  /** Everything drawn before the hands: the face circle, then the grouped
      major ticks, numerals and minor ticks. */
  function Decoration(): (r: seq<Prim>)
    ensures |r| == 73 && r[0] == FaceCircle()
    ensures forall i :: 0 <= i < 12 ==> r[1 + i] == Thick(i) && r[13 + i] == Num(i)
    ensures forall k :: 0 <= k < 48 ==> r[25 + k] == Thin(k + k / 4 + 1)
  {
    [FaceCircle()] + MajorTicks() + Numerals() + MinorTicks()
  }

  // ---------------------------------------------------------------------
  // The hands and the frame (`render`)
  // ---------------------------------------------------------------------

  /** Hour hand: red, width 2, length 20. */
  function HourHand(t: LocalTime): (h: HandSpec)
    ensures h.degree == HourDegree(t)
    ensures h.color == Red && h.width == 2.0 && h.length == 20.0
  {
    HandSpec(HourDegree(t), Red, 2.0, 20.0)
  }

  /** Minute hand: blue, width 1, length 40. */
  function MinuteHand(t: LocalTime): (h: HandSpec)
    ensures h.degree == MinuteDegree(t)
    ensures h.color == Blue && h.width == 1.0 && h.length == 40.0
  {
    HandSpec(MinuteDegree(t), Blue, 1.0, 40.0)
  }

  /** Second hand: black, width 0.5, length 40. */
  function SecondHand(t: LocalTime): (h: HandSpec)
    ensures h.degree == SecondDegree(t)
    ensures h.color == Black && h.width == 0.5 && h.length == 40.0
  {
    HandSpec(SecondDegree(t), Black, 0.5, 40.0)
  }

  /** The hour hand is the short, wide one; the minute and second hands are
      equally long and the second hand is the thinnest; every hand ends inside
      the ring of ticks, whose inner ends lie 40 units from the centre. */
  lemma HandProportions(t: LocalTime)
    ensures HourHand(t).length < MinuteHand(t).length == SecondHand(t).length
    ensures SecondHand(t).width < MinuteHand(t).width < HourHand(t).width
    ensures forall h :: h in [HourHand(t), MinuteHand(t), SecondHand(t)] ==> 0.0 < h.length <= FaceRadius - 5.0
    ensures HourHand(t).color != MinuteHand(t).color && MinuteHand(t).color != SecondHand(t).color
  {
  }

  /** `render()`: the decoration, the hour, minute and second hands, and the
      centre dot, in document (that is, painting) order. */
  function Frame(t: LocalTime): (f: seq<Prim>)
    ensures |f| == 77
    ensures f[..73] == Decoration() && f[76] == CentreDot()
    ensures f[73..76] == [Hand(HourHand(t)), Hand(MinuteHand(t)), Hand(SecondHand(t))]
  {
    Decoration() + [Hand(HourHand(t)), Hand(MinuteHand(t)), Hand(SecondHand(t))] + [CentreDot()]
  }
}

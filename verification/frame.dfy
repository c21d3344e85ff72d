/** Properties of the rendered frame: its layout and painting order, which
    parts depend on the time, the dial the ticks and numerals form, and that
    the hands carry the whole time back out. */
module ClockFrame {
  import opened ClockDegrees
  import opened ClockFace

  /** Position by position: the face circle, 12 major ticks, 12 numerals,
      48 minor ticks, the hour, minute and second hands, the centre dot. */
  lemma FrameLayout(t: LocalTime)
    ensures Frame(t)[0] == FaceCircle()
    ensures forall i :: 0 <= i < 12 ==> Frame(t)[1 + i] == Thick(i)
    ensures forall i :: 0 <= i < 12 ==> Frame(t)[13 + i] == Num(i)
    ensures forall k :: 0 <= k < 48 ==> Frame(t)[25 + k] == Thin(k + k / 4 + 1)
    ensures Frame(t)[73] == Hand(HandSpec(HourDegree(t), Red, 2.0, 20.0))
    ensures Frame(t)[74] == Hand(HandSpec(MinuteDegree(t), Blue, 1.0, 40.0))
    ensures Frame(t)[75] == Hand(HandSpec(SecondDegree(t), Black, 0.5, 40.0))
    ensures Frame(t)[76] == CentreDot()
  {
    var f := Frame(t);
    var d := Decoration();
    assert d == [FaceCircle()] + MajorTicks() + Numerals() + MinorTicks();
    assert f[..73] == d;
    forall i | 0 <= i < 12
      ensures f[1 + i] == Thick(i) && f[13 + i] == Num(i)
    {
      assert d[1 + i] == MajorTicks()[i];
      assert d[13 + i] == Numerals()[i];
    }
    forall k | 0 <= k < 48
      ensures f[25 + k] == Thin(k + k / 4 + 1)
    {
      assert d[25 + k] == MinorTicks()[k];
    }
  }

  /** A hand is a line that starts at the centre. */
  predicate IsHand(p: Prim) {
    p.Line? && p.x1 == Centre && p.y1 == Centre
  }

  /** Which positions hold ticks, numerals and hands. */
  lemma FrameKinds(t: LocalTime)
    ensures forall k :: 0 <= k < 77 ==> (IsTick(Frame(t)[k]) <==> 1 <= k < 13 || 25 <= k < 73)
    ensures forall k :: 0 <= k < 77 ==> (Frame(t)[k].Text? <==> 13 <= k < 25)
    ensures forall k :: 0 <= k < 77 ==> (IsHand(Frame(t)[k]) <==> 73 <= k < 76)
  {
    FrameLayout(t);
    var f := Frame(t);
    forall k | 0 <= k < 77
      ensures IsTick(f[k]) <==> 1 <= k < 13 || 25 <= k < 73
      ensures f[k].Text? <==> 13 <= k < 25
      ensures IsHand(f[k]) <==> 73 <= k < 76
    {
      if 1 <= k < 13 {
        assert f[1 + (k - 1)] == Thick(k - 1);
      } else if 13 <= k < 25 {
        assert f[13 + (k - 13)] == Num(k - 13);
      } else if 25 <= k < 73 {
        var j := k - 25;
        assert f[25 + j] == Thin(j + j / 4 + 1);
      }
    }
  }

  /** Painting order: every hand is painted over all of the decoration, and
      the centre dot, painted last, covers the hands' common origin. */
  lemma HandsPaintedOverDecoration(t: LocalTime)
    ensures forall j, k :: 0 <= j < k < 77 && IsHand(Frame(t)[j]) ==> IsHand(Frame(t)[k]) || k == 76
    ensures forall j, k :: 0 <= j < 77 && 0 <= k < 77 && !IsHand(Frame(t)[j]) && IsHand(Frame(t)[k]) && j != 76 ==> j < k
    ensures Frame(t)[76].Circle? && Frame(t)[76].cx == Centre && Frame(t)[76].cy == Centre
  {
    FrameKinds(t);
  }

  /** Only the three hands depend on the time: the decoration and the centre
      dot are the same in every frame. */
  lemma OnlyHandsDependOnTime(t1: LocalTime, t2: LocalTime)
    ensures forall k :: 0 <= k < 77 && !IsHand(Frame(t1)[k]) ==> Frame(t1)[k] == Frame(t2)[k]
    ensures Frame(t1)[..73] == Frame(t2)[..73]
  {
    FrameKinds(t1);
    forall k | 0 <= k < 73
      ensures Frame(t1)[k] == Frame(t2)[k]
    {
      assert Frame(t1)[..73][k] == Frame(t2)[..73][k];
    }
  }

  /** A multiple of six degrees that is not a multiple of thirty is no
      multiple of thirty degrees. */
  lemma SixthsOffFifths(m: int, j: int)
    requires m % 5 != 0
    ensures 6.0 * m as real != 30.0 * j as real
  {
    var q := m / 5;
    assert m == 5 * q + m % 5 && 0 < m % 5 < 5;
    if j <= q {
      assert 5 * j <= 5 * q;
    } else {
      assert 5 * j >= 5 * q + 5;
    }
    assert m != 5 * j;
    assert m as real != (5 * j) as real;
  }

  /** No thin tick falls on an hour mark. */
  lemma MinorTickOffHourMarks(t: LocalTime, k: int, j: int)
    requires 25 <= k < 73
    ensures Rotation(Frame(t)[k]) != 30.0 * j as real
  {
    var i := k - 25;
    var m := MinorTickIndices()[i];
    MinorTickIndicesSpec();
    assert m in MinorTickIndices();
    FrameLayout(t);
    assert Frame(t)[25 + i] == Thin(m);
    SixthsOffFifths(m, j);
  }

  /** Two different ticks stand at different angles. */
  lemma TickPairDistinct(t: LocalTime, a: int, b: int)
    requires 0 <= a < b < 77 && IsTick(Frame(t)[a]) && IsTick(Frame(t)[b])
    ensures Rotation(Frame(t)[a]) != Rotation(Frame(t)[b])
  {
    FrameKinds(t);
    FrameLayout(t);
    var f := Frame(t);
    if b < 13 {
      assert f[1 + (a - 1)] == Thick(a - 1) && f[1 + (b - 1)] == Thick(b - 1);
    } else if a < 13 {
      assert f[1 + (a - 1)] == Thick(a - 1);
      MinorTickOffHourMarks(t, b, a - 1);
    } else {
      var i, j := a - 25, b - 25;
      assert f[25 + i] == Thin(i + i / 4 + 1) && f[25 + j] == Thin(j + j / 4 + 1);
      assert i / 4 <= j / 4;
    }
  }

  /** The 60 ticks stand at 60 different angles. */
  lemma TickRotationsDistinct(t: LocalTime)
    ensures forall a, b :: 0 <= a < b < 77 && IsTick(Frame(t)[a]) && IsTick(Frame(t)[b])
              ==> Rotation(Frame(t)[a]) != Rotation(Frame(t)[b])
  {
    forall a, b | 0 <= a < b < 77 && IsTick(Frame(t)[a]) && IsTick(Frame(t)[b])
      ensures Rotation(Frame(t)[a]) != Rotation(Frame(t)[b])
    {
      TickPairDistinct(t, a, b);
    }
  }

  /** The angle of minute mark i of the dial. */
  function MinuteMark(i: int): real {
    6.0 * i as real
  }

  /** Every tick stands on a minute mark of the dial. */
  lemma TicksOnMinuteMarks(t: LocalTime, k: int)
    requires 0 <= k < 77 && IsTick(Frame(t)[k])
    ensures exists i :: 0 <= i < 60 && Rotation(Frame(t)[k]) == MinuteMark(i)
  {
    FrameKinds(t);
    FrameLayout(t);
    var f := Frame(t);
    if k < 13 {
      assert f[1 + (k - 1)] == Thick(k - 1);
      assert Rotation(f[k]) == MinuteMark(5 * (k - 1));
    } else {
      var j := k - 25;
      assert f[25 + j] == Thin(j + j / 4 + 1);
      assert Rotation(f[k]) == MinuteMark(j + j / 4 + 1);
    }
  }

  /** Every minute mark of the dial carries a tick. */
  lemma MinuteMarkHasTick(t: LocalTime, i: int)
    requires 0 <= i < 60
    ensures exists k :: 0 <= k < 77 && IsTick(Frame(t)[k]) && Rotation(Frame(t)[k]) == MinuteMark(i)
  {
    FrameLayout(t);
    var f := Frame(t);
    if i % 5 == 0 {
      var q := i / 5;
      assert f[1 + q] == Thick(q);
      assert IsTick(f[1 + q]) && Rotation(f[1 + q]) == MinuteMark(i);
    } else {
      MinorTickIndicesSpec();
      assert i in MinorTickIndices();
      var j :| 0 <= j < 48 && MinorTickIndices()[j] == i;
      assert f[25 + j] == Thin(i);
      assert IsTick(f[25 + j]) && Rotation(f[25 + j]) == MinuteMark(i);
    }
  }

  /** Together the ticks mark every minute of the dial, six degrees apart,
      and nothing else. */
  lemma TickRotationsCoverDial(t: LocalTime)
    ensures (set k | 0 <= k < 77 && IsTick(Frame(t)[k]) :: Rotation(Frame(t)[k]))
         == (set i | 0 <= i < 60 :: MinuteMark(i))
  {
    var f := Frame(t);
    var ticks := set k | 0 <= k < 77 && IsTick(f[k]) :: Rotation(f[k]);
    var dial := set i | 0 <= i < 60 :: MinuteMark(i);
    forall x | x in ticks
      ensures x in dial
    {
      var k :| 0 <= k < 77 && IsTick(f[k]) && Rotation(f[k]) == x;
      TicksOnMinuteMarks(t, k);
    }
    forall i | 0 <= i < 60
      ensures MinuteMark(i) in ticks
    {
      MinuteMarkHasTick(t, i);
    }
  }

  /** Every hour 1 .. 12 is the label of some text of the frame. */
  lemma HourHasNumeral(t: LocalTime, n: int)
    requires 1 <= n <= 12
    ensures exists k :: 0 <= k < 77 && Frame(t)[k].Text? && Frame(t)[k].content == n
  {
    var i := if n == 12 then 0 else n;
    var d := Decoration();
    assert d[13 + i] == Num(i);
    assert Frame(t)[13 + i] == Frame(t)[..73][13 + i] == d[13 + i];
    assert Num(i).content == n;
  }

  /** Every text of the frame is labelled with an hour 1 .. 12. */
  lemma NumeralIsHour(t: LocalTime, k: int)
    requires 0 <= k < 77 && Frame(t)[k].Text?
    ensures 1 <= Frame(t)[k].content <= 12
  {
    FrameKinds(t);
    FrameLayout(t);
    assert Frame(t)[13 + (k - 13)] == Num(k - 13);
  }

  /** The numerals are exactly 1 .. 12, each beside the major tick of its
      hour mark (mark 0 carries 12). */
  lemma NumeralLabels(t: LocalTime)
    ensures var labels := set k | 0 <= k < 77 && Frame(t)[k].Text? :: Frame(t)[k].content;
      forall n :: n in labels <==> 1 <= n <= 12
    ensures forall k :: 13 <= k < 25 ==> Rotation(Frame(t)[k]) == Rotation(Frame(t)[k - 12])
  {
    var f := Frame(t);
    var labels := set k | 0 <= k < 77 && f[k].Text? :: f[k].content;
    forall n | 1 <= n <= 12
      ensures n in labels
    {
      HourHasNumeral(t, n);
    }
    forall x | x in labels
      ensures 1 <= x <= 12
    {
      var k :| 0 <= k < 77 && f[k].Text? && f[k].content == x;
      NumeralIsHour(t, k);
    }
    FrameLayout(t);
    forall k | 13 <= k < 25
      ensures Rotation(f[k]) == Rotation(f[k - 12])
    {
      assert f[13 + (k - 13)] == Num(k - 13) && f[1 + (k - 13)] == Thick(k - 13);
    }
  }

  /** Reads the time back from a frame's hands: the hour hand's angle in
      whole 30-degree steps, the minute and second hands' in whole 6-degree
      steps. */
  function ReadTime(f: seq<Prim>): Option<LocalTime> {
    if |f| != 77 || !f[73].Line? || !f[74].Line? || !f[75].Line? then None
    else
      var h := (f[73].rot / 30.0).Floor;
      var m := (f[74].rot / 6.0).Floor;
      var s := (f[75].rot / 6.0).Floor;
      if 0 <= h < 24 && 0 <= m < 60 && 0 <= s < 60 then Some(Hms(h, m, s)) else None
  }

  /** The floor of a real lying in [n, n + 1) is n. */
  lemma FloorWithin(x: real, n: int)
    requires n as real <= x < n as real + 1.0
    ensures x.Floor == n
  {
  }

  /** Any 77-element scene whose hands are drawn for t reads back as t. */
  lemma ReadHands(f: seq<Prim>, t: LocalTime)
    requires |f| == 77
    requires f[73] == Hand(HourHand(t)) && f[74] == Hand(MinuteHand(t)) && f[75] == Hand(SecondHand(t))
    ensures ReadTime(f) == Some(t)
  {
    FloorWithin(HourDegree(t) / 30.0, t.hours);
    FloorWithin(MinuteDegree(t) / 6.0, t.minutes);
    FloorWithin(SecondDegree(t) / 6.0, t.seconds);
  }

  /** The hands of a frame give back the time it was drawn for. */
  lemma FrameRoundTrip(t: LocalTime)
    ensures ReadTime(Frame(t)) == Some(t)
  {
    var f := Frame(t);
    assert f[73..76] == [Hand(HourHand(t)), Hand(MinuteHand(t)), Hand(SecondHand(t))];
    assert f[73] == f[73..76][0] && f[74] == f[73..76][1] && f[75] == f[73..76][2];
    ReadHands(f, t);
  }

  /** Two different times never draw the same frame. */
  lemma FrameInjective(t1: LocalTime, t2: LocalTime)
    ensures Frame(t1) == Frame(t2) <==> t1 == t2
  {
    FrameRoundTrip(t1);
    FrameRoundTrip(t2);
  }
}

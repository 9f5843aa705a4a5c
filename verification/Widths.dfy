/**
 * The original's integers have widths and the model's have not: where the two agree, for
 * the date conversion (time.rs), the line loop (overlay.rs of radar-viz) and the index
 * lists (project.rs).
 */
module Widths {
  import opened Bytes
  import opened MapBundle
  import opened Projection
  import Calendar
  import LineDrawing

  const I32_MAX: int := 0x7FFF_FFFF
  const I32_MIN: int := -0x8000_0000
  const I64_MAX: int := 0x7FFF_FFFF_FFFF_FFFF
  const I64_MIN: int := -0x8000_0000_0000_0000
  const U32_END: int := 0x1_0000_0000

  predicate FitsI32(n: int) {
    I32_MIN <= n <= I32_MAX
  }

  predicate FitsI64(n: int) {
    I64_MIN <= n <= I64_MAX
  }

  predicate FitsU32(n: int) {
    0 <= n < U32_END
  }

  // ---------------------------------------------------------------- dates

  /** The shift of the epoch, the correction for negative days, the era and its first day, and the day in it. */
  predicate EraStepsFit(z: int) {
    var z1 := z + 719_468;
    var corrected := if z1 >= 0 then z1 else z1 - 146_096;
    var era := Calendar.TruncDiv(corrected, 146_097);
    && FitsI64(z1) && FitsI64(corrected) && FitsI64(era)
    && FitsI64(era * 146_097) && FitsI64(z1 - era * 146_097) && FitsI64(era * 400)
  }

  /** The smaller numbers worked out from the day of the era, and the year. */
  predicate YearStepsFit(era: int, doe: int) {
    var yoe := Calendar.YearOfEra(doe);
    var doy := doe - (365 * yoe + yoe / 4 - yoe / 100);
    && FitsI64(yoe) && FitsI64(365 * yoe) && FitsI64(yoe + era * 400) && FitsI64(yoe + era * 400 + 1)
    && FitsI64(doy) && FitsI64(5 * doy + 2) && FitsI64(153 * ((5 * doy + 2) / 153) + 2)
  }

  lemma YearStepsAlwaysFit(era: int, doe: int)
    requires 0 <= doe < 146_097 && -100_000_000_000_000 <= era <= 100_000_000_000_000
    ensures YearStepsFit(era, doe)
  {
    var s := Calendar.SplitDay(doe);
    Calendar.YearFound(s);
    Calendar.DayOfYear(s);
    hide Calendar.SplitDay, Calendar.YearOfEra;
    assert 0 <= Calendar.YearOf(s) <= 399;
  }

  /**
   * No step of the conversion leaves 64 bits, exactly up to 719 468 days before the last
   * one; beyond it the very first addition does. So it is not "valid for any i64".
   */
  lemma CivilFitsIff(z: int)
    requires FitsI64(z)
    ensures var z1 := z + 719_468;
            EraStepsFit(z) && YearStepsFit(z1 / 146_097, z1 % 146_097) <==> z <= I64_MAX - 719_468
  {
    var z1 := z + 719_468;
    Calendar.EraIsFloor(z1);
    if z <= I64_MAX - 719_468 {
      YearStepsAlwaysFit(z1 / 146_097, z1 % 146_097);
    }
    hide YearStepsFit, Calendar.TruncDiv;
  }

  /** The first day of a year begins it. */
  lemma YearFrom(z: int, y: int)
    ensures Calendar.CivilFromDays(z).year >= y <==> z >= Calendar.DaysOf(Calendar.Date(y, 1, 1))
  {
    hide Calendar.CivilFromDays, Calendar.DaysOf;
    var first := Calendar.Date(y, 1, 1);
    var at := Calendar.DaysOf(first);
    Calendar.CivilIsBijection(first, z);
    Calendar.CivilSuccessor(z);
    if z > at {
      Calendar.CivilIsMonotone(at, z);
    } else if z < at {
      Calendar.CivilIsMonotone(z, at);
    }
  }

  /** The cast of the year to 32 bits keeps it exactly between these two days. */
  lemma YearFitsIff(z: int)
    ensures FitsI32(Calendar.CivilFromDays(z).year) <==>
              Calendar.DaysOf(Calendar.Date(I32_MIN, 1, 1)) <= z < Calendar.DaysOf(Calendar.Date(I32_MAX + 1, 1, 1))
  {
    hide Calendar.CivilFromDays, Calendar.DaysOf;
    YearFrom(z, I32_MIN);
    YearFrom(z, I32_MAX + 1);
  }

  /** Every 16-bit radar date is far inside both ranges. */
  lemma RadarDatesFit(julianDate: nat)
    requires julianDate < 0x1_0000
    ensures var z := julianDate - 1;
            z <= I64_MAX - 719_468 && FitsI32(Calendar.CivilFromDays(z).year)
  {
    hide Calendar.CivilFromDays, Calendar.DaysOf;
    YearFrom(julianDate - 1, 1969);
    YearFrom(julianDate - 1, 2200);
    KnownDays();
  }

  lemma KnownDays()
    ensures Calendar.DaysOf(Calendar.Date(1969, 1, 1)) == -365
    ensures Calendar.DaysOf(Calendar.Date(2200, 1, 1)) > 0x1_0000
  {
  }

  // ---------------------------------------------------------------- lines

  /** The error term before, between and after the two steps of a turn, and its double. */
  predicate TurnFits(dx: nat, dy: nat, err: int) {
    && FitsI32(err) && FitsI32(2 * err) && FitsI32(-(dy as int))
    && FitsI32(err - dy) && FitsI32(err + dx) && FitsI32(err - dy + dx)
  }

  /** On every turn of a segment no longer than a third of the range, all of them fit 32 bits. */
  lemma LineFits(dx: nat, dy: nat, k: nat, i: nat, j: nat, err: int)
    requires LineDrawing.Turned(dx, dy, k, i, j, err) && k <= LineDrawing.Max(dx, dy)
    requires 3 * LineDrawing.Max(dx, dy) <= I32_MAX
    ensures TurnFits(dx, dy, err)
  {
    hide LineDrawing.Nearest, TurnFits;
    if dx >= dy && dx > 0 {
      LineDrawing.NearestIsClose(k, dx, dy);
      ErrorFits(dx, dy, k * dy, j * dx, err);
    } else if dx < dy {
      LineDrawing.NearestIsClose(k, dy, dx);
      ErrorFits(dx, dy, i * dy, k * dx, err);
    } else {
      NoLineFits();
    }
  }

  lemma NoLineFits()
    ensures TurnFits(0, 0, 0)
  {
  }

  /** `a` and `b` are the two products in the error term. */
  lemma ErrorFits(dx: nat, dy: nat, a: int, b: int, err: int)
    requires err == dx - dy - a + b && 3 * LineDrawing.Max(dx, dy) <= I32_MAX
    requires -(LineDrawing.Max(dx, dy) as int) <= 2 * (b - a) <= LineDrawing.Max(dx, dy)
    ensures TurnFits(dx, dy, err)
  {
  }

  /** And where one side exceeds the other by 2^30 or more, the first doubling does not fit. */
  lemma LongLineOverflows(dx: nat, dy: nat)
    requires dx >= dy + 0x4000_0000 || dy > dx + 0x4000_0000
    ensures LineDrawing.Turned(dx, dy, 0, 0, 0, dx - dy) && !TurnFits(dx, dy, dx - dy)
  {
    LineDrawing.Start(dx, dy);
  }

  // ---------------------------------------------------------------- index lists

  /** Everything cast to 32 bits keeps its value: the indices, the vertices counted, and the ranges. */
  predicate IndicesFit(r: Projected) {
    && FitsU32(|r.vertices|)
    && (forall i :: 0 <= i < |r.indices| ==> FitsU32(r.indices[i]))
    && (forall i :: 0 <= i < |r.layers| ==> FitsU32(r.layers[i].first) && FitsU32(r.layers[i].end))
  }

  /** A line with a segment has at least one for every two places. */
  lemma {:induction false} PlacesPerSegment(lines: seq<Polyline>)
    requires AllSegments(lines)
    ensures |Flatten(lines)| <= 2 * SegmentCount(lines)
  {
    if lines != [] {
      PlacesPerSegment(lines[..|lines| - 1]);
    }
  }

  lemma EndsInside(ranges: seq<ProjectedLayer>, end: nat, i: nat)
    requires Tile(ranges, end) && i < |ranges|
    ensures ranges[i].first <= ranges[i].end <= end
    decreases |ranges| - i
  {
    if i + 1 < |ranges| {
      EndsInside(ranges, end, i + 1);
    }
  }

  /** For any bundle, all of it fits 32 bits exactly when the number of indices does. */
  lemma IndicesFitIff(b: Bundle, utf8: seq<byte> -> bool, proj: Place -> World)
    ensures IndicesFit(ProjectionOf(b, utf8, proj)) <==> FitsU32(|ProjectionOf(b, utf8, proj).indices|)
  {
    hide Drawn, Layers, Labels, Flatten, Indices, Ranges;
    var r, lines := ProjectionOf(b, utf8, proj), Drawn(b, Layers(b));
    LayersTile(b, utf8, proj);
    PlacesPerSegment(lines);
    if FitsU32(|r.indices|) {
      forall i: nat | i < |r.indices|
        ensures FitsU32(r.indices[i])
      {
        var k, m := PairsAreSegments(b, utf8, proj, i / 2);
        assert i == 2 * (i / 2) || i == 2 * (i / 2) + 1;
      }
      forall i: nat | i < |r.layers|
        ensures FitsU32(r.layers[i].first) && FitsU32(r.layers[i].end)
      {
        EndsInside(r.layers, |r.indices|, i);
      }
    }
  }
}

/** What the slots, the cells and the events of a grid mean to whoever reads them. */
module GridMeaning {
  import opened Wrappers
  import opened Bytes
  import opened Radar
  import opened Grid

  // ---------------------------------------------------------------- azimuths

  /** The azimuth lies in bin `slot`, counted from north, some whole turns on or back. */
  ghost predicate Covers(slot: nat, azimuths: nat, azimuthDeg: real, turn: int)
    requires azimuths > 0
  {
    var spacing := 360.0 / azimuths as real;
    turn as real * 360.0 + slot as real * spacing <= azimuthDeg
    < turn as real * 360.0 + (slot + 1) as real * spacing
  }

  /** `q` is the whole part of `x / s`. */
  lemma FloorOfQuotient(x: real, s: real, q: int)
    requires s > 0.0
    ensures (x / s).Floor == q <==> q as real * s <= x < (q + 1) as real * s
  {
    AboveIff(x, s, q as real);
    AboveIff(x, s, (q + 1) as real);
  }

  lemma AboveIff(x: real, s: real, b: real)
    requires s > 0.0
    ensures b <= x / s <==> b * s <= x
  {
    var y := x / s;
    assert x == y * s;
    if b <= y {
      ScaleUp(b, y, s);
    } else {
      ScaleUpStrictly(y, b, s);
    }
  }

  lemma ScaleUp(a: real, b: real, s: real)
    requires a <= b && s > 0.0
    ensures a * s <= b * s
  {
  }

  lemma ScaleUpStrictly(a: real, b: real, s: real)
    requires a < b && s > 0.0
    ensures a * s < b * s
  {
  }

  /** Bin `turn * azimuths + slot` of the whole line is bin `slot` of its turn. */
  lemma BinOfTurn(azimuths: nat, turn: int, slot: int)
    requires azimuths > 0
    ensures var spacing := 360.0 / azimuths as real;
            (turn * azimuths + slot) as real * spacing == turn as real * 360.0 + slot as real * spacing
  {
    var n, t := azimuths as real, turn as real;
    var spacing := 360.0 / n;
    assert n * spacing == 360.0;
    assert (turn * azimuths) as real == t * n;
    assert (t * n) * spacing == t * (n * spacing);
    assert (t * n + slot as real) * spacing == (t * n) * spacing + slot as real * spacing;
  }

  lemma RemainderIs(f: int, n: nat, a: nat)
    requires a < n
    ensures f % n == a ==> f == f / n * n + a
    ensures forall t: int :: f == t * n + a ==> f % n == a
  {
    forall t: int | f == t * n + a
      ensures f % n == a
    {
      var q, r := f / n, f % n;
      assert f == q * n + r;
      if q < t {
        MulLeft(q + 1, t, n);
      } else if t < q {
        MulLeft(t + 1, q, n);
      }
    }
  }

  lemma MulLeft(a: int, b: int, n: nat)
    requires a <= b
    ensures a * n <= b * n
  {
  }

  /** Slot `slot` takes exactly the azimuths from `slot * spacing` up to the next slot, modulo a full turn. */
  lemma SlotCovers(azimuthDeg: real, azimuths: nat, slot: nat)
    requires slot < azimuths
    ensures AzimuthSlot(azimuthDeg, azimuths) == slot <==> exists turn: int :: Covers(slot, azimuths, azimuthDeg, turn)
  {
    var spacing := 360.0 / azimuths as real;
    var f := (azimuthDeg / spacing).Floor;
    RemainderIs(f, azimuths, slot);
    if AzimuthSlot(azimuthDeg, azimuths) == slot {
      CoveredInTurn(azimuthDeg, azimuths, slot, f / azimuths);
      assert Covers(slot, azimuths, azimuthDeg, f / azimuths);
    }
    if turn: int :| Covers(slot, azimuths, azimuthDeg, turn) {
      CoveredInTurn(azimuthDeg, azimuths, slot, turn);
    }
  }

  lemma CoveredInTurn(azimuthDeg: real, azimuths: nat, slot: nat, turn: int)
    requires azimuths > 0
    ensures Covers(slot, azimuths, azimuthDeg, turn) <==>
              (azimuthDeg / (360.0 / azimuths as real)).Floor == turn * azimuths + slot
  {
    BinOfTurn(azimuths, turn, slot);
    BinOfTurn(azimuths, turn, slot + 1);
    FloorOfQuotient(azimuthDeg, 360.0 / azimuths as real, turn * azimuths + slot);
  }

  // ---------------------------------------------------------------- products

  /** The geometry and the scale of a grid are those of the first radial that has the moment. */
  lemma {:induction false} FirstCarrierIs(rs: seq<Radial>, kind: ProductKind) returns (i: nat)
    requires FirstCarrier(rs, kind).Some?
    ensures i < |rs| && kind in rs[i].products && FirstCarrier(rs, kind) == Some(rs[i].products[kind])
    ensures forall j :: 0 <= j < i ==> kind !in rs[j].products
  {
    i := 0;
    if kind !in rs[0].products {
      i := FirstCarrierIs(rs[1..], kind);
      i := i + 1;
    }
  }

  predicate CanGrid(sweep: Sweep, kind: ProductKind) {
    var first := FirstCarrier(sweep.radials, kind);
    first.Some? && first.value.gateCount > 0 && first.value.gateWidthM > 0
  }

  /** Five products are gridded, each from the moment of its own kind; the two derived ones never are. */
  lemma GriddableIff(sweep: Sweep)
    ensures Griddable(sweep, Reflectivity) <==> CanGrid(sweep, Ref)
    ensures Griddable(sweep, Velocity) <==> CanGrid(sweep, Vel)
    ensures Griddable(sweep, Width) <==> CanGrid(sweep, SpectrumWidth)
    ensures Griddable(sweep, DiffReflectivity) <==> CanGrid(sweep, Zdr)
    ensures Griddable(sweep, Correlation) <==> CanGrid(sweep, Rho)
    ensures !Griddable(sweep, EchoTops) && !Griddable(sweep, Vil)
  {
  }

  // ---------------------------------------------------------------- values

  /** The value the grid gives for a gate with this code. */
  function GridValue(raw: nat, g: Geometry): Option<Quotient> {
    if g.wordSize == 16 then PhysicalOf(EncodeGate(raw, g), ZDR_SCALE, ZDR_OFFSET)
    else PhysicalOf(EncodeGate(raw, g), g.scale, g.offset)
  }

  /** The value the moment itself gives for it. */
  function OwnValue(raw: nat, d: ProductData): Option<Quotient> {
    PhysicalOf(raw, d.scale, d.offset)
  }

  lemma QuotientsDiffer(a: real, b: real, s: real)
    requires s != 0.0
    ensures (a + 1.0 - b) / s - (a - b) / s == 1.0 / s
  {
  }

  /**
   * A radial is gridded with the scale and offset of the first one that has its moment,
   * which nothing compares with its own. Its 8-bit codes read as its own values exactly
   * when both are equal.
   */
  lemma EightBitExactIff(d: ProductData, g: Geometry)
    requires g.wordSize == 8 && g.scale != 0.0 && d.scale != 0.0
    ensures (forall raw: nat :: raw < 256 ==> GridValue(raw, g) == OwnValue(raw, d)) <==>
              d.scale == g.scale && d.offset == g.offset
  {
    if forall raw: nat :: raw < 256 ==> GridValue(raw, g) == OwnValue(raw, d) {
      assert GridValue(2, g) == OwnValue(2, d) && GridValue(3, g) == OwnValue(3, d);
      assert (2.0 - g.offset) / g.scale == (2.0 - d.offset) / d.scale;
      assert (3.0 - g.offset) / g.scale == (3.0 - d.offset) / d.scale;
      QuotientsDiffer(2.0, g.offset, g.scale);
      QuotientsDiffer(2.0, d.offset, d.scale);
      SameReciprocal(g.scale, d.scale);
      SameQuotient(2.0 - g.offset, 2.0 - d.offset, g.scale);
    }
  }

  lemma SameReciprocal(a: real, b: real)
    requires a != 0.0 && b != 0.0 && 1.0 / a == 1.0 / b
    ensures a == b
  {
    var r := 1.0 / a;
    assert r * a == 1.0 && r * b == 1.0;
    assert r * (a - b) == 0.0;
  }

  lemma SameQuotient(a: real, b: real, s: real)
    requires s != 0.0 && a / s == b / s
    ensures a == b
  {
    assert a == (a / s) * s && b == (b / s) * s;
  }

  /** So the cell of the last radial in a slot shows that radial's own value, if the two agree. */
  lemma CellShowsOwnValue(rs: seq<Radial>, i: nat, kind: ProductKind, g: Geometry, azimuths: nat, slot: nat, gate: nat)
    requires azimuths > 0 && gate < g.gateCount && g.wordSize == 8
    requires forall k :: 0 <= k < |rs| && kind in rs[k].products ==> Decoded(rs[k].products[kind])
    requires IsLastIn(rs, i, kind, g, azimuths, slot)
    ensures var d := rs[i].products[kind];
            var raw, cell := RawGate(d, gate), CellAt(rs, kind, g, azimuths, slot, gate);
            var shown := PhysicalOf(cell, g.scale, g.offset);
            && raw.Some? && raw.value < 256 && shown == GridValue(raw.value, g)
            && (d.scale == g.scale && d.offset == g.offset ==> shown == OwnValue(raw.value, d))
  {
    hide CellAt, AzimuthSlot;
    CellIsLastWriter(rs, kind, g, azimuths, slot, gate);
    WriterFills(rs, i, kind, g, azimuths, slot);
    assert slot in SlotsFilled(rs, kind, g, azimuths);
    var k: nat :| LastGate(rs, k, kind, g, azimuths, slot, gate);
    assert k == i;
    assert Consistent(rs[i], kind, g);
  }

  lemma {:induction false} WriterFills(rs: seq<Radial>, i: nat, kind: ProductKind, g: Geometry,
                                       azimuths: nat, slot: nat)
    requires azimuths > 0 && i < |rs| && Writes(rs[i], kind, g, azimuths, slot)
    ensures slot in SlotsFilled(rs, kind, g, azimuths)
    decreases |rs|
  {
    hide AzimuthSlot;
    if i < |rs| - 1 {
      WriterFills(rs[..|rs| - 1], i, kind, g, azimuths, slot);
    }
  }

  /**
   * The 16-bit case, where codes are requantised: under the same condition a value in the
   * display range is shown within 8/253 dB.
   */
  lemma SixteenBitIsClose(raw: nat, d: ProductData, g: Geometry)
    requires g.wordSize == 16 && g.scale != 0.0 && d.scale == g.scale && d.offset == g.offset && raw >= 2
    requires ZDR_MIN <= (raw as real - d.offset) / d.scale <= ZDR_MAX
    ensures var shown, own := GridValue(raw, g), OwnValue(raw, d);
            && shown.Some? && shown.value.Finite? && own.Some? && own.value.Finite?
            && -8.0 / 253.0 <= shown.value.value - own.value.value <= 8.0 / 253.0
  {
    ZdrDecodesClosely((raw as real - d.offset) / d.scale);
  }

  /** A moment with one gate of this code. */
  function OneGate(raw: byte, gateWidthM: nat, scale: real, offset: real): ProductData {
    ProductData(1, 0, gateWidthM, 8, scale, offset, [raw])
  }

  /** A reflectivity radial due north; only its moment is of interest. */
  function North(d: ProductData): Radial {
    Radial([75, 68, 79, 88], 0, 0, 0.5, 0.5, 2, Intermediate, 1, None, None, None, map[Ref := d])
  }

  /**
   * For instance: two radials in one slot whose scales are 2 and 4. The second one is taken
   * as consistent, and its code 100 shows as 17 where the radial itself says 8.5.
   */
  lemma SecondScaleIsIgnored()
    ensures var first, second := OneGate(100, 250, 2.0, 66.0), OneGate(100, 250, 4.0, 66.0);
            var rs, g := [North(first), North(second)], GeometryOf(first);
            && FirstCarrier(rs, Ref) == Some(first) && Consistent(rs[1], Ref, g)
            && AzimuthSlot(rs[1].azimuthDeg, 360) == 0
            && CellAt(rs, Ref, g, 360, 0, 0) == 100
            && PhysicalOf(100, g.scale, g.offset) == Some(Finite(17.0))
            && OwnValue(RawGate(second, 0).value, second) == Some(Finite(8.5))
  {
    var first, second := OneGate(100, 250, 2.0, 66.0), OneGate(100, 250, 4.0, 66.0);
    var rs, g := [North(first), North(second)], GeometryOf(first);
    assert RawGate(second, 0) == Some(100);
    assert 360.0 / 360 as real == 1.0;
    assert AzimuthSlot(0.5, 360) == 0;
    assert Writes(rs[1], Ref, g, 360, 0);
  }

  /** The flag codes survive requantisation, and a data code turns into one exactly for a value that is not a number. */
  lemma FlagsSurvive(raw: nat, g: Geometry)
    requires g.wordSize == 16 && raw < 0x1_0000
    ensures EncodeGate(raw, g) < 2 <==> raw < 2 || (g.scale == 0.0 && raw as real == g.offset)
    ensures raw < 2 ==> EncodeGate(raw, g) == raw
  {
    hide QuantiseZdr;
  }

  // ---------------------------------------------------------------- gates

  /** Big-endian words, one after the other. */
  function Words(gates: seq<nat>): (r: seq<byte>)
    requires forall i :: 0 <= i < |gates| ==> gates[i] < 0x1_0000
    ensures |r| == 2 * |gates|
  {
    if gates == [] then []
    else
      var n := |gates| - 1;
      Words(gates[..n]) + [gates[n] / 256, gates[n] % 256]
  }

  /** Gates laid out as octets or as words are read back each at its own index. */
  lemma {:induction false} GatesReadBack(d: ProductData, gates: seq<nat>, i: nat)
    requires i < |gates| && forall k :: 0 <= k < |gates| ==> gates[k] < 0x1_0000
    ensures d.wordSize == 16 && d.data == Words(gates) ==> RawGate(d, i) == Some(gates[i])
    ensures d.wordSize == 8 && |d.data| == |gates| && (forall k :: 0 <= k < |gates| ==> d.data[k] == gates[k]) ==>
              RawGate(d, i) == Some(gates[i])
    decreases |gates|
  {
    var n := |gates| - 1;
    if i < n && d.wordSize == 16 && d.data == Words(gates) {
      GatesReadBack(d.(data := Words(gates[..n])), gates[..n], i);
    }
  }

  // ---------------------------------------------------------------- events

  /** The events the caller of the gridder gets: none at all when there is no grid. */
  ghost predicate Reported(sweep: Sweep, product: DisplayProduct, r: Option<Gridded>, code: Option<nat>, e: GridEvent) {
    r.Some? && Griddable(sweep, product) && GriddedAs(sweep, product, code, r.value) && e in r.value.events
  }

  /**
   * Which events reach the caller: a degenerate geometry never does; an unknown spacing
   * code, skipped radials and slots hit twice do exactly when there is a grid to go with them.
   */
  lemma ReportedIff(sweep: Sweep, product: DisplayProduct, r: Option<Gridded>, code: Option<nat>)
    requires r.Some? <==> Griddable(sweep, product)
    requires r.Some? ==> GriddedAs(sweep, product, code, r.value)
    ensures !Reported(sweep, product, r, code, DegenerateGateGeometry(product, sweep.elevationNumber))
    ensures Reported(sweep, product, r, code,
                     UnknownAzimuthSpacingCode(sweep.elevationNumber, AzimuthsFor(code, |sweep.radials|))) <==>
              Griddable(sweep, product) && code != Some(1) && code != Some(2)
    ensures Griddable(sweep, product) ==>
              var kind := SourceMoment(product).value;
              var g := GeometryOf(FirstCarrier(sweep.radials, kind).value);
              var skipped, duplicates := SkippedCount(sweep, kind, g),
                DuplicateCount(sweep, kind, g, r.value.grid.azimuthCount);
              && skipped >= 0 && duplicates >= 0
              && (Reported(sweep, product, r, code, InconsistentGateGeometry(product, sweep.elevationNumber, skipped))
                  <==> skipped > 0)
              && (Reported(sweep, product, r, code, DuplicateAzimuthSlot(product, sweep.elevationNumber, duplicates))
                  <==> duplicates > 0)
  {
    hide CellAt, SlotsFilled, ConsistentCount, CarrierCount;
    if Griddable(sweep, product) {
      var kind := SourceMoment(product).value;
      var g := GeometryOf(FirstCarrier(sweep.radials, kind).value);
      var azimuths := AzimuthsFor(code, |sweep.radials|);
      var skipped, duplicates := SkippedCount(sweep, kind, g), DuplicateCount(sweep, kind, g, azimuths);
      if skipped > 0 {
        assert CountEvents(sweep, product, skipped, duplicates)[0]
               == InconsistentGateGeometry(product, sweep.elevationNumber, skipped);
      }
      if duplicates > 0 {
        var counts := CountEvents(sweep, product, skipped, duplicates);
        assert counts[|counts| - 1] == DuplicateAzimuthSlot(product, sweep.elevationNumber, duplicates);
      }
    }
  }

  /** For instance: a sweep of one radial whose gates have no width gives no grid, and so no event. */
  lemma DegenerateIsSilent(r: Option<Gridded>, code: Option<nat>, e: GridEvent)
    ensures var d := OneGate(100, 0, 2.0, 66.0);
            var sweep := Sweep(1, 0.5, None, None, [North(d)], true);
            && FirstCarrier(sweep.radials, Ref) == Some(d) && d.gateWidthM == 0
            && !Griddable(sweep, Reflectivity)
            && !Reported(sweep, Reflectivity, r, code, e)
  {
  }
}

/** What the spacing codes mean: how many rows a sweep gets, and that a full turn fills each of them once. */
module GridTurns {
  import opened Wrappers
  import opened Bytes
  import opened Radar
  import opened Grid
  import opened GridMeaning

  /** All radials name the same code, so that is the modal one. */
  lemma {:induction false} OnlyCode(rs: seq<Radial>, c: nat, code: nat)
    requires forall i :: 0 <= i < |rs| ==> rs[i].azimuthSpacingCode == c
    ensures CodeCount(rs, code) == if code == c then |rs| else 0
  {
    if rs != [] {
      OnlyCode(rs[..|rs| - 1], c, code);
    }
  }

  /**
   * How many rows: code 1 is for half a degree, code 2 for one; for any other code it is
   * told from the number of radials, and reported with the number of rows.
   */
  lemma RowsOfCode(sweep: Sweep, product: DisplayProduct, code: Option<nat>, made: Gridded)
    requires Griddable(sweep, product) && GriddedAs(sweep, product, code, made)
    ensures var rows := made.grid.azimuthCount;
            && (rows as real * 0.5 == 360.0 || rows as real * 1.0 == 360.0)
            && (code == Some(1) ==> rows as real * 0.5 == 360.0)
            && (code == Some(2) ==> rows as real * 1.0 == 360.0)
            && (code != Some(1) && code != Some(2) ==>
                  && (rows as real * 0.5 == 360.0 <==> |sweep.radials| >= 540)
                  && UnknownAzimuthSpacingCode(sweep.elevationNumber, rows) in made.events)
            && (code == Some(1) || code == Some(2) ==>
                  forall e :: e in made.events ==> !e.UnknownAzimuthSpacingCode?)
  {
  }

  /** A sweep whose radials all name one code is gridded by it. */
  lemma CodeTaken(sweep: Sweep, c: nat, code: Option<nat>)
    requires forall i :: 0 <= i < |sweep.radials| ==> sweep.radials[i].azimuthSpacingCode == c
    requires code.Some? && IsModal(sweep.radials, code.value)
    ensures code == Some(c)
  {
    OnlyCode(sweep.radials, c, code.value);
  }

  /** The azimuth stands in the middle of bin `bin`, counted in steps from north. */
  predicate InMiddle(azimuthDeg: real, bin: nat, step: real) {
    azimuthDeg == (bin as real + 0.5) * step
  }

  /** Each radial in the middle of a bin of its own. */
  predicate OneInEach(rs: seq<Radial>, bins: seq<nat>, step: real) {
    && |bins| == |rs|
    && (forall i :: 0 <= i < |rs| ==> InMiddle(rs[i].azimuthDeg, bins[i], step))
    && (forall i, j :: 0 <= i < j < |bins| ==> bins[i] != bins[j])
  }

  predicate Steps(rows: nat, step: real) {
    (rows == 720 && step == 0.5) || (rows == 360 && step == 1.0)
  }

  lemma MiddleSlot(azimuthDeg: real, bin: nat, rows: nat, step: real)
    requires bin < rows && InMiddle(azimuthDeg, bin, step)
    requires Steps(rows, step)
    ensures AzimuthSlot(azimuthDeg, rows) == bin
  {
    assert 360.0 / rows as real == step;
    assert Covers(bin, rows, azimuthDeg, 0);
    SlotCovers(azimuthDeg, rows, bin);
  }

  function BinsOf(bins: seq<nat>): set<nat> {
    set i | 0 <= i < |bins| :: bins[i]
  }

  lemma {:induction false} AllFilled(rs: seq<Radial>, kind: ProductKind, g: Geometry, bins: seq<nat>, rows: nat,
                                     step: real)
    requires forall i :: 0 <= i < |rs| ==> Consistent(rs[i], kind, g)
    requires OneInEach(rs, bins, step) && forall i :: 0 <= i < |bins| ==> bins[i] < rows
    requires Steps(rows, step)
    ensures SlotsFilled(rs, kind, g, rows) == BinsOf(bins) && |BinsOf(bins)| == |rs|
    ensures ConsistentCount(rs, kind, g) == CarrierCount(rs, kind) == |rs|
  {
    if rs != [] {
      hide Consistent, SlotsFilled, BinsOf, ConsistentCount, CarrierCount, Steps;
      var n := |rs| - 1;
      FrontInEach(rs, bins, step);
      hide OneInEach;
      MiddleSlot(rs[n].azimuthDeg, bins[n], rows, step);
      AllFilled(rs[..n], kind, g, bins[..n], rows, step);
      OneMoreFilled(rs, kind, g, rows);
      OneMoreBin(bins);
    }
  }

  lemma FrontInEach(rs: seq<Radial>, bins: seq<nat>, step: real)
    requires OneInEach(rs, bins, step) && rs != []
    ensures var n := |rs| - 1;
            && OneInEach(rs[..n], bins[..n], step) && |bins| == |rs| && InMiddle(rs[n].azimuthDeg, bins[n], step)
            && forall i, j :: 0 <= i < j < |bins| ==> bins[i] != bins[j]
  {
    hide InMiddle;
  }

  lemma OneMoreFilled(rs: seq<Radial>, kind: ProductKind, g: Geometry, rows: nat)
    requires rs != [] && rows > 0 && Consistent(rs[|rs| - 1], kind, g)
    ensures var n := |rs| - 1;
            && SlotsFilled(rs, kind, g, rows)
               == SlotsFilled(rs[..n], kind, g, rows) + {AzimuthSlot(rs[n].azimuthDeg, rows)}
            && ConsistentCount(rs, kind, g) == ConsistentCount(rs[..n], kind, g) + 1
            && CarrierCount(rs, kind) == CarrierCount(rs[..n], kind) + 1
  {
    hide AzimuthSlot;
  }

  lemma OneMoreBin(bins: seq<nat>)
    requires bins != [] && forall i, j :: 0 <= i < j < |bins| ==> bins[i] != bins[j]
    ensures var n := |bins| - 1;
            BinsOf(bins) == BinsOf(bins[..n]) + {bins[n]} && |BinsOf(bins)| == |BinsOf(bins[..n])| + 1
  {
    var n := |bins| - 1;
    assert forall i :: 0 <= i < n ==> bins[..n][i] == bins[i];
    assert BinsOf(bins) == BinsOf(bins[..n]) + {bins[n]};
    assert bins[n] !in BinsOf(bins[..n]);
  }

  /**
   * Radials of one geometry, at the middles of different half-degree steps under code 1,
   * or one-degree steps under code 2, each fill a row of their own: none is skipped, none
   * falls on another, and no event says so.
   */
  lemma TurnFillsRows(sweep: Sweep, product: DisplayProduct, code: Option<nat>, made: Gridded, bins: seq<nat>)
    requires Griddable(sweep, product) && GriddedAs(sweep, product, code, made)
    requires code == Some(1) || code == Some(2)
    requires var step := if code == Some(1) then 0.5 else 1.0;
             && OneInEach(sweep.radials, bins, step)
             && forall i :: 0 <= i < |bins| ==> bins[i] as real * step < 360.0
    requires var kind := SourceMoment(product).value;
             var g := GeometryOf(FirstCarrier(sweep.radials, kind).value);
             forall i :: 0 <= i < |sweep.radials| ==> Consistent(sweep.radials[i], kind, g)
    ensures made.grid.filledAzimuths == |sweep.radials| && made.events == []
  {
    var kind := SourceMoment(product).value;
    var g := GeometryOf(FirstCarrier(sweep.radials, kind).value);
    var rows, step := made.grid.azimuthCount, if code == Some(1) then 0.5 else 1.0;
    assert rows == if code == Some(1) then 720 else 360;
    hide Griddable, CellAt, OneInEach;
    AllFilled(sweep.radials, kind, g, bins, rows, step);
  }

  /** The gates of each such radial stand in the row of its own step. */
  lemma TurnKeepsRadials(sweep: Sweep, kind: ProductKind, g: Geometry, bins: seq<nat>, rows: nat, step: real,
                         i: nat, gate: nat)
    requires Steps(rows, step)
    requires OneInEach(sweep.radials, bins, step) && forall k :: 0 <= k < |bins| ==> bins[k] < rows
    requires forall k :: 0 <= k < |sweep.radials| ==>
               Consistent(sweep.radials[k], kind, g) && Decoded(sweep.radials[k].products[kind])
    requires i < |sweep.radials| && gate < g.gateCount
    ensures kind in sweep.radials[i].products
    ensures var raw := RawGate(sweep.radials[i].products[kind], gate);
            raw.Some? && CellAt(sweep.radials, kind, g, rows, bins[i], gate) == EncodeGate(raw.value, g)
  {
    hide CellAt, AzimuthSlot, InMiddle, EncodeGate, RawGate;
    var rs := sweep.radials;
    forall k: nat | k < |rs|
      ensures AzimuthSlot(rs[k].azimuthDeg, rows) == bins[k]
    {
      MiddleSlot(rs[k].azimuthDeg, bins[k], rows, step);
    }
    assert IsLastIn(rs, i, kind, g, rows, bins[i]);
    CellIsLastWriter(rs, kind, g, rows, bins[i], gate);
    WriterFills(rs, i, kind, g, rows, bins[i]);
    var k: nat :| LastGate(rs, k, kind, g, rows, bins[i], gate);
    assert k == i;
  }
}

/**
 * Gridding a closed sweep (crates/radar-workstation/src/compute/grid.rs), with the raw
 * gates it reads (crates/nexrad-decoder/src/types/product.rs).
 */
module Grid {
  import opened Wrappers
  import opened Bytes
  import opened Radar

  datatype DisplayProduct = Reflectivity | Velocity | Width | DiffReflectivity | Correlation | EchoTops | Vil

  function SourceMoment(p: DisplayProduct): Option<ProductKind> {
    match p
    case Reflectivity => Some(Ref)
    case Velocity => Some(Vel)
    case Width => Some(SpectrumWidth)
    case DiffReflectivity => Some(Zdr)
    case Correlation => Some(Rho)
    case EchoTops => None
    case Vil => None
  }

  datatype SweepGrid = SweepGrid(
    product: DisplayProduct, azimuthCount: nat, gateCount: nat, firstGateM: nat, gateWidthM: nat,
    elevationNumber: nat, elevationDeg: real, nyquistVelocityMps: Option<real>, scale: real, offset: real,
    cells: seq<byte>, filledAzimuths: nat)

  // ---------------------------------------------------------------- raw gates

  function RawGate(d: ProductData, i: nat): (r: Option<nat>)
    ensures r.Some? && d.wordSize == 8 ==> r.value < 256
  {
    if d.wordSize == 8 then
      if i < |d.data| then Some(d.data[i]) else None
    else if d.wordSize == 16 then
      if 2 * i + 1 < |d.data| then Some(d.data[2 * i] as int * 256 + d.data[2 * i + 1] as int) else None
    else None
  }

  /** A quotient of floating-point numbers, but for rounding; a zero divisor is the positive zero. */
  datatype Quotient = Finite(value: real) | Infinite(positive: bool) | NotANumber

  function Divide(n: real, d: real): Quotient {
    if d != 0.0 then Finite(n / d) else if n == 0.0 then NotANumber else Infinite(n > 0.0)
  }

  /** The two lowest codes are flags, not data. */
  function PhysicalOf(raw: nat, scale: real, offset: real): Option<Quotient> {
    if raw < 2 then None else Some(Divide(raw as real - offset, scale))
  }

  /** What the decoder guarantees of a moment: a whole number of gates, each one word. */
  predicate Decoded(d: ProductData) {
    (d.wordSize == 8 || d.wordSize == 16) && |d.data| == d.gateCount * (d.wordSize / 8)
  }

  // ---------------------------------------------------------------- encoding one gate

  const ZDR_MIN: real := -8.0
  const ZDR_MAX: real := 8.0
  const ZDR_SCALE: real := 253.0 / (ZDR_MAX - ZDR_MIN)
  const ZDR_OFFSET: real := 2.0 - ZDR_MIN * ZDR_SCALE

  /** Rounds to the nearest integer, halves away from zero. */
  function Round(x: real): int {
    if x >= 0.0 then (x + 0.5).Floor else -((-x + 0.5).Floor)
  }

  /** The display level `physical` falls on, before it is clamped. */
  function LevelOf(physical: real): real {
    2.0 + (physical - ZDR_MIN) * ZDR_SCALE
  }

  function QuantiseZdr(physical: real): (cell: byte)
    ensures 2 <= cell
  {
    var cell := Round(LevelOf(physical));
    if cell < 2 then 2 else if cell > 255 then 255 else cell
  }

  /** Infinities are clamped; what is not a number is cast to 0. */
  function Requantise(q: Quotient): byte {
    match q
    case Finite(physical) => QuantiseZdr(physical)
    case Infinite(positive) => if positive then 255 else 2
    case NotANumber => 0
  }

  /** No other data level is nearer to the value. */
  lemma ZdrTakesNearest(physical: real, level: int)
    requires 2 <= level <= 255
    ensures var v, cell := LevelOf(physical), QuantiseZdr(physical) as real;
            Square(cell - v) <= Square(level as real - v)
  {
    var v, cell := LevelOf(physical), QuantiseZdr(physical) as int;
    var rounded := Round(v);
    assert -0.5 <= rounded as real - v <= 0.5;
    if level < cell {
      NearerSquares(cell as real - v, level as real - v);
    } else if level > cell {
      NearerSquares(v - cell as real, v - level as real);
    }
  }

  function Square(x: real): real {
    x * x
  }

  lemma Expand(x: real, y: real, xx: real, yy: real, xy: real)
    requires xx == x * x && yy == y * y && xy == x * y
    ensures (x - y) * (-x - y) == yy - xx
  {
    var turned := -x - y;
    assert x * turned == -xx - xy;
    assert y * turned == -xy - yy;
  }

  lemma NearerSquares(near: real, far: real)
    requires far <= near - 1.0 && near <= 0.5
    ensures Square(near) <= Square(far)
  {
    var gap, turned := near - far, -near - far;
    assert gap >= 0.0 && turned >= 0.0;
    assert Square(far) - Square(near) == gap * turned by {
      Expand(near, far, near * near, far * far, near * far);
    }
  }

  datatype Geometry = Geometry(
    gateCount: nat, firstGateM: nat, gateWidthM: nat, wordSize: nat, scale: real, offset: real)

  function GeometryOf(d: ProductData): Geometry {
    Geometry(d.gateCount, d.firstGateM, d.gateWidthM, d.wordSize, d.scale, d.offset)
  }

  function EncodeGate(raw: nat, g: Geometry): byte {
    if g.wordSize != 16 || raw < 2 then raw % 256
    else Requantise(Divide(raw as real - g.offset, g.scale))
  }

  /** 16-bit values inside the display range come back within half a quantisation step. */
  lemma ZdrDecodesClosely(p: real)
    requires ZDR_MIN <= p <= ZDR_MAX
    ensures var back := PhysicalOf(QuantiseZdr(p), ZDR_SCALE, ZDR_OFFSET);
            back.Some? && back.value.Finite? && -8.0 / 253.0 <= back.value.value - p <= 8.0 / 253.0
  {
    assert ZDR_SCALE == 253.0 / 16.0;
    var v := LevelOf(p);
    assert v == 2.0 + (p + 8.0) * (253.0 / 16.0);
    assert 2.0 <= v <= 255.0;
    var cell := QuantiseZdr(p);
    assert -0.5 <= cell as real - v <= 0.5;
    var back := PhysicalOf(cell, ZDR_SCALE, ZDR_OFFSET).value.value;
    assert back * ZDR_SCALE == cell as real - ZDR_OFFSET;
    assert (back - p) * ZDR_SCALE == cell as real - v;
  }

  /** Outside the range the nearest end of the display range is shown. */
  lemma ZdrSaturates(p: real)
    ensures p <= ZDR_MIN ==> QuantiseZdr(p) == 2
    ensures p >= ZDR_MAX ==> QuantiseZdr(p) == 255
  {
    assert ZDR_SCALE == 253.0 / 16.0;
    var v := LevelOf(p);
    if p <= ZDR_MIN {
      assert v <= 2.0;
    }
    if p >= ZDR_MAX {
      assert v >= 255.0;
    }
  }

  // ---------------------------------------------------------------- azimuth slots

  function AzimuthSlot(azimuthDeg: real, azimuthCount: nat): (slot: nat)
    requires azimuthCount > 0
    ensures slot < azimuthCount
  {
    var spacing := 360.0 / azimuthCount as real;
    (azimuthDeg / spacing).Floor % azimuthCount
  }

  function CodeCount(radials: seq<Radial>, code: nat): nat {
    if radials == [] then 0
    else CodeCount(radials[..|radials| - 1], code)
         + if radials[|radials| - 1].azimuthSpacingCode == code then 1 else 0
  }

  /** `code` is the spacing code of at least as many radials as any other. */
  ghost predicate IsModal(radials: seq<Radial>, code: nat) {
    CodeCount(radials, code) > 0 && forall c: nat :: CodeCount(radials, c) <= CodeCount(radials, code)
  }

  function AzimuthsFor(code: Option<nat>, radialCount: nat): nat {
    if code == Some(1) then 720
    else if code == Some(2) then 360
    else if radialCount >= 540 then 720 else 360
  }

  lemma {:induction false} CodeCountZero(radials: seq<Radial>, code: nat)
    requires forall i :: 0 <= i < |radials| ==> radials[i].azimuthSpacingCode != code
    ensures CodeCount(radials, code) == 0
  {
    if radials != [] {
      CodeCountZero(radials[..|radials| - 1], code);
    }
  }

  /** Tallies the codes and picks one that no other outnumbers; a tie goes either way. */
  method ModalAzimuthCount(sweep: Sweep) returns (n: nat, event: seq<GridEvent>, code: Option<nat>)
    ensures n == AzimuthsFor(code, |sweep.radials|) && event == SpacingEvents(sweep, code)
    ensures (code == Some(1) ==> n == 720) && (code == Some(2) ==> n == 360)
    ensures sweep.radials == [] <==> code.None?
    ensures code.Some? ==> IsModal(sweep.radials, code.value)
  {
    var rs := sweep.radials;
    var counts: map<nat, nat> := map[];
    for i := 0 to |rs|
      invariant Tallied(rs[..i], counts)
      invariant counts == map[] <==> i == 0
    {
      var c := rs[i].azimuthSpacingCode;
      TallyOne(rs, i, counts);
      counts := counts[c := (if c in counts then counts[c] else 0) + 1];
      assert c in counts;
    }
    assert rs[..|rs|] == rs;
    if counts == map[] {
      return AzimuthsFor(None, |rs|), SpacingEvents(sweep, None), None;
    }
    LargestExists(counts, counts.Keys);
    var modal :| modal in counts && forall c :: c in counts ==> counts[c] <= counts[modal];
    return AzimuthsFor(Some(modal), |rs|), SpacingEvents(sweep, Some(modal)), Some(modal);
  }

  ghost predicate Tallied(radials: seq<Radial>, counts: map<nat, nat>) {
    && (forall c: nat :: CodeCount(radials, c) == if c in counts then counts[c] else 0)
    && forall c: nat :: c in counts ==> counts[c] > 0
  }

  lemma TallyOne(rs: seq<Radial>, i: nat, counts: map<nat, nat>)
    requires i < |rs| && Tallied(rs[..i], counts)
    ensures var c := rs[i].azimuthSpacingCode;
            Tallied(rs[..i + 1], counts[c := (if c in counts then counts[c] else 0) + 1])
  {
    assert rs[..i + 1][..i] == rs[..i];
  }

  lemma {:induction false} LargestExists(m: map<nat, nat>, keys: set<nat>)
    requires keys != {} && keys <= m.Keys
    ensures exists k :: k in keys && forall c :: c in keys ==> m[c] <= m[k]
  {
    var k0 :| k0 in keys;
    var rest := keys - {k0};
    if rest == {} {
      assert keys == {k0};
    } else {
      LargestExists(m, rest);
      var k :| k in rest && forall c :: c in rest ==> m[c] <= m[k];
      var best := if m[k0] >= m[k] then k0 else k;
      assert forall c :: c in keys ==> c == k0 || c in rest;
      assert best in keys && forall c :: c in keys ==> m[c] <= m[best];
    }
  }

  // ---------------------------------------------------------------- what each cell must hold

  predicate Consistent(r: Radial, kind: ProductKind, g: Geometry) {
    && kind in r.products
    && r.products[kind].gateCount == g.gateCount
    && r.products[kind].firstGateM == g.firstGateM
    && r.products[kind].gateWidthM == g.gateWidthM
    && r.products[kind].wordSize == g.wordSize
  }

  /** The radial is one the grid takes, and it falls in `slot`. */
  predicate Writes(r: Radial, kind: ProductKind, g: Geometry, azimuths: nat, slot: nat)
    requires azimuths > 0
  {
    Consistent(r, kind, g) && AzimuthSlot(r.azimuthDeg, azimuths) == slot
  }

  /** The gate of the last radial in `slot` that has it; 0 where there is none. */
  function CellAt(rs: seq<Radial>, kind: ProductKind, g: Geometry, azimuths: nat, slot: nat, gate: nat): byte
    requires azimuths > 0
  {
    if rs == [] then 0
    else
      var r := rs[|rs| - 1];
      if Writes(r, kind, g, azimuths, slot) && RawGate(r.products[kind], gate).Some?
      then EncodeGate(RawGate(r.products[kind], gate).value, g)
      else CellAt(rs[..|rs| - 1], kind, g, azimuths, slot, gate)
  }

  function SlotsFilled(rs: seq<Radial>, kind: ProductKind, g: Geometry, azimuths: nat): (slots: set<nat>)
    requires azimuths > 0
    ensures forall s :: s in slots ==> s < azimuths
  {
    if rs == [] then {}
    else
      var before, r := SlotsFilled(rs[..|rs| - 1], kind, g, azimuths), rs[|rs| - 1];
      if Consistent(r, kind, g) then before + {AzimuthSlot(r.azimuthDeg, azimuths)} else before
  }

  function ConsistentCount(rs: seq<Radial>, kind: ProductKind, g: Geometry): nat {
    if rs == [] then 0
    else ConsistentCount(rs[..|rs| - 1], kind, g) + if Consistent(rs[|rs| - 1], kind, g) then 1 else 0
  }

  function CarrierCount(rs: seq<Radial>, kind: ProductKind): nat {
    if rs == [] then 0
    else CarrierCount(rs[..|rs| - 1], kind) + if kind in rs[|rs| - 1].products then 1 else 0
  }

  function FirstCarrier(rs: seq<Radial>, kind: ProductKind): (r: Option<ProductData>)
    ensures r.Some? <==> exists i :: 0 <= i < |rs| && kind in rs[i].products
  {
    if rs == [] then None
    else if kind in rs[0].products then Some(rs[0].products[kind])
    else
      assert forall i :: 0 < i < |rs| ==> rs[i] == rs[1..][i - 1];
      FirstCarrier(rs[1..], kind)
  }

  // ---------------------------------------------------------------- the gridder

  datatype GridEvent =
    | UnknownAzimuthSpacingCode(elevationNumber: nat, inferred: nat)
    | DegenerateGateGeometry(product: DisplayProduct, elevationNumber: nat)
    | InconsistentGateGeometry(product: DisplayProduct, elevationNumber: nat, skipped: nat)
    | DuplicateAzimuthSlot(product: DisplayProduct, elevationNumber: nat, count: nat)

  /** A grid is only ever returned together with the events of its making. */
  datatype Gridded = Gridded(grid: SweepGrid, events: seq<GridEvent>)

  /** The event for a modal code that is neither of the two known ones. */
  function SpacingEvents(sweep: Sweep, code: Option<nat>): seq<GridEvent> {
    if code == Some(1) || code == Some(2) then []
    else [UnknownAzimuthSpacingCode(sweep.elevationNumber, AzimuthsFor(code, |sweep.radials|))]
  }

  function CountEvents(sweep: Sweep, product: DisplayProduct, skipped: nat, duplicates: nat): seq<GridEvent> {
    (if skipped > 0 then [InconsistentGateGeometry(product, sweep.elevationNumber, skipped)] else [])
    + if duplicates > 0 then [DuplicateAzimuthSlot(product, sweep.elevationNumber, duplicates)] else []
  }

  /** There is a moment to grid and its geometry can be used. */
  predicate Griddable(sweep: Sweep, product: DisplayProduct) {
    && SourceMoment(product).Some?
    && var first := FirstCarrier(sweep.radials, SourceMoment(product).value);
    first.Some? && first.value.gateWidthM != 0 && first.value.gateCount != 0
  }

  /** How many radials have the moment in another geometry than the first one that has it. */
  function SkippedCount(sweep: Sweep, kind: ProductKind, g: Geometry): int {
    CarrierCount(sweep.radials, kind) - ConsistentCount(sweep.radials, kind, g)
  }

  /** How often a radial falls in a slot that an earlier one has filled. */
  function DuplicateCount(sweep: Sweep, kind: ProductKind, g: Geometry, azimuths: nat): int
    requires azimuths > 0
  {
    ConsistentCount(sweep.radials, kind, g) - |SlotsFilled(sweep.radials, kind, g, azimuths)|
  }

  lemma RowOf(index: nat, slot: nat, width: nat)
    requires width > 0
    ensures index / width == slot <==> slot * width <= index < slot * width + width
    ensures index / width == slot ==> index % width == index - slot * width
  {
    var q, r := index / width, index % width;
    assert index == q * width + r;
    MulMono(slot + 1, q, width);
    MulMono(q + 1, slot, width);
    assert (slot + 1) * width == slot * width + width && (q + 1) * width == q * width + width;
  }

  lemma InRow(slot: nat, azimuths: nat, width: nat)
    requires slot < azimuths
    ensures slot * width + width <= azimuths * width
  {
    MulMono(slot + 1, azimuths, width);
    assert (slot + 1) * width == slot * width + width;
  }

  /** Scatters one radial's gates into its row; gates it does not have leave the row alone. */
  method WriteRow(cells: array<byte>, row: nat, moment: ProductData, g: Geometry)
    requires row + g.gateCount <= cells.Length
    modifies cells
    ensures forall k :: 0 <= k < cells.Length ==>
              cells[k] == if row <= k < row + g.gateCount && RawGate(moment, k - row).Some?
                          then EncodeGate(RawGate(moment, k - row).value, g)
                          else old(cells[k])
  {
    for gate := 0 to g.gateCount
      invariant forall k :: 0 <= k < cells.Length ==>
                  cells[k] == if row <= k < row + gate && RawGate(moment, k - row).Some?
                              then EncodeGate(RawGate(moment, k - row).value, g)
                              else old(cells[k])
    {
      var raw := RawGate(moment, gate);
      if raw.Some? {
        cells[row + gate] := EncodeGate(raw.value, g);
      }
    }
  }

  lemma CellStep(rs: seq<Radial>, i: nat, kind: ProductKind, g: Geometry, azimuths: nat, slot: nat, gate: nat)
    requires i < |rs| && azimuths > 0
    ensures CellAt(rs[..i + 1], kind, g, azimuths, slot, gate)
            == if Writes(rs[i], kind, g, azimuths, slot) && RawGate(rs[i].products[kind], gate).Some?
               then EncodeGate(RawGate(rs[i].products[kind], gate).value, g)
               else CellAt(rs[..i], kind, g, azimuths, slot, gate)
  {
    assert rs[..i + 1][..i] == rs[..i];
  }

  /** One radial: skipped, or written over whatever its slot held. */
  method ScatterOne(r: Radial, kind: ProductKind, g: Geometry, azimuths: nat, cells: array<byte>, filled: array<bool>)
    returns (skip: bool, duplicate: bool)
    requires azimuths > 0 && g.gateCount > 0
    requires cells.Length == azimuths * g.gateCount && filled.Length == azimuths
    modifies cells, filled
    ensures forall k :: 0 <= k < cells.Length ==>
              cells[k] == if Writes(r, kind, g, azimuths, k / g.gateCount)
                             && RawGate(r.products[kind], k % g.gateCount).Some?
                          then EncodeGate(RawGate(r.products[kind], k % g.gateCount).value, g)
                          else old(cells[k])
    ensures forall s :: 0 <= s < azimuths ==> filled[s] == (old(filled[s]) || Writes(r, kind, g, azimuths, s))
    ensures skip <==> kind in r.products && !Consistent(r, kind, g)
    ensures duplicate <==> Consistent(r, kind, g) && old(filled[AzimuthSlot(r.azimuthDeg, azimuths)])
  {
    hide EncodeGate, RawGate, AzimuthSlot;
    skip, duplicate := false, false;
    if kind !in r.products {
      return;
    }
    var moment := r.products[kind];
    if moment.gateCount != g.gateCount || moment.firstGateM != g.firstGateM
       || moment.gateWidthM != g.gateWidthM || moment.wordSize != g.wordSize {
      return true, false;
    }
    var slot := AzimuthSlot(r.azimuthDeg, azimuths);
    duplicate := filled[slot];
    filled[slot] := true;
    var row := slot * g.gateCount;
    InRow(slot, azimuths, g.gateCount);
    forall k | 0 <= k < cells.Length
      ensures k / g.gateCount == slot <==> row <= k < row + g.gateCount
      ensures k / g.gateCount == slot ==> k % g.gateCount == k - row
    {
      RowOf(k, slot, g.gateCount);
    }
    WriteRow(cells, row, moment, g);
  }

  /** The cells and filled slots of a grid built from exactly these radials. */
  ghost predicate Built(rs: seq<Radial>, kind: ProductKind, g: Geometry, azimuths: nat, cells: seq<byte>,
                        filled: seq<bool>)
    requires azimuths > 0 && g.gateCount > 0
  {
    && |filled| == azimuths
    && (forall k :: 0 <= k < |cells| ==>
          cells[k] == CellAt(rs, kind, g, azimuths, k / g.gateCount, k % g.gateCount))
    && (forall s :: 0 <= s < azimuths ==> (filled[s] <==> s in SlotsFilled(rs, kind, g, azimuths)))
  }

  lemma BuiltStep(rs: seq<Radial>, i: nat, kind: ProductKind, g: Geometry, azimuths: nat,
                  cells: seq<byte>, filled: seq<bool>, cells': seq<byte>, filled': seq<bool>)
    requires i < |rs| && azimuths > 0 && g.gateCount > 0
    requires Built(rs[..i], kind, g, azimuths, cells, filled)
    requires |cells'| == |cells| && |filled'| == azimuths
    requires forall k :: 0 <= k < |cells| ==>
               cells'[k] == if Writes(rs[i], kind, g, azimuths, k / g.gateCount)
                               && RawGate(rs[i].products[kind], k % g.gateCount).Some?
                            then EncodeGate(RawGate(rs[i].products[kind], k % g.gateCount).value, g)
                            else cells[k]
    requires forall s :: 0 <= s < azimuths ==> filled'[s] == (filled[s] || Writes(rs[i], kind, g, azimuths, s))
    ensures Built(rs[..i + 1], kind, g, azimuths, cells', filled')
  {
    hide EncodeGate, RawGate, AzimuthSlot, CellAt;
    assert rs[..i + 1][..i] == rs[..i];
    forall k | 0 <= k < |cells|
      ensures cells'[k] == CellAt(rs[..i + 1], kind, g, azimuths, k / g.gateCount, k % g.gateCount)
    {
      CellStep(rs, i, kind, g, azimuths, k / g.gateCount, k % g.gateCount);
    }
  }

  lemma BuiltFromNothing(kind: ProductKind, g: Geometry, azimuths: nat, cells: seq<byte>, filled: seq<bool>)
    requires azimuths > 0 && g.gateCount > 0
    requires |filled| == azimuths
    requires forall k :: 0 <= k < |cells| ==> cells[k] == 0
    requires forall k :: 0 <= k < |filled| ==> !filled[k]
    ensures Built([], kind, g, azimuths, cells, filled)
  {
  }

  lemma CountStep(rs: seq<Radial>, i: nat, kind: ProductKind, g: Geometry, azimuths: nat, cells: seq<byte>,
                  filled: seq<bool>)
    requires i < |rs| && azimuths > 0 && g.gateCount > 0
    requires Built(rs[..i], kind, g, azimuths, cells, filled)
    ensures var takes := Consistent(rs[i], kind, g);
            && |SlotsFilled(rs[..i + 1], kind, g, azimuths)|
               == |SlotsFilled(rs[..i], kind, g, azimuths)|
                  + (if takes && !filled[AzimuthSlot(rs[i].azimuthDeg, azimuths)] then 1 else 0)
            && ConsistentCount(rs[..i + 1], kind, g) == ConsistentCount(rs[..i], kind, g) + (if takes then 1 else 0)
            && CarrierCount(rs[..i + 1], kind)
              == CarrierCount(rs[..i], kind) + (if kind in rs[i].products then 1 else 0)
  {
    assert rs[..i + 1][..i] == rs[..i];
    hide AzimuthSlot, CellAt;
    var slots := SlotsFilled(rs[..i], kind, g, azimuths);
    var slot := AzimuthSlot(rs[i].azimuthDeg, azimuths);
    if slot in slots {
      assert slots + {slot} == slots;
    }
  }

  /** Fills the cells from all radials, counting the slots hit again and the radials skipped. */
  method Scatter(rs: seq<Radial>, kind: ProductKind, g: Geometry, azimuths: nat, cells: array<byte>,
                 filled: array<bool>)
    returns (skipped: nat, duplicates: nat)
    requires azimuths > 0 && g.gateCount > 0
    requires cells.Length == azimuths * g.gateCount && filled.Length == azimuths
    requires forall k :: 0 <= k < cells.Length ==> cells[k] == 0
    requires forall k :: 0 <= k < azimuths ==> !filled[k]
    modifies cells, filled
    ensures Built(rs, kind, g, azimuths, cells[..], filled[..])
    ensures ConsistentCount(rs, kind, g) == |SlotsFilled(rs, kind, g, azimuths)| + duplicates
    ensures CarrierCount(rs, kind) == ConsistentCount(rs, kind, g) + skipped
  {
    skipped, duplicates := 0, 0;
    BuiltFromNothing(kind, g, azimuths, cells[..], filled[..]);
    assert rs[..0] == [];
    for i := 0 to |rs|
      invariant Built(rs[..i], kind, g, azimuths, cells[..], filled[..])
      invariant ConsistentCount(rs[..i], kind, g) == |SlotsFilled(rs[..i], kind, g, azimuths)| + duplicates
      invariant CarrierCount(rs[..i], kind) == ConsistentCount(rs[..i], kind, g) + skipped
    {
      hide Built, CellAt, EncodeGate, RawGate, AzimuthSlot, SlotsFilled, ConsistentCount, CarrierCount;
      ghost var cells0, filled0 := cells[..], filled[..];
      var skip, duplicate := ScatterOne(rs[i], kind, g, azimuths, cells, filled);
      BuiltStep(rs, i, kind, g, azimuths, cells0, filled0, cells[..], filled[..]);
      CountStep(rs, i, kind, g, azimuths, cells0, filled0);
      if skip {
        skipped := skipped + 1;
      }
      if duplicate {
        duplicates := duplicates + 1;
      }
    }
    assert rs[..|rs|] == rs;
  }

  method CountFilled(filled: array<bool>, ghost slots: set<nat>) returns (n: nat)
    requires forall s :: s in slots ==> s < filled.Length
    requires forall s :: 0 <= s < filled.Length ==> (filled[s] <==> s in slots)
    ensures n == |slots|
  {
    n := 0;
    ghost var seen: set<nat> := {};
    for i := 0 to filled.Length
      invariant seen == set s | s in slots && s < i
      invariant n == |seen|
    {
      if filled[i] {
        seen := seen + {i};
        n := n + 1;
      }
    }
    assert seen == slots;
  }

  /** What a grid of this sweep is, for the spacing code taken as its modal one. */
  ghost predicate GriddedAs(sweep: Sweep, product: DisplayProduct, code: Option<nat>, made: Gridded)
    requires Griddable(sweep, product)
  {
    var kind := SourceMoment(product).value;
    var g := GeometryOf(FirstCarrier(sweep.radials, kind).value);
    var grid, azimuths := made.grid, AzimuthsFor(code, |sweep.radials|);
    && grid.product == product && grid.azimuthCount == azimuths
    && grid.gateCount == g.gateCount && grid.firstGateM == g.firstGateM && grid.gateWidthM == g.gateWidthM
    && grid.elevationNumber == sweep.elevationNumber
    && grid.elevationDeg == sweep.elevationDeg
    && grid.nyquistVelocityMps == sweep.nyquistVelocityMps
    && (grid.scale, grid.offset) == (if g.wordSize == 16 then (ZDR_SCALE, ZDR_OFFSET) else (g.scale, g.offset))
    && |grid.cells| == azimuths * g.gateCount
    && (forall k :: 0 <= k < |grid.cells| ==>
          grid.cells[k] == CellAt(sweep.radials, kind, g, azimuths, k / g.gateCount, k % g.gateCount))
    && grid.filledAzimuths == |SlotsFilled(sweep.radials, kind, g, azimuths)|
    && var skipped, duplicates := SkippedCount(sweep, kind, g), DuplicateCount(sweep, kind, g, azimuths);
    && skipped >= 0 && duplicates >= 0
    && made.events == SpacingEvents(sweep, code) + CountEvents(sweep, product, skipped, duplicates)
  }

  /**
   * Grids one product. `None` when no radial carries its moment or the first one that
   * does has no gates or gates of no width; the events found by then go nowhere.
   */
  method GridSweep(sweep: Sweep, product: DisplayProduct) returns (r: Option<Gridded>, ghost code: Option<nat>)
    ensures r.Some? <==> Griddable(sweep, product)
    ensures r.Some? ==>
              && code.Some? && IsModal(sweep.radials, code.value)
              && GriddedAs(sweep, product, code, r.value)
  {
    hide CellAt, AzimuthSlot, SlotsFilled, IsModal, EncodeGate;
    code := None;
    if SourceMoment(product).None? {
      return None, None;
    }
    var kind := SourceMoment(product).value;
    var count, spacing;
    count, spacing, code := ModalAzimuthCount(sweep);
    var events := spacing;
    var first := FirstCarrier(sweep.radials, kind);
    if first.None? {
      return None, code;
    }
    var g := GeometryOf(first.value);
    if g.gateWidthM == 0 || g.gateCount == 0 {
      events := events + [DegenerateGateGeometry(product, sweep.elevationNumber)];
      return None, code;
    }
    var cells := new byte[count * g.gateCount](_ => 0);
    var filled := new bool[count](_ => false);
    var skipped, duplicates := Scatter(sweep.radials, kind, g, count, cells, filled);
    if skipped > 0 {
      events := events + [InconsistentGateGeometry(product, sweep.elevationNumber, skipped)];
    }
    if duplicates > 0 {
      events := events + [DuplicateAzimuthSlot(product, sweep.elevationNumber, duplicates)];
    }
    var filledAzimuths := CountFilled(filled, SlotsFilled(sweep.radials, kind, g, count));
    var (scale, offset) := if g.wordSize == 16 then (ZDR_SCALE, ZDR_OFFSET) else (g.scale, g.offset);
    r := Some(Gridded(
      SweepGrid(product, count, g.gateCount, g.firstGateM, g.gateWidthM, sweep.elevationNumber, sweep.elevationDeg,
                sweep.nyquistVelocityMps, scale, offset, cells[..], filledAzimuths), events));
    assert events == spacing + CountEvents(sweep, product, skipped, duplicates);
    assert Griddable(sweep, product);
    hide Built, GriddedAs, SpacingEvents, CountEvents, FirstCarrier, ConsistentCount, CarrierCount;
    AllGridded(sweep, product, code, r.value, filled[..], skipped, duplicates);
  }

  /** What the loops leave is the grid of the sweep. */
  lemma AllGridded(sweep: Sweep, product: DisplayProduct, code: Option<nat>, made: Gridded, filled: seq<bool>,
                   skipped: nat, duplicates: nat)
    requires Griddable(sweep, product)
    requires var kind := SourceMoment(product).value;
             var g := GeometryOf(FirstCarrier(sweep.radials, kind).value);
             var azimuths := AzimuthsFor(code, |sweep.radials|);
             && Built(sweep.radials, kind, g, azimuths, made.grid.cells, filled)
             && |made.grid.cells| == azimuths * g.gateCount
             && ConsistentCount(sweep.radials, kind, g)
                == |SlotsFilled(sweep.radials, kind, g, azimuths)| + duplicates
             && CarrierCount(sweep.radials, kind) == ConsistentCount(sweep.radials, kind, g) + skipped
             && made.grid == SweepGrid(
                  product, azimuths, g.gateCount, g.firstGateM, g.gateWidthM, sweep.elevationNumber, sweep.elevationDeg,
                  sweep.nyquistVelocityMps, if g.wordSize == 16 then ZDR_SCALE else g.scale,
                  if g.wordSize == 16 then ZDR_OFFSET else g.offset, made.grid.cells,
                  |SlotsFilled(sweep.radials, kind, g, azimuths)|)
    requires made.events == SpacingEvents(sweep, code) + CountEvents(sweep, product, skipped, duplicates)
    ensures GriddedAs(sweep, product, code, made)
  {
    hide CellAt, SlotsFilled, ConsistentCount, CarrierCount, SpacingEvents, CountEvents, FirstCarrier;
  }

  // ---------------------------------------------------------------- reading a cell

  /** `SweepGrid::cell` reads the flat, azimuth-major layout. */
  function Cell(grid: SweepGrid, azimuth: nat, gate: nat): byte
    requires azimuth < grid.azimuthCount && gate < grid.gateCount
    requires |grid.cells| == grid.azimuthCount * grid.gateCount
  {
    InRow(azimuth, grid.azimuthCount, grid.gateCount);
    grid.cells[azimuth * grid.gateCount + gate]
  }

  lemma CellIndex(azimuth: nat, gate: nat, width: nat)
    requires gate < width
    ensures (azimuth * width + gate) / width == azimuth && (azimuth * width + gate) % width == gate
  {
    RowOf(azimuth * width + gate, azimuth, width);
  }

  /** A grid filled as the gridder fills it gives, at any azimuth and gate, the content of that slot's gate. */
  lemma CellReads(grid: SweepGrid, rs: seq<Radial>, kind: ProductKind, g: Geometry, azimuth: nat, gate: nat)
    requires azimuth < grid.azimuthCount && gate < grid.gateCount == g.gateCount
    requires |grid.cells| == grid.azimuthCount * grid.gateCount
    requires forall k :: 0 <= k < |grid.cells| ==>
               grid.cells[k] == CellAt(rs, kind, g, grid.azimuthCount, k / g.gateCount, k % g.gateCount)
    ensures Cell(grid, azimuth, gate) == CellAt(rs, kind, g, grid.azimuthCount, azimuth, gate)
  {
    hide CellAt;
    CellIndex(azimuth, gate, g.gateCount);
    InRow(azimuth, grid.azimuthCount, grid.gateCount);
  }

  /** The last radial of `rs` that falls in `slot`. */
  ghost predicate IsLastIn(rs: seq<Radial>, i: nat, kind: ProductKind, g: Geometry, azimuths: nat, slot: nat)
    requires azimuths > 0
  {
    && i < |rs| && Writes(rs[i], kind, g, azimuths, slot)
    && forall j :: i < j < |rs| ==> !Writes(rs[j], kind, g, azimuths, slot)
  }

  /**
   * For moments as the decoder makes them, a cell holds the encoded gate of the last
   * geometry-consistent radial in its slot, and 0 when there is none.
   */
  lemma {:induction false} CellIsLastWriter(rs: seq<Radial>, kind: ProductKind, g: Geometry, azimuths: nat,
                                            slot: nat, gate: nat)
    requires azimuths > 0 && gate < g.gateCount
    requires forall i :: 0 <= i < |rs| && kind in rs[i].products ==> Decoded(rs[i].products[kind])
    ensures slot !in SlotsFilled(rs, kind, g, azimuths) ==> CellAt(rs, kind, g, azimuths, slot, gate) == 0
    ensures slot in SlotsFilled(rs, kind, g, azimuths) ==>
              exists i: nat :: LastGate(rs, i, kind, g, azimuths, slot, gate)
  {
    if rs != [] {
      hide AzimuthSlot, EncodeGate, LastGate;
      var n := |rs| - 1;
      var front, r := rs[..n], rs[n];
      if Writes(r, kind, g, azimuths, slot) {
        assert Decoded(r.products[kind]);
        WrittenLast(rs, kind, g, azimuths, slot, gate);
      } else {
        CellIsLastWriter(front, kind, g, azimuths, slot, gate);
        if slot in SlotsFilled(rs, kind, g, azimuths) {
          assert slot in SlotsFilled(front, kind, g, azimuths);
          var i: nat :| LastGate(front, i, kind, g, azimuths, slot, gate);
          StillLast(rs, i, kind, g, azimuths, slot, gate);
        }
      }
    }
  }

  /** The cell is the encoded gate of radial `i`, the last one in the slot. */
  ghost predicate LastGate(rs: seq<Radial>, i: nat, kind: ProductKind, g: Geometry, azimuths: nat, slot: nat, gate: nat)
    requires azimuths > 0
  {
    && IsLastIn(rs, i, kind, g, azimuths, slot)
    && RawGate(rs[i].products[kind], gate).Some?
    && CellAt(rs, kind, g, azimuths, slot, gate) == EncodeGate(RawGate(rs[i].products[kind], gate).value, g)
  }

  lemma WrittenLast(rs: seq<Radial>, kind: ProductKind, g: Geometry, azimuths: nat, slot: nat, gate: nat)
    requires azimuths > 0 && gate < g.gateCount
    requires rs != [] && Writes(rs[|rs| - 1], kind, g, azimuths, slot)
    requires Decoded(rs[|rs| - 1].products[kind])
    ensures LastGate(rs, |rs| - 1, kind, g, azimuths, slot, gate)
  {
    hide AzimuthSlot, EncodeGate;
    assert RawGate(rs[|rs| - 1].products[kind], gate).Some?;
  }

  lemma StillLast(rs: seq<Radial>, i: nat, kind: ProductKind, g: Geometry, azimuths: nat, slot: nat, gate: nat)
    requires azimuths > 0
    requires rs != [] && !Writes(rs[|rs| - 1], kind, g, azimuths, slot)
    ensures LastGate(rs[..|rs| - 1], i, kind, g, azimuths, slot, gate) ==>
              LastGate(rs, i, kind, g, azimuths, slot, gate)
  {
    hide AzimuthSlot, EncodeGate, RawGate, Writes;
    assert forall j :: 0 <= j < |rs| - 1 ==> rs[j] == rs[..|rs| - 1][j];
  }
}

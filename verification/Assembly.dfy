/**
 * The volume assembler (crates/radar-workstation/src/assembly/mod.rs and context.rs).
 *
 * The functions give each operation's effect on the assembler's state as a value and
 * the events it emits; `VolumeAssembler` is the object whose methods carry them out.
 * `AssemblyRuns` proves what every run of them keeps.
 */
module Assembly {
  import opened Wrappers
  import opened Bytes
  import opened Radar

  datatype AssemblyState = Idle | AwaitingData | Accumulating

  datatype Event =
    | SweepClosed(sweep: Sweep, volume: VolumeId, vcpNumber: nat)
    | VolumeClosed(scan: VolumeScan)
    /** One `on_chunk` call's late radials, counted per elevation; their order is unspecified. */
    | LateRadialsDiscarded(counts: map<nat, nat>)
    | MissingStartChunk

  datatype Context = Context(
    siteId: seq<byte>, scanTimeMs: nat, julianDate: nat, vcp: Option<nat>, rvolVcpNumber: Option<nat>,
    latitude: real, longitude: real, siteAmslM: int)
  {
    function VcpNumber(): nat {
      match vcp
      case Some(n) => n
      case None => match rvolVcpNumber case Some(n) => n case None => 0
    }

    function Id(): VolumeId {
      VolumeId(julianDate, scanTimeMs)
    }

    function ApplyRadial(r: Radial, isFirst: bool): Context {
      var c := if isFirst
               then this.(siteId := r.siteId, scanTimeMs := r.scanTimeMs, julianDate := r.julianDate)
               else this;
      match r.siteParameters
      case None => c
      case Some(sp) =>
        c.(rvolVcpNumber := Some(sp.vcpNumber), latitude := sp.latitude, longitude := sp.longitude,
           siteAmslM := sp.siteAmslM)
    }
  }

  const FRESH_CONTEXT: Context := Context([0, 0, 0, 0], 0, 0, None, None, 0.0, 0.0, 0)

  /** The sweep being accumulated; its header fields come from its first radial. */
  datatype Builder = Builder(
    elevationNumber: nat, elevationDeg: real, nyquistVelocityMps: Option<real>, unambiguousRangeKm: Option<real>,
    radials: seq<Radial>)
  {
    function Push(r: Radial): Builder {
      this.(radials := radials + [r])
    }

    function Close(complete: bool): Sweep {
      Sweep(elevationNumber, elevationDeg, nyquistVelocityMps, unambiguousRangeKm, radials, complete)
    }
  }

  function StartBuilder(r: Radial): Builder {
    Builder(r.elevationNumber, r.elevationDeg, r.nyquistVelocityMps, r.unambiguousRangeKm, [r])
  }

  datatype Asm = Asm(
    state: AssemblyState, context: Context, current: Option<Builder>, closed: seq<Sweep>,
    closedElevations: set<nat>, lastActivity: Option<nat>)

  const EMPTY: Asm := Asm(Idle, FRESH_CONTEXT, None, [], {}, None)

  // ---------------------------------------------------------------- operations on values

  function CloseSweep(a: Asm, b: Builder, complete: bool): (Asm, Event) {
    var sweep := b.Close(complete);
    (a.(closedElevations := a.closedElevations + {b.elevationNumber}, closed := a.closed + [sweep]),
     SweepClosed(sweep, a.context.Id(), a.context.VcpNumber()))
  }

  /** Closes the sweep still open, if any, as incomplete. */
  function CloseOpen(a: Asm): (Asm, seq<Event>) {
    match a.current
    case None => (a, [])
    case Some(b) =>
      var (a', e) := CloseSweep(a.(current := None), b, false);
      (a', [e])
  }

  function Scan(a: Asm, status: VolumeStatus): VolumeScan {
    var c := a.context;
    VolumeScan(c.siteId, c.scanTimeMs, c.julianDate, c.VcpNumber(), c.latitude, c.longitude, c.siteAmslM, a.closed,
               status)
  }

  function FinishVolume(a: Asm, status: VolumeStatus): (Asm, Event) {
    (a.(state := Idle, context := FRESH_CONTEXT, closed := [], closedElevations := {}), VolumeClosed(Scan(a, status)))
  }

  /** Closes the open sweep and then the volume. */
  function EndVolume(a: Asm, status: VolumeStatus): (Asm, seq<Event>) {
    var (a1, es) := CloseOpen(a);
    var (a2, e) := FinishVolume(a1, status);
    (a2, es + [e])
  }

  function BeginNewVolume(a: Asm): (Asm, seq<Event>) {
    var (a1, es) := if a.state.Accumulating? then EndVolume(a, Superseded) else (a, []);
    (Asm(AwaitingData, FRESH_CONTEXT, None, [], {}, a1.lastActivity), es)
  }

  /** Puts a radial into the sweep it belongs to, first closing another elevation's. */
  function PlaceRadial(a: Asm, r: Radial): (Asm, seq<Event>) {
    match a.current
    case None => (a.(current := Some(StartBuilder(r))), [])
    case Some(b) =>
      if b.elevationNumber == r.elevationNumber then (a.(current := Some(b.Push(r))), [])
      else
        var (a', e) := CloseSweep(a.(current := None), b, false);
        (a'.(current := Some(StartBuilder(r))), [e])
  }

  function IngestRadial(a: Asm, r: Radial): (Asm, seq<Event>) {
    var (a1, es) := PlaceRadial(a, r);
    if EndsElevation(r.radialStatus) && a1.current.Some? then
      var (a2, e) := CloseSweep(a1.(current := None), a1.current.value, true);
      (a2, es + [e])
    else (a1, es)
  }

  predicate Late(a: Asm, r: Radial) {
    r.elevationNumber in a.closedElevations
  }

  /** The effect of one accepted radial. */
  function AcceptRadial(a: Asm, r: Radial): (Asm, seq<Event>) {
    var isFirst := a.state.AwaitingData?;
    IngestRadial(a.(state := if isFirst then Accumulating else a.state,
                    context := a.context.ApplyRadial(r, isFirst)), r)
  }

  function Tally(counts: map<nat, nat>, e: nat): map<nat, nat> {
    counts[e := (if e in counts then counts[e] else 0) + 1]
  }

  datatype Fed = Fed(asm: Asm, events: seq<Event>, late: map<nat, nat>)

  /** The loop over a chunk's radials. */
  function FeedAll(a: Asm, rs: seq<Radial>, late: map<nat, nat>): Fed
    decreases |rs|
  {
    if rs == [] then Fed(a, [], late)
    else if Late(a, rs[0]) then FeedAll(a, rs[1..], Tally(late, rs[0].elevationNumber))
    else
      var (a1, es) := AcceptRadial(a, rs[0]);
      var more := FeedAll(a1, rs[1..], late);
      more.(events := es + more.events)
  }

  function OnStartChunk(a: Asm, vcp: Option<nat>, now: nat): (Asm, seq<Event>) {
    var (a1, es) := BeginNewVolume(a.(lastActivity := Some(now)));
    (if vcp.Some? then a1.(context := a1.context.(vcp := vcp)) else a1, es)
  }

  function OnChunk(a: Asm, kind: ChunkKind, rs: seq<Radial>, now: nat): (Asm, seq<Event>) {
    var a0 := a.(lastActivity := Some(now));
    if kind.Start? then BeginNewVolume(a0)
    else
      var missing := a0.state.Idle?;
      var a1 := if missing then a0.(state := AwaitingData) else a0;
      var fed := FeedAll(a1, rs, map[]);
      var es := (if missing then [MissingStartChunk] else []) + fed.events
                + (if fed.late == map[] then [] else [LateRadialsDiscarded(fed.late)]);
      if kind.End? then
        var (a2, end) := EndVolume(fed.asm, Complete);
        (a2, es + end)
      else (fed.asm, es)
  }

  /** `Instant::duration_since`, which is zero when the clock reads earlier. */
  function Elapsed(last: nat, now: nat): nat {
    if now >= last then now - last else 0
  }

  function OnTick(a: Asm, now: nat, watchdog: nat): (Asm, seq<Event>) {
    if a.state.Idle? || a.lastActivity.None? || Elapsed(a.lastActivity.value, now) < watchdog then (a, [])
    else EndVolume(a, TimedOut)
  }

  // ---------------------------------------------------------------- the assembler object

  class VolumeAssembler {
    const watchdog: nat
    var state: AssemblyState
    var context: Context
    var current: Option<Builder>
    var closed: seq<Sweep>
    var closedElevations: set<nat>
    var lastActivity: Option<nat>

    constructor (watchdog: nat)
      ensures this.watchdog == watchdog && View() == EMPTY
    {
      this.watchdog := watchdog;
      state, context, current, closed, closedElevations, lastActivity := Idle, FRESH_CONTEXT, None, [], {}, None;
    }

    ghost function View(): Asm
      reads this
    {
      Asm(state, context, current, closed, closedElevations, lastActivity)
    }

    method Reset()
      modifies this
      ensures View() == EMPTY
    {
      state, context, current, closed, closedElevations, lastActivity := Idle, FRESH_CONTEXT, None, [], {}, None;
    }

    method DoCloseSweep(b: Builder, complete: bool, events: seq<Event>) returns (out: seq<Event>)
      modifies this`closedElevations, this`closed
      ensures View() == CloseSweep(old(View()), b, complete).0
      ensures out == events + [CloseSweep(old(View()), b, complete).1]
    {
      var sweep := b.Close(complete);
      closedElevations := closedElevations + {b.elevationNumber};
      closed := closed + [sweep];
      out := events + [SweepClosed(sweep, context.Id(), context.VcpNumber())];
    }

    method DoFinishVolume(status: VolumeStatus, events: seq<Event>) returns (out: seq<Event>)
      modifies this
      ensures View() == FinishVolume(old(View()), status).0
      ensures out == events + [FinishVolume(old(View()), status).1]
    {
      var scan := VolumeScan(context.siteId, context.scanTimeMs, context.julianDate, context.VcpNumber(),
                             context.latitude, context.longitude, context.siteAmslM, closed, status);
      closed := [];
      out := events + [VolumeClosed(scan)];
      state := Idle;
      context := FRESH_CONTEXT;
      closedElevations := {};
    }

    method DoEndVolume(status: VolumeStatus, events: seq<Event>) returns (out: seq<Event>)
      modifies this
      ensures View() == EndVolume(old(View()), status).0
      ensures out == events + EndVolume(old(View()), status).1
    {
      out := events;
      if current.Some? {
        var b := current.value;
        current := None;
        out := DoCloseSweep(b, false, out);
      }
      out := DoFinishVolume(status, out);
    }

    method DoBeginNewVolume(events: seq<Event>) returns (out: seq<Event>)
      modifies this
      ensures View() == BeginNewVolume(old(View())).0
      ensures out == events + BeginNewVolume(old(View())).1
    {
      out := events;
      if state.Accumulating? {
        out := DoEndVolume(Superseded, out);
      }
      context := FRESH_CONTEXT;
      current := None;
      closed := [];
      closedElevations := {};
      state := AwaitingData;
    }

    method DoIngestRadial(r: Radial, events: seq<Event>) returns (out: seq<Event>)
      modifies this
      ensures View() == IngestRadial(old(View()), r).0
      ensures out == events + IngestRadial(old(View()), r).1
    {
      out := events;
      var taken := current;
      current := None;
      match taken {
        case None =>
          current := Some(StartBuilder(r));
        case Some(b) =>
          if b.elevationNumber == r.elevationNumber {
            current := Some(b.Push(r));
          } else {
            out := DoCloseSweep(b, false, out);
            current := Some(StartBuilder(r));
          }
      }
      if EndsElevation(r.radialStatus) {
        if current.Some? {
          var b := current.value;
          current := None;
          out := DoCloseSweep(b, true, out);
        }
      }
    }

    method StartChunk(vcp: Option<nat>, now: nat) returns (events: seq<Event>)
      modifies this
      ensures View() == OnStartChunk(old(View()), vcp, now).0
      ensures events == OnStartChunk(old(View()), vcp, now).1
    {
      lastActivity := Some(now);
      events := DoBeginNewVolume([]);
      if vcp.Some? {
        context := context.(vcp := vcp);
      }
    }

    method FeedRadials(rs: seq<Radial>, events: seq<Event>) returns (out: seq<Event>, late: map<nat, nat>)
      modifies this
      ensures var fed := FeedAll(old(View()), rs, map[]);
              View() == fed.asm && out == events + fed.events && late == fed.late
    {
      out, late := events, map[];
      ghost var fed := FeedAll(View(), rs, map[]);
      for i := 0 to |rs|
        invariant var rest := FeedAll(View(), rs[i..], late);
                  fed.asm == rest.asm && events + fed.events == out + rest.events && fed.late == rest.late
      {
        var r := rs[i];
        assert rs[i..][1..] == rs[i + 1..];
        if r.elevationNumber in closedElevations {
          late := late[r.elevationNumber := (if r.elevationNumber in late then late[r.elevationNumber] else 0) + 1];
        } else {
          ghost var before, more := View(), out;
          var isFirst := state.AwaitingData?;
          if isFirst {
            state := Accumulating;
          }
          context := context.ApplyRadial(r, isFirst);
          out := DoIngestRadial(r, out);
          assert View() == AcceptRadial(before, r).0;
          Assoc(more, AcceptRadial(before, r).1, FeedAll(View(), rs[i + 1..], late).events);
        }
      }
    }

    method Chunk(kind: ChunkKind, rs: seq<Radial>, now: nat) returns (events: seq<Event>)
      modifies this
      ensures View() == OnChunk(old(View()), kind, rs, now).0
      ensures events == OnChunk(old(View()), kind, rs, now).1
    {
      events := [];
      lastActivity := Some(now);
      if kind.Start? {
        events := DoBeginNewVolume(events);
        return;
      }
      if state.Idle? {
        events := events + [MissingStartChunk];
        state := AwaitingData;
      }
      var late;
      events, late := FeedRadials(rs, events);
      if late != map[] {
        events := events + [LateRadialsDiscarded(late)];
      }
      if kind.End? {
        events := DoEndVolume(Complete, events);
      }
    }

    method Tick(now: nat) returns (events: seq<Event>)
      modifies this
      ensures View() == OnTick(old(View()), now, watchdog).0
      ensures events == OnTick(old(View()), now, watchdog).1
    {
      events := [];
      if state.Idle? || lastActivity.None? {
        return;
      }
      if Elapsed(lastActivity.value, now) >= watchdog {
        events := DoEndVolume(TimedOut, events);
      }
    }
  }
}

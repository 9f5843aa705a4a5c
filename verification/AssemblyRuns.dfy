/**
 * What every run of the assembler keeps: no radial is lost, duplicated or reordered;
 * a closed elevation stays closed for its volume; and a closed volume lists exactly
 * the sweeps announced for it, under one identity.
 */
module AssemblyRuns {
  import opened Wrappers
  import opened Bytes
  import opened Radar
  import opened Assembly

  // ---------------------------------------------------------------- runs

  datatype Input =
    | StartChunk(vcp: Option<nat>, now: nat)
    | Chunk(kind: ChunkKind, radials: seq<Radial>, now: nat)
    | Tick(now: nat)

  function Step(a: Asm, i: Input, watchdog: nat): (Asm, seq<Event>) {
    match i
    case StartChunk(vcp, now) => OnStartChunk(a, vcp, now)
    case Chunk(kind, radials, now) => OnChunk(a, kind, radials, now)
    case Tick(now) => OnTick(a, now, watchdog)
  }

  datatype Run = Run(asm: Asm, log: seq<Event>)

  /** The state after the inputs, and all events emitted so far. */
  function RunAll(inputs: seq<Input>, watchdog: nat): Run {
    if inputs == [] then Run(EMPTY, [])
    else
      var before := RunAll(inputs[..|inputs| - 1], watchdog);
      var (a, es) := Step(before.asm, inputs[|inputs| - 1], watchdog);
      Run(a, before.log + es)
  }

  // ---------------------------------------------------------------- reading an event log

  /** The sweeps closed since the last volume was closed. */
  function Pending(log: seq<Event>): seq<Sweep> {
    if log == [] then []
    else
      var before := Pending(log[..|log| - 1]);
      match log[|log| - 1]
      case SweepClosed(s, _, _) => before + [s]
      case VolumeClosed(_) => []
      case _ => before
  }

  /** Every sweep closed since the last volume was announced under `id`. */
  predicate PendingTagged(log: seq<Event>, id: VolumeId) {
    log != [] ==>
      match log[|log| - 1]
      case SweepClosed(_, v, _) => v == id && PendingTagged(log[..|log| - 1], id)
      case VolumeClosed(_) => true
      case _ => PendingTagged(log[..|log| - 1], id)
  }

  /** The radials of all sweeps closed, in the order of the events. */
  function Emitted(log: seq<Event>): seq<Radial> {
    if log == [] then []
    else
      var before := Emitted(log[..|log| - 1]);
      if log[|log| - 1].SweepClosed? then before + log[|log| - 1].sweep.radials else before
  }

  function CountIn(counts: map<nat, nat>, e: nat): nat {
    if e in counts then counts[e] else 0
  }

  /** Late radials reported so far for elevation `e`. */
  function LateTotal(log: seq<Event>, e: nat): nat {
    if log == [] then 0
    else
      var before := LateTotal(log[..|log| - 1], e);
      match log[|log| - 1]
      case LateRadialsDiscarded(counts) => before + CountIn(counts, e)
      case _ => before
  }

  // ---------------------------------------------------------------- well-formed sweeps and volumes

  /** One elevation, and `complete` exactly when its last radial, and no other, ends it. */
  predicate SweepOk(s: Sweep) {
    && s.radials != []
    && (forall i :: 0 <= i < |s.radials| ==> s.radials[i].elevationNumber == s.elevationNumber)
    && (forall i :: 0 <= i < |s.radials| - 1 ==>
          s.radials[i].radialStatus != EndOfElevation && s.radials[i].radialStatus != EndOfVolume)
    && (s.complete <==> s.radials[|s.radials| - 1].radialStatus in {EndOfElevation, EndOfVolume})
    && s.elevationDeg == s.radials[0].elevationDeg
    && s.nyquistVelocityMps == s.radials[0].nyquistVelocityMps
    && s.unambiguousRangeKm == s.radials[0].unambiguousRangeKm
  }

  function ElevationsOf(sweeps: seq<Sweep>): set<nat> {
    if sweeps == [] then {}
    else ElevationsOf(sweeps[..|sweeps| - 1]) + {sweeps[|sweeps| - 1].elevationNumber}
  }

  predicate SweepsOk(sweeps: seq<Sweep>) {
    sweeps != [] ==>
      var front, last := sweeps[..|sweeps| - 1], sweeps[|sweeps| - 1];
      SweepsOk(front) && SweepOk(last) && last.elevationNumber !in ElevationsOf(front)
  }

  /** The volume's identity is that of its very first radial. */
  predicate NamedByFirst(sweeps: seq<Sweep>, id: VolumeId) {
    sweeps != [] ==> sweeps[0].radials != [] && IdOf(sweeps[0].radials[0]) == id
  }

  /** What a `VolumeClosed` event says of the events before it. */
  predicate ClosesVolume(before: seq<Event>, scan: VolumeScan) {
    && scan.sweeps == Pending(before)
    && PendingTagged(before, IdOfScan(scan))
    && SweepsOk(scan.sweeps)
    && NamedByFirst(scan.sweeps, IdOfScan(scan))
  }

  predicate LogOk(log: seq<Event>) {
    log != [] ==>
      var before, e := log[..|log| - 1], log[|log| - 1];
      LogOk(before) && (e.VolumeClosed? ==> ClosesVolume(before, e.scan))
  }

  /** Logs grow at the end; everything above looks at the last event first. */
  lemma Snoc(log: seq<Event>, e: Event)
    ensures (log + [e])[..|log + [e]| - 1] == log && (log + [e])[|log + [e]| - 1] == e
    ensures LogOk(log + [e]) <==> LogOk(log) && (e.VolumeClosed? ==> ClosesVolume(log, e.scan))
  {
    assert (log + [e])[..|log|] == log;
  }

  // ---------------------------------------------------------------- the invariant

  /** The open sweep has no end of elevation in it yet. */
  predicate BuilderOk(b: Builder) {
    SweepOk(b.Close(false))
  }

  function OpenRadials(a: Asm): seq<Radial> {
    if a.current.Some? then a.current.value.radials else []
  }

  predicate Core(a: Asm, log: seq<Event>) {
    && LogOk(log)
    && a.closed == Pending(log)
    && PendingTagged(log, a.context.Id())
    && SweepsOk(a.closed)
    && NamedByFirst(a.closed, a.context.Id())
    && a.closedElevations == ElevationsOf(a.closed)
    && (!a.state.Accumulating? ==> a.closed == [])
  }

  predicate OpenOk(a: Asm) {
    && (a.state.Accumulating? <==> a.closed != [] || a.current.Some?)
    && (a.current.Some? ==>
          var b := a.current.value;
          && BuilderOk(b)
          && b.elevationNumber !in a.closedElevations
          && (a.closed == [] ==> IdOf(b.radials[0]) == a.context.Id()))
  }

  predicate Good(a: Asm, log: seq<Event>, accepted: seq<Radial>) {
    Core(a, log) && OpenOk(a) && Emitted(log) + OpenRadials(a) == accepted
  }

  // ---------------------------------------------------------------- closing

  lemma NothingPending(log: seq<Event>, id: VolumeId)
    requires Pending(log) == []
    ensures PendingTagged(log, id)
  {
    if log != [] {
      var last := log[|log| - 1];
      if last.LateRadialsDiscarded? || last.MissingStartChunk? {
        NothingPending(log[..|log| - 1], id);
      }
    }
  }

  lemma SweepsSnoc(sweeps: seq<Sweep>, s: Sweep)
    requires SweepsOk(sweeps) && SweepOk(s) && s.elevationNumber !in ElevationsOf(sweeps)
    ensures SweepsOk(sweeps + [s])
    ensures ElevationsOf(sweeps + [s]) == ElevationsOf(sweeps) + {s.elevationNumber}
  {
    assert (sweeps + [s])[..|sweeps|] == sweeps;
  }

  lemma CloseKeeps(a: Asm, b: Builder, complete: bool, log: seq<Event>, accepted: seq<Radial>)
    requires Core(a, log) && a.state.Accumulating? && a.current.None?
    requires SweepOk(b.Close(complete)) && b.elevationNumber !in a.closedElevations
    requires a.closed == [] ==> IdOf(b.radials[0]) == a.context.Id()
    requires Emitted(log) + b.radials == accepted
    ensures var r := CloseSweep(a, b, complete);
            Good(r.0, log + [r.1], accepted) && r.0.state.Accumulating? && r.0.current.None?
            && r.0.context == a.context && b.elevationNumber in r.0.closedElevations
            && (forall e :: LateTotal(log + [r.1], e) == LateTotal(log, e))
  {
    var r := CloseSweep(a, b, complete);
    Snoc(log, r.1);
    SweepsSnoc(a.closed, b.Close(complete));
    assert Emitted(log + [r.1]) + [] == Emitted(log) + b.radials;
  }

  /** The open sweep, if there is one, is closed and announced. */
  lemma CloseOpenKeeps(a: Asm, log: seq<Event>, accepted: seq<Radial>)
    requires Good(a, log, accepted)
    ensures var r := CloseOpen(a);
            && Core(r.0, log + r.1) && r.0.current.None? && Emitted(log + r.1) == accepted
            && (forall e :: LateTotal(log + r.1, e) == LateTotal(log, e))
  {
    hide SweepOk, LogOk, Pending, PendingTagged, SweepsOk, NamedByFirst, ElevationsOf, Emitted, LateTotal;
    if a.current.Some? {
      CloseKeeps(a.(current := None), a.current.value, false, log, accepted);
      var r := CloseOpen(a);
      assert Emitted(log + r.1) + [] == Emitted(log + r.1);
    } else {
      assert log + [] == log;
      assert Emitted(log) + [] == Emitted(log);
    }
  }

  lemma FinishKeeps(a: Asm, status: VolumeStatus, log: seq<Event>, accepted: seq<Radial>)
    requires Core(a, log) && a.current.None? && Emitted(log) == accepted
    ensures var r := FinishVolume(a, status);
            && Good(r.0, log + [r.1], accepted) && r.0.state.Idle?
            && (forall e :: LateTotal(log + [r.1], e) == LateTotal(log, e))
  {
    hide SweepOk, LogOk;
    var r := FinishVolume(a, status);
    Snoc(log, r.1);
    assert accepted + [] == accepted;
  }

  lemma EndKeeps(a: Asm, status: VolumeStatus, log: seq<Event>, accepted: seq<Radial>)
    requires Good(a, log, accepted)
    ensures var r := EndVolume(a, status);
            Good(r.0, log + r.1, accepted) && r.0.state.Idle?
              && (forall e :: LateTotal(log + r.1, e) == LateTotal(log, e))
  {
    hide Good, Core, CloseOpen, FinishVolume, Emitted, LateTotal;
    var r := CloseOpen(a);
    CloseOpenKeeps(a, log, accepted);
    FinishKeeps(r.0, status, log + r.1, accepted);
    Assoc(log, r.1, [FinishVolume(r.0, status).1]);
  }

  lemma BeginKeeps(a: Asm, log: seq<Event>, accepted: seq<Radial>)
    requires Good(a, log, accepted)
    ensures var r := BeginNewVolume(a);
            Good(r.0, log + r.1, accepted) && r.0.state.AwaitingData?
            && (forall e :: LateTotal(log + r.1, e) == LateTotal(log, e))
  {
    if a.state.Accumulating? {
      EndKeeps(a, Superseded, log, accepted);
    } else {
      assert log + [] == log;
    }
    var r := BeginNewVolume(a);
    NothingPending(log + r.1, r.0.context.Id());
  }

  // ---------------------------------------------------------------- accepting radials

  /** The radial is now the last of the open sweep, which it may be about to end. */
  lemma PlaceKeeps(a: Asm, r: Radial, log: seq<Event>, accepted: seq<Radial>)
    requires Core(a, log) && a.state.Accumulating?
    requires a.current.Some? ==> OpenOk(a)
    requires a.current.None? && a.closed == [] ==> IdOf(r) == a.context.Id()
    requires r.elevationNumber !in a.closedElevations
    requires Emitted(log) + OpenRadials(a) == accepted
    ensures var n := PlaceRadial(a, r);
            && n.0.current.Some? && n.0.state.Accumulating?
            && Core(n.0.(current := None), log + n.1)
            && Core(n.0, log + n.1)
            && SweepOk(n.0.current.value.Close(EndsElevation(r.radialStatus)))
            && n.0.current.value.elevationNumber !in n.0.closedElevations
            && (n.0.closed == [] ==> IdOf(n.0.current.value.radials[0]) == n.0.context.Id())
            && Emitted(log + n.1) + n.0.current.value.radials == accepted + [r]
            && (forall e :: LateTotal(log + n.1, e) == LateTotal(log, e))
  {
    hide LogOk, SweepsOk, PendingTagged, ElevationsOf, Pending, Emitted, LateTotal, NamedByFirst;
    var n := PlaceRadial(a, r);
    if a.current.Some? && a.current.value.elevationNumber != r.elevationNumber {
      CloseKeeps(a.(current := None), a.current.value, false, log, accepted);
      assert Emitted(log + n.1) + [] == Emitted(log + n.1);
    } else {
      assert log + n.1 == log;
      if a.current.Some? {
        Assoc(Emitted(log), a.current.value.radials, [r]);
      } else {
        assert Emitted(log) + [] == Emitted(log);
      }
    }
  }

  lemma IngestKeeps(a: Asm, r: Radial, log: seq<Event>, accepted: seq<Radial>)
    requires Core(a, log) && a.state.Accumulating?
    requires a.current.Some? ==> OpenOk(a)
    requires a.current.None? && a.closed == [] ==> IdOf(r) == a.context.Id()
    requires r.elevationNumber !in a.closedElevations
    requires Emitted(log) + OpenRadials(a) == accepted
    ensures var n := IngestRadial(a, r);
            Good(n.0, log + n.1, accepted + [r]) && n.0.state.Accumulating?
            && (forall e :: LateTotal(log + n.1, e) == LateTotal(log, e))
  {
    PlaceKeeps(a, r, log, accepted);
    var (a1, es) := PlaceRadial(a, r);
    var b := a1.current.value;
    if EndsElevation(r.radialStatus) {
      CloseKeeps(a1.(current := None), b, true, log + es, accepted + [r]);
      Assoc(log, es, [CloseSweep(a1.(current := None), b, true).1]);
    }
  }

  lemma AcceptKeeps(a: Asm, r: Radial, log: seq<Event>, accepted: seq<Radial>)
    requires Good(a, log, accepted) && !a.state.Idle? && !Late(a, r)
    ensures var n := AcceptRadial(a, r);
            Good(n.0, log + n.1, accepted + [r]) && n.0.state.Accumulating?
            && (forall e :: LateTotal(log + n.1, e) == LateTotal(log, e))
  {
    var isFirst := a.state.AwaitingData?;
    var a0 := a.(state := if isFirst then Accumulating else a.state, context := a.context.ApplyRadial(r, isFirst));
    if isFirst {
      NothingPending(log, a0.context.Id());
    }
    IngestKeeps(a0, r, log, accepted);
  }

  /**
   * Which radials of a chunk are kept, told from the log alone: those whose elevation
   * has not been closed since the last volume was.
   */
  function Kept(a: Asm, log: seq<Event>, rs: seq<Radial>): (flags: seq<bool>)
    ensures |flags| == |rs|
    decreases |rs|
  {
    if rs == [] then []
    else if rs[0].elevationNumber in ElevationsOf(Pending(log)) then [false] + Kept(a, log, rs[1..])
    else
      var (a1, es) := AcceptRadial(a, rs[0]);
      [true] + Kept(a1, log + es, rs[1..])
  }

  function Select(rs: seq<Radial>, flags: seq<bool>): seq<Radial>
    requires |flags| == |rs|
  {
    if rs == [] then []
    else if flags[|rs| - 1] then Select(rs[..|rs| - 1], flags[..|rs| - 1]) + [rs[|rs| - 1]]
    else Select(rs[..|rs| - 1], flags[..|rs| - 1])
  }

  /** Radials of elevation `e` that are not kept. */
  function Dropped(rs: seq<Radial>, flags: seq<bool>, e: nat): nat
    requires |flags| == |rs|
  {
    if rs == [] then 0
    else Dropped(rs[..|rs| - 1], flags[..|rs| - 1], e)
         + if !flags[|rs| - 1] && rs[|rs| - 1].elevationNumber == e then 1 else 0
  }

  lemma {:induction false} SelectAppend(rs: seq<Radial>, flags: seq<bool>, rs': seq<Radial>, flags': seq<bool>, e: nat)
    requires |flags| == |rs| && |flags'| == |rs'|
    ensures Select(rs + rs', flags + flags') == Select(rs, flags) + Select(rs', flags')
    ensures Dropped(rs + rs', flags + flags', e) == Dropped(rs, flags, e) + Dropped(rs', flags', e)
    decreases |rs'|
  {
    if rs' == [] {
      assert rs + rs' == rs && flags + flags' == flags;
    } else {
      var n := |rs'| - 1;
      assert (rs + rs')[..|rs + rs'| - 1] == rs + rs'[..n];
      assert (flags + flags')[..|rs + rs'| - 1] == flags + flags'[..n];
      SelectAppend(rs, flags, rs'[..n], flags'[..n], e);
    }
  }

  lemma SelectCons(r: Radial, keep: bool, rs: seq<Radial>, flags: seq<bool>, e: nat)
    requires |flags| == |rs|
    ensures Select([r] + rs, [keep] + flags) == (if keep then [r] else []) + Select(rs, flags)
    ensures Dropped([r] + rs, [keep] + flags, e)
            == (if !keep && r.elevationNumber == e then 1 else 0) + Dropped(rs, flags, e)
  {
    SelectAppend([r], [keep], rs, flags, e);
    assert [r][..0] == [] && [keep][..0] == [];
    assert Select([r], [keep]) == if keep then [r] else [];
  }

  lemma {:induction false} FeedKeeps(a: Asm, rs: seq<Radial>, late: map<nat, nat>, log: seq<Event>,
                                     accepted: seq<Radial>, e: nat)
    requires Good(a, log, accepted) && !a.state.Idle?
    ensures var fed := FeedAll(a, rs, late);
            var flags := Kept(a, log, rs);
            && Good(fed.asm, log + fed.events, accepted + Select(rs, flags))
            && LateTotal(log + fed.events, e) == LateTotal(log, e)
            && CountIn(fed.late, e) == CountIn(late, e) + Dropped(rs, flags, e)
    decreases |rs|
  {
    if rs == [] {
      assert log + [] == log && accepted + [] == accepted;
    } else {
      var r, more := rs[0], rs[1..];
      assert rs == [r] + more;
      if Late(a, r) {
        FeedKeeps(a, more, Tally(late, r.elevationNumber), log, accepted, e);
        SelectCons(r, false, more, Kept(a, log, more), e);
        assert [] + Select(more, Kept(a, log, more)) == Select(more, Kept(a, log, more));
      } else {
        AcceptKeeps(a, r, log, accepted);
        var (a1, es) := AcceptRadial(a, r);
        FeedKeeps(a1, more, late, log + es, accepted + [r], e);
        SelectCons(r, true, more, Kept(a1, log + es, more), e);
        Assoc(log, es, FeedAll(a1, more, late).events);
        Assoc(accepted, [r], Select(more, Kept(a1, log + es, more)));
      }
    }
  }

  // ---------------------------------------------------------------- whole runs

  /** The radials an input brings; those of a start chunk are ignored by design. */
  function NewRadials(i: Input): seq<Radial> {
    if i.Chunk? && !i.kind.Start? then i.radials else []
  }

  /** The radials of all chunks but start chunks, in order of arrival. */
  function FedRadials(inputs: seq<Input>): seq<Radial> {
    if inputs == [] then []
    else FedRadials(inputs[..|inputs| - 1]) + NewRadials(inputs[|inputs| - 1])
  }

  /** Where a chunk's radials start being looked at. */
  function Opened(run: Run, now: nat): Run {
    var a := run.asm.(lastActivity := Some(now));
    if a.state.Idle? then Run(a.(state := AwaitingData), run.log + [MissingStartChunk]) else Run(a, run.log)
  }

  function NewFlags(run: Run, i: Input): (flags: seq<bool>)
    ensures |flags| == |NewRadials(i)|
  {
    if i.Chunk? && !i.kind.Start? then
      var at := Opened(run, i.now);
      Kept(at.asm, at.log, i.radials)
    else []
  }

  function KeptFlags(inputs: seq<Input>, watchdog: nat): (flags: seq<bool>)
    ensures |flags| == |FedRadials(inputs)|
  {
    if inputs == [] then []
    else
      var front := inputs[..|inputs| - 1];
      KeptFlags(front, watchdog) + NewFlags(RunAll(front, watchdog), inputs[|inputs| - 1])
  }

  lemma TickKeeps(a: Asm, now: nat, log: seq<Event>, accepted: seq<Radial>)
    requires Good(a, log, accepted)
    ensures Good(a.(lastActivity := Some(now)), log, accepted)
  {
  }

  lemma StartKindBegins(a: Asm, rs: seq<Radial>, now: nat)
    ensures OnChunk(a, Start, rs, now) == BeginNewVolume(a.(lastActivity := Some(now)))
  {
  }

  lemma VcpKeeps(a: Asm, vcp: Option<nat>, log: seq<Event>, accepted: seq<Radial>)
    ensures Good(a, log, accepted) ==> Good(a.(context := a.context.(vcp := vcp)), log, accepted)
  {
  }

  lemma OpenedKeeps(run: Run, now: nat, accepted: seq<Radial>)
    requires Good(run.asm, run.log, accepted)
    ensures var at := Opened(run, now);
            Good(at.asm, at.log, accepted) && !at.asm.state.Idle?
            && (forall e :: LateTotal(at.log, e) == LateTotal(run.log, e))
  {
    Snoc(run.log, MissingStartChunk);
    TickKeeps(run.asm, now, run.log, accepted);
  }

  lemma LateEventKeeps(a: Asm, counts: map<nat, nat>, log: seq<Event>, accepted: seq<Radial>)
    requires Good(a, log, accepted)
    ensures Good(a, log + [LateRadialsDiscarded(counts)], accepted)
    ensures forall e :: LateTotal(log + [LateRadialsDiscarded(counts)], e) == LateTotal(log, e) + CountIn(counts, e)
  {
    Snoc(log, LateRadialsDiscarded(counts));
  }

  lemma ChunkKeeps(run: Run, kind: ChunkKind, rs: seq<Radial>, now: nat, accepted: seq<Radial>, e: nat)
    requires Good(run.asm, run.log, accepted) && !kind.Start?
    ensures var r := OnChunk(run.asm, kind, rs, now);
            var at := Opened(run, now);
            var flags := Kept(at.asm, at.log, rs);
            && Good(r.0, run.log + r.1, accepted + Select(rs, flags))
            && LateTotal(run.log + r.1, e) == LateTotal(run.log, e) + Dropped(rs, flags, e)
  {
    hide Good, FeedAll, Kept, Select, Dropped, LateTotal, EndVolume;
    var at := Opened(run, now);
    OpenedKeeps(run, now, accepted);
    FeedKeeps(at.asm, rs, map[], at.log, accepted, e);
    var fed := FeedAll(at.asm, rs, map[]);
    var now' := accepted + Select(rs, Kept(at.asm, at.log, rs));
    var log1 := at.log + fed.events;
    LateEventKeeps(fed.asm, fed.late, log1, now');
    var lateEvents := if fed.late == map[] then [] else [LateRadialsDiscarded(fed.late)];
    var log2 := log1 + lateEvents;
    assert fed.late == map[] ==> log2 == log1;
    var opening := if run.asm.state.Idle? then [MissingStartChunk] else [];
    assert log2 == run.log + (opening + fed.events + lateEvents);
    if kind.End? {
      EndKeeps(fed.asm, Complete, log2, now');
      Assoc(run.log, opening + fed.events + lateEvents, EndVolume(fed.asm, Complete).1);
    }
  }

  lemma StartKeeps(run: Run, now: nat, accepted: seq<Radial>, e: nat)
    requires Good(run.asm, run.log, accepted)
    ensures var r := BeginNewVolume(run.asm.(lastActivity := Some(now)));
            Good(r.0, run.log + r.1, accepted) && LateTotal(run.log + r.1, e) == LateTotal(run.log, e)
  {
    TickKeeps(run.asm, now, run.log, accepted);
    BeginKeeps(run.asm.(lastActivity := Some(now)), run.log, accepted);
  }

  lemma StepKeeps(run: Run, i: Input, watchdog: nat, accepted: seq<Radial>, e: nat)
    requires Good(run.asm, run.log, accepted)
    ensures var r := Step(run.asm, i, watchdog);
            && Good(r.0, run.log + r.1, accepted + Select(NewRadials(i), NewFlags(run, i)))
            && LateTotal(run.log + r.1, e) == LateTotal(run.log, e) + Dropped(NewRadials(i), NewFlags(run, i), e)
  {
    hide Good, LateTotal, EndVolume, BeginNewVolume, Opened, Kept, FeedAll;
    assert accepted + [] == accepted;
    match i {
      case StartChunk(vcp, now) =>
        StartKeeps(run, now, accepted, e);
        var r := BeginNewVolume(run.asm.(lastActivity := Some(now)));
        VcpKeeps(r.0, vcp, run.log + r.1, accepted);
      case Chunk(kind, rs, now) =>
        if kind.Start? {
          StartKindBegins(run.asm, rs, now);
          StartKeeps(run, now, accepted, e);
        } else {
          ChunkKeeps(run, kind, rs, now, accepted, e);
        }
      case Tick(now) =>
        EndKeeps(run.asm, TimedOut, run.log, accepted);
        assert run.log + [] == run.log;
    }
  }

  /** The invariant and the accounting, over every run. */
  lemma {:induction false} EveryRun(inputs: seq<Input>, watchdog: nat, e: nat)
    ensures var run, flags := RunAll(inputs, watchdog), KeptFlags(inputs, watchdog);
            && Good(run.asm, run.log, Select(FedRadials(inputs), flags))
            && LateTotal(run.log, e) == Dropped(FedRadials(inputs), flags, e)
  {
    if inputs != [] {
      hide Good, Select, Dropped, LateTotal, Step, NewRadials, NewFlags;
      var front, i := inputs[..|inputs| - 1], inputs[|inputs| - 1];
      var run, fed, flags := RunAll(front, watchdog), FedRadials(front), KeptFlags(front, watchdog);
      EveryRun(front, watchdog, e);
      StepKeeps(run, i, watchdog, Select(fed, flags), e);
      SelectAppend(fed, flags, NewRadials(i), NewFlags(run, i), e);
    }
  }

  // ---------------------------------------------------------------- what that says

  /**
   * Conservation. Laid end to end, the radials of every sweep announced, then those of
   * the sweep still open, are the accepted radials in order of arrival; and every other
   * radial that arrived was reported late, under its own elevation.
   */
  lemma RadialsConserved(inputs: seq<Input>, watchdog: nat, e: nat)
    ensures var run, fed, flags := RunAll(inputs, watchdog), FedRadials(inputs), KeptFlags(inputs, watchdog);
            && Emitted(run.log) + OpenRadials(run.asm) == Select(fed, flags)
            && LateTotal(run.log, e) == Dropped(fed, flags, e)
            && |Emitted(run.log)| + |OpenRadials(run.asm)| + DroppedInAll(flags) == |fed|
  {
    EveryRun(inputs, watchdog, e);
    SelectLength(FedRadials(inputs), KeptFlags(inputs, watchdog));
  }

  function DroppedInAll(flags: seq<bool>): nat {
    if flags == [] then 0 else DroppedInAll(flags[..|flags| - 1]) + if flags[|flags| - 1] then 0 else 1
  }

  lemma {:induction false} SelectLength(rs: seq<Radial>, flags: seq<bool>)
    requires |flags| == |rs|
    ensures |Select(rs, flags)| + DroppedInAll(flags) == |rs|
  {
    if rs != [] {
      SelectLength(rs[..|rs| - 1], flags[..|rs| - 1]);
    }
  }

  /** Any volume closed in any run, at whatever point of its log. */
  lemma {:induction false} LogOkAt(log: seq<Event>, i: nat)
    requires LogOk(log) && i < |log| && log[i].VolumeClosed?
    ensures ClosesVolume(log[..i], log[i].scan)
  {
    if i < |log| - 1 {
      var before := log[..|log| - 1];
      assert before[..i] == log[..i];
      LogOkAt(before, i);
    }
  }

  lemma {:induction false} SweepsOkMeans(sweeps: seq<Sweep>, i: nat, j: nat)
    requires SweepsOk(sweeps) && i < j < |sweeps|
    ensures SweepOk(sweeps[i]) && SweepOk(sweeps[j])
    ensures sweeps[i].elevationNumber != sweeps[j].elevationNumber
  {
    var front := sweeps[..|sweeps| - 1];
    if j < |sweeps| - 1 {
      SweepsOkMeans(front, i, j);
    } else {
      ElevationListed(front, i);
      EachSweepOk(front, i);
    }
  }

  lemma {:induction false} EachSweepOk(sweeps: seq<Sweep>, i: nat)
    requires SweepsOk(sweeps) && i < |sweeps|
    ensures SweepOk(sweeps[i])
  {
    if i < |sweeps| - 1 {
      EachSweepOk(sweeps[..|sweeps| - 1], i);
    }
  }

  lemma {:induction false} ElevationListed(sweeps: seq<Sweep>, i: nat)
    requires i < |sweeps|
    ensures sweeps[i].elevationNumber in ElevationsOf(sweeps)
  {
    if i < |sweeps| - 1 {
      ElevationListed(sweeps[..|sweeps| - 1], i);
    }
  }

  /**
   * In every run, each closed volume lists exactly the sweeps announced since the
   * previous close, all announced under the volume's own identity, which is that of its
   * first radial; no two of them share an elevation.
   */
  lemma VolumesAreWhole(inputs: seq<Input>, watchdog: nat, at: nat, i: nat, j: nat)
    requires at < |RunAll(inputs, watchdog).log| && RunAll(inputs, watchdog).log[at].VolumeClosed?
    ensures var log := RunAll(inputs, watchdog).log;
            var scan := log[at].scan;
            && scan.sweeps == Pending(log[..at])
            && PendingTagged(log[..at], IdOfScan(scan))
            && NamedByFirst(scan.sweeps, IdOfScan(scan))
            && (i < |scan.sweeps| ==> SweepOk(scan.sweeps[i]))
            && (i < j < |scan.sweeps| ==> scan.sweeps[i].elevationNumber != scan.sweeps[j].elevationNumber)
  {
    EveryRun(inputs, watchdog, 0);
    var log := RunAll(inputs, watchdog).log;
    LogOkAt(log, at);
    var sweeps := log[at].scan.sweeps;
    if i < |sweeps| {
      EachSweepOk(sweeps, i);
    }
    if i < j < |sweeps| {
      SweepsOkMeans(sweeps, i, j);
    }
  }

  /** The open sweep is of an elevation not closed in this volume, and has no end in it. */
  predicate OpenIsNew(run: Run) {
    && run.asm.closedElevations == ElevationsOf(Pending(run.log))
    && (run.asm.current.Some? ==>
          && run.asm.current.value.elevationNumber !in run.asm.closedElevations
          && forall i :: 0 <= i < |OpenRadials(run.asm)| ==>
               OpenRadials(run.asm)[i].radialStatus !in {EndOfElevation, EndOfVolume})
  }

  /** In every run, sweep closure is permanent for its volume. */
  lemma OpenElevationIsNew(inputs: seq<Input>, watchdog: nat)
    ensures OpenIsNew(RunAll(inputs, watchdog))
  {
    EveryRun(inputs, watchdog, 0);
    GoodIsNew(RunAll(inputs, watchdog), Select(FedRadials(inputs), KeptFlags(inputs, watchdog)));
  }

  lemma GoodIsNew(run: Run, accepted: seq<Radial>)
    requires Good(run.asm, run.log, accepted)
    ensures OpenIsNew(run)
  {
    if run.asm.current.Some? {
      assert BuilderOk(run.asm.current.value);
    }
  }
}

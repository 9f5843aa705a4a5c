/**
 * The chunk poller (crates/radar-workstation/src/ingest/s3_poll.rs): one poll as a
 * function of the replies it gets, and the object that carries it out.
 */
module Poller {
  import opened Wrappers

  type Key = string

  const REANCHOR_EMPTY_POLLS: nat := 12
  const STUCK_MID_VOLUME_EMPTY_POLLS: nat := 60

  datatype Kind = StartKind | MiddleKind | EndKind

  function KindOf(key: Key): Option<Kind> {
    if key == "" then None
    else match key[|key| - 1]
      case 'S' => Some(StartKind)
      case 'I' => Some(MiddleKind)
      case 'E' => Some(EndKind)
      case _ => None
  }

  /** The keys that name a chunk, in order; the others are reported and passed over. */
  function Recognised(keys: seq<Key>): (r: seq<Key>)
    ensures |r| <= |keys|
  {
    if keys == [] then []
    else if KindOf(keys[|keys| - 1]).Some? then Recognised(keys[..|keys| - 1]) + [keys[|keys| - 1]]
    else Recognised(keys[..|keys| - 1])
  }

  predicate HasEnd(keys: seq<Key>) {
    exists i :: 0 <= i < |keys| && KindOf(keys[i]) == Some(EndKind)
  }

  function Largest(folders: seq<nat>): (n: nat)
    requires folders != []
    ensures n in folders && forall i :: 0 <= i < |folders| ==> folders[i] <= n
  {
    if |folders| == 1 then folders[0]
    else
      var rest := Largest(folders[1..]);
      assert forall i :: 0 < i < |folders| ==> folders[i] == folders[1..][i - 1];
      if rest < folders[0] then folders[0] else rest
  }

  function LessOne(n: nat): nat {
    if n == 0 then 0 else n - 1
  }

  /** One behind the newest volume, so that the next poll fetches exactly that one. */
  function ColdStartBaseline(folders: seq<nat>): nat {
    if folders == [] then 0 else LessOne(Largest(folders))
  }

  datatype State = State(lastCompleted: Option<nat>, lastSeen: Option<Key>, emptyPolls: nat, seenAny: bool)

  const FRESH: State := State(None, None, 0, false)

  datatype Action = Continue | ReAnchor(newTarget: nat) | AdvancePastStuck(newTarget: nat)

  function NextTarget(target: nat, emptyPolls: nat, seenAny: bool, listing: Option<seq<nat>>): Action {
    if !seenAny && emptyPolls >= REANCHOR_EMPTY_POLLS then
      match listing
      case None => Continue
      case Some(folders) =>
        var newest := if folders == [] then target else Largest(folders);
        var candidate := if LessOne(newest) > target then LessOne(newest) else target;
        if candidate > target then ReAnchor(candidate) else Continue
    else if seenAny && emptyPolls >= STUCK_MID_VOLUME_EMPTY_POLLS then AdvancePastStuck(target + 1)
    else Continue
  }

  // ---------------------------------------------------------------- what a poll is answered

  datatype Page = Page(keys: seq<Key>, truncated: bool)

  /**
   * The replies to one poll's requests, in the order they are made; `None` (and a reply
   * that never comes) is a failed request. `fetched[k]` is whether the k-th object arrives.
   */
  datatype Replies = Replies(
    folders: Option<seq<nat>>, pages: seq<Option<Page>>, fetched: seq<bool>, relisted: Option<seq<nat>>)

  /** The keys of all pages up to the first that is not truncated. */
  function Collect(pages: seq<Option<Page>>): Option<seq<Key>> {
    if pages == [] || pages[0].None? then None
    else if !pages[0].value.truncated then Some(pages[0].value.keys)
    else
      var more := Collect(pages[1..]);
      if more.None? then None else Some(pages[0].value.keys + more.value)
  }

  predicate AllFetched(fetched: seq<bool>, n: nat) {
    n <= |fetched| && forall k :: 0 <= k < n ==> fetched[k]
  }

  datatype Polled = Polled(state: State, delivered: Option<seq<Key>>)

  function Recover(s: State, target: nat, relisted: Option<seq<nat>>): Polled {
    var relist := !s.seenAny && s.emptyPolls >= REANCHOR_EMPTY_POLLS;
    if relist && relisted.None? then Polled(s, None)
    else match NextTarget(target, s.emptyPolls, s.seenAny, if relist then relisted else None)
      case Continue => Polled(if relist then s.(emptyPolls := 0) else s, Some([]))
      case ReAnchor(t) => Polled(State(Some(LessOne(t)), None, 0, false), Some([]))
      case AdvancePastStuck(t) => Polled(State(Some(LessOne(t)), None, 0, false), Some([]))
  }

  /** The baseline this poll works from, if it can be had. */
  function Baseline(s: State, r: Replies): Option<nat> {
    match s.lastCompleted
    case Some(v) => Some(v)
    case None => match r.folders case None => None case Some(folders) => Some(ColdStartBaseline(folders))
  }

  function Poll(s: State, r: Replies): Polled {
    var baseline, keys := Baseline(s, r), Collect(r.pages);
    if baseline.None? || keys.None? then Polled(s, None)
    else if keys.value == [] then
      Recover(s.(lastCompleted := baseline, emptyPolls := s.emptyPolls + 1), baseline.value + 1, r.relisted)
    else
      var s1 := s.(emptyPolls := 0, seenAny := true);
      var wanted := Recognised(keys.value);
      if !AllFetched(r.fetched, |wanted|) then Polled(s1, None)
      else if HasEnd(wanted) then Polled(State(Some(baseline.value + 1), None, 0, false), Some(wanted))
      else Polled(s1.(lastCompleted := baseline, lastSeen := Some(keys.value[|keys.value| - 1])), Some(wanted))
  }

  // ---------------------------------------------------------------- the poller object

  class S3Poller {
    var lastCompleted: Option<nat>
    var lastSeen: Option<Key>
    var emptyPolls: nat
    var seenAny: bool

    constructor ()
      ensures View() == FRESH
    {
      lastCompleted, lastSeen, emptyPolls, seenAny := None, None, 0, false;
    }

    ghost function View(): State
      reads this
    {
      State(lastCompleted, lastSeen, emptyPolls, seenAny)
    }

    method ListAllKeysAfter(pages: seq<Option<Page>>) returns (keys: Option<seq<Key>>)
      ensures keys == Collect(pages)
    {
      var all: seq<Key> := [];
      var i := 0;
      assert pages[0..] == pages;
      assert Collect(pages).Some? ==> all + Collect(pages).value == Collect(pages).value;
      while i < |pages|
        invariant 0 <= i <= |pages|
        invariant Collect(pages) ==
                    var more := Collect(pages[i..]);
                    if more.None? then None else Some(all + more.value)
      {
        if pages[i].None? {
          return None;
        }
        var page := pages[i].value;
        assert pages[i..][1..] == pages[i + 1..];
        ghost var more := Collect(pages[i + 1..]);
        if more.Some? {
          assert all + (page.keys + more.value) == all + page.keys + more.value;
        }
        all := all + page.keys;
        if !page.truncated {
          return Some(all);
        }
        i := i + 1;
      }
      return None;
    }

    method ApplyRecovery(target: nat, relisted: Option<seq<nat>>) returns (ok: bool)
      modifies this
      ensures Polled(View(), if ok then Some([]) else None) == Recover(old(View()), target, relisted)
    {
      var relist := !seenAny && emptyPolls >= REANCHOR_EMPTY_POLLS;
      if relist && relisted.None? {
        return false;
      }
      var action := NextTarget(target, emptyPolls, seenAny, if relist then relisted else None);
      match action {
        case Continue =>
          if relist {
            emptyPolls := 0;
          }
        case ReAnchor(t) =>
          lastCompleted, lastSeen, emptyPolls, seenAny := Some(LessOne(t)), None, 0, false;
        case AdvancePastStuck(t) =>
          lastCompleted, lastSeen, emptyPolls, seenAny := Some(LessOne(t)), None, 0, false;
      }
      return true;
    }

    /** Fetches one object after another, giving up at the first that fails. */
    method Fetch(keys: seq<Key>, fetched: seq<bool>) returns (envelopes: Option<seq<Key>>, sawEnd: bool)
      ensures envelopes == if AllFetched(fetched, |Recognised(keys)|) then Some(Recognised(keys)) else None
      ensures envelopes.Some? ==> (sawEnd <==> HasEnd(Recognised(keys)))
    {
      var toFetch: seq<Key> := [];
      for i := 0 to |keys|
        invariant toFetch == Recognised(keys[..i])
      {
        assert keys[..i + 1][..i] == keys[..i];
        if KindOf(keys[i]).Some? {
          toFetch := toFetch + [keys[i]];
        }
      }
      assert keys[..|keys|] == keys;
      var got: seq<Key> := [];
      sawEnd := false;
      for k := 0 to |toFetch|
        invariant got == toFetch[..k]
        invariant k <= |fetched| && forall j :: 0 <= j < k ==> fetched[j]
        invariant sawEnd <==> exists i :: 0 <= i < k && KindOf(toFetch[i]) == Some(EndKind)
      {
        if k >= |fetched| || !fetched[k] {
          return None, sawEnd;
        }
        sawEnd := sawEnd || KindOf(toFetch[k]) == Some(EndKind);
        got := got + [toFetch[k]];
      }
      assert toFetch[..|toFetch|] == toFetch;
      return Some(got), sawEnd;
    }

    method PollOnce(r: Replies) returns (delivered: Option<seq<Key>>)
      modifies this
      ensures Polled(View(), delivered) == Poll(old(View()), r)
    {
      var baseline: nat;
      if lastCompleted.Some? {
        baseline := lastCompleted.value;
      } else if r.folders.None? {
        return None;
      } else {
        baseline := ColdStartBaseline(r.folders.value);
      }
      var volume := baseline + 1;
      var listed := ListAllKeysAfter(r.pages);
      if listed.None? {
        return None;
      }
      var keys := listed.value;
      if keys == [] {
        lastCompleted := Some(baseline);
        emptyPolls := emptyPolls + 1;
        var ok := ApplyRecovery(volume, r.relisted);
        return if ok then Some([]) else None;
      }
      emptyPolls := 0;
      seenAny := true;
      var envelopes, sawEnd := Fetch(keys, r.fetched);
      if envelopes.None? {
        return None;
      }
      lastSeen := Some(keys[|keys| - 1]);
      if sawEnd {
        lastCompleted := Some(volume);
        lastSeen := None;
        seenAny := false;
      } else {
        lastCompleted := Some(baseline);
      }
      return envelopes;
    }
  }
}

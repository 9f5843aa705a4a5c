/**
 * What every run of the poller keeps, over a bucket whose volume directories only grow
 * and requests that fail whenever they like: each volume's chunks are delivered in
 * order, without a gap or a repeat, and never again once the poller has moved on.
 */
module PollerRuns {
  import opened Wrappers
  import opened Poller

  // ---------------------------------------------------------------- the bucket

  /** The order object keys are listed in. */
  predicate Less(a: Key, b: Key) {
    if b == "" then false
    else if a == "" then true
    else if a[0] != b[0] then a[0] < b[0]
    else Less(a[1..], b[1..])
  }

  lemma {:induction false} LessTransitive(a: Key, b: Key, c: Key)
    requires Less(a, b) && Less(b, c)
    ensures Less(a, c)
    decreases |a|
  {
    if a != "" && a[0] == b[0] && b[0] == c[0] {
      LessTransitive(a[1..], b[1..], c[1..]);
    }
  }

  lemma {:induction false} LessIrreflexive(a: Key)
    ensures !Less(a, a)
  {
    if a != "" {
      LessIrreflexive(a[1..]);
    }
  }

  predicate Sorted(d: seq<Key>) {
    forall i, j :: 0 <= i < j < |d| ==> Less(d[i], d[j])
  }

  /** `start-after`: the keys that sort after the given one. */
  function KeysAfter(d: seq<Key>, after: Option<Key>): seq<Key> {
    if d == [] then []
    else
      var front, k := KeysAfter(d[..|d| - 1], after), d[|d| - 1];
      if after.None? || Less(after.value, k) then front + [k] else front
  }

  type Bucket = map<nat, seq<Key>>

  function Dir(b: Bucket, volume: nat): seq<Key> {
    if volume in b then b[volume] else []
  }

  ghost predicate BucketOk(b: Bucket) {
    forall v :: v in b ==> Sorted(b[v])
  }

  ghost predicate Grows(b: Bucket, b': Bucket) {
    forall v :: v in b ==> v in b' && b[v] <= b'[v]
  }

  lemma {:induction false} KeysAfterAll(d: seq<Key>)
    ensures KeysAfter(d, None) == d
  {
    if d != [] {
      KeysAfterAll(d[..|d| - 1]);
    }
  }

  /** In a sorted directory, listing after the p-th key drops exactly the first p. */
  lemma {:induction false} KeysAfterAt(d: seq<Key>, p: nat)
    requires Sorted(d) && 0 < p <= |d|
    ensures KeysAfter(d, Some(d[p - 1])) == d[p..]
  {
    var front, k := d[..|d| - 1], d[|d| - 1];
    if p == |d| {
      NothingAfter(d, k);
    } else {
      assert front[p - 1] == d[p - 1];
      KeysAfterAt(front, p);
      assert d[p..] == front[p..] + [k];
    }
  }

  lemma {:induction false} NothingAfter(d: seq<Key>, k: Key)
    requires forall i :: 0 <= i < |d| ==> d[i] == k || Less(d[i], k)
    ensures KeysAfter(d, Some(k)) == []
  {
    if d != [] {
      var last := d[|d| - 1];
      if Less(k, last) {
        if Less(last, k) {
          LessTransitive(k, last, k);
        }
        LessIrreflexive(k);
        assert false;
      }
      NothingAfter(d[..|d| - 1], k);
    }
  }

  // ---------------------------------------------------------------- runs

  /** One poll: the bucket as it is then, and the replies. */
  datatype Turn = Turn(bucket: Bucket, replies: Replies)

  datatype Delivery = Delivery(volume: nat, key: Key)

  function Tag(volume: nat, keys: seq<Key>): (r: seq<Delivery>)
    ensures |r| == |keys| && forall i :: 0 <= i < |keys| ==> r[i] == Delivery(volume, keys[i])
  {
    seq(|keys|, i requires 0 <= i < |keys| => Delivery(volume, keys[i]))
  }

  datatype World = World(poller: State, bucket: Bucket, log: seq<Delivery>)

  /** The volume a poll looks at, when it gets that far. */
  function TargetOf(s: State, r: Replies): nat {
    var baseline := Baseline(s, r);
    if baseline.None? then 0 else baseline.value + 1
  }

  /** A key listing that succeeds is true of the bucket. */
  ghost predicate Honest(s: State, t: Turn) {
    var keys := Collect(t.replies.pages);
    keys.Some? && Baseline(s, t.replies).Some? ==>
      keys.value == KeysAfter(Dir(t.bucket, TargetOf(s, t.replies)), s.lastSeen)
  }

  function Turned(w: World, t: Turn): World {
    var p := Poll(w.poller, t.replies);
    World(p.state, t.bucket,
          w.log + if p.delivered.None? then [] else Tag(TargetOf(w.poller, t.replies), p.delivered.value))
  }

  function RunAll(turns: seq<Turn>): World {
    if turns == [] then World(FRESH, map[], [])
    else Turned(RunAll(turns[..|turns| - 1]), turns[|turns| - 1])
  }

  /** Directories are sorted and only ever grow, and listings are honest. */
  ghost predicate Possible(turns: seq<Turn>) {
    turns != [] ==>
      var front, t := turns[..|turns| - 1], turns[|turns| - 1];
      var w := RunAll(front);
      Possible(front) && BucketOk(t.bucket) && Grows(w.bucket, t.bucket) && Honest(w.poller, t)
  }

  lemma RunSnoc(turns: seq<Turn>, t: Turn)
    ensures RunAll(turns + [t]) == Turned(RunAll(turns), t)
    ensures Possible(turns + [t]) ==>
              && Possible(turns) && BucketOk(t.bucket) && Grows(RunAll(turns).bucket, t.bucket)
              && Honest(RunAll(turns).poller, t)
  {
    var all := turns + [t];
    assert all[..|all| - 1] == turns && all[|all| - 1] == t;
  }

  // ---------------------------------------------------------------- the invariant

  function DeliveredFor(log: seq<Delivery>, volume: nat): seq<Key> {
    if log == [] then []
    else
      var before := DeliveredFor(log[..|log| - 1], volume);
      if log[|log| - 1].volume == volume then before + [log[|log| - 1].key] else before
  }

  lemma {:induction false} DeliveredForAppend(log: seq<Delivery>, v: nat, keys: seq<Key>, volume: nat)
    ensures DeliveredFor(log + Tag(v, keys), volume) == DeliveredFor(log, volume) + if v == volume then keys else []
    decreases |keys|
  {
    if keys == [] {
      assert log + Tag(v, keys) == log;
    } else {
      var n := |keys| - 1;
      assert (log + Tag(v, keys))[..|log| + n] == log + Tag(v, keys[..n]);
      DeliveredForAppend(log, v, keys[..n], volume);
      assert keys[..n] + [keys[n]] == keys;
    }
  }

  /** What has been delivered for `volume` is what its first `p` keys call for. */
  predicate UpTo(w: World, volume: nat, p: nat) {
    p <= |Dir(w.bucket, volume)| && DeliveredFor(w.log, volume) == Recognised(Dir(w.bucket, volume)[..p])
  }

  /** How far into the target's directory the poller has got. */
  predicate AtKey(w: World, target: nat, p: nat) {
    && UpTo(w, target, p)
    && w.poller.lastSeen == (if p == 0 then None else Some(Dir(w.bucket, target)[p - 1]))
  }

  ghost predicate PrefixDelivered(w: World, volume: nat) {
    exists p: nat :: UpTo(w, volume, p)
  }

  ghost predicate Standing(w: World, target: nat) {
    exists p: nat :: AtKey(w, target, p)
  }

  /** Nothing yet of later volumes; a prefix of every earlier one. */
  ghost predicate Around(w: World, target: nat) {
    && (forall v: nat :: v > target ==> DeliveredFor(w.log, v) == [])
    && (forall v: nat :: v < target ==> PrefixDelivered(w, v))
  }

  ghost predicate Inv(w: World) {
    && BucketOk(w.bucket)
    && (!w.poller.seenAny ==> w.poller.lastSeen == None)
    && match w.poller.lastCompleted
       case None => w.log == [] && w.poller.lastSeen == None
       case Some(b) => Standing(w, b + 1) && Around(w, b + 1)
  }

  lemma RecognisedAppend(a: seq<Key>, b: seq<Key>)
    ensures Recognised(a + b) == Recognised(a) + Recognised(b)
    decreases |b|
  {
    if b == [] {
      assert a + b == a;
    } else {
      assert (a + b)[..|a + b| - 1] == a + b[..|b| - 1];
      RecognisedAppend(a, b[..|b| - 1]);
    }
  }

  lemma DirGrows(b: Bucket, b': Bucket, v: nat, p: nat)
    requires Grows(b, b') && p <= |Dir(b, v)|
    ensures p <= |Dir(b', v)| && Dir(b', v)[..p] == Dir(b, v)[..p]
  {
  }

  /** The bucket growing under the poller changes nothing it has established. */
  lemma GrowthKeeps(w: World, b': Bucket)
    requires Inv(w) && BucketOk(b') && Grows(w.bucket, b')
    ensures Inv(w.(bucket := b'))
  {
    var w' := w.(bucket := b');
    forall v: nat | PrefixDelivered(w, v)
      ensures PrefixDelivered(w', v)
    {
      var p: nat :| UpTo(w, v, p);
      DirGrows(w.bucket, b', v, p);
      assert UpTo(w', v, p);
    }
    if w.poller.lastCompleted.Some? {
      var target := w.poller.lastCompleted.value + 1;
      var p: nat :| AtKey(w, target, p);
      DirGrows(w.bucket, b', target, p);
      assert p > 0 ==> Dir(w.bucket, target)[p - 1] == Dir(w.bucket, target)[..p][p - 1];
      assert p > 0 ==> Dir(b', target)[p - 1] == Dir(b', target)[..p][p - 1];
      assert AtKey(w', target, p);
    }
  }

  lemma NothingIsAPrefix(w: World, v: nat)
    requires DeliveredFor(w.log, v) == []
    ensures UpTo(w, v, 0) && PrefixDelivered(w, v)
  {
    assert Dir(w.bucket, v)[..0] == [];
    assert UpTo(w, v, 0);
  }

  /** Where the poller stands for the volume it looks at in this turn. */
  lemma WhereItStands(w: World, r: Replies) returns (p: nat)
    requires Inv(w) && Baseline(w.poller, r).Some?
    ensures AtKey(w, TargetOf(w.poller, r), p)
    ensures Around(w, TargetOf(w.poller, r))
  {
    var target := TargetOf(w.poller, r);
    if w.poller.lastCompleted.Some? {
      p :| AtKey(w, target, p);
    } else {
      p := 0;
      forall v: nat
        ensures UpTo(w, v, 0) && PrefixDelivered(w, v)
      {
        NothingIsAPrefix(w, v);
      }
    }
  }

  /** Which keys the poller remembers does not matter for what has been delivered. */
  lemma SameDeliveries(w: World, s: State, target: nat)
    requires Around(w, target)
    ensures Around(w.(poller := s), target)
    ensures PrefixDelivered(w, target) ==> PrefixDelivered(w.(poller := s), target)
  {
    var w' := w.(poller := s);
    forall v: nat | PrefixDelivered(w, v)
      ensures PrefixDelivered(w', v)
    {
      var p: nat :| UpTo(w, v, p);
      assert UpTo(w', v, p);
    }
  }

  /** The poller may turn to any later volume: nothing has been delivered for it yet. */
  lemma MovingOn(w: World, target: nat, next: nat)
    requires BucketOk(w.bucket) && target < next
    requires PrefixDelivered(w, target) && Around(w, target)
    ensures Inv(w.(poller := State(Some(next - 1), None, 0, false)))
  {
    var w' := w.(poller := State(Some(next - 1), None, 0, false));
    SameDeliveries(w, w'.poller, target);
    forall v: nat | v > target
      ensures UpTo(w', v, 0) && PrefixDelivered(w', v)
    {
      NothingIsAPrefix(w', v);
    }
    assert AtKey(w', next, 0);
  }

  /** Delivering the rest of the target's directory. */
  lemma DeliveringKeeps(w: World, target: nat, p: nat, keys: seq<Key>)
    requires BucketOk(w.bucket) && AtKey(w, target, p)
    requires keys == Dir(w.bucket, target)[p..]
    ensures var w' := w.(log := w.log + Tag(target, Recognised(keys)));
            && UpTo(w', target, |Dir(w.bucket, target)|)
            && (forall v: nat :: v != target ==> DeliveredFor(w'.log, v) == DeliveredFor(w.log, v))
  {
    var d := Dir(w.bucket, target);
    var log' := w.log + Tag(target, Recognised(keys));
    RecognisedAppend(d[..p], d[p..]);
    assert d[..p] + d[p..] == d && d[..|d|] == d;
    forall v: nat
      ensures DeliveredFor(log', v) == DeliveredFor(w.log, v) + if v == target then Recognised(keys) else []
    {
      DeliveredForAppend(w.log, target, Recognised(keys), v);
    }
    forall v: nat | v != target
      ensures DeliveredFor(log', v) == DeliveredFor(w.log, v)
    {
      assert DeliveredFor(w.log, v) + [] == DeliveredFor(w.log, v);
    }
  }

  lemma ListedRest(w: World, t: Turn, p: nat)
    requires BucketOk(w.bucket) && w.bucket == t.bucket && Honest(w.poller, t)
    requires Baseline(w.poller, t.replies).Some? && Collect(t.replies.pages).Some?
    requires AtKey(w, TargetOf(w.poller, t.replies), p)
    ensures Collect(t.replies.pages).value == Dir(w.bucket, TargetOf(w.poller, t.replies))[p..]
  {
    var d := Dir(w.bucket, TargetOf(w.poller, t.replies));
    if p == 0 {
      KeysAfterAll(d);
      assert d[0..] == d;
    } else {
      KeysAfterAt(d, p);
    }
  }

  lemma EmptyPollKeeps(w: World, target: nat, p: nat, relisted: Option<seq<nat>>)
    requires BucketOk(w.bucket) && target > 0 && AtKey(w, target, p) && Around(w, target)
    requires w.poller.lastCompleted == Some(target - 1)
    requires !w.poller.seenAny ==> w.poller.lastSeen == None
    ensures Inv(w.(poller := Recover(w.poller, target, relisted).state))
  {
    var s' := Recover(w.poller, target, relisted).state;
    if s'.lastCompleted == Some(target - 1) {
      assert AtKey(w.(poller := s'), target, p);
      SameDeliveries(w, s', target);
    } else {
      MovingOn(w, target, s'.lastCompleted.value + 1);
    }
  }

  lemma EmptyTurnKeeps(w: World, t: Turn, p: nat)
    requires Inv(w) && Baseline(w.poller, t.replies).Some? && Collect(t.replies.pages) == Some([])
    requires AtKey(w, TargetOf(w.poller, t.replies), p) && Around(w, TargetOf(w.poller, t.replies))
    ensures Inv(w.(poller := Poll(w.poller, t.replies).state))
  {
    var target := TargetOf(w.poller, t.replies);
    var s1 := w.poller.(lastCompleted := Some(target - 1), emptyPolls := w.poller.emptyPolls + 1);
    SameDeliveries(w, s1, target);
    assert AtKey(w.(poller := s1), target, p);
    EmptyPollKeeps(w.(poller := s1), target, p, t.replies.relisted);
  }

  lemma OthersUntouched(w: World, w': World, target: nat)
    requires Around(w, target) && w'.bucket == w.bucket
    requires forall v: nat :: v != target ==> DeliveredFor(w'.log, v) == DeliveredFor(w.log, v)
    ensures Around(w', target)
  {
    forall v: nat | v < target
      ensures PrefixDelivered(w', v)
    {
      assert PrefixDelivered(w, v);
      var q: nat :| UpTo(w, v, q);
      assert UpTo(w', v, q);
    }
  }

  /** The two ways to stand after a delivery: at the end of the directory, or past it. */
  predicate StandsAfter(s: State, target: nat, d: seq<Key>)
    requires d != []
  {
    || s == State(Some(target), None, 0, false)
    || (target > 0 && s.lastCompleted == Some(target - 1) && s.lastSeen == Some(d[|d| - 1]) && s.seenAny)
  }

  lemma AfterDelivery(w: World, s: State, target: nat)
    requires BucketOk(w.bucket) && Dir(w.bucket, target) != []
    requires UpTo(w, target, |Dir(w.bucket, target)|) && Around(w, target)
    requires StandsAfter(s, target, Dir(w.bucket, target))
    ensures Inv(w.(poller := s))
  {
    hide Recognised, DeliveredFor, BucketOk;
    if s.lastCompleted == Some(target) {
      MovingOn(w, target, target + 1);
    } else {
      SameDeliveries(w, s, target);
      assert AtKey(w.(poller := s), target, |Dir(w.bucket, target)|);
    }
  }

  lemma DeliveryKeeps(w: World, t: Turn, p: nat)
    requires Inv(w) && Baseline(w.poller, t.replies).Some? && Collect(t.replies.pages).Some?
    requires AtKey(w, TargetOf(w.poller, t.replies), p) && Around(w, TargetOf(w.poller, t.replies))
    requires var keys := Collect(t.replies.pages).value;
             && keys != [] && AllFetched(t.replies.fetched, |Recognised(keys)|)
             && keys == Dir(w.bucket, TargetOf(w.poller, t.replies))[p..]
    ensures var keys := Collect(t.replies.pages).value;
            Inv(World(Poll(w.poller, t.replies).state, w.bucket,
                      w.log + Tag(TargetOf(w.poller, t.replies), Recognised(keys))))
  {
    var target, keys := TargetOf(w.poller, t.replies), Collect(t.replies.pages).value;
    var d := Dir(w.bucket, target);
    assert StandsAfter(Poll(w.poller, t.replies).state, target, d);
    DeliveringKeeps(w, target, p, keys);
    hide Poll, Recognised, DeliveredFor, Around, Collect, AtKey, StandsAfter;
    var w1 := w.(log := w.log + Tag(target, Recognised(keys)));
    OthersUntouched(w, w1, target);
    AfterDelivery(w1, Poll(w.poller, t.replies).state, target);
  }

  lemma FailedFetchKeeps(w: World, s: State)
    requires Inv(w) && s.lastCompleted == w.poller.lastCompleted && s.lastSeen == w.poller.lastSeen && s.seenAny
    ensures Inv(w.(poller := s))
  {
    if s.lastCompleted.Some? {
      var target := s.lastCompleted.value + 1;
      SameDeliveries(w, s, target);
      var p: nat :| AtKey(w, target, p);
      assert AtKey(w.(poller := s), target, p);
    }
  }

  lemma EmptyPollSilent(w: World, t: Turn)
    requires Collect(t.replies.pages) == Some([])
    ensures Turned(w, t) == World(Poll(w.poller, t.replies).state, t.bucket, w.log)
  {
    assert w.log + [] == w.log;
  }

  lemma TurnKeeps(w: World, t: Turn)
    requires Inv(w) && w.bucket == t.bucket && Honest(w.poller, t)
    ensures Inv(Turned(w, t))
  {
    var r, s := t.replies, w.poller;
    var keys := Collect(r.pages);
    assert w.log + [] == w.log;
    if Baseline(s, r).Some? && keys.Some? {
      var p := WhereItStands(w, r);
      ListedRest(w, t, p);
      hide Inv, AtKey, Around, Recover, Honest, BucketOk, Recognised, HasEnd, DeliveredFor;
      if keys.value == [] {
        EmptyTurnKeeps(w, t, p);
        EmptyPollSilent(w, t);
      } else if AllFetched(r.fetched, |Recognised(keys.value)|) {
        DeliveryKeeps(w, t, p);
      } else {
        FailedFetchKeeps(w, s.(emptyPolls := 0, seenAny := true));
      }
    }
  }

  lemma {:induction false} EveryRun(turns: seq<Turn>)
    requires Possible(turns)
    ensures Inv(RunAll(turns))
  {
    if turns != [] {
      var front, t := turns[..|turns| - 1], turns[|turns| - 1];
      EveryRun(front);
      var w := RunAll(front);
      GrowthKeeps(w, t.bucket);
      TurnKeeps(w.(bucket := t.bucket), t);
    }
  }

  // ---------------------------------------------------------------- what that says

  /** For every volume, what has been delivered is what a prefix of its directory calls for. */
  lemma DeliveredInOrder(turns: seq<Turn>, volume: nat)
    requires Possible(turns)
    ensures PrefixDelivered(RunAll(turns), volume)
  {
    EveryRun(turns);
    var w := RunAll(turns);
    if w.poller.lastCompleted.None? || volume > w.poller.lastCompleted.value + 1 {
      NothingIsAPrefix(w, volume);
    } else if volume == w.poller.lastCompleted.value + 1 {
      var p: nat :| AtKey(w, volume, p);
      assert UpTo(w, volume, p);
    }
  }

  lemma {:induction false} RecognisedSorted(d: seq<Key>)
    requires Sorted(d)
    ensures Sorted(Recognised(d))
    ensures forall i :: 0 <= i < |Recognised(d)| ==> Recognised(d)[i] in d
  {
    if d != [] {
      var front := d[..|d| - 1];
      RecognisedSorted(front);
      var r := Recognised(front);
      forall i | 0 <= i < |r|
        ensures Less(r[i], d[|d| - 1]) && r[i] in d
      {
        assert r[i] in front;
        var j :| 0 <= j < |front| && front[j] == r[i];
        assert d[j] == r[i];
      }
    }
  }

  lemma {:induction false} LoggedIsDelivered(log: seq<Delivery>, i: nat) returns (k: nat)
    requires i < |log|
    ensures k == |DeliveredFor(log[..i], log[i].volume)| < |DeliveredFor(log, log[i].volume)|
    ensures DeliveredFor(log, log[i].volume)[k] == log[i].key
    decreases |log|
  {
    if i < |log| - 1 {
      var front := log[..|log| - 1];
      assert front[..i] == log[..i];
      k := LoggedIsDelivered(front, i);
    } else {
      k := |DeliveredFor(log[..i], log[i].volume)|;
    }
  }

  lemma {:induction false} DeliveredGrows(log: seq<Delivery>, i: nat, j: nat, v: nat)
    requires i <= j <= |log|
    ensures |DeliveredFor(log[..i], v)| <= |DeliveredFor(log[..j], v)|
    decreases j - i
  {
    if i < j {
      assert log[..j][..j - 1] == log[..j - 1];
      DeliveredGrows(log, i, j - 1, v);
    }
  }

  lemma OneMore(log: seq<Delivery>, i: nat)
    requires i < |log|
    ensures |DeliveredFor(log[..i + 1], log[i].volume)| == |DeliveredFor(log[..i], log[i].volume)| + 1
  {
    assert log[..i + 1][..i] == log[..i];
  }

  lemma SortedPrefix(d: seq<Key>, p: nat)
    requires Sorted(d) && p <= |d|
    ensures Sorted(d[..p])
  {
  }

  lemma SortedApart(d: seq<Key>, a: nat, b: nat)
    requires Sorted(d) && a < b < |d|
    ensures Less(d[a], d[b])
  {
  }

  lemma SortedDir(b: Bucket, v: nat)
    requires BucketOk(b)
    ensures Sorted(Dir(b, v))
  {
  }

  /** No object is ever delivered twice, however often the poller fails or re-anchors. */
  lemma NothingTwice(turns: seq<Turn>, i: nat, j: nat)
    requires Possible(turns)
    requires i < j < |RunAll(turns).log|
    ensures RunAll(turns).log[i] != RunAll(turns).log[j]
  {
    hide RunAll, Possible, Recognised, DeliveredFor, Sorted;
    var w := RunAll(turns);
    var log := w.log;
    EveryRun(turns);
    if log[i].volume == log[j].volume {
      var v := log[i].volume;
      DeliveredInOrder(turns, v);
      var p: nat :| UpTo(w, v, p);
      SortedDir(w.bucket, v);
      SortedPrefix(Dir(w.bucket, v), p);
      RecognisedSorted(Dir(w.bucket, v)[..p]);
      var a := LoggedIsDelivered(log, i);
      var b := LoggedIsDelivered(log, j);
      OneMore(log, i);
      DeliveredGrows(log, i + 1, j, v);
      assert a < b;
      SortedApart(DeliveredFor(log, v), a, b);
      LessIrreflexive(log[j].key);
    }
  }

  /** Once anchored, the poller's target never moves backwards. */
  lemma TargetAdvances(s: State, r: Replies)
    requires s.lastCompleted.Some?
    ensures Poll(s, r).state.lastCompleted.Some?
    ensures Poll(s, r).state.lastCompleted.value >= s.lastCompleted.value
  {
  }

  /** What a turn adds to the log is of the target's volume, and leaves the poller anchored. */
  lemma NewDeliveries(w: World, t: Turn)
    requires Inv(w)
    ensures w.log <= Turned(w, t).log
    ensures forall i :: |w.log| <= i < |Turned(w, t).log| ==>
              && Turned(w, t).poller.lastCompleted.Some?
              && Turned(w, t).log[i].volume <= Turned(w, t).poller.lastCompleted.value + 1
              && (w.poller.lastCompleted.Some? ==>
                    Turned(w, t).log[i].volume == w.poller.lastCompleted.value + 1)
    ensures w.log != [] ==> w.poller.lastCompleted.Some?
  {
  }

  /** Chunks are delivered volume by volume, in increasing order. */
  lemma {:induction false} VolumesInOrder(turns: seq<Turn>, i: nat, j: nat)
    requires Possible(turns)
    requires i <= j < |RunAll(turns).log|
    ensures RunAll(turns).log[i].volume <= RunAll(turns).log[j].volume
    ensures RunAll(turns).poller.lastCompleted.Some?
    ensures RunAll(turns).log[j].volume <= RunAll(turns).poller.lastCompleted.value + 1
  {
    var front, t := turns[..|turns| - 1], turns[|turns| - 1];
    var w := RunAll(front);
    EveryRun(front);
    hide Inv, Poll, Honest, BucketOk;
    NewDeliveries(w, t);
    var n := |w.log|;
    if j < n {
      VolumesInOrder(front, i, j);
      TargetAdvances(w.poller, t.replies);
    } else if i < n {
      VolumesInOrder(front, i, i);
      assert RunAll(turns).log[i] == w.log[i];
    }
  }

  /** In this turn an anchored poller leaves its target behind. */
  predicate GivesUp(w: World, t: Turn) {
    && w.poller.lastCompleted.Some? && Turned(w, t).poller.lastCompleted.Some?
    && Turned(w, t).poller.lastCompleted.value > w.poller.lastCompleted.value
  }

  /**
   * A volume is given up in one of three ways: its end chunk has been delivered; some of
   * it has been seen and it has been silent past the longer threshold; or nothing of it
   * was ever seen or delivered past the shorter one, and a volume at least two ahead of it
   * is listed.
   */
  lemma GivenUpForAReason(turns: seq<Turn>, t: Turn)
    requires Possible(turns) && GivesUp(RunAll(turns), t)
    ensures HasReason(RunAll(turns), t)
  {
    EveryRun(turns);
    GivenUp(RunAll(turns), t);
  }

  predicate HasReason(w: World, t: Turn)
    requires w.poller.lastCompleted.Some?
  {
    var volume, log := w.poller.lastCompleted.value + 1, Turned(w, t).log;
    || HasEnd(DeliveredFor(log, volume))
    || (w.poller.seenAny && w.poller.emptyPolls + 1 >= STUCK_MID_VOLUME_EMPTY_POLLS)
    || (&& !w.poller.seenAny && w.poller.emptyPolls + 1 >= REANCHOR_EMPTY_POLLS
        && DeliveredFor(log, volume) == []
        && var listed := t.replies.relisted;
           listed.Some? && listed.value != [] && Largest(listed.value) >= volume + 2)
  }

  lemma GivenUp(w: World, t: Turn)
    requires Inv(w) && GivesUp(w, t)
    ensures HasReason(w, t)
  {
    var volume := w.poller.lastCompleted.value + 1;
    var keys := Collect(t.replies.pages);
    if !w.poller.seenAny {
      UnseenUndelivered(w);
    }
    hide Inv, DeliveredFor, HasEnd, Recognised, Tag;
    if keys.value == [] {
      EmptyPollSilent(w, t);
    } else {
      EndDelivered(w.log, volume, Recognised(keys.value));
    }
  }

  lemma UnseenUndelivered(w: World)
    requires Inv(w) && w.poller.lastCompleted.Some? && !w.poller.seenAny
    ensures DeliveredFor(w.log, w.poller.lastCompleted.value + 1) == []
  {
    var volume := w.poller.lastCompleted.value + 1;
    var p: nat :| AtKey(w, volume, p);
    assert p == 0 && Dir(w.bucket, volume)[..0] == [];
  }

  lemma EndDelivered(log: seq<Delivery>, volume: nat, wanted: seq<Key>)
    requires HasEnd(wanted)
    ensures HasEnd(DeliveredFor(log + Tag(volume, wanted), volume))
  {
    DeliveredForAppend(log, volume, wanted, volume);
    var before := DeliveredFor(log, volume);
    var i :| 0 <= i < |wanted| && KindOf(wanted[i]) == Some(EndKind);
    assert (before + wanted)[|before| + i] == wanted[i];
  }

  /** A poll that succeeds and finds keys delivers everything the volume holds by then. */
  lemma CatchesUp(turns: seq<Turn>, t: Turn)
    requires Possible(turns + [t])
    requires Poll(RunAll(turns).poller, t.replies).delivered.Some?
    requires Collect(t.replies.pages).value != []
    ensures var volume := TargetOf(RunAll(turns).poller, t.replies);
            DeliveredFor(RunAll(turns + [t]).log, volume) == Recognised(Dir(t.bucket, volume))
  {
    RunSnoc(turns, t);
    EveryRun(turns);
    GrowthKeeps(RunAll(turns), t.bucket);
    hide RunAll, Possible;
    TurnCatchesUp(RunAll(turns).(bucket := t.bucket), t);
  }

  lemma TurnCatchesUp(w: World, t: Turn)
    requires Inv(w) && w.bucket == t.bucket && Honest(w.poller, t)
    requires Poll(w.poller, t.replies).delivered.Some? && Collect(t.replies.pages).value != []
    ensures var volume := TargetOf(w.poller, t.replies);
            DeliveredFor(Turned(w, t).log, volume) == Recognised(Dir(t.bucket, volume))
  {
    var target, keys := TargetOf(w.poller, t.replies), Collect(t.replies.pages).value;
    var d := Dir(w.bucket, target);
    var p := WhereItStands(w, t.replies);
    ListedRest(w, t, p);
    assert Turned(w, t).log == w.log + Tag(target, Recognised(keys));
    hide Inv, Around, Poll, Recognised, DeliveredFor, Collect, KeysAfter, Honest;
    DeliveringKeeps(w, target, p, keys);
    assert d[..|d|] == d;
  }
}

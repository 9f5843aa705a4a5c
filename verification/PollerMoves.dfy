/**
 * When the poller moves on and to where, told from its history alone: a delivered volume
 * is left at once, a silent one after so many polls and no sooner.
 */
module PollerMoves {
  import opened Wrappers
  import opened Picking
  import opened Poller
  import opened PollerRuns

  /** The target of an anchored poller is the volume after the last one it is done with. */
  function Target(s: State): nat {
    if s.lastCompleted.Some? then s.lastCompleted.value + 1 else 0
  }

  /** Nothing has been seen of the target and no poll for it has come up empty. */
  predicate FreshAt(s: State, target: nat) {
    s.lastCompleted.Some? && Target(s) == target && s.lastSeen == None && s.emptyPolls == 0 && !s.seenAny
  }

  // ---------------------------------------------------------------- polls that list no key

  /** The target volume is listed and has no new key. */
  predicate Silent(t: Turn) {
    Collect(t.replies.pages) == Some([])
  }

  /** A relisting came through and shows a volume at least two ahead of the target. */
  predicate SeesAhead(t: Turn, target: nat) {
    && t.replies.relisted.Some?
    && exists i :: 0 <= i < |t.replies.relisted.value| && t.replies.relisted.value[i] >= target + 2
  }

  predicate IsNewest(folders: seq<nat>, v: nat) {
    v in folders && forall i :: 0 <= i < |folders| ==> folders[i] <= v
  }

  /**
   * On a turn without a key an anchored poller moves on exactly when some of the volume
   * has been seen and this is at least the 60th such turn, or none has, it is at least
   * the 12th, and a volume two or more ahead is listed. In the first case the next volume
   * becomes the target, in the second the one before the newest, with nothing seen of it.
   */
  lemma MovesOnIff(turns: seq<Turn>, t: Turn)
    requires Possible(turns + [t]) && Silent(t) && RunAll(turns).poller.lastCompleted.Some?
    ensures var s, s' := RunAll(turns).poller, RunAll(turns + [t]).poller;
            var silent := s.emptyPolls + 1;
            var stuck := s.seenAny && silent >= 60;
            var overtaken := !s.seenAny && silent >= 12 && SeesAhead(t, Target(s));
            && s'.lastCompleted.Some?
            && (Target(s') != Target(s) <==> stuck || overtaken)
            && (stuck ==> FreshAt(s', Target(s) + 1))
            && (overtaken ==> FreshAt(s', Target(s')) && IsNewest(t.replies.relisted.value, Target(s') + 1))
  {
    RunSnoc(turns, t);
    hide RunAll, Possible;
    if t.replies.relisted.Some? && t.replies.relisted.value != [] {
      var largest := Largest(t.replies.relisted.value);
    }
  }

  /** A turn without a key that does not move on is counted; a relisting in vain starts the count again. */
  lemma StaysOn(turns: seq<Turn>, t: Turn)
    requires Possible(turns + [t]) && Silent(t) && RunAll(turns).poller.lastCompleted.Some?
    ensures var s, s' := RunAll(turns).poller, RunAll(turns + [t]).poller;
            var relists := !s.seenAny && s.emptyPolls + 1 >= 12;
            && (Target(s') == Target(s) ==>
                  s' == s.(emptyPolls := if relists && t.replies.relisted.Some? then 0 else s.emptyPolls + 1))
            && (Poll(s, t.replies).delivered == None <==> relists && t.replies.relisted.None?)
            && RunAll(turns + [t]).log == RunAll(turns).log
  {
    RunSnoc(turns, t);
    hide RunAll, Possible;
    assert RunAll(turns).log + [] == RunAll(turns).log;
    if t.replies.relisted.Some? && t.replies.relisted.value != [] {
      var largest := Largest(t.replies.relisted.value);
    }
  }

  /** After `n` more turns without a key: still waiting, or, at the sixtieth, with the next volume. */
  predicate WaitsOrMoves(s: State, s': State, n: nat) {
    if s.emptyPolls + n < 60 then s' == s.(emptyPolls := s.emptyPolls + n) else FreshAt(s', Target(s) + 1)
  }

  predicate HalfSeen(s: State) {
    s.lastCompleted.Some? && s.seenAny
  }

  lemma NoTurnsYet(s: State)
    requires s.emptyPolls < 60
    ensures WaitsOrMoves(s, s, 0)
  {
  }

  lemma OneMoreSilent(turns: seq<Turn>, t: Turn, s0: State, n: nat)
    requires Possible(turns + [t]) && Silent(t) && HalfSeen(s0) && s0.emptyPolls + n < 60
    requires WaitsOrMoves(s0, RunAll(turns).poller, n)
    ensures WaitsOrMoves(s0, RunAll(turns + [t]).poller, n + 1)
  {
    hide RunAll, Possible, Poll, Silent, FreshAt, SeesAhead, IsNewest;
    MovesOnIff(turns, t);
    StaysOn(turns, t);
  }

  /** A volume that falls silent half-way is left after sixty turns in a row without a key, and no sooner. */
  lemma {:induction false} SilenceEnds(turns: seq<Turn>, more: seq<Turn>)
    requires Possible(turns + more) && forall i :: 0 <= i < |more| ==> Silent(more[i])
    requires var s := RunAll(turns).poller; HalfSeen(s) && s.emptyPolls + |more| <= 60 && s.emptyPolls < 60
    ensures WaitsOrMoves(RunAll(turns).poller, RunAll(turns + more).poller, |more|)
    decreases |more|
  {
    hide *;
    if more == [] {
      assert turns + more == turns;
      NoTurnsYet(RunAll(turns).poller);
    } else {
      var n := |more| - 1;
      assert forall i :: 0 <= i < n ==> more[..n][i] == more[i];
      var before, t := turns + more[..n], more[n];
      assert turns + more == before + [t];
      RunSnoc(before, t);
      SilenceEnds(turns, more[..n]);
      OneMoreSilent(before, t, RunAll(turns).poller, n);
    }
  }

  // ---------------------------------------------------------------- polls that list keys

  /** The key names a chunk. */
  predicate IsChunk(key: Key) {
    key != "" && key[|key| - 1] in {'S', 'I', 'E'}
  }

  /** These are, in order, exactly the keys that name chunks. */
  ghost predicate ChunksAt(keys: seq<Key>, chunks: seq<Key>, at: seq<nat>) {
    Picks(keys, chunks, at, 0, IsChunk)
  }

  lemma {:induction false} RecognisedAt(keys: seq<Key>) returns (at: seq<nat>)
    ensures ChunksAt(keys, Recognised(keys), at)
  {
    hide Picks, IsChunk, KindOf;
    PicksNothing(IsChunk);
    at := [];
    if keys != [] {
      var n := |keys| - 1;
      at := RecognisedAt(keys[..n]);
      PicksSnoc(keys[..n], Recognised(keys[..n]), at, 0, IsChunk, keys[n]);
      ChunkIff(keys[n]);
      assert keys[..n] + [keys[n]] == keys;
      at := if IsChunk(keys[n]) then at + [n] else at;
    }
  }

  lemma ChunkIff(key: Key)
    ensures KindOf(key).Some? <==> IsChunk(key)
  {
  }

  function ChunkCount(keys: seq<Key>): nat {
    if keys == [] then 0 else ChunkCount(keys[..|keys| - 1]) + if IsChunk(keys[|keys| - 1]) then 1 else 0
  }

  lemma {:induction false} RecognisedCount(keys: seq<Key>)
    ensures |Recognised(keys)| == ChunkCount(keys)
  {
    if keys != [] {
      RecognisedCount(keys[..|keys| - 1]);
    }
  }

  /** All objects that the chunk keys name arrive. */
  predicate AllArrive(fetched: seq<bool>, keys: seq<Key>) {
    ChunkCount(keys) <= |fetched| && forall k :: 0 <= k < ChunkCount(keys) ==> fetched[k]
  }

  predicate EndListed(keys: seq<Key>) {
    exists i :: 0 <= i < |keys| && keys[i] != "" && keys[i][|keys[i]| - 1] == 'E'
  }

  /** What one poll that lists keys does. */
  ghost predicate Delivers(s: State, fetched: seq<bool>, keys: seq<Key>, p: Polled) {
    && (p.delivered.Some? <==> AllArrive(fetched, keys))
    && (p.delivered.Some? ==> exists at :: ChunksAt(keys, p.delivered.value, at))
    && if p.delivered.Some? && EndListed(keys) then FreshAt(p.state, Target(s) + 1)
       else p.state.seenAny && p.state.emptyPolls == 0 && p.state.lastCompleted == s.lastCompleted
  }

  lemma PollDelivers(s: State, r: Replies)
    requires s.lastCompleted.Some? && Collect(r.pages).Some? && Collect(r.pages) != Some([])
    ensures Delivers(s, r.fetched, Collect(r.pages).value, Poll(s, r))
  {
    var keys := Collect(r.pages).value;
    var at := RecognisedAt(keys);
    EndedIff(keys, at);
    RecognisedCount(keys);
    hide Recognised, HasEnd, EndListed, ChunkCount, ChunksAt, Collect, Recover;
  }

  /**
   * A turn with keys delivers exactly those that name chunks, in order, if all of them
   * arrive, and nothing at all otherwise; and it moves on, to the next volume, exactly
   * when what it delivers has an end chunk.
   */
  lemma DeliveryMovesOnIff(turns: seq<Turn>, t: Turn)
    requires Possible(turns + [t]) && RunAll(turns).poller.lastCompleted.Some?
    requires Collect(t.replies.pages).Some? && Collect(t.replies.pages) != Some([])
    ensures var w, w' := RunAll(turns), RunAll(turns + [t]);
            var got := Poll(w.poller, t.replies).delivered;
            && Delivers(w.poller, t.replies.fetched, Collect(t.replies.pages).value, Polled(w'.poller, got))
            && w'.log == w.log + if got.Some? then Tag(Target(w.poller), got.value) else []
  {
    hide *;
    RunSnoc(turns, t);
    Anchored(RunAll(turns), t);
    PollDelivers(RunAll(turns).poller, t.replies);
  }

  lemma Anchored(w: World, t: Turn)
    requires w.poller.lastCompleted.Some?
    ensures var p := Poll(w.poller, t.replies);
            Turned(w, t) == World(p.state, t.bucket,
                                  w.log + if p.delivered.Some? then Tag(Target(w.poller), p.delivered.value) else [])
  {
    hide Poll, Tag;
  }

  lemma EndedIff(keys: seq<Key>, at: seq<nat>)
    requires ChunksAt(keys, Recognised(keys), at)
    ensures HasEnd(Recognised(keys)) <==> EndListed(keys)
  {
    var chunks := Recognised(keys);
    if EndListed(keys) {
      var i: nat :| i < |keys| && keys[i] != "" && keys[i][|keys[i]| - 1] == 'E';
      assert IsChunk(keys[i]);
      var j :| 0 <= j < |at| && at[j] == i;
      assert KindOf(chunks[j]) == Some(EndKind);
    }
    if HasEnd(chunks) {
      var j :| 0 <= j < |chunks| && KindOf(chunks[j]) == Some(EndKind);
      assert chunks[j] == keys[at[j]];
    }
  }

  // ---------------------------------------------------------------- the first poll

  lemma RecoverAnchored(s: State, target: nat, relisted: Option<seq<nat>>)
    requires s.lastCompleted.Some?
    ensures Recover(s, target, relisted).state.lastCompleted.Some?
  {
    hide NextTarget;
  }

  lemma PollCounts(s: State, r: Replies)
    requires s.lastCompleted.None? ==> s.emptyPolls == 0
    ensures Poll(s, r).state.lastCompleted.None? ==> Poll(s, r).state.emptyPolls == 0
  {
    hide Recover, Recognised, HasEnd, Collect, AllFetched;
    var baseline := Baseline(s, r);
    if baseline.Some? {
      RecoverAnchored(s.(lastCompleted := baseline, emptyPolls := s.emptyPolls + 1), baseline.value + 1, r.relisted);
    }
  }

  lemma {:induction false} CountStartsAtZero(turns: seq<Turn>)
    ensures RunAll(turns).poller.lastCompleted.None? ==> RunAll(turns).poller.emptyPolls == 0
  {
    hide Poll;
    if turns != [] {
      var n := |turns| - 1;
      CountStartsAtZero(turns[..n]);
      PollCounts(RunAll(turns[..n]).poller, turns[n].replies);
    }
  }

  /**
   * A poller that is not anchored starts with the newest volume listed: that is the one it
   * delivers from, and its target if there is nothing to deliver yet.
   */
  lemma StartsAtNewest(turns: seq<Turn>, t: Turn, newest: nat)
    requires Possible(turns + [t]) && RunAll(turns).poller.lastCompleted.None?
    requires t.replies.folders.Some? && newest > 0
    requires IsNewest(t.replies.folders.value, newest) || (t.replies.folders.value == [] && newest == 1)
    ensures var s, s' := RunAll(turns).poller, RunAll(turns + [t]).poller;
            var got := Poll(s, t.replies).delivered;
            && (Silent(t) ==> Target(s') == newest && s'.emptyPolls == 1)
            && RunAll(turns + [t]).log == RunAll(turns).log + if got.Some? then Tag(newest, got.value) else []
  {
    RunSnoc(turns, t);
    CountStartsAtZero(turns);
    hide RunAll, Possible;
    if t.replies.folders.value != [] {
      var largest := Largest(t.replies.folders.value);
      assert largest == newest;
    }
  }

  // ---------------------------------------------------------------- listings

  /** The keys of these pages, one page after the other. */
  function KeysOf(pages: seq<Option<Page>>): seq<Key> {
    if pages == [] then []
    else KeysOf(pages[..|pages| - 1]) + if pages[|pages| - 1].Some? then pages[|pages| - 1].value.keys else []
  }

  /** Page `n` is the first one that says there is no more, and it and all before it came. */
  predicate LastPage(pages: seq<Option<Page>>, n: nat) {
    && n < |pages| && pages[n].Some? && !pages[n].value.truncated
    && forall i :: 0 <= i < n ==> pages[i].Some? && pages[i].value.truncated
  }

  lemma {:induction false} KeysCons(page: Option<Page>, pages: seq<Option<Page>>)
    ensures KeysOf([page] + pages) == (if page.Some? then page.value.keys else []) + KeysOf(pages)
    decreases |pages|
  {
    var all := [page] + pages;
    if pages == [] {
      assert all == [page] && [page][..0] == [];
    } else {
      var n := |pages| - 1;
      KeysCons(page, pages[..n]);
      assert all[..|all| - 1] == [page] + pages[..n];
    }
  }

  /** A listing is the keys of all its pages up to the last, and fails exactly when that one is not reached. */
  lemma {:induction false} CollectIff(pages: seq<Option<Page>>) returns (last: Option<nat>)
    ensures last.Some? ==> LastPage(pages, last.value) && Collect(pages) == Some(KeysOf(pages[..last.value + 1]))
    ensures last.None? ==> Collect(pages) == None && forall n: nat :: !LastPage(pages, n)
    decreases |pages|
  {
    hide KeysOf;
    if pages == [] || pages[0].None? {
      last := None;
    } else if !pages[0].value.truncated {
      last := Some(0);
      NoKeys();
      KeysCons(pages[0], []);
      assert pages[..1] == [pages[0]] + [];
      assert pages[0].value.keys + [] == pages[0].value.keys;
    } else {
      var rest := pages[1..];
      last := CollectIff(rest);
      if last.Some? {
        KeysCons(pages[0], rest[..last.value + 1]);
        assert pages[..last.value + 2] == [pages[0]] + rest[..last.value + 1];
        last := Some(last.value + 1);
      } else {
        forall n: nat | n > 0
          ensures LastPage(pages, n) ==> LastPage(rest, n - 1)
        {
        }
      }
    }
  }

  lemma NoKeys()
    ensures KeysOf([]) == []
  {
  }
}

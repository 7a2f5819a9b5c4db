/** The clock eviction goes by: `lastUse` of an idle entry is the time of its last
    release, in every interleaving of fetches. */
module FetchClock {
  import opened Text
  import opened FetchCache
  import opened FetchProtocol

  /** Action `k` of the run gives back a reference to entry `i`. */
  predicate Releases(run: seq<State>, acts: seq<Action>, k: nat, i: nat)
    requires k < |acts| && k < |run|
  {
    acts[k].Release? && acts[k].t in run[k].calls && run[k].calls[acts[k].t].i == i
  }

  /** When entry `i` was last given back before state `n` of the run. */
  function LastRelease(run: seq<State>, acts: seq<Action>, n: nat, i: nat): Option<int>
    requires n <= |acts| && n <= |run|
  {
    if n == 0 then None
    else if Releases(run, acts, n - 1, i) then Some(acts[n - 1].now)
    else LastRelease(run, acts, n - 1, i)
  }

  /** Only a release moves an entry's clock, to its own time; every other action keeps
      it and takes no reference away. */
  lemma ClockStep(env: Env, s: State, a: Action, i: nat)
    requires Enabled(env, s, a) && i < |s.cache.heap|
    ensures i < |Next(env, s, a).cache.heap|
    ensures var e, e' := s.cache.heap[i], Next(env, s, a).cache.heap[i];
            if a.Release? && s.calls[a.t].i == i then e'.lastUse == a.now
            else e'.lastUse == e.lastUse && e'.refs >= e.refs
  {
    hide Evicts, WellFormed;
  }

  /** A new entry starts with one reference, at the time of its miss. */
  lemma ClockStarts(env: Env, s: State, a: Action, i: nat)
    requires Enabled(env, s, a) && |s.cache.heap| <= i < |Next(env, s, a).cache.heap|
    ensures a.Miss? && i == |s.cache.heap|
    ensures var e := Next(env, s, a).cache.heap[i]; e.refs == 1 && e.lastUse == a.now
  {
    hide Evicts, WellFormed;
  }

  lemma {:induction false} NotThereYet(env: Env, run: seq<State>, acts: seq<Action>, n: nat, i: nat)
    requires IsRun(env, run, acts) && n < |run| && i >= |run[n].cache.heap|
    ensures LastRelease(run, acts, n, i).None?
  {
    if n > 0 {
      HeapGrows(env, run[n - 1], acts[n - 1]);
      NotThereYet(env, run, acts, n - 1, i);
      assert Enabled(env, run[n - 1], acts[n - 1]);
    }
  }

  lemma HeapGrows(env: Env, s: State, a: Action)
    requires Enabled(env, s, a)
    ensures |s.cache.heap| <= |Next(env, s, a).cache.heap|
  {
    hide Evicts, WellFormed;
  }

  /** In every state of every interleaving an entry's clock stands at its last release,
      and one never released is held. */
  lemma {:induction false} ClockIsLastRelease(env: Env, run: seq<State>, acts: seq<Action>, n: nat, i: nat)
    requires IsRun(env, run, acts) && n < |run| && i < |run[n].cache.heap|
    ensures var r, e := LastRelease(run, acts, n, i), run[n].cache.heap[i];
            if r.Some? then e.lastUse == r.value else e.refs >= 1
  {
    if n > 0 {
      var s, a := run[n - 1], acts[n - 1];
      assert Enabled(env, s, a) && run[n] == Next(env, s, a);
      ReleaserIsAt(env, s, a);
      hide Next, Enabled;
      if i < |s.cache.heap| {
        ClockIsLastRelease(env, run, acts, n - 1, i);
        ClockStep(env, s, a, i);
      } else {
        ClockStarts(env, s, a, i);
        NotThereYet(env, run, acts, n - 1, i);
      }
    }
  }

  lemma ReleaserIsAt(env: Env, s: State, a: Action)
    requires Enabled(env, s, a)
    ensures a.Release? ==> a.t in s.calls
  {
  }

  // ------------------------------------------------------------- what eviction hits

  /** Entry `i` is idle, last given back at `r`. */
  ghost predicate IdleSince(run: seq<State>, acts: seq<Action>, n: nat, i: nat, r: int) {
    && n <= |acts| && n < |run| && i < |run[n].cache.heap|
    && run[n].cache.heap[i].refs == 0 && LastRelease(run, acts, n, i) == Some(r)
  }

  lemma IdleHasClock(env: Env, run: seq<State>, acts: seq<Action>, n: nat, i: nat)
    requires IsRun(env, run, acts) && n < |run| && i < |run[n].cache.heap| && run[n].cache.heap[i].refs <= 0
    ensures IdleSince(run, acts, n, i, run[n].cache.heap[i].lastUse)
  {
    ClockIsLastRelease(env, run, acts, n, i);
    RunKeepsInv(env, run, acts, n);
    assert EntryOk(run[n], i);
  }

  predicate IdleAt(s: State, i: nat) {
    i < |s.cache.heap| && s.cache.heap[i].refs <= 0
  }

  /** When a clone ends well at `now`: every evicted entry is idle, and its last release
      lies more than the TTL back or the map is still at its cap; no idle entry whose
      last release lies further back than the TTL stays; and every victim was given back
      no later than every idle survivor. */
  lemma EvictionByRelease(env: Env, run: seq<State>, acts: seq<Action>, n: nat)
    requires IsRun(env, run, acts) && n < |acts| && acts[n].CloneEnds? && acts[n].result.Cloned?
    ensures var s, s', a := run[n], run[n + 1], acts[n];
            && (forall i :: i in a.gone ==>
                  exists r :: IdleSince(run, acts, n, i, r) &&
                    (a.now - r > s.cache.ttl || |s'.cache.entries| >= s.cache.max))
            && (forall k :: k in s'.cache.entries && IdleAt(s, s'.cache.entries[k]) ==>
                  exists r :: IdleSince(run, acts, n, s'.cache.entries[k], r) && a.now - r <= s.cache.ttl)
            && (forall i, r, k, r' ::
                  (i in a.gone && k in s'.cache.entries && IdleSince(run, acts, n, i, r) &&
                   IdleSince(run, acts, n, s'.cache.entries[k], r')) ==> r <= r')
  {
    var s, s', a := run[n], run[n + 1], acts[n];
    assert Enabled(env, s, a) && s' == Next(env, s, a);
    EvictionInTime(env, s, a);
    forall i: nat | i < |s.cache.heap| && s.cache.heap[i].refs <= 0
      ensures IdleSince(run, acts, n, i, s.cache.heap[i].lastUse)
    {
      IdleHasClock(env, run, acts, n, i);
    }
    hide Next, Enabled, LastRelease;
  }

  /** What Evicts says of the state the clone ends in, with the clocks spelled out. */
  lemma EvictionInTime(env: Env, s: State, a: Action)
    requires Enabled(env, s, a) && a.CloneEnds? && a.result.Cloned?
    ensures var h, left := s.cache.heap, Next(env, s, a).cache.entries;
            && (forall i :: i in a.gone ==>
                  && i < |h| && h[i].refs <= 0
                  && (a.now - h[i].lastUse > s.cache.ttl || |left| >= s.cache.max))
            && (forall k :: k in left ==> left[k] < |h|)
            && (forall k :: k in left && h[left[k]].refs <= 0 ==> a.now - h[left[k]].lastUse <= s.cache.ttl)
            && (forall i, k :: i in a.gone && k in left && h[left[k]].refs <= 0 ==>
                  h[i].lastUse <= h[left[k]].lastUse)
  {
    var c := Recorded(s, a.t, a.result);
    CloneKills(env, s, a);
    hide Next, Enabled, Recorded, Evicts, Kill;
    EvictsInTime(c, a.now, a.gone);
  }

  lemma CloneKills(env: Env, s: State, a: Action)
    requires Enabled(env, s, a) && a.CloneEnds? && a.result.Cloned?
    ensures var c := Recorded(s, a.t, a.result);
            && |c.heap| == |s.cache.heap| && c.ttl == s.cache.ttl && c.max == s.cache.max
            && (forall i :: 0 <= i < |c.heap| ==>
                  c.heap[i].refs == s.cache.heap[i].refs && c.heap[i].lastUse == s.cache.heap[i].lastUse)
            && WellFormed(c) && Evicts(c, a.now, a.gone) && Next(env, s, a).cache == Kill(c, a.gone)
  {
    hide WellFormed, Evicts, Kill;
  }

  lemma EvictsInTime(c: Cache, now: int, gone: seq<nat>)
    requires WellFormed(c) && Evicts(c, now, gone)
    ensures var h, left := c.heap, Kill(c, gone).entries;
            && (forall i :: i in gone ==>
                  i < |h| && h[i].refs <= 0 && (now - h[i].lastUse > c.ttl || |left| >= c.max))
            && (forall k :: k in left ==> left[k] < |h|)
            && (forall k :: k in left && h[left[k]].refs <= 0 ==> now - h[left[k]].lastUse <= c.ttl)
            && (forall i, k :: i in gone && k in left && h[left[k]].refs <= 0 ==>
                  h[i].lastUse <= h[left[k]].lastUse)
  {
  }
}

/** internal/git/cache.go: the reference-counted worktree cache.

    `Cache` is the value of everything the mutex guards. An entry is named by its
    index in `heap`, which plays the role of the Go reference: the map, the waiting
    callers and the holders all share one entry by sharing its index. Each
    lock-to-unlock region of the source is one function on `Cache` (`Join`,
    `Insert`, `Settle`, `Drop`) or, for eviction, the relation `Evicts`; the class
    below performs the regions in place and is proved to realise them. */
module FetchCache {
  import opened Text

  datatype Key = Key(text: string)

  datatype Dir = Dir(path: string)

  datatype Entry = Entry(
    key: Key, dir: Dir, commit: string, err: Option<string>, ready: bool,
    refs: int, lastUse: int, dead: bool)

  datatype Cache = Cache(ttl: int, max: int, entries: map<Key, nat>, heap: seq<Entry>)

  /** The map and the `dead` marks describe each other. */
  ghost predicate WellFormed(c: Cache) {
    && (forall k :: k in c.entries ==>
          c.entries[k] < |c.heap| && c.heap[c.entries[k]].key == k && !c.heap[c.entries[k]].dead)
    && (forall i :: 0 <= i < |c.heap| && !c.heap[i].dead ==>
          c.heap[i].key in c.entries && c.entries[c.heap[i].key] == i)
  }

  /** A caller finds `key` in the map and takes a reference. */
  function Join(c: Cache, key: Key): Cache
    requires key in c.entries && c.entries[key] < |c.heap|
  {
    var i := c.entries[key];
    c.(heap := c.heap[i := c.heap[i].(refs := c.heap[i].refs + 1)])
  }

  /** A caller misses and publishes an unready entry holding one reference. */
  function Insert(c: Cache, key: Key, dir: Dir, now: int): Cache {
    c.(entries := c.entries[key := |c.heap|],
       heap := c.heap + [Entry(key, dir, "", None, false, 1, now, false)])
  }

  /** The cloner records the outcome; a failed clone also leaves the map. */
  function Settle(c: Cache, key: Key, i: nat, commit: string, err: Option<string>): Cache
    requires i < |c.heap|
  {
    var e := c.heap[i].(commit := commit, err := err);
    if err.None? then c.(heap := c.heap[i := e])
    else c.(entries := c.entries - {key}, heap := c.heap[i := e.(dead := true)])
  }

  /** One reference is given back. */
  function Drop(c: Cache, i: nat, now: int): Cache
    requires i < |c.heap|
  {
    c.(heap := c.heap[i := c.heap[i].(refs := c.heap[i].refs - 1, lastUse := now)])
  }

  /** The cache after the entries in `gone` were marked dead and left the map. */
  function Kill(c: Cache, gone: seq<nat>): Cache {
    c.(entries := map k | k in c.entries && c.entries[k] !in gone :: c.entries[k],
       heap := seq(|c.heap|, i requires 0 <= i < |c.heap| =>
                 if i in gone then c.heap[i].(dead := true) else c.heap[i]))
  }

  predicate Idle(c: Cache, i: nat)
    requires i < |c.heap|
  {
    c.heap[i].refs <= 0
  }

  predicate Expired(c: Cache, i: nat, now: int)
    requires i < |c.heap|
  {
    now - c.heap[i].lastUse > c.ttl
  }

  ghost predicate Distinct<T>(s: seq<T>) {
    forall i, j :: 0 <= i < j < |s| ==> s[i] != s[j]
  }

  ghost predicate Victims(c: Cache, gone: seq<nat>) {
    && Distinct(gone)
    && (forall i :: i in gone ==>
          i < |c.heap| && Idle(c, i) && c.heap[i].key in c.entries && c.entries[c.heap[i].key] == i)
  }

  /** What eviction promises about the entries it removes and those it leaves:
      only idle entries go; no idle entry past its TTL stays; the map ends at most
      `max` or wholly in use; nothing younger than an idle survivor goes; and an
      entry within its TTL goes only when the map was over its cap. */
  ghost predicate Evicts(c: Cache, now: int, gone: seq<nat>)
    requires WellFormed(c)
  {
    var left := Kill(c, gone).entries;
    && Victims(c, gone)
    && (forall k :: k in left ==> !Idle(c, left[k]) || !Expired(c, left[k], now))
    && (|left| <= c.max || forall k :: k in left ==> !Idle(c, left[k]))
    && (forall i, k :: i in gone && k in left && Idle(c, left[k]) ==>
          c.heap[i].lastUse <= c.heap[left[k]].lastUse)
    && (forall i :: i in gone && !Expired(c, i, now) ==> |left| >= c.max)
  }

  lemma KillKeepsWellFormed(c: Cache, gone: seq<nat>)
    requires WellFormed(c)
    ensures WellFormed(Kill(c, gone))
  {
  }

  lemma JoinKeepsWellFormed(c: Cache, key: Key)
    requires WellFormed(c) && key in c.entries
    ensures WellFormed(Join(c, key))
  {
  }

  lemma InsertKeepsWellFormed(c: Cache, key: Key, dir: Dir, now: int)
    requires WellFormed(c) && key !in c.entries
    ensures WellFormed(Insert(c, key, dir, now))
  {
  }

  lemma SettleKeepsWellFormed(c: Cache, key: Key, i: nat, commit: string, err: Option<string>)
    requires WellFormed(c) && key in c.entries && c.entries[key] == i
    ensures WellFormed(Settle(c, key, i, commit, err))
  {
  }

  lemma DropKeepsWellFormed(c: Cache, i: nat, now: int)
    requires WellFormed(c) && i < |c.heap|
    ensures WellFormed(Drop(c, i, now))
  {
  }

  lemma KillOne(c: Cache, k: Key)
    requires WellFormed(c) && k in c.entries
    ensures var i := c.entries[k];
            Kill(c, [i]) == c.(entries := c.entries - {k}, heap := c.heap[i := c.heap[i].(dead := true)])
  {
    var i := c.entries[k];
    assert Kill(c, [i]).entries == c.entries - {k};
    assert Kill(c, [i]).heap == c.heap[i := c.heap[i].(dead := true)];
  }

  lemma KillMore(c: Cache, gone: seq<nat>, i: nat)
    ensures Kill(Kill(c, gone), [i]) == Kill(c, gone + [i])
  {
    assert Kill(Kill(c, gone), [i]).heap == Kill(c, gone + [i]).heap;
  }

  lemma KillLast(c: Cache, front: seq<nat>, i: nat)
    requires WellFormed(c) && Victims(c, front + [i])
    ensures Victims(c, front) && i < |c.heap|
    ensures c.heap[i].key in Kill(c, front).entries
    ensures Kill(c, front + [i]).entries == Kill(c, front).entries - {c.heap[i].key}
  {
    var gone := front + [i];
    assert gone[|front|] == i && forall n :: 0 <= n < |front| ==> gone[n] == front[n];
    assert i in gone && forall x :: x in front ==> x in gone;
  }

  /** Removing distinct victims removes as many keys. */
  lemma {:induction false} KillCounts(c: Cache, gone: seq<nat>)
    requires WellFormed(c) && Victims(c, gone)
    ensures |Kill(c, gone).entries| == |c.entries| - |gone|
  {
    if gone == [] {
      assert Kill(c, gone).entries == c.entries;
    } else {
      var front, i := gone[..|gone| - 1], gone[|gone| - 1];
      assert gone == front + [i];
      KillLast(c, front, i);
      KillCounts(c, front);
      var d, k := Kill(c, front).entries, c.heap[i].key;
      assert (d - {k}).Keys == d.Keys - {k};
      assert |(d - {k}).Keys| == |d.Keys| - 1;
    }
  }

  /** Ties in age are the only freedom: any two evictions the source may perform
      from the same cache at the same time evict equally many entries. */
  lemma EvictionCountDetermined(c: Cache, now: int, g: seq<nat>, h: seq<nat>)
    requires WellFormed(c) && Evicts(c, now, g) && Evicts(c, now, h)
    ensures |g| == |h|
  {
    KillCounts(c, g);
    KillCounts(c, h);
    LeavesAsMany(c, now, g, h);
    LeavesAsMany(c, now, h, g);
  }

  lemma LeavesAsMany(c: Cache, now: int, g: seq<nat>, h: seq<nat>)
    requires WellFormed(c) && Evicts(c, now, g) && Evicts(c, now, h)
    ensures |Kill(c, g).entries| >= |Kill(c, h).entries|
  {
    var mine, other := Kill(c, g).entries, Kill(c, h).entries;
    if k :| k in other && k !in mine {
      assert c.entries[k] in g;
      assert Idle(c, other[k]) && !Expired(c, other[k], now);
    } else {
      SubsetSize(other.Keys, mine.Keys);
    }
  }

  lemma {:induction false} SubsetSize<T>(a: set<T>, b: set<T>)
    requires a <= b
    ensures |a| <= |b|
  {
    if a != {} {
      var x :| x in a;
      SubsetSize(a - {x}, b - {x});
    }
  }

  ghost predicate Dirs(c: Cache, gone: seq<nat>, removed: seq<Dir>) {
    |removed| == |gone| && forall n :: 0 <= n < |gone| ==>
      gone[n] < |c.heap| && removed[n] == c.heap[gone[n]].dir
  }

  datatype Lookup = Hit(i: nat) | Miss(i: nat) | MkdirFailed

  /** `fetchCache`. `heap` holds the `cacheEntry` records; a reference is an index
      into it, so an update through the map is seen by every holder. */
  class Worktrees {
    const ttl: int
    const max: int
    var entries: map<Key, nat>
    var heap: seq<Entry>

    ghost function View(): Cache
      reads this
    {
      Cache(ttl, max, entries, heap)
    }

    ghost predicate Valid()
      reads this
    {
      WellFormed(View())
    }

    /** `newFetchCache`: 10 minutes in nanoseconds and 128 entries by default. */
    constructor (ttl: int, max: int)
      ensures Valid() && entries == map[] && heap == []
      ensures this.ttl == (if ttl <= 0 then 600_000_000_000 else ttl) && this.ttl > 0
      ensures this.max == (if max <= 0 then 128 else max) && this.max > 0
    {
      this.ttl := if ttl <= 0 then 600_000_000_000 else ttl;
      this.max := if max <= 0 then 128 else max;
      entries, heap := map[], [];
    }

    /** The first locked region of `acquire`. `dir` is what `MkdirTemp` returned. */
    method Enter(key: Key, dir: Option<Dir>, now: int) returns (r: Lookup)
      requires Valid()
      modifies this
      ensures Valid()
      ensures r.Hit? <==> key in old(entries)
      ensures r.Hit? ==> r.i == old(entries)[key] && View() == Join(old(View()), key)
      ensures r.Miss? <==> key !in old(entries) && dir.Some?
      ensures r.Miss? ==> r.i == |old(heap)| && View() == Insert(old(View()), key, dir.value, now)
      ensures r.MkdirFailed? ==> View() == old(View())
    {
      if key in entries {
        var i := entries[key];
        heap := heap[i := heap[i].(refs := heap[i].refs + 1)];
        return Hit(i);
      }
      if dir.None? {
        return MkdirFailed;
      }
      r := Miss(|heap|);
      entries := entries[key := |heap|];
      heap := heap + [Entry(key, dir.value, "", None, false, 1, now, false)];
    }

    /** The second locked region of `acquire`, after the clone returned. */
    method Conclude(key: Key, i: nat, commit: string, err: Option<string>, now: int)
      returns (toRemove: seq<Dir>, ghost gone: seq<nat>)
      requires Valid() && key in entries && entries[key] == i
      modifies this
      ensures Valid()
      ensures err.Some? ==> gone == [] && View() == Settle(old(View()), key, i, commit, err)
      ensures err.None? ==>
                var c := Settle(old(View()), key, i, commit, err);
                WellFormed(c) && Evicts(c, now, gone) && View() == Kill(c, gone)
      ensures Dirs(View(), gone, toRemove)
    {
      hide Evicts, Victims;
      heap := heap[i := heap[i].(commit := commit, err := err)];
      toRemove, gone := [], [];
      if err.Some? {
        entries := entries - {key};
        heap := heap[i := heap[i].(dead := true)];
      } else {
        toRemove, gone := EvictLocked(now);
      }
    }

    /** `close(e.ready)`: from here on joiners see the recorded outcome. */
    method Announce(i: nat)
      requires Valid() && i < |heap|
      modifies this`heap
      ensures Valid() && heap == old(heap)[i := old(heap)[i].(ready := true)]
    {
      heap := heap[i := heap[i].(ready := true)];
    }

    /** `release`, up to the unlock; the caller removes the directory when `remove`. */
    method Release(i: nat, now: int) returns (remove: bool)
      requires Valid() && i < |heap|
      modifies this`heap
      ensures Valid() && View() == Drop(old(View()), i, now)
      ensures remove <==> heap[i].refs <= 0 && heap[i].dead
    {
      heap := heap[i := heap[i].(refs := heap[i].refs - 1, lastUse := now)];
      remove := heap[i].refs <= 0 && heap[i].dead;
    }

    /** `evictLocked`: a TTL sweep in map order, then the LRU cap. */
    method EvictLocked(now: int) returns (removed: seq<Dir>, ghost gone: seq<nat>)
      requires Valid()
      modifies this
      ensures Valid() && Evicts(old(View()), now, gone) && View() == Kill(old(View()), gone)
      ensures Dirs(View(), gone, removed)
    {
      hide Evicts, Victims, Dirs;
      removed, gone := SweepExpired(now);
      SweepDone(old(View()), now, gone, removed);
      removed, gone := TrimToCap(now, removed, old(View()), gone);
    }

    method SweepExpired(now: int) returns (removed: seq<Dir>, ghost gone: seq<nat>)
      requires Valid()
      modifies this
      ensures Valid() && View() == Kill(old(View()), gone)
      ensures SweepState(old(View()), now, gone, removed, {})
    {
      hide SweepState, Victims, Dirs;
      ghost var c := View();
      removed, gone := [], [];
      SweepStart(c, now);
      var todo := entries.Keys;
      while todo != {}
        invariant Valid() && View() == Kill(c, gone) && todo <= entries.Keys
        invariant SweepState(c, now, gone, removed, todo)
      {
        var k :| k in todo;
        SweepOne(c, now, gone, removed, todo, k);
        todo := todo - {k};
        var i := entries[k];
        if heap[i].refs <= 0 && now - heap[i].lastUse > ttl {
          removed, gone := removed + [heap[i].dir], gone + [i];
          MarkDead(c, gone[..|gone| - 1], k);
        }
      }
    }

    method TrimToCap(now: int, removed0: seq<Dir>, ghost c: Cache, ghost gone0: seq<nat>)
      returns (removed: seq<Dir>, ghost gone: seq<nat>)
      requires Valid() && WellFormed(c) && View() == Kill(c, gone0)
      requires TrimState(c, now, gone0, removed0)
      modifies this
      ensures Valid() && View() == Kill(c, gone)
      ensures Evicts(c, now, gone) && Dirs(View(), gone, removed)
    {
      hide TrimState, Evicts, Victims, Dirs;
      removed, gone := removed0, gone0;
      while |entries| > max
        invariant Valid() && View() == Kill(c, gone)
        invariant TrimState(c, now, gone, removed)
        decreases |entries|
      {
        var oldest := FindOldest();
        if oldest.None? {
          break;
        }
        TrimOne(c, now, gone, removed, oldest.value);
        var i := entries[oldest.value];
        removed, gone := removed + [heap[i].dir], gone + [i];
        MarkDead(c, gone[..|gone| - 1], oldest.value);
      }
      TrimDone(c, now, gone, removed);
    }

    /** The body both eviction loops share: the entry is dead and off the map. */
    method MarkDead(ghost c: Cache, ghost gone: seq<nat>, k: Key)
      requires Valid() && View() == Kill(c, gone) && k in entries
      modifies this
      ensures Valid() && View() == Kill(c, gone + [old(entries[k])])
      ensures entries == old(entries) - {k} && |entries| < |old(entries)|
    {
      var i := entries[k];
      heap := heap[i := heap[i].(dead := true)];
      entries := entries - {k};
      KillMore(c, gone, i);
      KillOne(old(View()), k);
      assert entries.Keys == old(entries).Keys - {k};
    }

    /** The inner loop: the least recently used idle key, if any is idle. */
    method FindOldest() returns (oldest: Option<Key>)
      requires Valid()
      ensures oldest.None? ==> forall k :: k in entries ==> !Idle(View(), entries[k])
      ensures oldest.Some? ==> OldestIdle(View(), oldest.value)
    {
      oldest := None;
      var todo := entries.Keys;
      while todo != {}
        invariant todo <= entries.Keys
        invariant oldest.None? ==> forall k :: k in entries && k !in todo ==> heap[entries[k]].refs > 0
        invariant oldest.Some? ==> oldest.value in entries && heap[entries[oldest.value]].refs <= 0
        invariant oldest.Some? ==> forall k :: k in entries && k !in todo && heap[entries[k]].refs <= 0 ==>
                    heap[entries[oldest.value]].lastUse <= heap[entries[k]].lastUse
      {
        var k :| k in todo;
        todo := todo - {k};
        if heap[entries[k]].refs <= 0 &&
           (oldest.None? || heap[entries[k]].lastUse < heap[entries[oldest.value]].lastUse) {
          oldest := Some(k);
        }
      }
    }
  }

  ghost predicate OldestIdle(c: Cache, k: Key)
    requires WellFormed(c)
  {
    && k in c.entries && Idle(c, c.entries[k])
    && forall j :: j in c.entries && Idle(c, c.entries[j]) ==>
         c.heap[c.entries[k]].lastUse <= c.heap[c.entries[j]].lastUse
  }

  /** Eviction's promises except the cap, as they stand between LRU rounds. */
  ghost predicate TrimState(c: Cache, now: int, gone: seq<nat>, removed: seq<Dir>)
    requires WellFormed(c)
  {
    var left := Kill(c, gone).entries;
    && Victims(c, gone) && Dirs(c, gone, removed)
    && (forall k :: k in left ==> !Idle(c, left[k]) || !Expired(c, left[k], now))
    && (forall i, k :: i in gone && k in left && Idle(c, left[k]) ==>
          c.heap[i].lastUse <= c.heap[left[k]].lastUse)
    && (forall i :: i in gone && !Expired(c, i, now) ==> |left| >= c.max)
  }

  /** The TTL sweep with the keys in `todo` still to visit. */
  ghost predicate SweepState(c: Cache, now: int, gone: seq<nat>, removed: seq<Dir>, todo: set<Key>)
    requires WellFormed(c)
  {
    var left := Kill(c, gone).entries;
    && Victims(c, gone) && Dirs(c, gone, removed)
    && todo <= left.Keys
    && (forall i :: i in gone ==> Expired(c, i, now))
    && (forall k :: k in left && k !in todo ==> !Idle(c, left[k]) || !Expired(c, left[k], now))
  }

  lemma SweepStart(c: Cache, now: int)
    requires WellFormed(c)
    ensures Kill(c, []) == c && SweepState(c, now, [], [], c.entries.Keys)
  {
    assert Kill(c, []).entries == c.entries;
    assert Kill(c, []).heap == c.heap;
  }

  lemma SweepDone(c: Cache, now: int, gone: seq<nat>, removed: seq<Dir>)
    requires WellFormed(c) && SweepState(c, now, gone, removed, {})
    ensures TrimState(c, now, gone, removed)
  {
  }

  lemma VictimsGrow(c: Cache, gone: seq<nat>, removed: seq<Dir>, k: Key)
    requires WellFormed(c) && Victims(c, gone) && Dirs(c, gone, removed)
    requires k in Kill(c, gone).entries && Idle(c, c.entries[k])
    ensures var i := c.entries[k];
            Victims(c, gone + [i]) && Dirs(c, gone + [i], removed + [c.heap[i].dir])
    ensures Kill(c, gone + [c.entries[k]]).entries == Kill(c, gone).entries - {k}
  {
  }

  lemma SweepOne(c: Cache, now: int, gone: seq<nat>, removed: seq<Dir>, todo: set<Key>, k: Key)
    requires WellFormed(c) && SweepState(c, now, gone, removed, todo) && k in todo
    ensures todo <= Kill(c, gone).entries.Keys
    ensures var i := c.entries[k];
            if Idle(c, i) && Expired(c, i, now)
            then SweepState(c, now, gone + [i], removed + [c.heap[i].dir], todo - {k})
            else SweepState(c, now, gone, removed, todo - {k})
  {
    if Idle(c, c.entries[k]) { VictimsGrow(c, gone, removed, k); }
  }

  lemma TrimOne(c: Cache, now: int, gone: seq<nat>, removed: seq<Dir>, k: Key)
    requires WellFormed(c) && TrimState(c, now, gone, removed)
    requires WellFormed(Kill(c, gone)) && OldestIdle(Kill(c, gone), k) && |Kill(c, gone).entries| > c.max
    ensures var i := c.entries[k]; TrimState(c, now, gone + [i], removed + [c.heap[i].dir])
  {
    var i, left := c.entries[k], Kill(c, gone).entries;
    VictimsGrow(c, gone, removed, k);
    assert |Kill(c, gone + [i]).entries| >= c.max by {
      KillCounts(c, gone);
      KillCounts(c, gone + [i]);
    }
    forall v, j | v in gone + [i] && j in left - {k} && Idle(c, left[j])
      ensures c.heap[v].lastUse <= c.heap[left[j]].lastUse
    {
      hide Victims, Dirs;
      assert v in gone || v == i;
      assert c.heap[i] == Kill(c, gone).heap[i] && c.heap[left[j]] == Kill(c, gone).heap[left[j]];
    }
    hide Victims, Dirs;
  }

  lemma TrimDone(c: Cache, now: int, gone: seq<nat>, removed: seq<Dir>)
    requires WellFormed(c) && TrimState(c, now, gone, removed)
    requires var d := Kill(c, gone);
             && WellFormed(d)
             && (|d.entries| <= c.max || forall k :: k in d.entries ==> !Idle(d, d.entries[k]))
    ensures Evicts(c, now, gone) && Dirs(Kill(c, gone), gone, removed)
  {
    var d := Kill(c, gone);
    assert forall k :: k in d.entries ==> c.heap[d.entries[k]] == d.heap[d.entries[k]];
  }
}

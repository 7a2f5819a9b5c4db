/** The fetch cache under concurrency: every interleaving of `Fetch` calls.

    A call is one `Fetch` with its cleanup (internal/git/source.go:146-203 around
    internal/git/cache.go:55-118). Each locked region, clone completion,
    `close(ready)`, directory removal and subpath check is one atomic action. */
module FetchProtocol {
  import opened Text
  import opened FetchCache

  type Tree = map<string, string>

  datatype CloneOutcome = Cloned(commit: string, tree: Tree) | CloneFailed(err: string)

  /** What a caller of `Fetch` ends with. `Got` carries what it read. */
  datatype Outcome =
    | Got(dir: Dir, commit: string, tree: Tree)
    | Failed(err: string)
    | Rejected(reason: string)
    | Cancelled

  datatype Pc =
    | Waiting                       // joined an entry, blocked on `ready`
    | Cloning                       // published an entry, clone in progress
    | Closing(gone: seq<nat>)       // outcome recorded, `ready` still open
    | Sweeping(gone: seq<nat>)      // removing evicted directories
    | Holding                       // acquired, subpath not checked yet
    | Using                         // `Fetch` returned, tree being read
    | Leaving(outcome: Outcome)     // about to release
    | Removing(outcome: Outcome)    // released last, about to remove the directory
    | Done(outcome: Outcome)

  datatype Call = Call(key: Key, path: string, i: nat, pc: Pc)

  /** A directory on disk: the entry it was made for and what it holds. */
  datatype Slot = Slot(owner: nat, tree: Tree)

  /** Bookkeeping per entry for the proofs: the call that published it, and whether
      its directory is kept, owed a removal by a call, or removed. */
  datatype Fate = Kept | Owed(debtor: nat) | Gone

  datatype Track = Track(pilot: nat, fate: Fate)

  /** `removals` counts the `RemoveAll` calls made for each entry's directory. */
  datatype State = State(
    cache: Cache, disk: map<Dir, Slot>, calls: map<nat, Call>, removals: multiset<nat>, track: seq<Track>)

  /** Which clone outcomes are possible for a key, and the subpath check. */
  datatype Env = Env(mayClone: (Key, CloneOutcome) -> bool, check: (Tree, string) -> Option<string>)

  datatype Action =
    | Hit(t: nat, key: Key, path: string)
    | Miss(t: nat, key: Key, path: string, dir: Dir, now: int)
    | Ready(t: nat)
    | Cancel(t: nat)
    | CloneEnds(t: nat, result: CloneOutcome, now: int, gone: seq<nat>)
    | Close(t: nat)
    | Sweep(t: nat)
    | Return(t: nat)
    | Check(t: nat)
    | Finish(t: nat)
    | Release(t: nat, now: int)
    | Remove(t: nat)

  // ------------------------------------------------------------- transitions

  ghost predicate At(s: State, t: nat) {
    t in s.calls && s.calls[t].i < |s.cache.heap|
  }

  ghost function Entered(s: State, t: nat): Entry
    requires At(s, t)
  {
    s.cache.heap[s.calls[t].i]
  }

  ghost function Goto(s: State, t: nat, pc: Pc): State
    requires t in s.calls
  {
    s.(calls := s.calls[t := s.calls[t].(pc := pc)])
  }

  /** `obtainWorktree` recorded; what the subpath checks of `Fetch` say. */
  ghost function Look(env: Env, s: State, t: nat): Option<string>
    requires At(s, t)
  {
    var d := Entered(s, t).dir;
    if d in s.disk then env.check(s.disk[d].tree, s.calls[t].path) else Some("PathNotFound")
  }

  ghost function Recorded(s: State, t: nat, result: CloneOutcome): Cache
    requires At(s, t)
  {
    var c := s.calls[t];
    match result
    case Cloned(commit, _) => Settle(s.cache, c.key, c.i, commit, None)
    case CloneFailed(e) => Settle(s.cache, c.key, c.i, "", Some(e))
  }

  ghost predicate Enabled(env: Env, s: State, a: Action) {
    match a
    case Hit(t, key, _) => t !in s.calls && key in s.cache.entries && s.cache.entries[key] < |s.cache.heap|
    case Miss(t, key, _, dir, _) => t !in s.calls && key !in s.cache.entries && dir !in s.disk
    case Ready(t) => At(s, t) && s.calls[t].pc.Waiting? && Entered(s, t).ready
    case Cancel(t) => At(s, t) && s.calls[t].pc.Waiting?
    case CloneEnds(t, result, now, gone) =>
      && At(s, t) && s.calls[t].pc.Cloning? && env.mayClone(s.calls[t].key, result)
      && (result.CloneFailed? ==> gone == [])
      && (result.Cloned? ==> WellFormed(Recorded(s, t, result)) && Evicts(Recorded(s, t, result), now, gone))
    case Close(t) => At(s, t) && s.calls[t].pc.Closing?
    case Sweep(t) => At(s, t) && s.calls[t].pc.Sweeping? && s.calls[t].pc.gone != [] &&
      s.calls[t].pc.gone[0] < |s.cache.heap|
    case Return(t) => At(s, t) && s.calls[t].pc == Sweeping([])
    case Check(t) => At(s, t) && s.calls[t].pc.Holding?
    case Finish(t) => At(s, t) && s.calls[t].pc.Using? && Entered(s, t).dir in s.disk
    case Release(t, _) => At(s, t) && s.calls[t].pc.Leaving?
    case Remove(t) => At(s, t) && s.calls[t].pc.Removing?
  }

  ghost function Next(env: Env, s: State, a: Action): State
    requires Enabled(env, s, a)
  {
    match a
    case Hit(t, key, path) => DoHit(s, t, key, path)
    case Miss(t, key, path, dir, now) => DoMiss(s, t, key, path, dir, now)
    case Ready(t) => Goto(s, t, Verdict(Entered(s, t)))
    case Cancel(t) => Goto(s, t, Leaving(Cancelled))
    case CloneEnds(t, result, _, gone) => DoClone(s, t, result, gone)
    case Close(t) => DoClose(s, t)
    case Sweep(t) => Goto(Unlink(s, s.calls[t].pc.gone[0]), t, Sweeping(s.calls[t].pc.gone[1..]))
    case Return(t) => Goto(s, t, Verdict(Entered(s, t)))
    case Check(t) => Goto(s, t, match Look(env, s, t) case None => Using case Some(r) => Leaving(Rejected(r)))
    case Finish(t) =>
      var e := Entered(s, t);
      Goto(s, t, Leaving(Got(e.dir, e.commit, s.disk[e.dir].tree)))
    case Release(t, now) => DoRelease(s, t, now)
    case Remove(t) => Goto(Unlink(s, s.calls[t].i), t, Done(s.calls[t].pc.outcome))
  }

  ghost function DoHit(s: State, t: nat, key: Key, path: string): State
    requires key in s.cache.entries && s.cache.entries[key] < |s.cache.heap|
  {
    s.(cache := Join(s.cache, key), calls := s.calls[t := Call(key, path, s.cache.entries[key], Waiting)])
  }

  ghost function DoMiss(s: State, t: nat, key: Key, path: string, dir: Dir, now: int): State {
    s.(cache := Insert(s.cache, key, dir, now), disk := s.disk[dir := Slot(|s.cache.heap|, map[])],
       calls := s.calls[t := Call(key, path, |s.cache.heap|, Cloning)], track := s.track + [Track(t, Kept)])
  }

  /** Past `ready`: a failed entry is given back, a good one is held. */
  ghost function Verdict(e: Entry): Pc {
    if e.err.Some? then Leaving(Failed(e.err.value)) else Holding
  }

  ghost function DoClone(s: State, t: nat, result: CloneOutcome, gone: seq<nat>): State
    requires At(s, t)
  {
    var c := Recorded(s, t, result);
    var disk := if result.Cloned? then s.disk[Entered(s, t).dir := Slot(s.calls[t].i, result.tree)] else s.disk;
    Goto(s.(cache := if result.Cloned? then Kill(c, gone) else c, disk := disk, track := Owe(s.track, gone, t)), t,
         Closing(gone))
  }

  ghost function DoClose(s: State, t: nat): State
    requires At(s, t) && s.calls[t].pc.Closing?
  {
    var i := s.calls[t].i;
    Goto(s.(cache := s.cache.(heap := s.cache.heap[i := s.cache.heap[i].(ready := true)])), t,
         Sweeping(s.calls[t].pc.gone))
  }

  ghost function DoRelease(s: State, t: nat, now: int): State
    requires At(s, t) && s.calls[t].pc.Leaving?
  {
    var i, o := s.calls[t].i, s.calls[t].pc.outcome;
    var c := Drop(s.cache, i, now);
    if c.heap[i].refs <= 0 && c.heap[i].dead
    then Goto(s.(cache := c, track := Owe(s.track, [i], t)), t, Removing(o))
    else Goto(s.(cache := c), t, Done(o))
  }

  /** `os.RemoveAll` of an entry's directory. */
  ghost function Unlink(s: State, i: nat): State
    requires i < |s.cache.heap|
  {
    s.(disk := s.disk - {s.cache.heap[i].dir}, removals := s.removals + multiset{i},
       track := seq(|s.track|, j requires 0 <= j < |s.track| =>
                  if j == i then s.track[j].(fate := Gone) else s.track[j]))
  }

  function Owe(track: seq<Track>, gone: seq<nat>, t: nat): seq<Track> {
    seq(|track|, j requires 0 <= j < |track| =>
      if j in gone then track[j].(fate := Owed(t)) else track[j])
  }

  ghost predicate Initial(s: State) {
    s.cache.entries == map[] && s.cache.heap == [] && s.disk == map[] && s.calls == map[] &&
      s.removals == multiset{} && s.track == []
  }

  /** `run[0]` is the start and each state follows from the one before by an action. */
  ghost predicate IsRun(env: Env, run: seq<State>, acts: seq<Action>) {
    && |run| == |acts| + 1 && Initial(run[0])
    && forall n :: 0 <= n < |acts| ==> Enabled(env, run[n], acts[n]) && run[n + 1] == Next(env, run[n], acts[n])
  }

  // --------------------------------------------------------------- invariant

  /** The call owns a reference. */
  predicate Holds(c: Call) {
    !c.pc.Removing? && !c.pc.Done?
  }

  predicate Cloner(c: Call) {
    c.pc.Cloning? || c.pc.Closing?
  }

  ghost function Holders(s: State, i: nat): set<nat> {
    set t | t in s.calls && Holds(s.calls[t]) && s.calls[t].i == i
  }

  /** Directories this call is going to remove. */
  function Pending(c: Call): seq<nat> {
    match c.pc
    case Closing(gone) => gone
    case Sweeping(gone) => gone
    case Removing(_) => [c.i]
    case _ => []
  }

  /** An outcome agrees with the entry it came from. */
  ghost predicate Agrees(e: Entry, o: Outcome) {
    match o
    case Got(dir, commit, _) => e.ready && e.err.None? && dir == e.dir && commit == e.commit
    case Failed(err) => e.ready && e.err == Some(err)
    case Rejected(_) => e.ready && e.err.None?
    case Cancelled => true
  }

  ghost predicate Stage(e: Entry, pc: Pc) {
    match pc
    case Waiting => true
    case Cloning => !e.ready && !e.dead && e.err.None?
    case Closing(_) => !e.ready
    case Sweeping(_) => e.ready
    case Holding => e.ready && e.err.None?
    case Using => e.ready && e.err.None?
    case Leaving(o) => Agrees(e, o)
    case Removing(o) => Agrees(e, o)
    case Done(o) => Agrees(e, o)
  }

  /** A call is where its entry allows; what it will remove is owed by it alone. */
  ghost predicate CallOk(s: State, t: nat)
    requires t in s.calls && |s.track| == |s.cache.heap|
  {
    var c := s.calls[t];
    && c.i < |s.cache.heap| && s.cache.heap[c.i].key == c.key
    && Stage(s.cache.heap[c.i], c.pc)
    && (Cloner(c) ==> s.track[c.i].pilot == t)
    && Distinct(Pending(c))
    && (forall i :: i in Pending(c) ==> i < |s.cache.heap| && s.track[i].fate == Owed(t))
  }

  /** An entry's count is its holders; an unready entry has its cloner; and its
      directory is kept, owed by one call, or removed once. */
  ghost predicate EntryOk(s: State, i: nat)
    requires i < |s.cache.heap| == |s.track|
  {
    var e, k := s.cache.heap[i], s.track[i];
    && e.refs == |Holders(s, i)|
    && (k.fate.Kept? <==> !(e.dead && e.refs == 0))
    && (k.fate.Owed? ==> k.fate.debtor in s.calls && i in Pending(s.calls[k.fate.debtor]))
    && s.removals[i] == (if k.fate.Gone? then 1 else 0)
    && (!e.ready ==> k.pilot in s.calls && Cloner(s.calls[k.pilot]) && s.calls[k.pilot].i == i)
    && (!k.fate.Gone? ==> e.dir in s.disk && s.disk[e.dir].owner == i)
  }

  ghost predicate DiskOk(s: State)
    requires |s.track| == |s.cache.heap|
  {
    && (forall d :: d in s.disk ==>
          var i := s.disk[d].owner; i < |s.cache.heap| && s.cache.heap[i].dir == d && !s.track[i].fate.Gone?)
    && (forall i :: s.removals[i] > 0 ==> i < |s.cache.heap|)
  }

  ghost predicate Inv(s: State) {
    && WellFormed(s.cache) && |s.track| == |s.cache.heap|
    && (forall t :: t in s.calls ==> CallOk(s, t))
    && (forall i :: 0 <= i < |s.cache.heap| ==> EntryOk(s, i))
    && DiskOk(s)
  }

  // ------------------------------------------------------------ preservation

  predicate HoldsEntry(calls: map<nat, Call>, t: nat, i: nat) {
    t in calls && Holds(calls[t]) && calls[t].i == i
  }

  /** Changing one call changes the holders of its entry by that call only. */
  lemma HoldersFrame(s: State, s': State, t: nat, i: nat)
    requires t in s'.calls && s'.calls == s.calls[t := s'.calls[t]]
    ensures |Holders(s', i)| == |Holders(s, i)|
              + (if HoldsEntry(s'.calls, t, i) then 1 else 0) - (if HoldsEntry(s.calls, t, i) then 1 else 0)
  {
    var rest := Holders(s, i) - {t};
    assert Holders(s', i) == if HoldsEntry(s'.calls, t, i) then rest + {t} else rest;
    assert Holders(s, i) == if HoldsEntry(s.calls, t, i) then rest + {t} else rest;
  }

  /** A settled entry keeps its outcome; an unsettled one may gain it. */
  ghost predicate Evolves(e: Entry, e': Entry) {
    && e'.key == e.key && e'.dir == e.dir
    && (e.ready ==> e'.ready && e'.commit == e.commit && e'.err == e.err)
  }

  /** A call other than the acting one is undisturbed. */
  lemma OtherCall(s: State, s': State, u: nat)
    requires |s.track| == |s.cache.heap| <= |s'.cache.heap| == |s'.track|
    requires u in s.calls && u in s'.calls && s'.calls[u] == s.calls[u] && CallOk(s, u)
    requires Evolves(s.cache.heap[s.calls[u].i], s'.cache.heap[s.calls[u].i])
    requires Cloner(s.calls[u]) ==>
               var e, e' := s.cache.heap[s.calls[u].i], s'.cache.heap[s.calls[u].i];
               e'.ready == e.ready && e'.dead == e.dead && e'.err == e.err && s'.track[s.calls[u].i].pilot == u
    requires forall i :: i in Pending(s.calls[u]) ==> s'.track[i] == s.track[i]
    ensures CallOk(s', u)
  {
  }

  /** An entry is undisturbed but for the reference the acting call took or gave. */
  lemma OtherEntry(s: State, s': State, t: nat, i: nat)
    requires |s.track| == |s.cache.heap| && i < |s.cache.heap| <= |s'.cache.heap| == |s'.track| && EntryOk(s, i)
    requires t in s'.calls && s'.calls == s.calls[t := s'.calls[t]]
    requires var e, e', k := s.cache.heap[i], s'.cache.heap[i], s.track[i];
             && e'.dir == e.dir && s'.track[i] == k && s'.removals[i] == s.removals[i]
             && e'.refs == e.refs + (if HoldsEntry(s'.calls, t, i) then 1 else 0)
                                   - (if HoldsEntry(s.calls, t, i) then 1 else 0)
             && ((e'.dead && e'.refs == 0) <==> (e.dead && e.refs == 0))
             && (k.fate == Owed(t) ==> i in Pending(s'.calls[t]))
             && (!e'.ready ==> !e.ready && (k.pilot == t ==> Cloner(s'.calls[t]) && s'.calls[t].i == i))
             && (!k.fate.Gone? ==> e.dir in s'.disk && s'.disk[e.dir].owner == i)
    ensures EntryOk(s', i)
  {
    HoldersFrame(s, s', t, i);
  }

  /** A call that holds its entry is counted, so the count is positive. */
  lemma HeldIsCounted(s: State, t: nat)
    requires |s.track| == |s.cache.heap| && t in s.calls && Holds(s.calls[t]) && CallOk(s, t)
    requires EntryOk(s, s.calls[t].i)
    ensures s.cache.heap[s.calls[t].i].refs >= 1 && s.track[s.calls[t].i].fate.Kept?
  {
    assert t in Holders(s, s.calls[t].i);
  }

  /** Private moves: the call keeps its reference and nothing shared changes. */
  lemma MoveKeepsInv(s: State, t: nat, pc: Pc)
    requires Inv(s) && t in s.calls && Holds(s.calls[t]) && !Cloner(s.calls[t]) && Pending(s.calls[t]) == []
    requires var c := s.calls[t].(pc := pc); Holds(c) && !Cloner(c) && Pending(c) == []
    requires Stage(s.cache.heap[s.calls[t].i], pc)
    ensures Inv(Goto(s, t, pc))
  {
    var s' := Goto(s, t, pc);
    forall u | u in s'.calls ensures CallOk(s', u) {
      assert CallOk(s, u);
      if u != t { OtherCall(s, s', u); }
    }
    forall i | 0 <= i < |s.cache.heap| ensures EntryOk(s', i) {
      assert EntryOk(s, i);
      OtherEntry(s, s', t, i);
    }
  }

  // Each shared step below is checked call by call, entry by entry and on disk.

  lemma HitCall(s: State, t: nat, key: Key, path: string, u: nat)
    requires WellFormed(s.cache) && |s.track| == |s.cache.heap| && key in s.cache.entries
    requires u in DoHit(s, t, key, path).calls && (u != t ==> CallOk(s, u))
    ensures CallOk(DoHit(s, t, key, path), u)
  {
    if u != t { OtherCall(s, DoHit(s, t, key, path), u); }
  }

  lemma HitEntry(s: State, t: nat, key: Key, path: string, i: nat)
    requires WellFormed(s.cache) && |s.track| == |s.cache.heap| && t !in s.calls && key in s.cache.entries
    requires i < |s.cache.heap| && EntryOk(s, i)
    ensures EntryOk(DoHit(s, t, key, path), i)
  {
    OtherEntry(s, DoHit(s, t, key, path), t, i);
  }

  lemma HitKeepsInv(s: State, t: nat, key: Key, path: string)
    requires Inv(s) && t !in s.calls && key in s.cache.entries
    ensures Inv(DoHit(s, t, key, path))
  {
    hide CallOk, EntryOk;
    var s' := DoHit(s, t, key, path);
    JoinKeepsWellFormed(s.cache, key);
    hide WellFormed;
    forall u | u in s'.calls ensures CallOk(s', u) { HitCall(s, t, key, path, u); }
    forall i | 0 <= i < |s.cache.heap| ensures EntryOk(s', i) { HitEntry(s, t, key, path, i); }
  }

  lemma MissCall(s: State, t: nat, key: Key, path: string, dir: Dir, now: int, u: nat)
    requires |s.track| == |s.cache.heap|
    requires u in DoMiss(s, t, key, path, dir, now).calls && (u != t ==> CallOk(s, u))
    ensures CallOk(DoMiss(s, t, key, path, dir, now), u)
  {
    if u != t { OtherCall(s, DoMiss(s, t, key, path, dir, now), u); }
  }

  lemma MissEntry(s: State, t: nat, key: Key, path: string, dir: Dir, now: int, i: nat)
    requires |s.track| == |s.cache.heap| && t !in s.calls && dir !in s.disk && i <= |s.cache.heap|
    requires i < |s.cache.heap| ==> EntryOk(s, i)
    requires i == |s.cache.heap| ==> Holders(s, i) == {} && s.removals[i] == 0
    ensures EntryOk(DoMiss(s, t, key, path, dir, now), i)
  {
    var s' := DoMiss(s, t, key, path, dir, now);
    if i < |s.cache.heap| {
      OtherEntry(s, s', t, i);
    } else {
      HoldersFrame(s, s', t, i);
    }
  }

  lemma MissKeepsInv(s: State, t: nat, key: Key, path: string, dir: Dir, now: int)
    requires Inv(s) && t !in s.calls && key !in s.cache.entries && dir !in s.disk
    ensures Inv(DoMiss(s, t, key, path, dir, now))
  {
    hide CallOk, EntryOk, WellFormed;
    var s', n := DoMiss(s, t, key, path, dir, now), |s.cache.heap|;
    NobodyHoldsYet(s);
    InsertKeepsWellFormed(s.cache, key, dir, now);
    forall u | u in s'.calls ensures CallOk(s', u) { MissCall(s, t, key, path, dir, now, u); }
    forall i | 0 <= i < n + 1 ensures EntryOk(s', i) { MissEntry(s, t, key, path, dir, now, i); }
  }

  lemma NobodyHoldsYet(s: State)
    requires Inv(s)
    ensures Holders(s, |s.cache.heap|) == {}
  {
    assert forall u :: u in s.calls ==> CallOk(s, u);
  }

  /** The clone of call `t` may end: it owns an unready entry of the map, and the
      victims are idle entries of the map. */
  ghost predicate MayEnd(s: State, t: nat, result: CloneOutcome, gone: seq<nat>) {
    && WellFormed(s.cache) && |s.track| == |s.cache.heap|
    && At(s, t) && s.calls[t].pc.Cloning? && CallOk(s, t) && EntryOk(s, s.calls[t].i)
    && Victims(s.cache, gone) && (result.CloneFailed? ==> gone == [])
  }

  lemma CloneCall(s: State, t: nat, result: CloneOutcome, gone: seq<nat>, u: nat)
    requires MayEnd(s, t, result, gone) && u in s.calls && CallOk(s, u) && EntryOk(s, s.calls[u].i)
    requires forall i :: i in Pending(s.calls[u]) ==> EntryOk(s, i)
    ensures CallOk(DoClone(s, t, result, gone), u)
  {
    if u != t {
      if Cloner(s.calls[u]) { HeldIsCounted(s, u); }
      OtherCall(s, DoClone(s, t, result, gone), u);
    }
  }

  lemma CloneEntry(s: State, t: nat, result: CloneOutcome, gone: seq<nat>, i: nat)
    requires MayEnd(s, t, result, gone) && i < |s.cache.heap| && EntryOk(s, i) && DiskOk(s)
    ensures EntryOk(DoClone(s, t, result, gone), i)
  {
    var s' := DoClone(s, t, result, gone);
    HeldIsCounted(s, t);
    if i in gone { HoldersFrame(s, s', t, i); } else { OtherEntry(s, s', t, i); }
  }

  lemma CloneCache(s: State, t: nat, result: CloneOutcome, gone: seq<nat>)
    requires MayEnd(s, t, result, gone)
    ensures WellFormed(DoClone(s, t, result, gone).cache)
  {
    hide EntryOk, Victims;
    var c := s.calls[t];
    SettleKeepsWellFormed(s.cache, c.key, c.i,
      if result.Cloned? then result.commit else "", if result.Cloned? then None else Some(result.err));
    KillKeepsWellFormed(Recorded(s, t, result), gone);
  }

  lemma CloneDisk(s: State, t: nat, result: CloneOutcome, gone: seq<nat>)
    requires MayEnd(s, t, result, gone) && DiskOk(s)
    ensures DiskOk(DoClone(s, t, result, gone))
  {
    HeldIsCounted(s, t);
    var s', n := DoClone(s, t, result, gone), s.calls[t].i;
    hide EntryOk, CallOk, Victims, WellFormed, Evicts;
    forall d | d in s'.disk
      ensures var i := s'.disk[d].owner; i < |s'.cache.heap| && s'.cache.heap[i].dir == d && !s'.track[i].fate.Gone?
    {
      assert d == s.cache.heap[n].dir || s'.disk[d] == s.disk[d];
    }
  }

  lemma CloneKeepsInv(s: State, t: nat, result: CloneOutcome, gone: seq<nat>)
    requires Inv(s) && MayEnd(s, t, result, gone)
    ensures Inv(DoClone(s, t, result, gone))
  {
    var s' := DoClone(s, t, result, gone);
    CloneCache(s, t, result, gone);
    CloneDisk(s, t, result, gone);
    forall u | u in s'.calls ensures CallOk(s', u) {
      assert CallOk(s, u) && EntryOk(s, s.calls[u].i);
      assert forall i :: i in Pending(s.calls[u]) ==> EntryOk(s, i);
      CloneCall(s, t, result, gone, u);
    }
    hide CallOk, EntryOk, DiskOk, MayEnd;
    forall i | 0 <= i < |s.cache.heap| ensures EntryOk(s', i) { CloneEntry(s, t, result, gone, i); }
  }

  lemma CloseCall(s: State, t: nat, u: nat)
    requires |s.track| == |s.cache.heap| && At(s, t) && s.calls[t].pc.Closing? && CallOk(s, t)
    requires u in s.calls && CallOk(s, u)
    ensures CallOk(DoClose(s, t), u)
  {
    if u != t { OtherCall(s, DoClose(s, t), u); }
  }

  lemma CloseEntry(s: State, t: nat, i: nat)
    requires |s.track| == |s.cache.heap| && At(s, t) && s.calls[t].pc.Closing? && CallOk(s, t)
    requires i < |s.cache.heap| && EntryOk(s, i)
    ensures EntryOk(DoClose(s, t), i)
  {
    OtherEntry(s, DoClose(s, t), t, i);
  }

  lemma CloseKeepsInv(s: State, t: nat)
    requires Inv(s) && At(s, t) && s.calls[t].pc.Closing?
    ensures Inv(DoClose(s, t))
  {
    hide CallOk, EntryOk;
    var s' := DoClose(s, t);
    forall u | u in s'.calls ensures CallOk(s', u) { CloseCall(s, t, u); }
    forall i | 0 <= i < |s.cache.heap| ensures EntryOk(s', i) { CloseEntry(s, t, i); }
  }

  ghost predicate MayRelease(s: State, t: nat) {
    && |s.track| == |s.cache.heap| && At(s, t) && s.calls[t].pc.Leaving?
    && CallOk(s, t) && EntryOk(s, s.calls[t].i)
  }

  lemma ReleaseCall(s: State, t: nat, now: int, u: nat)
    requires MayRelease(s, t) && u in s.calls && CallOk(s, u)
    ensures CallOk(DoRelease(s, t, now), u)
  {
    HeldIsCounted(s, t);
    hide EntryOk;
    if u != t {
      assert s.calls[t].i !in Pending(s.calls[u]);
      OtherCall(s, DoRelease(s, t, now), u);
    }
  }

  lemma ReleaseEntry(s: State, t: nat, now: int, i: nat)
    requires MayRelease(s, t) && i < |s.cache.heap| && EntryOk(s, i)
    ensures EntryOk(DoRelease(s, t, now), i)
  {
    var s' := DoRelease(s, t, now);
    HeldIsCounted(s, t);
    if i != s.calls[t].i { OtherEntry(s, s', t, i); } else { HoldersFrame(s, s', t, i); }
  }

  lemma ReleaseKeepsInv(s: State, t: nat, now: int)
    requires Inv(s) && MayRelease(s, t)
    ensures Inv(DoRelease(s, t, now))
  {
    hide CallOk, EntryOk;
    var s' := DoRelease(s, t, now);
    DropKeepsWellFormed(s.cache, s.calls[t].i, now);
    forall u | u in s'.calls ensures CallOk(s', u) { ReleaseCall(s, t, now, u); }
    forall i | 0 <= i < |s.cache.heap| ensures EntryOk(s', i) { ReleaseEntry(s, t, now, i); }
  }

  /** Call `t` owes the removal of `n` next, and goes to `pc` after it. */
  ghost predicate Owes(s: State, t: nat, n: nat, pc: Pc) {
    && |s.track| == |s.cache.heap| && At(s, t) && CallOk(s, t)
    && (s.calls[t].pc.Sweeping? || s.calls[t].pc.Removing?)
    && Pending(s.calls[t]) != [] && Pending(s.calls[t])[0] == n < |s.cache.heap|
    && pc == if s.calls[t].pc.Sweeping? then Sweeping(s.calls[t].pc.gone[1..]) else Done(s.calls[t].pc.outcome)
  }

  lemma StillOwed(s: State, t: nat, n: nat, pc: Pc)
    requires Owes(s, t, n, pc)
    ensures var before, after := Pending(s.calls[t]), Pending(s.calls[t].(pc := pc));
            && s.track[n].fate == Owed(t) && Distinct(after) && n !in after
            && (forall i :: i in after ==> i in before) && (forall i :: i in before ==> i == n || i in after)
  {
    var before := Pending(s.calls[t]);
    assert before == [n] + before[1..] && n in before;
  }

  lemma UnlinkCall(s: State, t: nat, n: nat, pc: Pc, u: nat)
    requires Owes(s, t, n, pc) && u in s.calls && CallOk(s, u)
    ensures CallOk(Goto(Unlink(s, n), t, pc), u)
  {
    StillOwed(s, t, n, pc);
    if u != t { OtherCall(s, Goto(Unlink(s, n), t, pc), u); }
  }

  lemma UnlinkEntry(s: State, t: nat, n: nat, pc: Pc, i: nat)
    requires Owes(s, t, n, pc) && EntryOk(s, n) && i < |s.cache.heap| && EntryOk(s, i)
    ensures EntryOk(Goto(Unlink(s, n), t, pc), i)
  {
    StillOwed(s, t, n, pc);
    var s' := Goto(Unlink(s, n), t, pc);
    if i != n { OtherEntry(s, s', t, i); } else { HoldersFrame(s, s', t, i); }
  }

  lemma UnlinkDisk(s: State, t: nat, n: nat, pc: Pc)
    requires Inv(s) && Owes(s, t, n, pc)
    ensures EntryOk(s, n) && DiskOk(Goto(Unlink(s, n), t, pc))
  {
    StillOwed(s, t, n, pc);
    assert EntryOk(s, n);
  }

  lemma UnlinkKeepsInv(s: State, t: nat, n: nat, pc: Pc)
    requires Inv(s) && Owes(s, t, n, pc)
    ensures Inv(Goto(Unlink(s, n), t, pc))
  {
    hide CallOk, EntryOk, DiskOk, WellFormed;
    var s' := Goto(Unlink(s, n), t, pc);
    UnlinkDisk(s, t, n, pc);
    forall u | u in s'.calls ensures CallOk(s', u) { UnlinkCall(s, t, n, pc, u); }
    forall i | 0 <= i < |s.cache.heap| ensures EntryOk(s', i) { UnlinkEntry(s, t, n, pc, i); }
  }

  lemma StepKeepsInv(env: Env, s: State, a: Action)
    requires Inv(s) && Enabled(env, s, a)
    ensures Inv(Next(env, s, a))
  {
    if a.t in s.calls {
      assert CallOk(s, a.t) && EntryOk(s, s.calls[a.t].i);
    }
    hide EntryOk, DiskOk;
    match a {
      case Hit(t, key, path) => HitKeepsInv(s, t, key, path);
      case Miss(t, key, path, dir, now) => MissKeepsInv(s, t, key, path, dir, now);
      case CloneEnds(t, result, now, gone) =>
        VictimsBefore(s, t, result, now, gone);
        CloneKeepsInv(s, t, result, gone);
      case Close(t) => CloseKeepsInv(s, t);
      case Sweep(t) => UnlinkKeepsInv(s, t, s.calls[t].pc.gone[0], Sweeping(s.calls[t].pc.gone[1..]));
      case Release(t, now) => ReleaseKeepsInv(s, t, now);
      case Remove(t) => UnlinkKeepsInv(s, t, s.calls[t].i, Done(s.calls[t].pc.outcome));
      case _ => PrivateKeepsInv(env, s, a);
    }
  }

  lemma PrivateKeepsInv(env: Env, s: State, a: Action)
    requires Inv(s) && Enabled(env, s, a) && (a.Ready? || a.Cancel? || a.Return? || a.Check? || a.Finish?)
    ensures Inv(Next(env, s, a))
  {
    assert CallOk(s, a.t);
    PrivateMove(env, s, a);
    hide EntryOk, DiskOk, CallOk, Stage, Next, Enabled, WellFormed;
    MoveKeepsInv(s, a.t, Next(env, s, a).calls[a.t].pc);
  }

  lemma PrivateMove(env: Env, s: State, a: Action)
    requires Enabled(env, s, a) && (a.Ready? || a.Cancel? || a.Return? || a.Check? || a.Finish?)
    requires |s.track| == |s.cache.heap| && CallOk(s, a.t)
    ensures var c := s.calls[a.t]; Holds(c) && !Cloner(c) && Pending(c) == []
    ensures a.t in Next(env, s, a).calls
    ensures var c := Next(env, s, a).calls[a.t];
            && Holds(c) && !Cloner(c) && Pending(c) == [] && Stage(s.cache.heap[c.i], c.pc)
            && c == s.calls[a.t].(pc := c.pc) && Next(env, s, a) == Goto(s, a.t, c.pc)
  {
  }

  /** Victims of the eviction that ends a clone were idle entries before it. */
  lemma VictimsBefore(s: State, t: nat, result: CloneOutcome, now: int, gone: seq<nat>)
    requires At(s, t) && s.calls[t].pc.Cloning?
    requires result.CloneFailed? ==> gone == []
    requires result.Cloned? ==> WellFormed(Recorded(s, t, result)) && Evicts(Recorded(s, t, result), now, gone)
    ensures Victims(s.cache, gone)
  {
  }

  // ---------------------------------------------------------------- theorems

  /** The invariant holds in every state of every interleaving. */
  lemma {:induction false} RunKeepsInv(env: Env, run: seq<State>, acts: seq<Action>, n: nat)
    requires IsRun(env, run, acts) && n < |run|
    ensures Inv(run[n])
  {
    if n > 0 {
      RunKeepsInv(env, run, acts, n - 1);
      StepKeepsInv(env, run[n - 1], acts[n - 1]);
    }
  }
}

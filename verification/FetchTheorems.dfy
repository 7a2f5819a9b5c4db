/** What the protocol invariant means for the callers of `Fetch`, the disk and the
    uncached path, in every reachable state. */
module FetchTheorems {
  import opened Text
  import opened FetchCache
  import opened FetchProtocol

  ghost predicate Reachable(env: Env, s: State) {
    exists run, acts :: IsRun(env, run, acts) && run[|run| - 1] == s
  }

  lemma ReachableInv(env: Env, s: State)
    requires Reachable(env, s)
    ensures Inv(s)
  {
    var run, acts :| IsRun(env, run, acts) && run[|run| - 1] == s;
    RunKeepsInv(env, run, acts, |run| - 1);
  }

  ghost function Removers(s: State, i: nat): set<nat> {
    set t | t in s.calls && i in Pending(s.calls[t])
  }

  ghost predicate InMap(s: State, i: nat)
    requires i < |s.cache.heap|
  {
    s.cache.heap[i].key in s.cache.entries && s.cache.entries[s.cache.heap[i].key] == i
  }

  /** `refs` counts the holders, and every directory ever created is in exactly one
      of four places: under its key, dead but held, owed a removal by exactly one
      call, or removed exactly once. It is on disk in all but the last. */
  lemma DirectoryFate(env: Env, s: State, i: nat)
    requires Reachable(env, s) && i < |s.cache.heap|
    ensures var e := s.cache.heap[i];
            var place := (InMap(s, i), e.dead && e.refs > 0, |Removers(s, i)|, s.removals[i]);
            && e.refs == |Holders(s, i)|
            && (|| place == (true, false, 0, 0)
                || place == (false, true, 0, 0)
                || place == (false, false, 1, 0)
                || place == (false, false, 0, 1))
            && (s.removals[i] == 0 <==> e.dir in s.disk && s.disk[e.dir].owner == i)
  {
    ReachableInv(env, s);
    assert EntryOk(s, i);
    var k := s.track[i];
    assert forall t :: t in s.calls && i in Pending(s.calls[t]) ==> CallOk(s, t) && k.fate == Owed(t);
    if k.fate.Owed? {
      assert Removers(s, i) == {k.fate.debtor};
    } else {
      assert Removers(s, i) == {};
    }
  }

  /** A removal only ever hits a dead entry nobody holds. */
  lemma RemovalIsSafe(env: Env, s: State, a: Action)
    requires Reachable(env, s) && Enabled(env, s, a) && (a.Sweep? || a.Remove?)
    ensures var i := if a.Sweep? then s.calls[a.t].pc.gone[0] else s.calls[a.t].i;
            s.cache.heap[i].dead && Holders(s, i) == {} && s.removals[i] == 0
  {
    ReachableInv(env, s);
    var i := if a.Sweep? then s.calls[a.t].pc.gone[0] else s.calls[a.t].i;
    assert CallOk(s, a.t) && i in Pending(s.calls[a.t]);
    assert EntryOk(s, i);
  }

  /** A call that still holds its entry finds the directory on disk and, once the
      entry is settled, no step of any call changes what it holds. */
  lemma HeldTreeStable(env: Env, s: State, a: Action, u: nat)
    requires Inv(s) && Enabled(env, s, a) && u in s.calls && Holds(s.calls[u])
    ensures u in Next(env, s, a).calls
    ensures var d := s.cache.heap[s.calls[u].i].dir;
            && d in s.disk
            && (Holds(Next(env, s, a).calls[u]) ==> d in Next(env, s, a).disk)
            && (Holds(Next(env, s, a).calls[u]) && Settled(s, s.calls[u].i) ==> Next(env, s, a).disk[d] == s.disk[d])
  {
    StaysWithEntry(env, s, a, u);
    hide Next, Enabled, WellFormed, DiskOk, Settled;
    var i, s' := s.calls[u].i, Next(env, s, a);
    assert CallOk(s, u) && EntryOk(s, i);
    HeldIsCounted(s, u);
    if Holds(s'.calls[u]) {
      StepKeepsInv(env, s, a);
      assert CallOk(s', u) && EntryOk(s', i);
      HeldIsCounted(s', u);
      StepSteady(env, s, a, i);
    }
  }

  lemma StaysWithEntry(env: Env, s: State, a: Action, u: nat)
    requires Enabled(env, s, a) && u in s.calls
    ensures u in Next(env, s, a).calls && Next(env, s, a).calls[u].i == s.calls[u].i
  {
  }

  /** The clone has been recorded. */
  ghost predicate Settled(s: State, i: nat)
    requires i < |s.cache.heap| == |s.track|
  {
    || s.cache.heap[i].ready
    || (s.track[i].pilot in s.calls && s.calls[s.track[i].pilot].pc.Closing? && s.calls[s.track[i].pilot].i == i)
  }

  /** Names never change, and neither does a settled entry's outcome or, while its
      directory stands, its tree. */
  ghost predicate Steady(s: State, s': State, i: nat)
    requires i < |s.cache.heap| == |s.track|
  {
    var e := s.cache.heap[i];
    && i < |s'.cache.heap| == |s'.track|
    && s'.cache.heap[i].key == e.key && s'.cache.heap[i].dir == e.dir
    && (Settled(s, i) ==> s'.cache.heap[i].commit == e.commit && s'.cache.heap[i].err == e.err)
    && (Settled(s, i) && !s.track[i].fate.Gone? && !s'.track[i].fate.Gone? ==>
          e.dir in s.disk && e.dir in s'.disk && s'.disk[e.dir] == s.disk[e.dir])
  }

  lemma MissSteady(env: Env, s: State, a: Action, i: nat)
    requires |s.track| == |s.cache.heap| && Enabled(env, s, a) && a.Miss?
    requires i < |s.cache.heap| && EntryOk(s, i)
    ensures Steady(s, Next(env, s, a), i) && (Settled(Next(env, s, a), i) ==> Settled(s, i))
  {
  }

  lemma CloneSteady(env: Env, s: State, a: Action, i: nat)
    requires |s.track| == |s.cache.heap| && Enabled(env, s, a) && a.CloneEnds?
    requires CallOk(s, a.t) && EntryOk(s, s.calls[a.t].i)
    requires i < |s.cache.heap| && EntryOk(s, i)
    ensures Steady(s, Next(env, s, a), i)
    ensures Settled(Next(env, s, a), i) && !Settled(s, i) ==> s.calls[a.t].i == i
  {
    hide Evicts, Victims, WellFormed;
    HeldIsCounted(s, a.t);
  }

  lemma UnlinkSteady(env: Env, s: State, a: Action, i: nat)
    requires |s.track| == |s.cache.heap| && Enabled(env, s, a) && (a.Sweep? || a.Remove?)
    requires var n := if a.Sweep? then s.calls[a.t].pc.gone[0] else s.calls[a.t].i;
             CallOk(s, a.t) && n in Pending(s.calls[a.t]) && EntryOk(s, n)
    requires i < |s.cache.heap| && EntryOk(s, i)
    ensures Steady(s, Next(env, s, a), i) && (Settled(Next(env, s, a), i) ==> Settled(s, i))
  {
  }

  lemma OtherSteady(env: Env, s: State, a: Action, i: nat)
    requires |s.track| == |s.cache.heap| && Enabled(env, s, a)
    requires !a.Miss? && !a.CloneEnds? && !a.Sweep? && !a.Remove?
    requires a.t in s.calls ==> CallOk(s, a.t)
    requires i < |s.cache.heap| && EntryOk(s, i)
    ensures Steady(s, Next(env, s, a), i) && (Settled(Next(env, s, a), i) ==> Settled(s, i))
  {
  }

  /** Entries are written once, by the call that cloned them. */
  lemma StepSteady(env: Env, s: State, a: Action, i: nat)
    requires Inv(s) && Enabled(env, s, a) && i < |s.cache.heap|
    ensures Steady(s, Next(env, s, a), i)
    ensures Settled(Next(env, s, a), i) && !Settled(s, i) ==> a.CloneEnds? && s.calls[a.t].i == i
  {
    hide WellFormed, DiskOk, Next, Steady, Settled, EntryOk, Evicts;
    assert EntryOk(s, i);
    if a.t in s.calls { assert CallOk(s, a.t) && EntryOk(s, s.calls[a.t].i); }
    if a.Miss? {
      MissSteady(env, s, a, i);
    } else if a.CloneEnds? {
      CloneSteady(env, s, a, i);
    } else if a.Sweep? || a.Remove? {
      var n := if a.Sweep? then s.calls[a.t].pc.gone[0] else s.calls[a.t].i;
      assert n in Pending(s.calls[a.t]) && EntryOk(s, n);
      UnlinkSteady(env, s, a, i);
    } else {
      OtherSteady(env, s, a, i);
    }
  }

  /** Single flight: the map names the entry being cloned, so no two clones of one
      key are ever in progress and the finishing cloner finds its own entry. */
  lemma SingleFlight(env: Env, s: State, t: nat, u: nat)
    requires Reachable(env, s) && t in s.calls && u in s.calls
    requires s.calls[t].pc.Cloning?
    ensures s.calls[t].key in s.cache.entries && s.cache.entries[s.calls[t].key] == s.calls[t].i
    ensures s.calls[u].pc.Cloning? && s.calls[u].key == s.calls[t].key ==> u == t
  {
    ReachableInv(env, s);
    assert CallOk(s, t) && CallOk(s, u);
  }

  /** Nobody waits on an entry whose cloner is gone: an unready entry has exactly
      one call at work on it. */
  lemma WaiterHasCloner(env: Env, s: State, t: nat)
    requires Reachable(env, s) && t in s.calls && s.calls[t].pc.Waiting?
    ensures s.calls[t].i < |s.cache.heap|
    ensures s.cache.heap[s.calls[t].i].ready ||
            exists u :: (set v | v in s.calls && Cloner(s.calls[v]) && s.calls[v].i == s.calls[t].i) == {u}
  {
    ReachableInv(env, s);
    assert CallOk(s, t);
    var i := s.calls[t].i;
    assert EntryOk(s, i);
    var p := s.track[i].pilot;
    assert forall v :: v in s.calls && Cloner(s.calls[v]) && s.calls[v].i == i ==> CallOk(s, v) && v == p;
    assert !s.cache.heap[i].ready ==> (set v | v in s.calls && Cloner(s.calls[v]) && s.calls[v].i == i) == {p};
  }

  /** Callers that joined one entry end alike: the same directory and commit, the
      same error, or their own cancellation or subpath rejection. */
  lemma JoinersAgree(env: Env, s: State, t: nat, u: nat)
    requires Reachable(env, s) && t in s.calls && u in s.calls
    requires s.calls[t].pc.Done? && s.calls[u].pc.Done? && s.calls[t].i == s.calls[u].i
    ensures var o, p := s.calls[t].pc.outcome, s.calls[u].pc.outcome;
            && (o.Got? && p.Got? ==> o.dir == p.dir && o.commit == p.commit)
            && (o.Failed? ==> p == o || p.Cancelled?)
  {
    ReachableInv(env, s);
    assert CallOk(s, t) && CallOk(s, u);
  }

  /** When every call has finished, every reference was given back exactly once and
      the disk holds the cached entries' directories and nothing else. */
  lemma QuiescentIsClean(env: Env, s: State)
    requires Reachable(env, s) && forall t :: t in s.calls ==> s.calls[t].pc.Done?
    ensures forall i :: 0 <= i < |s.cache.heap| ==> s.cache.heap[i].refs == 0
    ensures s.disk.Keys == set k | k in s.cache.entries && s.cache.entries[k] < |s.cache.heap| ::
            s.cache.heap[s.cache.entries[k]].dir
  {
    ReachableInv(env, s);
    forall i | 0 <= i < |s.cache.heap|
      ensures s.cache.heap[i].refs == 0 && !s.track[i].fate.Owed? && (s.track[i].fate.Kept? <==> InMap(s, i))
    {
      assert EntryOk(s, i);
      assert Holders(s, i) == {};
    }
    forall d | d in s.disk
      ensures d in set k | k in s.cache.entries && s.cache.entries[k] < |s.cache.heap| ::
              s.cache.heap[s.cache.entries[k]].dir
    {
      var i := s.disk[d].owner;
      assert InMap(s, i);
    }
    forall k | k in s.cache.entries ensures s.cache.heap[s.cache.entries[k]].dir in s.disk {
      assert EntryOk(s, s.cache.entries[k]);
    }
  }

  // ------------------------------------------- the cache refines no cache at all

  /** An outcome is one the environment allows for that key and subpath. */
  ghost predicate Allowed(env: Env, key: Key, path: string, o: Outcome) {
    match o
    case Got(_, commit, tree) => env.mayClone(key, Cloned(commit, tree)) && env.check(tree, path).None?
    case Failed(e) => env.mayClone(key, CloneFailed(e))
    case Rejected(r) =>
      exists c: CloneOutcome :: c.Cloned? && env.mayClone(key, c) && env.check(c.tree, path) == Some(r)
    case Cancelled => true
  }

  ghost predicate CallAllowed(env: Env, s: State, t: nat)
    requires t in s.calls && s.calls[t].i < |s.cache.heap|
  {
    var c := s.calls[t];
    match c.pc
    case Leaving(o) => Allowed(env, c.key, c.path, o)
    case Removing(o) => Allowed(env, c.key, c.path, o)
    case Done(o) => Allowed(env, c.key, c.path, o)
    case Using =>
      var d := s.cache.heap[c.i].dir;
      d in s.disk && env.check(s.disk[d].tree, c.path).None?
    case _ => true
  }

  ghost predicate EntryAllowed(env: Env, s: State, i: nat)
    requires i < |s.cache.heap| == |s.track|
  {
    var e := s.cache.heap[i];
    Settled(s, i) ==>
      match e.err
      case Some(err) => env.mayClone(e.key, CloneFailed(err))
      case None =>
        s.track[i].fate.Gone? ||
        (e.dir in s.disk && env.mayClone(e.key, Cloned(e.commit, s.disk[e.dir].tree)))
  }

  ghost predicate Content(env: Env, s: State) {
    && Inv(s)
    && (forall t :: t in s.calls ==> CallOk(s, t) && CallAllowed(env, s, t))
    && (forall i :: 0 <= i < |s.cache.heap| ==> EntryAllowed(env, s, i))
  }

  lemma StepEntryAllowed(env: Env, s: State, a: Action, i: nat)
    requires Content(env, s) && Enabled(env, s, a) && Inv(Next(env, s, a)) && i < |Next(env, s, a).cache.heap|
    ensures EntryAllowed(env, Next(env, s, a), i)
  {
    if i >= |s.cache.heap| {
      NewIsUnsettled(env, s, a, i);
    } else {
      RemovalsGrow(env, s, a, i);
      hide Next, WellFormed, DiskOk, CallAllowed;
      assert EntryOk(Next(env, s, a), i) && EntryOk(s, i) && EntryAllowed(env, s, i);
      StepSteady(env, s, a, i);
      if Settled(Next(env, s, a), i) && !Settled(s, i) { CloneAllowed(env, s, a); }
    }
  }

  lemma NewIsUnsettled(env: Env, s: State, a: Action, i: nat)
    requires Enabled(env, s, a) && |s.track| == |s.cache.heap| <= i < |Next(env, s, a).cache.heap|
    requires |Next(env, s, a).track| == |Next(env, s, a).cache.heap|
    ensures !Settled(Next(env, s, a), i)
  {
    assert a.Miss?;
  }

  lemma RemovalsGrow(env: Env, s: State, a: Action, i: nat)
    requires Enabled(env, s, a)
    ensures Next(env, s, a).removals[i] >= s.removals[i]
  {
  }

  lemma CloneAllowed(env: Env, s: State, a: Action)
    requires |s.track| == |s.cache.heap| && Enabled(env, s, a) && a.CloneEnds? && CallOk(s, a.t)
    ensures var s', i := Next(env, s, a), s.calls[a.t].i;
            i < |s'.cache.heap| == |s'.track| && EntryAllowed(env, s', i)
  {
    hide WellFormed, Evicts, Settled;
  }

  /** A bystander's tree stands still while it reads. */
  lemma OtherCallAllowed(env: Env, s: State, a: Action, u: nat)
    requires Content(env, s) && Enabled(env, s, a) && Inv(Next(env, s, a)) && u in s.calls && u != a.t
    ensures u in Next(env, s, a).calls && CallOk(Next(env, s, a), u) && CallAllowed(env, Next(env, s, a), u)
  {
    OnlyActorMoves(env, s, a, u);
    hide Next, WellFormed, DiskOk, EntryOk;
    var s' := Next(env, s, a);
    assert CallOk(s, u) && CallOk(s', u) && CallAllowed(env, s, u);
    if s.calls[u].pc.Using? {
      HeldTreeStable(env, s, a, u);
      StepSteady(env, s, a, s.calls[u].i);
    }
  }

  lemma OnlyActorMoves(env: Env, s: State, a: Action, u: nat)
    requires Enabled(env, s, a) && u in s.calls && u != a.t
    ensures u in Next(env, s, a).calls && Next(env, s, a).calls[u] == s.calls[u]
  {
  }

  /** The acting call reports what its entry holds. */
  lemma ActorAllowed(env: Env, s: State, a: Action)
    requires |s.track| == |s.cache.heap| && Enabled(env, s, a)
    requires a.t in s.calls ==>
               && CallOk(s, a.t) && EntryOk(s, s.calls[a.t].i)
               && CallAllowed(env, s, a.t) && EntryAllowed(env, s, s.calls[a.t].i)
    requires a.t in s.calls && Holds(s.calls[a.t]) ==> s.track[s.calls[a.t].i].fate.Kept?
    requires |Next(env, s, a).track| == |Next(env, s, a).cache.heap| && CallOk(Next(env, s, a), a.t)
    ensures CallAllowed(env, Next(env, s, a), a.t)
  {
    hide WellFormed, Evicts;
    if a.Check? {
      var e := Entered(s, a.t);
      assert env.mayClone(e.key, Cloned(e.commit, s.disk[e.dir].tree));
    }
  }

  lemma StepKeepsContent(env: Env, s: State, a: Action)
    requires Content(env, s) && Enabled(env, s, a)
    ensures Content(env, Next(env, s, a))
  {
    hide EntryOk, DiskOk, WellFormed, CallAllowed, EntryAllowed, Next, Enabled;
    var s' := Next(env, s, a);
    StepKeepsInv(env, s, a);
    CallsAfter(env, s, a);
    assert CallOk(s', a.t) && CallAllowed(env, s', a.t) by { ActorAllowedIn(env, s, a); }
    forall u | u in s'.calls ensures CallOk(s', u) && CallAllowed(env, s', u) {
      if u != a.t { OtherCallAllowed(env, s, a, u); }
    }
    forall i | 0 <= i < |s'.cache.heap| ensures EntryAllowed(env, s', i) { StepEntryAllowed(env, s, a, i); }
  }

  lemma CallsAfter(env: Env, s: State, a: Action)
    requires Enabled(env, s, a)
    ensures Next(env, s, a).calls.Keys == s.calls.Keys + {a.t}
  {
  }

  lemma ActorAllowedIn(env: Env, s: State, a: Action)
    requires Content(env, s) && Enabled(env, s, a) && Inv(Next(env, s, a)) && a.t in Next(env, s, a).calls
    ensures CallOk(Next(env, s, a), a.t) && CallAllowed(env, Next(env, s, a), a.t)
  {
    hide Next, EntryAllowed, CallAllowed, WellFormed, DiskOk, Enabled;
    if a.t in s.calls {
      assert CallOk(s, a.t) && EntryOk(s, s.calls[a.t].i) && EntryAllowed(env, s, s.calls[a.t].i);
      if Holds(s.calls[a.t]) { HeldIsCounted(s, a.t); }
    }
    ActorAllowed(env, s, a);
  }

  lemma {:induction false} RunKeepsContent(env: Env, run: seq<State>, acts: seq<Action>, n: nat)
    requires IsRun(env, run, acts) && n < |run|
    ensures Content(env, run[n])
  {
    if n > 0 {
      RunKeepsContent(env, run, acts, n - 1);
      StepKeepsContent(env, run[n - 1], acts[n - 1]);
    }
  }

  /** `Fetch` without a cache: clone afresh, then check the subpath. */
  function Uncached(result: CloneOutcome, check: (Tree, string) -> Option<string>, path: string, dir: Dir): Outcome {
    match result
    case CloneFailed(e) => Failed(e)
    case Cloned(commit, tree) =>
      match check(tree, path)
      case None => Got(dir, commit, tree)
      case Some(r) => Rejected(r)
  }

  /** Checking out is a function of the key, except that a clone may be cut short by its
      own caller's context, if `cut` gives the error that reports it. */
  ghost function Checkouts(
    checkout: Key -> CloneOutcome, cut: Option<string>, check: (Tree, string) -> Option<string>): Env
  {
    Env((k, o) => o == checkout(k) || (cut.Some? && o == CloneFailed(cut.value)), check)
  }

  /** The cache refines no cache: in every interleaving each call ends cancelled, or with
      exactly the commit, tree, rejection or error that a fresh clone would have given it,
      or, when the call that cloned its entry was cut short, with that call's error. */
  lemma CachedFetchRefinesUncached(
    checkout: Key -> CloneOutcome, cut: Option<string>, check: (Tree, string) -> Option<string>, s: State, t: nat)
    requires Reachable(Checkouts(checkout, cut, check), s)
    requires t in s.calls && s.calls[t].pc.Done?
    ensures s.calls[t].i < |s.cache.heap|
    ensures var c := s.calls[t];
            var e := s.cache.heap[c.i];
            || c.pc.outcome == Cancelled
            || c.pc.outcome == Uncached(checkout(c.key), check, c.path, e.dir)
            || (cut.Some? && e.ready && e.err == cut && c.pc.outcome == Failed(cut.value))
  {
    var env := Checkouts(checkout, cut, check);
    var run, acts :| IsRun(env, run, acts) && run[|run| - 1] == s;
    RunKeepsContent(env, run, acts, |run| - 1);
    assert CallOk(s, t) && CallAllowed(env, s, t);
    if s.calls[t].pc.outcome.Rejected? { RejectedByCheckout(checkout, cut, check, s.calls[t]); }
  }

  /** A rejection concerns the tree of the checkout: a clone cut short has none. */
  lemma RejectedByCheckout(
    checkout: Key -> CloneOutcome, cut: Option<string>, check: (Tree, string) -> Option<string>, c: Call)
    requires c.pc.Done? && c.pc.outcome.Rejected?
    requires Allowed(Checkouts(checkout, cut, check), c.key, c.path, c.pc.outcome)
    ensures checkout(c.key).Cloned? && check(checkout(c.key).tree, c.path) == Some(c.pc.outcome.reason)
  {
  }
}

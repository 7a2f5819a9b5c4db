/** No interleaving of fetches gets stuck: while a call is unfinished some step can be
    taken, and without new calls only finitely many steps can. */
module FetchProgress {
  import opened Text
  import opened FetchCache
  import opened FetchProtocol
  import opened FetchTheorems

  // --------------------------------------------------------- eviction always succeeds

  lemma {:induction false} OldestOf(c: Cache, todo: set<Key>) returns (k: Key)
    requires WellFormed(c) && todo <= c.entries.Keys && todo != {}
    ensures k in todo && forall j :: j in todo ==> c.heap[c.entries[k]].lastUse <= c.heap[c.entries[j]].lastUse
    decreases |todo|
  {
    var x :| x in todo;
    var rest := todo - {x};
    if rest == {} {
      k := x;
    } else {
      k := OldestOf(c, rest);
      if c.heap[c.entries[x]].lastUse < c.heap[c.entries[k]].lastUse { k := x; }
    }
    assert todo == rest + {x};
  }

  lemma {:induction false} SweepAll(c: Cache, now: int, gone: seq<nat>, removed: seq<Dir>, todo: set<Key>)
    returns (g: seq<nat>, r: seq<Dir>)
    requires WellFormed(c) && SweepState(c, now, gone, removed, todo)
    ensures SweepState(c, now, g, r, {})
    decreases |todo|
  {
    if todo == {} { return gone, removed; }
    var k :| k in todo;
    SweepOne(c, now, gone, removed, todo, k);
    hide SweepState;
    var i := c.entries[k];
    if Idle(c, i) && Expired(c, i, now) {
      g, r := SweepAll(c, now, gone + [i], removed + [c.heap[i].dir], todo - {k});
    } else {
      g, r := SweepAll(c, now, gone, removed, todo - {k});
    }
  }

  lemma {:induction false} TrimAll(c: Cache, now: int, gone: seq<nat>, removed: seq<Dir>) returns (g: seq<nat>)
    requires WellFormed(c) && TrimState(c, now, gone, removed)
    ensures Evicts(c, now, g)
    decreases |Kill(c, gone).entries|
  {
    hide TrimState, Evicts, Victims, Dirs;
    var d := Kill(c, gone);
    KillKeepsWellFormed(c, gone);
    var idle := set k | k in d.entries && Idle(d, d.entries[k]);
    if |d.entries| > c.max && idle != {} {
      var k := OldestOf(d, idle);
      TrimOne(c, now, gone, removed, k);
      var i := c.entries[k];
      KillMore(c, gone, i);
      KillOne(d, k);
      assert (d.entries - {k}).Keys == d.entries.Keys - {k};
      g := TrimAll(c, now, gone + [i], removed + [c.heap[i].dir]);
    } else {
      assert forall k :: k in d.entries && Idle(d, d.entries[k]) ==> k in idle;
      TrimDone(c, now, gone, removed);
      g := gone;
    }
  }

  /** From any cache, at any time, there is an eviction as `evictLocked` promises it. */
  lemma EvictionExists(c: Cache, now: int) returns (gone: seq<nat>)
    requires WellFormed(c)
    ensures Evicts(c, now, gone)
  {
    SweepStart(c, now);
    var g, r := SweepAll(c, now, [], [], c.entries.Keys);
    SweepDone(c, now, g, r);
    gone := TrimAll(c, now, g, r);
  }

  // ----------------------------------------------------------------- never stuck

  /** Neither a new call nor a cancellation. */
  predicate Onward(a: Action) {
    !a.Hit? && !a.Miss? && !a.Cancel?
  }

  /** Every clone ends in some way. */
  ghost predicate Ends(env: Env) {
    forall key :: CanEnd(env, key)
  }

  ghost predicate CanEnd(env: Env, key: Key) {
    exists o :: env.mayClone(key, o)
  }

  predicate Unfinished(s: State, t: nat) {
    t in s.calls && !s.calls[t].pc.Done?
  }

  lemma ClonerMoves(env: Env, s: State, t: nat) returns (a: Action)
    requires Inv(s) && Ends(env) && t in s.calls && Cloner(s.calls[t])
    ensures Onward(a) && Enabled(env, s, a)
  {
    assert CallOk(s, t);
    if s.calls[t].pc.Closing? {
      a := Close(t);
    } else {
      assert CanEnd(env, s.calls[t].key);
      var result :| env.mayClone(s.calls[t].key, result);
      if result.CloneFailed? {
        a := CloneEnds(t, result, 0, []);
      } else {
        var c := s.calls[t];
        assert EntryOk(s, c.i);
        HeldIsCounted(s, t);
        SettleKeepsWellFormed(s.cache, c.key, c.i, result.commit, None);
        var gone := EvictionExists(Recorded(s, t, result), 0);
        hide Evicts;
        a := CloneEnds(t, result, 0, gone);
      }
    }
  }

  lemma OthersMove(env: Env, s: State, t: nat) returns (a: Action)
    requires Inv(s) && Unfinished(s, t) && !Cloner(s.calls[t]) && !s.calls[t].pc.Waiting?
    ensures Onward(a) && Enabled(env, s, a)
  {
    assert CallOk(s, t) && EntryOk(s, s.calls[t].i);
    match s.calls[t].pc
    case Sweeping(gone) =>
      assert gone != [] ==> gone[0] in Pending(s.calls[t]);
      a := if gone == [] then Return(t) else Sweep(t);
    case Holding => a := Check(t);
    case Using =>
      HeldIsCounted(s, t);
      a := Finish(t);
    case Leaving(_) => a := Release(t, 0);
    case Removing(_) => a := Remove(t);
  }

  /** While a call is unfinished, some step other than a cancellation is enabled: a
      waiter waits for a cloner that can go on. */
  lemma NeverStuck(env: Env, s: State, t: nat) returns (a: Action)
    requires Inv(s) && Ends(env) && Unfinished(s, t)
    ensures Onward(a) && Enabled(env, s, a)
  {
    assert CallOk(s, t) && EntryOk(s, s.calls[t].i);
    hide DiskOk, WellFormed;
    if s.calls[t].pc.Waiting? {
      if Entered(s, t).ready { a := Ready(t); } else { a := ClonerMoves(env, s, s.track[s.calls[t].i].pilot); }
    } else if Cloner(s.calls[t]) {
      a := ClonerMoves(env, s, t);
    } else {
      a := OthersMove(env, s, t);
    }
  }

  // ------------------------------------------------------------------- and finite

  /** How far a call is from its end. */
  function Rank(pc: Pc): nat {
    match pc
    case Cloning => 7
    case Closing(_) => 6
    case Sweeping(_) => 5
    case Waiting => 5
    case Holding => 4
    case Using => 3
    case Leaving(_) => 2
    case Removing(_) => 1
    case Done(_) => 0
  }

  ghost function Above(calls: map<nat, Call>, r: nat): set<nat> {
    set t | t in calls && Rank(calls[t].pc) >= r
  }

  /** The sum of all ranks. */
  ghost function Work(calls: map<nat, Call>): nat {
    |Above(calls, 1)| + |Above(calls, 2)| + |Above(calls, 3)| + |Above(calls, 4)| + |Above(calls, 5)| +
    |Above(calls, 6)| + |Above(calls, 7)|
  }

  /** The directories not removed yet. */
  ghost function Standing(s: State): set<nat> {
    set i: nat | i < |s.track| && !s.track[i].fate.Gone?
  }

  lemma AboveShrinks(calls: map<nat, Call>, t: nat, c: Call, r: nat)
    requires t in calls && Rank(c.pc) <= Rank(calls[t].pc)
    ensures var was, now := Above(calls, r), Above(calls[t := c], r);
            |now| == |was| - (if Rank(c.pc) < r <= Rank(calls[t].pc) then 1 else 0)
  {
    var was, now := Above(calls, r), Above(calls[t := c], r);
    assert now == if Rank(c.pc) < r <= Rank(calls[t].pc) then was - {t} else was;
  }

  lemma WorkDrops(calls: map<nat, Call>, t: nat, c: Call)
    requires t in calls && Rank(c.pc) <= Rank(calls[t].pc)
    ensures Work(calls[t := c]) == Work(calls) - (Rank(calls[t].pc) - Rank(c.pc))
  {
    AboveShrinks(calls, t, c, 1);
    AboveShrinks(calls, t, c, 2);
    AboveShrinks(calls, t, c, 3);
    AboveShrinks(calls, t, c, 4);
    AboveShrinks(calls, t, c, 5);
    AboveShrinks(calls, t, c, 6);
    AboveShrinks(calls, t, c, 7);
    hide Above;
  }

  /** A step that starts no call moves the acting call forward, or removes one more
      directory. */
  lemma StepMovesOn(env: Env, s: State, a: Action)
    requires Inv(s) && Enabled(env, s, a) && !a.Hit? && !a.Miss?
    ensures var s' := Next(env, s, a);
            && s'.calls.Keys == s.calls.Keys
            && (Work(s'.calls) < Work(s.calls) ||
                (Work(s'.calls) == Work(s.calls) && |Standing(s')| < |Standing(s)|))
  {
    OneCallMoves(env, s, a);
    var s' := Next(env, s, a);
    WorkDrops(s.calls, a.t, s'.calls[a.t]);
    if a.Sweep? { SweepRemoves(env, s, a); }
    hide Next, Enabled, Inv, Work, Standing;
  }

  lemma OneCallMoves(env: Env, s: State, a: Action)
    requires Enabled(env, s, a) && !a.Hit? && !a.Miss?
    ensures var s' := Next(env, s, a);
            && a.t in s.calls && a.t in s'.calls && s'.calls == s.calls[a.t := s'.calls[a.t]]
            && Rank(s'.calls[a.t].pc) <= Rank(s.calls[a.t].pc)
            && (!a.Sweep? ==> Rank(s'.calls[a.t].pc) < Rank(s.calls[a.t].pc))
  {
    hide Evicts, WellFormed;
  }

  lemma SweepRemoves(env: Env, s: State, a: Action)
    requires Inv(s) && Enabled(env, s, a) && a.Sweep?
    ensures |Standing(Next(env, s, a))| < |Standing(s)|
  {
    var n := s.calls[a.t].pc.gone[0];
    assert CallOk(s, a.t) && n in Pending(s.calls[a.t]);
    assert n in Standing(s) && Next(env, s, a).track == Unlink(s, n).track;
    hide Inv, Next, Enabled, CallOk;
    UnlinkRemoves(s, n);
  }

  lemma UnlinkRemoves(s: State, n: nat)
    requires n < |s.cache.heap|
    ensures Standing(Unlink(s, n)) == Standing(s) - {n}
  {
  }

  /** `acts` leads from `s` to `end`. */
  ghost predicate Leads(env: Env, s: State, acts: seq<Action>, end: State)
    decreases acts
  {
    if acts == [] then s == end
    else Enabled(env, s, acts[0]) && Leads(env, Next(env, s, acts[0]), acts[1..], end)
  }

  lemma {:induction false} DriveOn(env: Env, s: State) returns (acts: seq<Action>, end: State)
    requires Inv(s) && Ends(env)
    ensures Leads(env, s, acts, end) && (forall a :: a in acts ==> Onward(a))
    ensures end.calls.Keys == s.calls.Keys && forall t :: t in end.calls ==> end.calls[t].pc.Done?
    decreases Work(s.calls), |Standing(s)|
  {
    if t :| Unfinished(s, t) {
      var a := NeverStuck(env, s, t);
      StepMovesOn(env, s, a);
      StepKeepsInv(env, s, a);
      hide Next, Enabled, Inv, Work, Standing;
      var rest;
      rest, end := DriveOn(env, Next(env, s, a));
      acts := [a] + rest;
      assert acts[1..] == rest;
    } else {
      assert forall t :: t in s.calls ==> !Unfinished(s, t);
      acts, end := [], s;
    }
  }

  /** From every state of every interleaving all calls can still be driven to their
      ends, without any cancellation. */
  lemma AllCanFinish(env: Env, s: State)
    requires Reachable(env, s) && Ends(env)
    ensures exists acts, end ::
              && Leads(env, s, acts, end) && (forall a :: a in acts ==> Onward(a))
              && end.calls.Keys == s.calls.Keys && forall t :: t in end.calls ==> end.calls[t].pc.Done?
  {
    ReachableInv(env, s);
    var acts, end := DriveOn(env, s);
    hide Leads, Inv, Reachable;
  }

  /** In every state of every interleaving with an unfinished call, some step other than
      a cancellation can be taken. */
  lemma ReachableNeverStuck(env: Env, s: State, t: nat)
    requires Reachable(env, s) && Ends(env) && Unfinished(s, t)
    ensures exists a :: Onward(a) && Enabled(env, s, a)
  {
    ReachableInv(env, s);
    var a := NeverStuck(env, s, t);
    hide Inv, Reachable, Enabled;
  }

  // ------------------------------------------------------------ a clone cut short

  const ONE := Key("k")

  const START := State(Cache(1, 1, map[], []), map[], map[], multiset{}, [])

  /** Call 0 clones and call 1 joins it; the clone is cut short; call 1 gives up first. */
  function CutShort(cut: string): seq<Action> {
    [Action.Miss(0, ONE, "", Dir("d"), 0), Action.Hit(1, ONE, ""), CloneEnds(0, CloneFailed(cut), 0, []), Close(0),
     Ready(1), Release(1, 0)]
  }

  ghost predicate OneStep(env: Env, s: State, a: Action, s': State) {
    Enabled(env, s, a) && Next(env, s, a) == s'
  }

  lemma SixSteps(env: Env, acts: seq<Action>, s: seq<State>)
    requires |acts| == 6 && |s| == 7 && forall i :: 0 <= i < 6 ==> OneStep(env, s[i], acts[i], s[i + 1])
    ensures Leads(env, s[0], acts, s[6])
  {
    hide Next, Enabled;
    var i := 6;
    while i > 0
      invariant i <= 6 && Leads(env, s[i], acts[i..], s[6])
    {
      i := i - 1;
      assert OneStep(env, s[i], acts[i], s[i + 1]);
      assert acts[i..][0] == acts[i] && acts[i..][1..] == acts[i + 1..];
    }
    assert acts[0..] == acts;
  }

  /** One entry, on the map as long as it lives, with call 0 at `a` and call 1 at `b`. */
  function Scene(refs: int, err: Option<string>, ready: bool, a: Pc, b: Option<Pc>): State {
    var e := Entry(ONE, Dir("d"), "", err, ready, refs, 0, err.Some?);
    var calls := map[0 := Call(ONE, "", 0, a)];
    State(Cache(1, 1, if err.Some? then map[] else map[ONE := 0], [e]), map[Dir("d") := Slot(0, map[])],
          if b.Some? then calls[1 := Call(ONE, "", 0, b.value)] else calls, multiset{}, [Track(0, Kept)])
  }

  lemma Joining(env: Env)
    ensures OneStep(env, START, Action.Miss(0, ONE, "", Dir("d"), 0), Scene(1, None, false, Cloning, None))
    ensures OneStep(env, Scene(1, None, false, Cloning, None), Action.Hit(1, ONE, ""),
                    Scene(2, None, false, Cloning, Some(Waiting)))
  {
  }

  lemma Cutting(env: Env, cut: string)
    requires env.mayClone(ONE, CloneFailed(cut))
    ensures OneStep(env, Scene(2, None, false, Cloning, Some(Waiting)), CloneEnds(0, CloneFailed(cut), 0, []),
                    Scene(2, Some(cut), false, Closing([]), Some(Waiting)))
    ensures OneStep(env, Scene(2, Some(cut), false, Closing([]), Some(Waiting)), Close(0),
                    Scene(2, Some(cut), true, Sweeping([]), Some(Waiting)))
  {
    assert Owe([Track(0, Kept)], [], 0) == [Track(0, Kept)];
  }

  lemma GivingUp(env: Env, cut: string)
    ensures OneStep(env, Scene(2, Some(cut), true, Sweeping([]), Some(Waiting)), Ready(1),
                    Scene(2, Some(cut), true, Sweeping([]), Some(Leaving(Failed(cut)))))
    ensures OneStep(env, Scene(2, Some(cut), true, Sweeping([]), Some(Leaving(Failed(cut)))), Release(1, 0),
                    Scene(1, Some(cut), true, Sweeping([]), Some(Done(Failed(cut)))))
  {
  }

  /** A joiner whose own context lives ends with the error of a clone that only the
      cloner's context cut short, however well a fresh clone would have gone. */
  lemma JoinerInheritsCut(checkout: Key -> CloneOutcome, cut: string, check: (Tree, string) -> Option<string>)
    ensures Initial(START)
    ensures exists end ::
              && Leads(Checkouts(checkout, Some(cut), check), START, CutShort(cut), end)
              && 1 in end.calls && end.calls[1].pc == Done(Failed(cut))
  {
    var env := Checkouts(checkout, Some(cut), check);
    var end := Scene(1, Some(cut), true, Sweeping([]), Some(Done(Failed(cut))));
    Joining(env);
    Cutting(env, cut);
    GivingUp(env, cut);
    assert 1 in end.calls && end.calls[1].pc == Done(Failed(cut));
    hide Scene, OneStep;
    SixSteps(env, CutShort(cut), [
      START, Scene(1, None, false, Cloning, None), Scene(2, None, false, Cloning, Some(Waiting)),
      Scene(2, Some(cut), false, Closing([]), Some(Waiting)), Scene(2, Some(cut), true, Sweeping([]), Some(Waiting)),
      Scene(2, Some(cut), true, Sweeping([]), Some(Leaving(Failed(cut)))), end]);
  }
}

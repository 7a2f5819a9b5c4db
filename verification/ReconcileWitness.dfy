/** Runs that show where a promise of the reconciler stops holding. */
module ReconcileWitness {
  import opened Text
  import opened Status
  import opened Reconcile
  import opened ReconcileTheorems
  import opened ReconcileEffects
  import opened ReconcileRuns
  import opened ReconcileHistory
  import O = Ownership
  import M = Manifests
  import S = Secrets
  import R = SecretRuns
  import W = Wiring
  import P = ServerSideApply
  import V = Version

  // ------------------------------------------------------------ a small ConfigSync

  const REF := Reference("r", "x", File, "/s", "", "", true)

  const SPEC := Spec(O.Owner("a", "u"), M.Guard("ns", []), "Deployment", "", "", "cm", false, [REF], 1)

  /** Everything goes well, but for the one secret if not `ready`. */
  function Fine(ready: bool, now: int): Inputs {
    Inputs(false, true, Commit("c"), Content("x"), O.Up, O.Clean, Some([]), M.Writes(i => O.Up, {}), O.Clean, O.Clean,
           i => S.Resolution(ready, "", Synced), h => "", false, true, W.Up, false, W.Up, Progress(true, Synced), now,
             now)
  }

  const BLANK := CsStatus(map[], S.Ledger([], None), "", "", "", false)

  /** A workload that carries the template stamp, owned by somebody else, and no field
      of Kohen's. */
  const STAMPED := W.State(true, ["main"],
                           map[P.TemplateAnnotation(W.CONFIG_SHA) := P.Field("git:c", {P.Another("x")})])

  function Answered(ready: bool): S.Answer {
    S.Answer("r", false, true, S.Resolution(ready, "", Synced))
  }

  lemma FineAnswers(ready: bool, now: int)
    ensures Answers(SPEC.refs, Fine(ready, now).resolutions) == [Answered(ready)]
  {
    var answers := Answers(SPEC.refs, Fine(ready, now).resolutions);
    assert |answers| == 1 && ValidSurface(REF) && answers[0] == AnswerOf(REF, S.Resolution(ready, "", Synced));
  }

  lemma FineVersion(ready: bool, now: int)
    ensures VersionFor(SPEC, Fine(ready, now), "c") == "git:c"
  {
    FineAnswers(ready, now);
    var rs := S.EvaluatedAll(Empty(), [Answered(ready)]);
    assert rs[..0] == [] && !S.Folds(rs[0]);
    assert S.RawTokens(rs) == S.RawTokens([]) + [] == [];
    assert S.EnvTokens(rs) == [];
    assert V.ShortCommit("c") == "c";
  }

  lemma StampedIsWired(ready: bool, now: int)
    ensures TemplateStamp(STAMPED) == "git:c" && Wires(SPEC, STAMPED, Fine(ready, now), "git:c")
    ensures Rewired(SPEC, STAMPED, Fine(ready, now), "git:c") == STAMPED
  {
  }

  /** No obstacle up to the secrets gate. */
  ghost predicate Clear(objs: O.Objects) {
    var o := M.At(objs, ConfigMapId(SPEC));
    o.None? || O.OwnedBy(o.value, SPEC.owner)
  }

  /** A spec that differs from SPEC in its references alone. */
  predicate Alike(s: Spec) {
    s == SPEC.(refs := s.refs)
  }

  lemma FineIsPrepared(s: Spec, objs: O.Objects, ready: bool, now: int)
    requires Alike(s) && Clear(objs)
    ensures Prepared(s, objs, Fine(ready, now)) && Clear(ObjectsAfter(s, objs, Fine(ready, now)))
  {
    var inp := Fine(ready, now);
    assert Applies(s, objs, inp);
    NothingToApply(AfterConfigMap(s, objs, inp), inp.writes);
    ConfigMapAfter(s, objs, inp);
  }

  lemma NothingToApply(objs: O.Objects, w: M.Writes)
    ensures M.ApplyManifests(objs, SPEC.owner, SPEC.guard, Some([]), w, [O.Clean, O.Clean]).0 == M.AllApplied
  {
    var fates := [O.Clean, O.Clean];
    assert M.Names([]) == [] && M.ApplyAll(objs, SPEC.owner, [], w) == (O.Done, objs);
    assert fates[..1] == [O.Clean] && [O.Clean][..0] == [];
    assert M.PruneAll(objs, SPEC.owner, [], w.served, []) == (true, objs);
    assert M.PruneAll(objs, SPEC.owner, [], w.served, [O.Clean]).0;
    assert M.PruneAll(objs, SPEC.owner, [], w.served, fates).0;
  }

  // ------------------------------------------------------- an entry counted twice

  lemma DecideOne(l: S.Ledger, ready: bool, now: int)
    ensures S.Resolve(l, [Answered(ready)], 1, now) ==
            if ready then S.Decision(true, Synced, Synced, false, [])
            else if !S.Established(l.refs, "r") then S.Decision(false, AwaitingFirstResolution, Progressing, false, [])
            else if S.Overdue(S.DegradedSince(l, now), 1, now)
              then S.Decision(false, MaxDegradedExceeded, Degraded, true, [])
            else S.Decision(false, DegradedServingLastGood, Degraded, false, [])
  {
    var rs := S.EvaluatedAll(l, [Answered(ready)]);
    assert |rs| == 1 && rs[0] == S.Evaluated(l, Answered(ready)) && rs[0] in rs;
    assert forall r :: r in rs ==> r == rs[0];
    assert rs[..0] == [] && !S.Folds(rs[0]);
    assert S.RawTokens(rs) == S.RawTokens([]) + [] == [];
  }

  /** One reconcile of the run: the workload stands still, and so does the way ahead. */
  lemma FineStep(v: State, ready: bool, now: int, saved: bool)
    requires Clear(v.objects) && v.workload == STAMPED
    ensures var v' := Step(v, Reconciled(SPEC, Fine(ready, now), saved));
            var d := S.Resolve(v.st.secrets, [Answered(ready)], 1, now);
            && Clear(v'.objects) && v'.workload == STAMPED
            && v'.st.secrets == (if saved then R.Step(v.st.secrets, R.Event([Answered(ready)], 1, now, now, true))
                 else v.st.secrets)
            && v'.exceededTotal == v.exceededTotal + Entered(SPEC, v.st.secrets, Fine(ready, now))
            && LostBy(v, Reconciled(SPEC, Fine(ready, now), saved)) ==
               (if saved then 0 else Entered(SPEC, v.st.secrets, Fine(ready, now)))
  {
    var inp := Fine(ready, now);
    FineAnswers(ready, now);
    FineVersion(ready, now);
    StampedIsWired(ready, now);
    FineIsPrepared(SPEC, v.objects, ready, now);
    SyncEffects(SPEC, v, inp);
    hide Sync, ObjectsAfter, Prepared, AllResolved, Rewired, Wires, R.Step, Entered, VersionFor, Clear;
  }

  lemma Extend(v: State, es: seq<Event>, e: Event)
    ensures Run(v, es + [e]) == Step(Run(v, es), e)
    ensures Lost(v, es + [e]) == Lost(v, es) + LostBy(Run(v, es), e)
  {
    assert (es + [e])[..|es|] == es;
    hide Step, LostBy;
  }

  function Ledger(resolved: bool, reason: Reason, since: int): S.Ledger {
    S.Ledger([S.RefStatus("r", resolved, true)], Some(Condition(resolved, reason, since)))
  }

  /** Established at 1, out since 2, overdue at 4. */
  lemma LedgerSteps()
    ensures R.Step(Empty(), R.Event([Answered(true)], 1, 1, 1, true)) == Ledger(true, Synced, 1)
    ensures R.Step(Ledger(true, Synced, 1), R.Event([Answered(false)], 1, 2, 2, true)) ==
            Ledger(false, DegradedServingLastGood, 2)
    ensures Entered(SPEC, Empty(), Fine(true, 1)) == 0 && Entered(SPEC, Ledger(true, Synced, 1), Fine(false, 2)) == 0
    ensures Entered(SPEC, Ledger(false, DegradedServingLastGood, 2), Fine(false, 4)) == 1
  {
    FineAnswers(true, 1);
    FineAnswers(false, 2);
    FineAnswers(false, 4);
    DecideOne(Empty(), true, 1);
    EstablishedOnce(true, Synced, 1);
    EstablishedOnce(false, DegradedServingLastGood, 2);
    DecideOne(Ledger(true, Synced, 1), false, 2);
    DecideOne(Ledger(false, DegradedServingLastGood, 2), false, 4);
    hide S.Resolve, S.Established;
  }

  lemma EstablishedOnce(resolved: bool, reason: Reason, since: int)
    ensures S.Established(Ledger(resolved, reason, since).refs, "r")
  {
    assert Ledger(resolved, reason, since).refs[0] in Ledger(resolved, reason, since).refs;
  }

  function Saved(ready: bool, now: int): Event {
    Reconciled(SPEC, Fine(ready, now), true)
  }

  /** The same reconcile twice, its status write failing the first time. */
  const LOSING := [Saved(true, 1), Saved(false, 2), Reconciled(SPEC, Fine(false, 4), false), Saved(false, 4)]

  lemma RunOfFour(v: State, a: Event, b: Event, c: Event, d: Event)
    ensures var w := Step(v, a);
            var x := Step(w, b);
            var y := Step(x, c);
            && Run(v, [a, b, c, d]) == Step(y, d)
            && Lost(v, [a, b, c, d]) == LostBy(v, a) + LostBy(w, b) + LostBy(x, c) + LostBy(y, d)
  {
    hide Step, LostBy;
    Extend(v, [], a);
    Extend(v, [a], b);
    Extend(v, [a, b], c);
    Extend(v, [a, b, c], d);
    assert [] + [a] == [a] && [a] + [b] == [a, b] && [a, b] + [c] == [a, b, c] && [a, b, c] + [d] == [a, b, c, d];
  }

  /** One entry into MaxDegradedExceeded, counted twice: the status of the first
      reconcile that saw it was not saved. */
  lemma CountedTwice(v: State)
    requires v.st == BLANK && v.objects == map[] && v.workload == STAMPED
    ensures Run(v, LOSING).exceededTotal == v.exceededTotal + 2
    ensures |R.Entries(Evaluations(v, LOSING))| == 1
  {
    LedgerSteps();
    CounterExactly(v, LOSING);
    R.MetricCountsEntries(Evaluations(v, LOSING));
    assert Clear(v.objects);
    RunOfFour(v, LOSING[0], LOSING[1], LOSING[2], LOSING[3]);
    hide Run, Lost, Step, LostBy, Entered, R.Step, Evaluations, R.Metric, R.Entries, Clear, Fine, Ledger;
    FineStep(v, true, 1, true);
    var w := Step(v, LOSING[0]);
    FineStep(w, false, 2, true);
    var x := Step(w, LOSING[1]);
    FineStep(x, false, 4, false);
    FineStep(Step(x, LOSING[2]), false, 4, true);
  }

  // -------------------------------------------------------- a stamp without fields

  /** WorkloadWired, and Ready, say nothing about Kohen's fields when another manager
      left the matching stamp: the wire is skipped. */
  lemma StampAloneReadsAsWired(v: State)
    requires v.objects == map[] && v.workload == STAMPED
    ensures var v' := Sync(SPEC, v, Fine(true, 1)).1;
            && Holds(v'.st, WorkloadWired) && Holds(v'.st, Ready) && v'.workload == STAMPED
    ensures P.OwnedBy(STAMPED.fields, P.Kohen) == {} && P.VolumeItem(W.VOLUME_NAME) !in STAMPED.fields
  {
    hide Sync, Prepared, ObjectsAfter, Rewired, R.Step, Entered, VersionFor, Wires, RollsOut;
    FineSucceeds(v);
    SyncEffects(SPEC, v, Fine(true, 1));
    ReadyExactly(SPEC, v, Fine(true, 1));
    StampedIsWired(true, 1);
    StampedIsBare();
  }

  lemma StampedIsBare()
    ensures P.OwnedBy(STAMPED.fields, P.Kohen) == {} && P.VolumeItem(W.VOLUME_NAME) !in STAMPED.fields
  {
  }

  lemma FineSucceeds(v: State)
    requires v.objects == map[] && v.workload == STAMPED
    ensures var inp := Fine(true, 1);
            Advances(SPEC, v.objects, inp) && Succeeds(SPEC, v, inp) && Desired(SPEC, inp) == "git:c"
  {
    FineVersion(true, 1);
    FineIsPrepared(SPEC, v.objects, true, 1);
    FineResolves(1);
    FineRollsOut(1);
    hide Prepared, AllResolved, VersionFor, RollsOut;
  }

  lemma FineResolves(now: int)
    ensures AllResolved(SPEC, Fine(true, now))
  {
    assert ValidSurface(REF);
  }

  lemma FineRollsOut(now: int)
    ensures RollsOut(SPEC, STAMPED, Fine(true, now), "git:c")
  {
    StampedIsWired(true, now);
  }

  // ------------------------------------------------------- an edit goes unnoticed

  const PLAIN := SPEC.(refs := [])

  const BARE := W.State(true, ["main"], map[])

  lemma PlainVersion(now: int)
    ensures VersionFor(PLAIN, Fine(true, now), "c") == "git:c"
  {
    assert Answers(PLAIN.refs, Fine(true, now).resolutions) == [];
    assert S.EvaluatedAll(Empty(), []) == [] && S.EnvTokens([]) == [];
    assert V.ShortCommit("c") == "c";
  }

  /** The bare workload as PLAIN wires it. */
  function WiredPlain(): W.State {
    W.Wire(BARE, WireSpec(PLAIN, "git:c"), W.Up).1
  }

  lemma PlainWires(now: int)
    ensures W.Wire(BARE, WireSpec(PLAIN, "git:c"), W.Up).0 == W.Ok
    ensures Rewired(PLAIN, BARE, Fine(true, now), "git:c") == WiredPlain() && TemplateStamp(WiredPlain()) == "git:c"
    ensures WiredPlain().present && WiredPlain().containers == ["main"]
    ensures WiredPlain().fields.Keys == W.Fields(WireSpec(PLAIN, "git:c"), "main").Keys
  {
    assert W.Target(["main"], "") == Some("main");
    assert TemplateStamp(BARE) == "";
    var f := W.Fields(WireSpec(PLAIN, "git:c"), "main");
    hide W.Fields;
    assert P.Apply(map[], P.Kohen, f, false) == Some(P.Merge(map[], P.Kohen, f));
    assert P.Merge(map[], P.Kohen, f).Keys == f.Keys;
    AutoStampLands(PLAIN, BARE, W.Up, "git:c");
  }

  lemma PlainLacksSecret()
    ensures P.VolumeSecret(W.SecretVolumeName("r")) !in W.Fields(WireSpec(PLAIN, "git:c"), "main")
  {
    var ws, p := WireSpec(PLAIN, "git:c"), P.VolumeSecret(W.SecretVolumeName("r"));
    W.FieldsByKind(ws, "main", p);
    hide W.Fields;
    var vs := [W.ConfigMapVolume(W.VOLUME_NAME, "cm")];
    assert W.Volumes(ws) == vs && vs[..0] == [];
  }

  lemma PlainStep(v: State)
    requires v.objects == map[] && v.workload == BARE
    ensures var u := Step(v, Reconciled(PLAIN, Fine(true, 1), true));
            u.workload == WiredPlain() && Clear(u.objects) && Carries(PLAIN, u.workload, "git:c")
  {
    PlainVersion(1);
    PlainWires(1);
    WiringCarries(PLAIN, BARE, "git:c", W.Up);
    FineIsPrepared(PLAIN, v.objects, true, 1);
    hide Step, Prepared, ObjectsAfter, Rewired, VersionFor, Carries, WireSpec;
    StepEffects(v, Reconciled(PLAIN, Fine(true, 1), true));
  }

  lemma EditedSucceeds(u: State)
    requires Clear(u.objects) && u.workload == WiredPlain()
    ensures var inp := Fine(true, 2);
            && Advances(SPEC, u.objects, inp) && Succeeds(SPEC, u, inp) && Desired(SPEC, inp) == "git:c"
            && Rewired(SPEC, u.workload, inp, "git:c") == u.workload
  {
    FineVersion(true, 2);
    PlainWires(1);
    FineResolves(2);
    FineIsPrepared(SPEC, u.objects, true, 2);
    hide Prepared, AllResolved, VersionFor, W.Wire;
  }

  /** A file reference is added at an unchanged commit. Every stage succeeds, the
      reconcile ends Ready with the workload untouched, and the reference is not served:
      the stamp still matches, so nothing is wired. */
  lemma EditGoesUnnoticed(v: State)
    requires v.objects == map[] && v.workload == BARE
    ensures var u := Step(v, Reconciled(PLAIN, Fine(true, 1), true));
            var u' := Sync(SPEC, u, Fine(true, 2)).1;
            && Carries(PLAIN, u.workload, "git:c")
            && Holds(u'.st, WorkloadWired) && Holds(u'.st, Ready)
            && u'.workload == u.workload && !Serves(u'.workload, "main", REF)
  {
    var u := Step(v, Reconciled(PLAIN, Fine(true, 1), true));
    PlainStep(v);
    EditedSucceeds(u);
    PlainLacksSecret();
    PlainWires(1);
    hide Step, Sync, Prepared, ObjectsAfter, Rewired, VersionFor, Carries, WireSpec, Wires, RollsOut, W.Fields, Clear;
    SyncEffects(SPEC, u, Fine(true, 2));
    ReadyExactly(SPEC, u, Fine(true, 2));
  }
}

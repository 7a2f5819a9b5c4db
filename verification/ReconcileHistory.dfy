/** What a run leaves behind, told from its history: the stamps, the ConfigMap, the
    secret ledger and the metric. */
module ReconcileHistory {
  import opened Text
  import opened Status
  import opened Reconcile
  import opened ReconcileTheorems
  import opened ReconcileEffects
  import opened ReconcileRuns
  import opened ReconcileEdits
  import O = Ownership
  import M = Manifests
  import S = Secrets
  import R = SecretRuns
  import W = Wiring

  // ---------------------------------------------------- the stamps and the ConfigMap

  predicate AppliesAt(u: State, e: Event) {
    e.Reconciled? && Applies(e.spec, u.objects, e.inp)
  }

  /** The two places a stamp can stand: the object (`none`) and its template. */
  function StampAt(none: bool, w: W.State): string {
    if none then ObjectStamp(w) else TemplateStamp(w)
  }

  /** The reconcile settles the stamp at that place. */
  predicate Stamps(none: bool, u: State, e: Event) {
    if none then StampsObjectAt(u, e) else ReachesWire(u, e)
  }

  /** What it leaves there: wiring with `rollout: none` clears the template's stamp. */
  function LeftBy(none: bool, e: Event): string
    requires e.Reconciled? && e.inp.fetch.Commit?
  {
    if none then Wanted(e) else Sha(e.spec, Wanted(e))
  }

  /** The last reconcile of the run that applied its ConfigMap. */
  function LastApply(v: State, es: seq<Event>): Option<nat> {
    if es == [] then None
    else
      var n := |es| - 1;
      if AppliesAt(Run(v, es[..n]), es[n]) then Some(n) else LastApply(v, es[..n])
  }

  /** The last one that settled the stamp. */
  function LastStamp(none: bool, v: State, es: seq<Event>): Option<nat> {
    if es == [] then None
    else
      var n := |es| - 1;
      if Stamps(none, Run(v, es[..n]), es[n]) then Some(n) else LastStamp(none, v, es[..n])
  }

  /** The stamp at that place is what reconcile `e` left. */
  ghost predicate StampedBy(none: bool, u: State, e: Event) {
    e.Reconciled? && e.inp.fetch.Commit? && StampAt(none, u.workload) == LeftBy(none, e)
  }

  /** The ConfigMap that `e` names holds what `e` rendered. */
  ghost predicate FilledBy(u: State, e: Event) {
    e.Reconciled? && e.inp.render.Content? && Filled(e.spec, u.objects, e.inp.render.content)
  }

  lemma StampedWasApplied(none: bool, u: State, e: Event)
    ensures Stamps(none, u, e) ==> AppliesAt(u, e) && e.inp.fetch.Commit?
  {
  }

  /** Indices into the history are bounded, and no stamp precedes its ConfigMap. */
  lemma {:induction false} StampAfterApply(none: bool, v: State, es: seq<Event>)
    ensures LastApply(v, es).Some? ==> LastApply(v, es).value < |es| && es[LastApply(v, es).value].Reconciled?
    ensures LastStamp(none, v, es).Some? ==>
              && LastApply(v, es).Some? && LastStamp(none, v, es).value <= LastApply(v, es).value
              && es[LastStamp(none, v, es).value].Reconciled?
  {
    if es != [] {
      var n := |es| - 1;
      StampAfterApply(none, v, es[..n]);
      StampedWasApplied(none, Run(v, es[..n]), es[n]);
      hide Run, Applies, Stamps;
    }
  }

  /** What the stamp's history supposes: nothing at the template in auto mode, else that
      Kohen's stamps are its own. */
  ghost predicate Own(none: bool, w: W.State, es: seq<Event>) {
    Sound(w) || (!none && AllAuto(es))
  }

  lemma StampCarries(none: bool, u: State, e: Event, x: Event)
    requires e.Reconciled? && (Sound(u.workload) || (!none && !e.spec.rolloutNone))
    ensures var u' := Step(u, e);
            && (Sound(u.workload) ==> Sound(u'.workload))
            && (if Stamps(none, u, e) then StampedBy(none, u', e)
                else StampAt(none, u'.workload) == StampAt(none, u.workload) &&
                     (StampedBy(none, u, x) ==> StampedBy(none, u', x)))
  {
    if Sound(u.workload) { EventExactly(u, e); }
    if !e.spec.rolloutNone { AutoEvent(u, e); }
    StampedWasApplied(none, u, e);
    hide Step, Desired, ReachesWire, StampsObjectAt, Sound, ObjectStamp, TemplateStamp;
  }

  /** Each stamp is what the last reconcile that settled it left: its desired version,
      or nothing. */
  lemma {:induction false} StampIsHistory(none: bool, v: State, es: seq<Event>)
    requires Reconciles(es) && Own(none, v.workload, es)
    ensures var u, j := Run(v, es), LastStamp(none, v, es);
            && (Sound(v.workload) ==> Sound(u.workload))
            && if j.None? then StampAt(none, u.workload) == StampAt(none, v.workload)
               else j.value < |es| && StampedBy(none, u, es[j.value])
  {
    if es != [] {
      var n := |es| - 1;
      var u, j := Run(v, es[..n]), LastStamp(none, v, es[..n]);
      StampIsHistory(none, v, es[..n]);
      assert es[n] in es;
      hide Step, StampAt, Stamps, Sound, StampedBy;
      StampCarries(none, u, es[n], if j.Some? then es[j.value] else es[n]);
    }
  }

  /** The ConfigMap a reconcile names holds what the last reconcile that applied its
      ConfigMap rendered, whatever names the edits chose. */
  lemma {:induction false} ConfigMapIsHistory(v: State, es: seq<Event>)
    requires Reconciles(es)
    ensures var k := LastApply(v, es);
            if k.None? then Run(v, es).objects == v.objects
            else k.value < |es| && FilledBy(Run(v, es), es[k.value])
  {
    if es != [] {
      var n := |es| - 1;
      var u, k := Run(v, es[..n]), LastApply(v, es[..n]);
      ConfigMapIsHistory(v, es[..n]);
      assert es[n] in es;
      hide Step, FilledBy, AppliesAt;
      ConfigMapCarries(u, es[n], if k.Some? then es[k.value] else es[n]);
    }
  }

  lemma ConfigMapCarries(u: State, e: Event, x: Event)
    requires e.Reconciled?
    ensures var u' := Step(u, e);
            if AppliesAt(u, e) then FilledBy(u', e)
            else u'.objects == u.objects && (FilledBy(u, x) ==> FilledBy(u', x))
  {
    StepEffects(u, e);
    ConfigMapAfter(e.spec, u.objects, e.inp);
    hide Step, Desired, Advances, Rewired, AfterConfigMap, Pass;
  }

  /** The ConfigMap is never older than a stamp: whatever the run and the edits, a stamp
      that changed and is there comes from reconcile `j`, the ConfigMap from reconcile
      `k`, and j <= k. */
  lemma {:induction false} ConfigNeverOlderThanStamp(none: bool, v: State, es: seq<Event>)
    requires Reconciles(es) && Own(none, v.workload, es)
    requires StampAt(none, Run(v, es).workload) != StampAt(none, v.workload)
    ensures exists j, k ::
              && 0 <= j <= k < |es|
              && StampedBy(none, Run(v, es), es[j]) && FilledBy(Run(v, es), es[k])
  {
    hide Run, StampAt, LastStamp, LastApply, StampedBy, FilledBy, Own, Sound, Reconciles;
    StampIsHistory(none, v, es);
    ConfigMapIsHistory(v, es);
    StampAfterApply(none, v, es);
    var j, k := LastStamp(none, v, es).value, LastApply(v, es).value;
    assert StampedBy(none, Run(v, es), es[j]) && FilledBy(Run(v, es), es[k]);
  }

  // ------------------------------------------------------------ wired means wired

  /** With the wiring unedited and no other writer, WorkloadWired set True means what it
      says: the workload carries exactly Kohen's fields for this reconcile's version. */
  lemma {:induction false} WiredMeansCarried(s: Spec, v: State, es: seq<Event>, inp: Inputs)
    requires AllWire(es, s) && Untampered(s, v.workload) && Advances(s, Run(v, es).objects, inp)
    requires Holds(Sync(s, Run(v, es), inp).1.st, WorkloadWired)
    ensures Carries(s, Sync(s, Run(v, es), inp).1.workload, Sha(s, Desired(s, inp)))
  {
    var u, e := Run(v, es), Reconciled(s, inp, true);
    RunIsUntampered(s, v, es);
    SyncEffects(s, u, inp);
    hide Run, Sync, Untampered, Prepared, AllResolved, Rewired, Wires, Desired, Carries, ObjectsAfter;
    UntamperedEvent(u, e);
  }

  lemma UniqueWhateverStamp(s: Spec, sha: string)
    requires W.UniqueKeys(WireSpec(s, ""))
    ensures W.UniqueKeys(WireSpec(s, sha))
  {
  }

  /** So Ready True means that the workload serves the config and every reference. */
  lemma {:induction false} ReadyServesEveryReference(s: Spec, v: State, es: seq<Event>, inp: Inputs, i: nat)
    requires AllWire(es, s) && Untampered(s, v.workload) && i < |s.refs|
    requires Holds(Sync(s, Run(v, es), inp).1.st, Ready)
    requires W.UniqueKeys(WireSpec(s, ""))
    ensures var w := Sync(s, Run(v, es), inp).1.workload;
            var c := W.Target(w.containers, s.container);
            && c.Some? && W.Chosen(w.containers, s.container, c.value)
            && ServesConfig(s, w, c.value) && Serves(w, c.value, s.refs[i])
  {
    var u := Run(v, es);
    ReadyExactly(s, u, inp);
    assert inp.fetch.Commit?;
    hide Run, Sync, Prepared, AllResolved, RollsOut, Desired, StampOf, W.UniqueKeys, ServesConfig, Serves, W.Fields;
    WiredMeansCarried(s, v, es, inp);
    var sha := Sha(s, Desired(s, inp));
    W.TargetExactly(Sync(s, u, inp).1.workload.containers, s.container);
    UniqueWhateverStamp(s, sha);
    CarriedServesConfig(s, Sync(s, u, inp).1.workload, sha);
    CarriedServesEveryReference(s, Sync(s, u, inp).1.workload, inp, sha, i);
  }

  // --------------------------------------------------------------- last good, over runs

  /** Step `e` from `u` had the right to touch the workload. */
  ghost predicate Earned(u: State, e: Event) {
    e.Finalized? || e.Outside? || ReachesWire(u, e)
  }

  lemma UnearnedKeeps(u: State, e: Event)
    requires !Earned(u, e)
    ensures Step(u, e).workload == u.workload
  {
    LastGood(e.spec, u, e.inp);
    hide Sync, Advances, Wires;
  }

  /** Last-good gating over runs: if no step was a finalize or somebody else's, and none
      passed fetch, render, ConfigMap apply and prune, manifests, all secrets and the
      wire, then the wiring and the stamp are what they were at the start. */
  lemma {:induction false} LastGoodOverRuns(v: State, es: seq<Event>)
    requires forall i :: 0 <= i < |es| ==> !Earned(Run(v, es[..i]), es[i])
    ensures Run(v, es).workload == v.workload
  {
    if es != [] {
      var n := |es| - 1;
      forall i | 0 <= i < n ensures !Earned(Run(v, es[..n][..i]), es[..n][i]) {
        assert es[..n][..i] == es[..i];
      }
      LastGoodOverRuns(v, es[..n]);
      UnearnedKeeps(Run(v, es[..n]), es[n]);
      hide Step, Earned;
    }
  }

  // --------------------------------------------------------------------- secrets

  /** The secret evaluations of a run whose status was saved. */
  function Evaluations(v: State, es: seq<Event>): seq<R.Event> {
    if es == [] then []
    else
      var n := |es| - 1;
      Evaluations(v, es[..n]) + EvaluationOf(Run(v, es[..n]), es[n])
  }

  function EvaluationOf(u: State, e: Event): seq<R.Event> {
    if e.Reconciled? && e.saved && Prepared(e.spec, u.objects, e.inp)
    then [SecretEvent(e.spec, u.workload, e.inp, e.inp.fetch.commit)] else []
  }

  lemma SecretsStep(u: State, e: Event)
    ensures Step(u, e).st.secrets ==
            if EvaluationOf(u, e) == [] then u.st.secrets
              else R.Step(u.st.secrets, EvaluationOf(u, e)[0])
    ensures e.Reconciled? && e.saved ==>
            Step(u, e).exceededTotal ==
            u.exceededTotal + if EvaluationOf(u, e) == [] then 0 else Entered(e.spec, u.st.secrets, e.inp)
  {
    match e
    case Reconciled(s, inp, saved) =>
      SyncEffects(s, u, inp);
      hide Sync, ObjectsAfter, AllResolved, Rewired, Prepared, R.Step, Entered, Wires, SecretEvent;
    case Finalized(s, f) =>
      FinalizeKeepsStatus(s, u, f);
      hide Finalize;
    case Outside(_, _) =>
  }

  lemma FinalizeKeepsStatus(s: Spec, u: State, f: FinalInputs)
    ensures Finalize(s, u, f).1.st == u.st
  {
    hide W.Retract, O.Pruned, M.PruneAll;
  }

  lemma FoldSnoc(h: seq<R.Event>, e: R.Event)
    ensures R.Fold(h + [e]) == R.Step(R.Fold(h), e)
  {
    assert (h + [e])[..|h|] == h;
  }

  /** The persisted ledger is the fold of the saved evaluations, so that everything
      proved of that fold holds of every run: reconciles under any specs, finalizes, and
      whatever others do. */
  lemma {:induction false} LedgerIsFold(v: State, es: seq<Event>)
    requires v.st.secrets == Empty()
    ensures Run(v, es).st.secrets == R.Fold(Evaluations(v, es))
  {
    if es != [] {
      var n := |es| - 1;
      LedgerIsFold(v, es[..n]);
      var u := Run(v, es[..n]);
      SecretsStep(u, es[n]);
      var h, x := Evaluations(v, es[..n]), EvaluationOf(u, es[n]);
      hide Step, EvaluationOf, R.Step, R.Fold;
      if x == [] { assert h + x == h; } else { EvaluationIsOne(u, es[n]); FoldSnoc(h, x[0]); }
    }
  }

  lemma EvaluationIsOne(u: State, e: Event)
    requires EvaluationOf(u, e) != []
    ensures EvaluationOf(u, e) == [EvaluationOf(u, e)[0]]
  {
  }

  lemma MetricSnoc(h: seq<R.Event>, e: R.Event)
    ensures var d, prior := R.Judge(R.Fold(h), e), R.Fold(h).cond;
            R.Metric(h + [e]) == R.Metric(h) +
              if d.maxDegradedExceeded && (prior.None? || prior.value.reason != MaxDegradedExceeded) then 1 else 0
  {
    assert (h + [e])[..|h|] == h;
    hide R.Judge, R.Fold;
  }

  lemma MetricStep(u: State, e: Event, h: seq<R.Event>)
    requires u.st.secrets == R.Fold(h) && e.Reconciled? && e.saved
    ensures Step(u, e).exceededTotal ==
            u.exceededTotal + R.Metric(h + EvaluationOf(u, e)) - R.Metric(h)
  {
    SecretsStep(u, e);
    if EvaluationOf(u, e) == [] {
      assert h + [] == h;
    } else {
      MetricSnoc(h, EvaluationOf(u, e)[0]);
      EvaluationIsOne(u, e);
    }
    hide Step, Prepared, S.Resolve, R.Fold, R.Metric, Wires, VersionFor;
  }

  /** What `e` adds to the counter although its status write is lost. */
  function LostBy(u: State, e: Event): nat {
    if e.Reconciled? && !e.saved && Prepared(e.spec, u.objects, e.inp) then Entered(e.spec, u.st.secrets, e.inp) else 0
  }

  /** The entries counted in reconciles whose status write failed. */
  function Lost(v: State, es: seq<Event>): nat {
    if es == [] then 0
    else
      var n := |es| - 1;
      Lost(v, es[..n]) + LostBy(Run(v, es[..n]), es[n])
  }

  lemma CounterStep(u: State, e: Event, h: seq<R.Event>)
    requires u.st.secrets == R.Fold(h)
    ensures Step(u, e).exceededTotal - u.exceededTotal ==
            R.Metric(h + EvaluationOf(u, e)) - R.Metric(h) + LostBy(u, e)
  {
    if e.Reconciled? && e.saved {
      MetricStep(u, e, h);
    } else {
      assert h + [] == h;
      UnsavedCounter(u, e);
    }
    hide Step, Prepared, R.Fold, R.Metric, Entered, SecretEvent;
  }

  lemma UnsavedCounter(u: State, e: Event)
    requires e.Reconciled? ==> !e.saved
    ensures Step(u, e).exceededTotal == u.exceededTotal + LostBy(u, e)
  {
    match e
    case Reconciled(s, inp, saved) =>
      SyncEffects(s, u, inp);
      hide Sync, ObjectsAfter, Advances, Rewired, Prepared, R.Step, Entered, Wires, SecretEvent;
    case Finalized(s, f) =>
      FinalizeKeepsStatus(s, u, f);
      hide Finalize;
    case Outside(_, _) =>
  }

  /** MaxDegradedExceededTotal after any run: the metric of the saved history, which
      counts the entries into the exceeded state, and one more for every entry counted
      in a reconcile whose status write was then lost. */
  lemma {:induction false} CounterExactly(v: State, es: seq<Event>)
    requires v.st.secrets == Empty()
    ensures Run(v, es).exceededTotal ==
            v.exceededTotal + R.Metric(Evaluations(v, es)) + Lost(v, es)
  {
    if es != [] {
      var n := |es| - 1;
      CounterExactly(v, es[..n]);
      LedgerIsFold(v, es[..n]);
      CounterStep(Run(v, es[..n]), es[n], Evaluations(v, es[..n]));
      hide Step, EvaluationOf, LostBy, R.Metric, R.Fold;
    }
  }

  /** Reconcile `i` of the run counted an entry and then failed to save its status. */
  ghost predicate Loses(v: State, es: seq<Event>, i: nat)
    requires i < |es|
  {
    LostBy(Run(v, es[..i]), es[i]) > 0
  }

  ghost predicate LosesNothing(v: State, es: seq<Event>) {
    forall i: nat :: i < |es| ==> !Loses(v, es, i)
  }

  /** "Count once on entry" holds exactly if no reconcile of the run counted an entry
      and then failed to save its status. */
  lemma CountsOnceExactly(v: State, es: seq<Event>)
    requires v.st.secrets == Empty()
    ensures Run(v, es).exceededTotal - v.exceededTotal == |R.Entries(Evaluations(v, es))| <==>
            LosesNothing(v, es)
  {
    CounterExactly(v, es);
    R.MetricCountsEntries(Evaluations(v, es));
    NothingLost(v, es);
    hide Run, Evaluations, R.Metric, R.Entries, LosesNothing, Lost;
  }

  lemma {:induction false} NothingLost(v: State, es: seq<Event>)
    ensures Lost(v, es) == 0 <==> LosesNothing(v, es)
  {
    if es != [] {
      NothingLost(v, es[..|es| - 1]);
      LostLast(v, es);
      LosesNothingLast(v, es);
      hide Loses, LosesNothing, Lost;
    }
  }

  lemma LosesNothingLast(v: State, es: seq<Event>)
    requires es != []
    ensures LosesNothing(v, es) <==> LosesNothing(v, es[..|es| - 1]) && !Loses(v, es, |es| - 1)
  {
    hide Loses;
    var n := |es| - 1;
    if LosesNothing(v, es) {
      forall i: nat | i < n ensures !Loses(v, es[..n], i) { LosesPrefix(v, es, n, i); }
    }
    if LosesNothing(v, es[..n]) && !Loses(v, es, n) {
      forall i: nat | i < |es| ensures !Loses(v, es, i) { if i < n { LosesPrefix(v, es, n, i); } }
    }
  }

  lemma LostLast(v: State, es: seq<Event>)
    requires es != []
    ensures Lost(v, es) == 0 <==> Lost(v, es[..|es| - 1]) == 0 && !Loses(v, es, |es| - 1)
  {
    hide Run, LostBy;
  }

  lemma LosesPrefix(v: State, es: seq<Event>, n: nat, i: nat)
    requires i < n <= |es|
    ensures Loses(v, es[..n], i) == Loses(v, es, i)
  {
    assert es[..n][..i] == es[..i] && es[..n][i] == es[i];
    hide Run, LostBy;
  }

  ghost predicate Clocked(es: seq<Event>) {
    forall e :: e in es && e.Reconciled? ==> e.inp.at != 0
  }

  lemma {:induction false} EvaluationsAreClocked(v: State, es: seq<Event>)
    requires Clocked(es)
    ensures forall i :: 0 <= i < |Evaluations(v, es)| ==> Evaluations(v, es)[i].setAt != 0
  {
    if es != [] {
      EvaluationsAreClocked(v, es[..|es| - 1]);
      assert es[|es| - 1] in es;
      hide Run, Prepared, Wires;
    }
  }

  lemma ReasonIsDecision(l: S.Ledger, e: R.Event)
    ensures var c, d := R.Step(l, e).cond, R.Judge(l, e);
            && c.Some? && c.value.reason == d.reason
            && (d.reason == MaxDegradedExceeded <==> d.maxDegradedExceeded)
  {
    R.ConditionAfterStep(l, e);
  }

  /** The reason a reconcile reports after any run, told from the run's history:
      bounded degradation and first resolution. */
  lemma {:induction false} DegradationOverRuns(s: Spec, v: State, es: seq<Event>, inp: Inputs)
    requires v.st.secrets == Empty() && Clocked(es) && Prepared(s, Run(v, es).objects, inp)
    ensures var h := Evaluations(v, es);
            var answers := Answers(s.refs, inp.resolutions);
            var c := Sync(s, Run(v, es), inp).1.st.secrets.cond;
            && c.Some?
            && (c.value.reason == AwaitingFirstResolution <==>
                exists a :: a in answers && !a.resolution.ready && !R.EstablishedBy(h, a.name))
            && (c.value.reason == MaxDegradedExceeded <==>
                && (exists a :: a in answers && !a.resolution.ready)
                && (forall a :: a in answers && !a.resolution.ready ==> R.EstablishedBy(h, a.name))
                && s.maxDegraded > 0
                && (exists i: nat :: R.Outage(h, i) && inp.now - h[i].setAt > s.maxDegraded))
  {
    var h, u := Evaluations(v, es), Run(v, es);
    var e := SecretEvent(s, u.workload, inp, inp.fetch.commit);
    LedgerIsFold(v, es);
    EvaluationsAreClocked(v, es);
    SyncEffects(s, u, inp);
    ReasonIsDecision(u.st.secrets, e);
    hide Run, Sync, R.Step, S.Resolve, Evaluations, Prepared, ObjectsAfter, Rewired, Wires, Advances, R.Fold, Answers,
      VersionFor;
    R.AwaitingFirstExactly(h, e);
    R.MaxDegradedExactly(h, e);
  }

  /** The persisted flag of a reference: some saved reconcile resolved everything and
      set WorkloadWired True, and the reference has been listed ever since. */
  lemma {:induction false} EstablishmentOverRuns(v: State, es: seq<Event>, name: string)
    requires v.st.secrets == Empty()
    ensures S.Established(Run(v, es).st.secrets.refs, name) <==> R.EstablishedBy(Evaluations(v, es), name)
  {
    LedgerIsFold(v, es);
    R.FlagIsHistory(Evaluations(v, es), name);
    hide Run, Evaluations, R.Fold, R.EstablishedBy, S.Established;
  }

  predicate NamesReference(refs: seq<Reference>, name: string) {
    exists r :: r in refs && r.name == name
  }

  lemma AnswersName(refs: seq<Reference>, resolutions: nat -> S.Resolution, e: R.Event, name: string)
    requires e.answers == Answers(refs, resolutions)
    ensures R.Lists(e, name) <==> NamesReference(refs, name)
  {
    if R.Lists(e, name) {
      var a :| a in e.answers && a.name == name;
      var i: nat :| i < |e.answers| && e.answers[i] == a;
      AnswerAt(refs, resolutions, i);
      assert refs[i] in refs;
    }
    if NamesReference(refs, name) {
      var r :| r in refs && r.name == name;
      var i: nat :| i < |refs| && refs[i] == r;
      AnswerAt(refs, resolutions, i);
      ListedAt(e, i);
    }
  }

  lemma AnswerAt(refs: seq<Reference>, resolutions: nat -> S.Resolution, i: nat)
    requires i < |refs|
    ensures Answers(refs, resolutions)[i] == AnswerOf(refs[i], resolutions(i))
  {
  }

  lemma ListedAt(e: R.Event, i: nat)
    requires i < |e.answers|
    ensures R.Lists(e, e.answers[i].name)
  {
    assert e.answers[i] in e.answers;
  }

  /** One step, from any state and under any spec: a flag stays as long as the name stays
      in the spec, and rises only in a saved reconcile that lists the name, resolved
      everything and reached the wire. */
  lemma FlagOverStep(u: State, e: Event, name: string)
    ensures var was, now := S.Established(u.st.secrets.refs, name), S.Established(Step(u, e).st.secrets.refs, name);
            && (was && (e.Reconciled? ==> NamesReference(e.spec.refs, name)) ==> now)
            && (!was && now ==> ReachesWire(u, e) && e.saved && NamesReference(e.spec.refs, name))
  {
    SecretsStep(u, e);
    if EvaluationOf(u, e) != [] {
      var x := SecretEvent(e.spec, u.workload, e.inp, e.inp.fetch.commit);
      R.FlagAfterStep(u.st.secrets, x, name);
      AnswersName(e.spec.refs, e.inp.resolutions, x, name);
      R.ReadyMeansAllReady(u.st.secrets, x);
      GateOpens(e.spec, u.st.secrets, e.inp, e.inp.fetch.commit);
    }
    hide Step, Prepared, AllResolved, R.Step, R.AllReady, S.Established, Answers, Wires, VersionFor, S.Resolve;
  }
}

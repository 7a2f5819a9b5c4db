/** Every condition and field of the status after a reconcile, told from its inputs and
    the state of the world, condition by condition. */
module ReconcileStatus {
  import opened Text
  import opened Status
  import opened Reconcile
  import opened ReconcileTheorems
  import O = Ownership
  import M = Manifests
  import S = Secrets
  import W = Wiring
  import P = ServerSideApply
  import V = Version

  /** What a reconcile says of a condition. */
  datatype Saying = Saying(holds: bool, reason: Reason)

  /** `now` is `before` with what was said: its time moves only when the status flips. */
  ghost predicate Says(now: Option<Condition>, before: Option<Condition>, x: Saying, at: int) {
    && now.Some? && now.value.holds == x.holds && now.value.reason == x.reason
    && now.value.since == if before.Some? && before.value.holds == x.holds then before.value.since else at
  }

  /** `now` is `before` with one condition said. */
  ghost predicate Said(now: CsStatus, before: CsStatus, k: Kind, x: Saying, at: int) {
    Says(Cond(now, k), Cond(before, k), x, at) && forall j :: j != k ==> Cond(now, j) == Cond(before, j)
  }

  lemma SetSays(st: CsStatus, k: Kind, holds: bool, reason: Reason, at: int)
    requires k != SecretsReady
    ensures var st' := Set(st, k, holds, reason, at);
            Said(st', st, k, Saying(holds, reason), at) && st' == st.(conditions := st'.conditions)
  {
  }

  lemma UnwiredSays(st: CsStatus, reason: Reason, at: int)
    ensures var st' := Unwired(st, reason, at);
            && Said(st', st, WorkloadWired, Saying(false, reason), at)
            && st'.workloadVersion == st.workloadVersion && !st'.rolloutInProgress
  {
  }

  lemma UnstampedSays(st: CsStatus, at: int)
    ensures var st' := Unstamped(st, at);
            && Said(st', st, RolloutComplete, Saying(false, Degraded), at)
            && st'.workloadVersion == st.workloadVersion && !st'.rolloutInProgress
  {
  }

  lemma RolledOutSays(st: CsStatus, version: string, p: Progress, at: int)
    ensures var st' := RolledOut(st, version, p, at);
            && Said(st', st, RolloutComplete, Saying(p.complete, p.reason), at)
            && st'.workloadVersion == version && st'.rolloutInProgress == !p.complete
  {
  }

  /** Readiness once everything before the workload holds. */
  lemma ReadySays(st: CsStatus, at: int)
    requires Early(st)
    ensures var st' := ComputeReady(st, at);
            var c := Cond(st, RolloutComplete);
            && st' == st.(conditions := st'.conditions)
            && Said(st', st, Ready,
                    if !Holds(st, WorkloadWired) then Saying(false, Degraded)
                    else if !Holds(st, RolloutComplete)
                    then
                      Saying(false,
                             if c.Some? && c.value.reason == ProgressDeadlineExceeded then Degraded else Progressing)
                    else Saying(true, Synced), at)
  {
    GatesHold(st);
    forall holds, reason
      ensures var st' := Set(st, Ready, holds, reason, at);
              st' == st.(conditions := st'.conditions) && Said(st', st, Ready, Saying(holds, reason), at)
    {
      SetSays(st, Ready, holds, reason, at);
    }
    hide Set, Said, Holds, Cond, GATES;
  }

  // ------------------------------------------------------------------- references

  /** A reference names one usable surface and its resolver found the secret. */
  predicate Obtained(r: Reference, res: S.Resolution) {
    && res.ready
    && ((r.surface == File && r.mountPath != "" && r.envVar == "" && r.key == "")
        || (r.surface == Env && r.envVar != "" && r.key != "" && r.mountPath == ""))
  }

  lemma AllResolvedExactly(s: Spec, inp: Inputs)
    ensures AllResolved(s, inp) <==> forall i: nat :: i < |s.refs| ==> Obtained(s.refs[i], inp.resolutions(i))
  {
    forall i: nat | i < |s.refs|
      ensures ResolveOne(s.refs[i], inp.resolutions(i)).ready <==> Obtained(s.refs[i], inp.resolutions(i))
    {
    }
    hide ResolveOne, Obtained;
  }

  /** A reference not obtained now was never part of a wired version. */
  ghost predicate AwaitsFirst(s: Spec, l: S.Ledger, inp: Inputs) {
    exists i: nat :: i < |s.refs| && NeverHad(l, s.refs[i], inp.resolutions(i))
  }

  ghost predicate NeverHad(l: S.Ledger, r: Reference, res: S.Resolution) {
    !Obtained(r, res) && forall x :: x in l.refs && x.name == r.name ==> !x.established
  }

  /** The outage, counted from the time SecretsReady turned False, exceeds the bound. */
  predicate TooLong(s: Spec, l: S.Ledger, inp: Inputs) {
    var since := if l.cond.Some? && !l.cond.value.holds then l.cond.value.since else inp.now;
    since != 0 && s.maxDegraded > 0 && inp.now - since > s.maxDegraded
  }

  ghost function SecretsSaying(s: Spec, l: S.Ledger, inp: Inputs): Saying {
    if forall i: nat :: i < |s.refs| ==> Obtained(s.refs[i], inp.resolutions(i)) then Saying(true, Synced)
    else if AwaitsFirst(s, l, inp) then Saying(false, AwaitingFirstResolution)
    else if TooLong(s, l, inp) then Saying(false, MaxDegradedExceeded)
    else Saying(false, DegradedServingLastGood)
  }

  lemma UnreadyExactly(s: Spec, l: S.Ledger, inp: Inputs)
    ensures var rs := S.EvaluatedAll(l, Answers(s.refs, inp.resolutions));
            && ((exists r :: r in rs && !r.resolution.ready) <==> !AllResolved(s, inp))
            && ((exists r :: r in rs && !r.resolution.ready && !r.established) <==> AwaitsFirst(s, l, inp))
  {
    var rs := S.EvaluatedAll(l, Answers(s.refs, inp.resolutions));
    forall i: nat | i < |s.refs|
      ensures i < |rs| && rs[i] in rs && (rs[i].resolution.ready <==> ResolveOne(s.refs[i], inp.resolutions(i)).ready)
      ensures !rs[i].resolution.ready && !rs[i].established <==> NeverHad(l, s.refs[i], inp.resolutions(i))
    {
    }
    assert |rs| == |s.refs|;
    hide S.EvaluatedAll, Answers, NeverHad, ResolveOne;
    if r :| r in rs && !r.resolution.ready {
      var i: nat :| i < |rs| && rs[i] == r;
      assert !ResolveOne(s.refs[i], inp.resolutions(i)).ready;
    }
    if r :| r in rs && !r.resolution.ready && !r.established {
      var i: nat :| i < |rs| && rs[i] == r;
      assert NeverHad(l, s.refs[i], inp.resolutions(i));
    }
  }

  /** The secrets gate's verdict and what it makes of SecretsReady. */
  lemma GateSaying(s: Spec, l: S.Ledger, inp: Inputs)
    ensures var answers := Answers(s.refs, inp.resolutions);
            var d := S.Resolve(l, answers, s.maxDegraded, inp.now);
            var l' := S.Resolved(l, answers, s.maxDegraded, inp.now, inp.at);
            && Says(l'.cond, l.cond, SecretsSaying(s, l, inp), inp.at)
            && (!d.allReady ==> d.readyReason == if AwaitsFirst(s, l, inp) then Progressing else Degraded)
  {
    var rs := S.EvaluatedAll(l, Answers(s.refs, inp.resolutions));
    UnreadyExactly(s, l, inp);
    AllResolvedExactly(s, inp);
    S.DecisionExactly(rs, S.DegradedSince(l, inp.now), s.maxDegraded, inp.now);
    hide S.EvaluatedAll, S.Decide, Answers, AwaitsFirst, AllResolved, Obtained;
  }

  // ------------------------------------------------------------------- the workload

  /** Another manager set one of the fields to be wired to another value. */
  ghost predicate Disputed(s: Spec, w: W.State, version: string) {
    exists c :: W.Chosen(w.containers, s.container, c) &&
      W.Contested(w.fields, P.Kohen, W.Fields(WireSpec(s, if s.rolloutNone then "" else version), c))
  }

  /** Why the workload cannot be wired at all. */
  function Hindrance(s: Spec, w: W.State, inp: Inputs): Option<Reason> {
    if s.kind !in {"Deployment", "StatefulSet"} then Some(Given("UnsupportedStrategy"))
    else if inp.inspectFails then Some(Degraded)
    else if !w.present then Some(Given("WorkloadNotFound"))
    else if !s.rolloutNone && !inp.strategyOk then Some(Given("UnsupportedStrategy"))
    else None
  }

  ghost function WiredSaying(s: Spec, w: W.State, inp: Inputs, version: string): Saying {
    var no := Hindrance(s, w, inp);
    if no.Some? then Saying(false, no.value)
    else if !s.rolloutNone && W.Read(w, P.TemplateAnnotation("kohen.dev/config-sha")) == version
    then Saying(true, Synced)
    else if inp.wireApi == W.ReadFails then Saying(false, Given("WireFailed"))
    else if !exists c :: W.Chosen(w.containers, s.container, c) then Saying(false, Given("ContainerNotFound"))
    else if inp.wireApi == W.WriteFails then Saying(false, Given("WireFailed"))
    else if Disputed(s, w, version) then Saying(false, Given("ApplyConflict"))
    else Saying(true, Synced)
  }

  lemma HindranceExactly(s: Spec, w: W.State, inp: Inputs)
    ensures Inspect(s, w, inp) == Hindrance(s, w, inp)
    ensures Hindrance(s, w, inp).None? ==> s.kind in {"Deployment", "StatefulSet"} && w.present
  {
  }

  lemma OneChosen(s: Spec, w: W.State)
    ensures forall c, d :: W.Chosen(w.containers, s.container, c) && W.Chosen(w.containers, s.container, d) ==> c == d
  {
    forall c, d ensures W.Chosen(w.containers, s.container, c) && W.Chosen(w.containers, s.container, d) ==> c == d {
      W.ChosenIsOne(w.containers, s.container, c);
      W.ChosenIsOne(w.containers, s.container, d);
    }
  }

  /** Told from the API and the workload, whether and why the wire fails. */
  lemma WireAnswers(s: Spec, w: W.State, inp: Inputs, version: string)
    requires Hindrance(s, w, inp).None?
    ensures var a := W.Wire(w, WireSpec(s, if s.rolloutNone then "" else version), inp.wireApi).0;
            a == if inp.wireApi == W.ReadFails then W.Error(W.WireFailed)
                 else if !exists c :: W.Chosen(w.containers, s.container, c) then W.Error(W.ContainerNotFound)
                 else if inp.wireApi == W.WriteFails then W.Error(W.WireFailed)
                 else if Disputed(s, w, version) then W.Error(W.ApplyConflict)
                 else W.Ok
  {
    W.WireExactly(w, WireSpec(s, if s.rolloutNone then "" else version), inp.wireApi);
    OneChosen(s, w);
    hide W.Wire, W.Chosen, W.Contested, W.Fields, FilesOf, EnvsOf;
  }

  lemma WiredSayingExactly(s: Spec, w: W.State, inp: Inputs, version: string)
    ensures var x := WiredSaying(s, w, inp, version);
            && (x.holds <==> Wires(s, w, inp, version)) && (x.holds ==> x.reason == Synced)
            && (Inspect(s, w, inp).Some? ==> x.reason == Inspect(s, w, inp).value)
            && (Inspect(s, w, inp).None? && !x.holds ==>
                  var a := W.Wire(w, WireSpec(s, if s.rolloutNone then "" else version), inp.wireApi).0;
                  a.Error? && x.reason == WireReason(a.reason))
  {
    HindranceExactly(s, w, inp);
    if Hindrance(s, w, inp).None? { WireAnswers(s, w, inp, version); }
    hide W.Wire, W.Chosen, W.Read, Disputed, WireSpec, Hindrance, Inspect;
  }

  /** The object bears the version after a wiring in none mode. */
  ghost predicate Stamped(s: Spec, w: W.State, inp: Inputs, version: string) {
    var w' := W.Wire(w, WireSpec(s, ""), inp.wireApi).1;
    var p := P.ObjectAnnotation("kohen.dev/config-sha");
    && !inp.stampReadFails
    && (W.Read(w', p) == version
        || (inp.stampApi == W.Up && !W.Contested(w'.fields, P.KohenStamp, map[p := version])))
  }

  ghost function RolloutSaying(s: Spec, w: W.State, inp: Inputs, version: string): Saying {
    if !s.rolloutNone then Saying(inp.progress.complete, inp.progress.reason)
    else if Stamped(s, w, inp, version) then Saying(true, Synced)
    else Saying(false, Degraded)
  }

  lemma RolloutSayingExactly(s: Spec, w: W.State, inp: Inputs, version: string)
    requires Wires(s, w, inp, version)
    ensures RolloutSaying(s, w, inp, version).holds <==> RollsOut(s, w, inp, version)
  {
    if s.rolloutNone {
      var w' := W.Wire(w, WireSpec(s, ""), inp.wireApi).1;
      W.WiredMeansOwned(w, WireSpec(s, ""), inp.wireApi);
      W.StampExactly(w', s.kind, version, inp.stampApi);
      hide W.Wire, W.Stamp, W.Contested, W.Fields, W.Read, WireSpec;
    }
  }

  /** What wiring and stamping write: the two conditions, the version once the rollout was
      looked at, and whether one is in progress. */
  ghost predicate WireSays(s: Spec, w: W.State, inp: Inputs, version: string, st: CsStatus, st': CsStatus) {
    var wired, rollout := WiredSaying(s, w, inp, version), RolloutSaying(s, w, inp, version);
    && Says(Cond(st', WorkloadWired), Cond(st, WorkloadWired), wired, inp.at)
    && (if wired.holds then Says(Cond(st', RolloutComplete), Cond(st, RolloutComplete), rollout, inp.at)
        else Cond(st', RolloutComplete) == Cond(st, RolloutComplete))
    && st'.workloadVersion == (if wired.holds && (s.rolloutNone ==> rollout.holds) then version
                               else st.workloadVersion)
    && st'.rolloutInProgress == (wired.holds && !s.rolloutNone && !rollout.holds)
  }

  lemma NoneSays(s: Spec, v: State, inp: Inputs, version: string)
    requires s.rolloutNone && Inspect(s, v.workload, inp).None?
    ensures WireSays(s, v.workload, inp, version, v.st, WireNone(s, v, inp, version).1.st)
  {
    var w := v.workload;
    var a := W.Wire(w, WireSpec(s, ""), inp.wireApi).0;
    WiredSayingExactly(s, w, inp, version);
    hide W.Wire, W.Stamp, W.Read, WireSpec, Set, Says, Cond, WiredSaying, Inspect, Stamped, Unwired, Unstamped,
      RolledOut;
    var st := Set(v.st, WorkloadWired, true, Synced, inp.at);
    SetSays(v.st, WorkloadWired, true, Synced, inp.at);
    if a.Error? {
      UnwiredSays(v.st, WireReason(a.reason), inp.at);
    } else {
      RolloutSayingExactly(s, w, inp, version);
      UnstampedSays(st, inp.at);
      RolledOutSays(st, version, Progress(true, Synced), inp.at);
    }
  }

  lemma AutoSays(s: Spec, v: State, inp: Inputs, version: string)
    requires !s.rolloutNone && Inspect(s, v.workload, inp).None?
    ensures WireSays(s, v.workload, inp, version, v.st, WireAuto(s, v, inp, version).1.st)
  {
    var w := v.workload;
    WiredSayingExactly(s, w, inp, version);
    hide W.Wire, W.Read, WireSpec, Set, Says, Cond, WiredSaying, Inspect, Unwired, RolledOut;
    var st := Set(v.st, WorkloadWired, true, Synced, inp.at);
    SetSays(v.st, WorkloadWired, true, Synced, inp.at);
    if Wires(s, w, inp, version) {
      RolledOutSays(st, version, inp.progress, inp.at);
    } else {
      UnwiredSays(v.st, WireReason(W.Wire(w, WireSpec(s, version), inp.wireApi).0.reason), inp.at);
    }
  }

  lemma WireAndStampSays(s: Spec, v: State, inp: Inputs, version: string)
    ensures WireSays(s, v.workload, inp, version, v.st, WireAndStamp(s, v, inp, version).1.st)
  {
    if Inspect(s, v.workload, inp).None? {
      if s.rolloutNone { NoneSays(s, v, inp, version); } else { AutoSays(s, v, inp, version); }
    } else {
      WiredSayingExactly(s, v.workload, inp, version);
      UnwiredSays(v.st, Inspect(s, v.workload, inp).value, inp.at);
    }
    hide WireNone, WireAuto, Inspect, Says, Cond, WiredSaying, RolloutSaying, Unwired;
  }

  // -------------------------------------------------------------- from version to end

  ghost function FinalSaying(s: Spec, w: W.State, inp: Inputs, version: string): Saying {
    var wired, rollout := WiredSaying(s, w, inp, version), RolloutSaying(s, w, inp, version);
    if !wired.holds then Saying(false, Degraded)
    else if !rollout.holds
    then Saying(false, if rollout.reason == ProgressDeadlineExceeded then Degraded else Progressing)
    else Saying(true, Synced)
  }

  /** The conditions settled before the gate, and the commit, are as they were. */
  ghost predicate KeepsFirst(st: CsStatus, st': CsStatus) {
    && Cond(st', Fetched) == Cond(st, Fetched) && Cond(st', Rendered) == Cond(st, Rendered)
    && Cond(st', ManifestsApplied) == Cond(st, ManifestsApplied) && st'.sourceCommit == st.sourceCommit
  }

  ghost predicate FinishSays(s: Spec, w: W.State, inp: Inputs, version: string, st: CsStatus, st': CsStatus) {
    && WireSays(s, w, inp, version, st, st') && st'.configVersion == version
    && Says(Cond(st', Ready), Cond(st, Ready), FinalSaying(s, w, inp, version), inp.at)
  }

  lemma VersionAlone(st: CsStatus, version: string)
    ensures var st' := st.(configVersion := version);
            (forall k :: Cond(st', k) == Cond(st, k)) && Early(st') == Early(st)
  {
  }

  lemma MarkAlone(st: CsStatus)
    ensures var st' := st.(secrets := S.MarkEstablished(st.secrets));
            (forall k :: Cond(st', k) == Cond(st, k)) && Early(st') == Early(st)
  {
  }

  /** Readiness follows from what was just said of the workload. */
  lemma ReadyFollows(s: Spec, w: W.State, inp: Inputs, version: string, st: CsStatus, st1: CsStatus)
    requires WireSays(s, w, inp, version, st, st1) && Early(st1)
    ensures Said(ComputeReady(st1, inp.at), st1, Ready, FinalSaying(s, w, inp, version), inp.at)
  {
    ReadySays(st1, inp.at);
    var wired := WiredSaying(s, w, inp, version);
    assert Holds(st1, WorkloadWired) == wired.holds;
    hide ComputeReady, Said, WiredSaying, RolloutSaying, Cond, Early;
  }

  lemma WireSaysFrame(
    s: Spec, w: W.State, inp: Inputs, version: string, a: CsStatus, b: CsStatus, c: CsStatus, d: CsStatus)
    requires WireSays(s, w, inp, version, b, c)
    requires forall k :: k != Ready ==> Cond(a, k) == Cond(b, k) && Cond(d, k) == Cond(c, k)
    requires a.workloadVersion == b.workloadVersion && d.workloadVersion == c.workloadVersion
    requires d.rolloutInProgress == c.rolloutInProgress
    ensures WireSays(s, w, inp, version, a, d)
  {
    hide WiredSaying, RolloutSaying, Says, Cond;
  }

  /** The status just before readiness is computed. */
  function BeforeReady(s: Spec, v: State, inp: Inputs, version: string): CsStatus {
    var st := WireAndStamp(s, v.(st := v.st.(configVersion := version)), inp, version).1.st;
    if Holds(st, WorkloadWired) then st.(secrets := S.MarkEstablished(st.secrets)) else st
  }

  lemma BeforeReadySays(s: Spec, v: State, inp: Inputs, version: string)
    requires Early(v.st) && version != ""
    ensures var st := BeforeReady(s, v, inp, version);
            && WireSays(s, v.workload, inp, version, v.st, st) && Early(st) && st.configVersion == version
            && st.sourceCommit == v.st.sourceCommit
            && forall k :: k != WorkloadWired && k != RolloutComplete ==> Cond(st, k) == Cond(v.st, k)
  {
    VersionAlone(v.st, version);
    var v0 := v.(st := v.st.(configVersion := version));
    var v1 := WireAndStamp(s, v0, inp, version).1;
    WireAndStampSays(s, v0, inp, version);
    WireOutcome(s, v0, inp, version);
    SameIsEarly(v1.st, v0.st);
    MarkAlone(v1.st);
    hide WireAndStamp, Cond, Early, Wires, RollsOut, StampOf, S.MarkEstablished, WireSays, Holds;
    WireSaysFrame(s, v.workload, inp, version, v.st, v0.st, v1.st, BeforeReady(s, v, inp, version));
  }

  lemma FinishSaysAll(s: Spec, v: State, inp: Inputs, commit: string, tokens: seq<string>)
    requires Early(v.st)
    ensures var version := V.VersionOf(commit, tokens, inp.hash);
            var st' := Finish(s, v, inp, commit, tokens).1.st;
            && FinishSays(s, v.workload, inp, version, v.st, st') && KeepsFirst(v.st, st')
            && Cond(st', SecretsReady) == Cond(v.st, SecretsReady)
  {
    var version := V.VersionOf(commit, tokens, inp.hash);
    assert version != "";
    hide V.VersionOf;
    BeforeReadySays(s, v, inp, version);
    var st := BeforeReady(s, v, inp, version);
    var st' := Finish(s, v, inp, commit, tokens).1.st;
    assert st' == ComputeReady(st, inp.at);
    hide Finish, BeforeReady, Cond, Early, WireSays, FinalSaying, Says;
    ReadyFollows(s, v.workload, inp, version, v.st, st);
    ReadySays(st, inp.at);
    hide ComputeReady;
    WireSaysFrame(s, v.workload, inp, version, v.st, v.st, st, st');
  }

  // ------------------------------------------------------------------------ the gate

  /** What the secrets gate and what follows it say; `version` is the one asked for. */
  ghost predicate GateSays(s: Spec, w: W.State, inp: Inputs, version: string, st: CsStatus, st': CsStatus) {
    && Says(Cond(st', SecretsReady), Cond(st, SecretsReady), SecretsSaying(s, st.secrets, inp), inp.at)
    && if AllResolved(s, inp) then FinishSays(s, w, inp, version, st, st')
       else
         && Says(Cond(st', Ready), Cond(st, Ready), ClosedSaying(s, st.secrets, inp), inp.at)
         && Cond(st', WorkloadWired) == Cond(st, WorkloadWired)
         && Cond(st', RolloutComplete) == Cond(st, RolloutComplete)
         && st'.configVersion == st.configVersion && st'.workloadVersion == st.workloadVersion
         && !st'.rolloutInProgress
  }

  /** Ready while a secret is awaited. */
  ghost function ClosedSaying(s: Spec, l: S.Ledger, inp: Inputs): Saying {
    Saying(false, if AwaitsFirst(s, l, inp) then Progressing else Degraded)
  }

  lemma ResolvedSays(s: Spec, st: CsStatus, inp: Inputs)
    ensures var st' := ResolvedStatus(s, st, inp);
            && Says(Cond(st', SecretsReady), Cond(st, SecretsReady), SecretsSaying(s, st.secrets, inp), inp.at)
            && (forall k :: k != SecretsReady ==> Cond(st', k) == Cond(st, k)) && st' == st.(secrets := st'.secrets)
  {
    GateSaying(s, st.secrets, inp);
    hide S.Resolved, SecretsSaying, Says;
  }

  lemma FinishSaysFrame(s: Spec, w: W.State, inp: Inputs, version: string, a: CsStatus, b: CsStatus, c: CsStatus)
    requires FinishSays(s, w, inp, version, b, c)
    requires forall k :: k != SecretsReady ==> Cond(a, k) == Cond(b, k)
    requires a.workloadVersion == b.workloadVersion
    ensures FinishSays(s, w, inp, version, a, c)
  {
    hide WiredSaying, RolloutSaying, FinalSaying, Says, Cond;
  }

  lemma ClosedSays(st: CsStatus, reason: Reason, at: int)
    ensures var st' := NotReady(st.(rolloutInProgress := false), reason, at);
            && Said(st', st, Ready, Saying(false, reason), at)
            && st'.configVersion == st.configVersion && st'.workloadVersion == st.workloadVersion
            && !st'.rolloutInProgress && st'.sourceCommit == st.sourceCommit
  {
  }

  lemma GateSaysAll(s: Spec, v: State, inp: Inputs, commit: string)
    requires Three(v.st)
    ensures var st' := Gate(s, v, inp, commit).1.st;
            GateSays(s, v.workload, inp, VersionFor(s, inp, commit), v.st, st') && KeepsFirst(v.st, st')
  {
    GateOpens(s, v.st.secrets, inp, commit);
    GateSaying(s, v.st.secrets, inp);
    ResolvedSays(s, v.st, inp);
    var st := ResolvedStatus(s, v.st, inp);
    var d := S.Resolve(v.st.secrets, Answers(s.refs, inp.resolutions), s.maxDegraded, inp.now);
    hide AllResolved, VersionFor, Cond, S.Resolve, S.Resolved, Finish, V.VersionOf, NotReady, FinishSays, Says,
      SecretsSaying, AwaitsFirst, Three, Early;
    if AllResolved(s, inp) {
      ResolvedConditions(s, v.st, inp);
      FinishSaysAll(s, v.(st := st), inp, commit, d.envTokens);
      FinishSaysFrame(s, v.workload, inp, VersionFor(s, inp, commit), v.st, st, Gate(s, v, inp, commit).1.st);
    } else {
      ClosedSays(st, d.readyReason, inp.at);
    }
  }

  // ------------------------------------------------------------------- the manifests

  ghost function ManifestsSaying(g: M.Guard, load: Option<seq<M.Manifest>>, applied: bool): Saying {
    if load.None? then Saying(false, ManifestInvalid)
    else if M.FirstToBreak(load.value, g, M.KindNotAllowed) then Saying(false, Given("ManifestKindNotAllowed"))
    else if M.FirstToBreak(load.value, g, M.NameMissing) then Saying(false, ManifestInvalid)
    else if M.FirstToBreak(load.value, g, M.NamespaceViolation) then Saying(false, Given("ManifestNamespaceViolation"))
    else if M.FirstToBreak(load.value, g, M.StoreNotAllowed) then Saying(false, Given("StoreNotAllowed"))
    else if applied then Saying(true, Synced)
    else Saying(false, ManifestApplyFailed)
  }

  lemma BreaksOne(ms: seq<M.Manifest>, g: M.Guard, x: M.Violation, y: M.Violation)
    requires M.FirstToBreak(ms, g, x) && M.FirstToBreak(ms, g, y)
    ensures x == y && exists m :: m in ms && !M.Admissible(m, g)
  {
    var i :| 0 <= i < |ms| && M.Breaks(ms[i], g, x) && M.AdmissibleUpTo(ms, g, i);
    var j :| 0 <= j < |ms| && M.Breaks(ms[j], g, y) && M.AdmissibleUpTo(ms, g, j);
    assert ms[i] in ms && !M.Admissible(ms[i], g) && !M.Admissible(ms[j], g);
    assert !(i < j) && !(j < i);
  }

  lemma ManifestsSayingExactly(s: Spec, objs: O.Objects, inp: Inputs)
    ensures var r := M.ApplyManifests(objs, s.owner, s.guard, inp.load, inp.writes, [inp.fate0, inp.fate1]).0;
            Saying(r.AllApplied?, ManifestReason(r)) == ManifestsSaying(s.guard, inp.load, r.AllApplied?)
  {
    var fates := [inp.fate0, inp.fate1];
    M.FailuresExactly(objs, s.owner, s.guard, inp.load, inp.writes, fates);
    if inp.load.Some? {
      var ms := inp.load.value;
      M.RejectionChangesNothing(objs, s.owner, s.guard, ms, inp.writes, fates);
      forall x, y | M.FirstToBreak(ms, s.guard, x) && M.FirstToBreak(ms, s.guard, y)
        ensures x == y && exists m :: m in ms && !M.Admissible(m, s.guard)
      {
        BreaksOne(ms, s.guard, x, y);
      }
    }
    hide M.ApplyManifests, M.FirstToBreak, M.Admissible;
  }

  /** Nothing but Ready was said, and Ready is degraded. */
  ghost predicate Stopped(st: CsStatus, st': CsStatus, at: int) {
    Said(st', st, Ready, Saying(false, Degraded), at) && SameFields(st, st')
  }

  predicate SameFields(st: CsStatus, st': CsStatus) {
    && st'.configVersion == st.configVersion && st'.workloadVersion == st.workloadVersion
    && st'.rolloutInProgress == st.rolloutInProgress && st'.sourceCommit == st.sourceCommit
  }

  lemma StopSays(st: CsStatus, at: int)
    ensures Stopped(st, NotReady(st, Degraded, at), at)
  {
    SetSays(st, Ready, false, Degraded, at);
  }

  /** From the manifests on; `applied` is whether the pass ran through. */
  ghost predicate PassSays(
    s: Spec, w: W.State, inp: Inputs, version: string, applied: bool, st: CsStatus, st': CsStatus)
  {
    && Says(Cond(st', ManifestsApplied), Cond(st, ManifestsApplied), ManifestsSaying(s.guard, inp.load, applied),
            inp.at)
    && Cond(st', Fetched) == Cond(st, Fetched) && Cond(st', Rendered) == Cond(st, Rendered)
    && st'.sourceCommit == st.sourceCommit
    && if applied then GateSays(s, w, inp, version, st, st')
       else
         && Says(Cond(st', Ready), Cond(st, Ready), Saying(false, Degraded), inp.at) && SameFields(st, st')
         && KeepsLast(st, st')
  }

  /** The conditions of the gate and the workload are as they were. */
  ghost predicate KeepsLast(st: CsStatus, st': CsStatus) {
    && Cond(st', SecretsReady) == Cond(st, SecretsReady) && Cond(st', WorkloadWired) == Cond(st, WorkloadWired)
    && Cond(st', RolloutComplete) == Cond(st, RolloutComplete)
  }

  lemma GateSaysFrame(s: Spec, w: W.State, inp: Inputs, version: string, a: CsStatus, b: CsStatus, c: CsStatus)
    requires GateSays(s, w, inp, version, b, c)
    requires forall k :: k != ManifestsApplied ==> Cond(a, k) == Cond(b, k)
    requires b == a.(conditions := b.conditions)
    ensures GateSays(s, w, inp, version, a, c)
  {
    hide WiredSaying, RolloutSaying, FinalSaying, SecretsSaying, ClosedSaying, Says, Cond, AllResolved;
  }

  lemma PassSaysAll(s: Spec, v: State, inp: Inputs, commit: string)
    requires Holds(v.st, Fetched) && Holds(v.st, Rendered)
    ensures var r := M.ApplyManifests(v.objects, s.owner, s.guard, inp.load, inp.writes, [inp.fate0, inp.fate1]).0;
            PassSays(s, v.workload, inp, VersionFor(s, inp, commit), r == M.AllApplied, v.st,
                     Manifests(s, v, inp, commit).1.st)
  {
    var (r, objs) := M.ApplyManifests(v.objects, s.owner, s.guard, inp.load, inp.writes, [inp.fate0, inp.fate1]);
    ManifestsSayingExactly(s, v.objects, inp);
    var x := Saying(r.AllApplied?, ManifestReason(r));
    var st := Set(v.st, ManifestsApplied, x.holds, x.reason, inp.at);
    SetSays(v.st, ManifestsApplied, x.holds, x.reason, inp.at);
    if r.AllApplied? {
      assert Three(st);
      GateSaysAll(s, v.(st := st, objects := objs), inp, commit);
      hide M.ApplyManifests, ManifestReason, ManifestsSaying, Says, GateSays, Gate, Set, VersionFor, Cond;
      GateSaysFrame(s, v.workload, inp, VersionFor(s, inp, commit), v.st, st, Manifests(s, v, inp, commit).1.st);
    } else {
      StopSays(st, inp.at);
      hide M.ApplyManifests, ManifestReason, ManifestsSaying, Says, GateSays, Gate, Set, NotReady, VersionFor, Cond;
    }
  }

  // --------------------------------------------------------------- the whole reconcile

  ghost predicate Told(now: Option<Condition>, before: Option<Condition>, x: Option<Saying>, at: int) {
    if x.Some? then Says(now, before, x.value, at) else now == before
  }

  function FetchedSaying(inp: Inputs): Option<Saying> {
    if inp.conflict then None
    else if !inp.credential then Some(Saying(false, AuthFailed))
    else if inp.fetch.NoCommit? then Some(Saying(false, inp.fetch.reason))
    else Some(Saying(true, Synced))
  }

  function RenderedSaying(inp: Inputs): Option<Saying> {
    if inp.conflict || !inp.credential || inp.fetch.NoCommit? then None
    else if inp.render.NoContent? then Some(Saying(false, inp.render.reason))
    else Some(Saying(true, Synced))
  }

  /** What a reconcile says of each condition: none of one it does not reach, and of Ready
      always. */
  ghost function SayingOf(s: Spec, v: State, inp: Inputs, k: Kind): Option<Saying> {
    var reaches, passes := Applies(s, v.objects, inp) && inp.pruneFate.Clean?, Prepared(s, v.objects, inp);
    var advances := Advances(s, v.objects, inp);
    match k
    case Fetched => FetchedSaying(inp)
    case Rendered => RenderedSaying(inp)
    case ManifestsApplied => if reaches then Some(ManifestsSaying(s.guard, inp.load, passes)) else None
    case SecretsReady => if passes then Some(SecretsSaying(s, v.st.secrets, inp)) else None
    case WorkloadWired =>
      if inp.conflict then Some(Saying(false, SingletonViolation))
      else if advances then Some(WiredSaying(s, v.workload, inp, Desired(s, inp))) else None
    case RolloutComplete =>
      if advances && WiredSaying(s, v.workload, inp, Desired(s, inp)).holds
      then Some(RolloutSaying(s, v.workload, inp, Desired(s, inp))) else None
    case Ready =>
      if !passes then Some(Saying(false, Degraded))
      else if !advances then Some(ClosedSaying(s, v.st.secrets, inp))
      else Some(FinalSaying(s, v.workload, inp, Desired(s, inp)))
  }

  /** The status fields that are not conditions. */
  ghost predicate FieldsTold(s: Spec, v: State, inp: Inputs, st': CsStatus) {
    var st, w := v.st, v.workload;
    var advances := Advances(s, v.objects, inp);
    && st'.sourceCommit ==
         (if FetchedSaying(inp) == Some(Saying(true, Synced)) then inp.fetch.commit else st.sourceCommit)
    && st'.configVersion == (if advances then Desired(s, inp) else st.configVersion)
    && st'.workloadVersion ==
         (if advances && WiredSaying(s, w, inp, Desired(s, inp)).holds &&
             (s.rolloutNone ==> RolloutSaying(s, w, inp, Desired(s, inp)).holds)
          then Desired(s, inp) else st.workloadVersion)
    && st'.rolloutInProgress ==
         if advances
         then WiredSaying(s, w, inp, Desired(s, inp)).holds && !s.rolloutNone && !inp.progress.complete
         else !Prepared(s, v.objects, inp) && st.rolloutInProgress
  }

  lemma ConfigMapSaysAll(s: Spec, v: State, inp: Inputs)
    requires Reads(inp) && Holds(v.st, Fetched) && Holds(v.st, Rendered)
    ensures var st' := ConfigMap(s, v, inp, inp.fetch.commit, inp.render.content).1.st;
            if Applies(s, v.objects, inp) && inp.pruneFate.Clean?
            then PassSays(s, v.workload, inp, Desired(s, inp), Prepared(s, v.objects, inp), v.st, st')
            else Stopped(v.st, st', inp.at)
  {
    StopSays(v.st, inp.at);
    if Applies(s, v.objects, inp) && inp.pruneFate.Clean? {
      PassSaysAll(s, v.(objects := AfterConfigMap(s, v.objects, inp)), inp, inp.fetch.commit);
    }
    hide PassSays, Stopped, Manifests, M.ApplyManifests, O.Apply, O.Pruned, Holds, VersionFor, NotReady;
  }

  /** Fetched and Rendered were said, in that order. */
  lemma ReadsSays(st: CsStatus, commit: string, at: int)
    ensures var st0 := st.(sourceCommit := commit);
            var st' := Set(Set(st0, Fetched, true, Synced, at), Rendered, true, Synced, at);
            && Says(Cond(st', Fetched), Cond(st, Fetched), Saying(true, Synced), at)
            && Says(Cond(st', Rendered), Cond(st, Rendered), Saying(true, Synced), at)
            && (forall k :: k != Fetched && k != Rendered ==> Cond(st', k) == Cond(st, k))
            && Holds(st', Fetched) && Holds(st', Rendered)
            && st' == st.(conditions := st'.conditions, sourceCommit := commit)
  {
  }

  lemma PassTells(s: Spec, v: State, inp: Inputs, st: CsStatus, st': CsStatus, k: Kind)
    requires Reads(inp) && st == v.st.(conditions := st.conditions, sourceCommit := inp.fetch.commit)
    requires Says(Cond(st, Fetched), Cond(v.st, Fetched), Saying(true, Synced), inp.at)
    requires Says(Cond(st, Rendered), Cond(v.st, Rendered), Saying(true, Synced), inp.at)
    requires forall j :: j != Fetched && j != Rendered ==> Cond(st, j) == Cond(v.st, j)
    requires if Applies(s, v.objects, inp) && inp.pruneFate.Clean?
             then PassSays(s, v.workload, inp, Desired(s, inp), Prepared(s, v.objects, inp), st, st')
             else Stopped(st, st', inp.at)
    ensures Told(Cond(st', k), Cond(v.st, k), SayingOf(s, v, inp, k), inp.at) && FieldsTold(s, v, inp, st')
  {
    assert Advances(s, v.objects, inp) <==> Prepared(s, v.objects, inp) && AllResolved(s, inp);
    hide Applies, Pass, Prepared, AllResolved, Desired, Advances, WiredSaying, FinalSaying, SecretsSaying, ClosedSaying,
      ManifestsSaying, Cond, Says;
  }

  /** Every condition after a reconcile, with its reason and the time it turned, and every
      other field of the status. */
  lemma StatusExactly(s: Spec, v: State, inp: Inputs, k: Kind)
    ensures var st' := Sync(s, v, inp).1.st;
            Told(Cond(st', k), Cond(v.st, k), SayingOf(s, v, inp, k), inp.at) && FieldsTold(s, v, inp, st')
  {
    if Reads(inp) {
      var st := Set(Set(v.st.(sourceCommit := inp.fetch.commit), Fetched, true, Synced, inp.at), Rendered, true, Synced,
        inp.at);
      ReadsSays(v.st, inp.fetch.commit, inp.at);
      ConfigMapSaysAll(s, v.(st := st), inp);
      PassTells(s, v, inp, st, Sync(s, v, inp).1.st, k);
      hide *;
    } else {
      EarlySays(s, v, inp, k);
    }
  }

  /** One condition was said, and Ready is degraded. */
  lemma EndsSaying(st: CsStatus, k: Kind, holds: bool, reason: Reason, at: int)
    requires k != SecretsReady && k != Ready
    ensures var st' := NotReady(Set(st, k, holds, reason, at), Degraded, at);
            && Says(Cond(st', k), Cond(st, k), Saying(holds, reason), at)
            && Says(Cond(st', Ready), Cond(st, Ready), Saying(false, Degraded), at)
            && (forall j :: j != k && j != Ready ==> Cond(st', j) == Cond(st, j)) && SameFields(st, st')
  {
    SetSays(st, k, holds, reason, at);
    SetSays(Set(st, k, holds, reason, at), Ready, false, Degraded, at);
    hide Set, Cond, Says;
  }

  lemma EarlySays(s: Spec, v: State, inp: Inputs, k: Kind)
    requires !Reads(inp)
    ensures var st' := Sync(s, v, inp).1.st;
            Told(Cond(st', k), Cond(v.st, k), SayingOf(s, v, inp, k), inp.at) && FieldsTold(s, v, inp, st')
  {
    hide Set, Says, NotReady, ConfigMap, WiredSaying, RolloutSaying, FinalSaying, SecretsSaying, ClosedSaying,
      ManifestsSaying, Desired, AllResolved, Pass;
    if inp.conflict {
      EndsSaying(v.st, WorkloadWired, false, SingletonViolation, inp.at);
    } else if !inp.credential {
      EndsSaying(v.st, Fetched, false, AuthFailed, inp.at);
    } else if inp.fetch.NoCommit? {
      EndsSaying(v.st, Fetched, false, inp.fetch.reason, inp.at);
    } else {
      RenderFails(v.st, inp.fetch.commit, inp.render.reason, inp.at);
    }
    hide Cond;
  }

  lemma RenderFails(st: CsStatus, commit: string, reason: Reason, at: int)
    ensures var st1 := Set(st.(sourceCommit := commit), Fetched, true, Synced, at);
            var st' := NotReady(Set(st1, Rendered, false, reason, at), Degraded, at);
            && Says(Cond(st', Fetched), Cond(st, Fetched), Saying(true, Synced), at)
            && Says(Cond(st', Rendered), Cond(st, Rendered), Saying(false, reason), at)
            && Says(Cond(st', Ready), Cond(st, Ready), Saying(false, Degraded), at)
            && (forall j :: j != Fetched && j != Rendered && j != Ready ==> Cond(st', j) == Cond(st, j))
            && SameFields(st.(sourceCommit := commit), st')
  {
    var st0 := st.(sourceCommit := commit);
    assert forall j :: Cond(st0, j) == Cond(st, j);
    SetSays(st0, Fetched, true, Synced, at);
    EndsSaying(Set(st0, Fetched, true, Synced, at), Rendered, false, reason, at);
    hide Set, Cond, Says, NotReady;
  }
}

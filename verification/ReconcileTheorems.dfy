/** What one reconcile establishes, whatever status it starts from. */
module ReconcileTheorems {
  import opened Text
  import opened Status
  import opened Reconcile
  import O = Ownership
  import M = Manifests
  import S = Secrets
  import W = Wiring
  import P = ServerSideApply
  import V = Version
  import R = SecretRuns

  // -------------------------------------------- success, told from inputs and world

  /** The workload is wired for `version` or, in auto mode, already bears its stamp. */
  predicate Wires(s: Spec, w: W.State, inp: Inputs, version: string) {
    && Inspect(s, w, inp).None?
    && if s.rolloutNone then W.Wire(w, WireSpec(s, ""), inp.wireApi).0 == W.Ok
       else TemplateStamp(w) == version || W.Wire(w, WireSpec(s, version), inp.wireApi).0 == W.Ok
  }

  /** The object carries the version's annotation after the stamping of `rollout: none`. */
  predicate StampsObject(s: Spec, w: W.State, inp: Inputs, version: string) {
    var w' := W.Wire(w, WireSpec(s, ""), inp.wireApi).1;
    !inp.stampReadFails && (ObjectStamp(w') == version || W.Stamp(w', s.kind, version, inp.stampApi).0 == W.Ok)
  }

  predicate RollsOut(s: Spec, w: W.State, inp: Inputs, version: string) {
    Wires(s, w, inp, version) && if s.rolloutNone then StampsObject(s, w, inp, version) else inp.progress.complete
  }

  predicate Reads(inp: Inputs) {
    !inp.conflict && inp.credential && inp.fetch.Commit? && inp.render.Content?
  }

  /** The ConfigMap was applied. */
  predicate Applies(s: Spec, objs: O.Objects, inp: Inputs) {
    Reads(inp) && O.Apply(objs, s.owner, ConfigMapId(s), inp.render.content, inp.applyApi).0 == O.Done
  }

  function AfterConfigMap(s: Spec, objs: O.Objects, inp: Inputs): O.Objects
    requires Applies(s, objs, inp)
  {
    var o := O.Apply(objs, s.owner, ConfigMapId(s), inp.render.content, inp.applyApi).1;
    O.Pruned(o, s.owner.name, O.ConfigMaps, [s.configMap], inp.pruneFate)
  }

  function Pass(s: Spec, objs: O.Objects, inp: Inputs): (M.Verdict, O.Objects)
    requires Applies(s, objs, inp)
  {
    M.ApplyManifests(AfterConfigMap(s, objs, inp), s.owner, s.guard, inp.load, inp.writes, [inp.fate0, inp.fate1])
  }

  /** Everything before secret resolution succeeded. */
  predicate Prepared(s: Spec, objs: O.Objects, inp: Inputs) {
    Applies(s, objs, inp) && inp.pruneFate.Clean? && Pass(s, objs, inp).0 == M.AllApplied
  }

  predicate AllResolved(s: Spec, inp: Inputs) {
    forall i: nat :: i < |s.refs| ==> ResolveOne(s.refs[i], inp.resolutions(i)).ready
  }

  /** The version this reconcile's commit and rotation tokens call for. */
  function Desired(s: Spec, inp: Inputs): string
    requires inp.fetch.Commit?
  {
    VersionFor(s, inp, inp.fetch.commit)
  }

  /** Every gate before the workload is passed. */
  predicate Advances(s: Spec, objs: O.Objects, inp: Inputs) {
    Prepared(s, objs, inp) && AllResolved(s, inp)
  }

  predicate Succeeds(s: Spec, v: State, inp: Inputs) {
    Advances(s, v.objects, inp) && RollsOut(s, v.workload, inp, Desired(s, inp))
  }

  // -------------------------------------------------------------------- the stages

  /** The sub-conditions settled before the workload. */
  predicate Early(st: CsStatus) {
    Holds(st, Fetched) && Holds(st, Rendered) && Holds(st, ManifestsApplied) && Holds(st, SecretsReady)
  }

  /** All six sub-conditions. */
  predicate AllSix(st: CsStatus) {
    Early(st) && Holds(st, WorkloadWired) && Holds(st, RolloutComplete)
  }

  /** Conditions `wireAndStamp` leaves alone. */
  ghost predicate SameEarlier(a: CsStatus, b: CsStatus) {
    && a.secrets == b.secrets && a.configVersion == b.configVersion && a.sourceCommit == b.sourceCommit
    && forall k :: k != WorkloadWired && k != RolloutComplete ==> Cond(a, k) == Cond(b, k)
  }

  /** `a` is `b` with condition `k` set to `holds`. */
  ghost predicate Wrote(a: CsStatus, b: CsStatus, k: Kind, holds: bool) {
    && Cond(a, k).Some? && Holds(a, k) == holds && (forall j :: j != k ==> Cond(a, j) == Cond(b, j))
    && a.secrets == b.secrets && a.configVersion == b.configVersion && a.sourceCommit == b.sourceCommit
  }

  lemma WritesOne(st: CsStatus, k: Kind, holds: bool, reason: Reason, version: string, p: Progress, at: int)
    ensures k != SecretsReady ==> Wrote(Set(st, k, holds, reason, at), st, k, holds)
    ensures Wrote(Unwired(st, reason, at), st, WorkloadWired, false)
    ensures Wrote(Unstamped(st, at), st, RolloutComplete, false)
    ensures Wrote(RolledOut(st, version, p, at), st, RolloutComplete, p.complete)
    ensures RolledOut(st, version, p, at).workloadVersion == version
  {
  }

  lemma WireOutcome(s: Spec, v: State, inp: Inputs, version: string)
    requires version != ""
    ensures var (complete, v') := WireAndStamp(s, v, inp, version);
            && complete == RollsOut(s, v.workload, inp, version)
            && Holds(v'.st, WorkloadWired) == Wires(s, v.workload, inp, version)
            && (Wires(s, v.workload, inp, version) ==> Holds(v'.st, RolloutComplete) == complete)
            && SameEarlier(v'.st, v.st) && v'.objects == v.objects && v'.exceededTotal == v.exceededTotal
            && (!Wires(s, v.workload, inp, version) ==> v'.workload == v.workload)
            && (complete ==> v'.st.workloadVersion == version && StampOf(s, v'.workload) == version)
  {
    if Inspect(s, v.workload, inp).None? {
      if s.rolloutNone { NoneOutcome(s, v, inp, version); } else { AutoOutcome(s, v, inp, version); }
    }
  }

  lemma StampLands(w: W.State, kind: string, version: string, api: W.Api)
    requires W.Stamp(w, kind, version, api).0 == W.Ok
    ensures ObjectStamp(W.Stamp(w, kind, version, api).1) == version
  {
    P.ApplyOwnsExactly(w.fields, P.KohenStamp, map[P.ObjectAnnotation(W.CONFIG_SHA) := version], false);
  }

  lemma AutoStampLands(s: Spec, w: W.State, api: W.Api, version: string)
    requires W.Wire(w, WireSpec(s, version), api).0 == W.Ok && version != ""
    ensures TemplateStamp(W.Wire(w, WireSpec(s, version), api).1) == version
  {
    W.WiredMeansOwned(w, WireSpec(s, version), api);
    hide W.Wire, W.Fields;
  }

  lemma FailureChangesNothing(w: W.State, ws: W.Spec, api: W.Api)
    requires W.Wire(w, ws, api).0 != W.Ok
    ensures W.Wire(w, ws, api).1 == w
  {
  }

  lemma NoneOutcome(s: Spec, v: State, inp: Inputs, version: string)
    requires s.rolloutNone && Inspect(s, v.workload, inp).None?
    ensures var (complete, v') := WireNone(s, v, inp, version);
            && complete == RollsOut(s, v.workload, inp, version)
            && Holds(v'.st, WorkloadWired) == Wires(s, v.workload, inp, version)
            && (Wires(s, v.workload, inp, version) ==> Holds(v'.st, RolloutComplete) == complete)
            && SameEarlier(v'.st, v.st) && v'.objects == v.objects && v'.exceededTotal == v.exceededTotal
            && (!Wires(s, v.workload, inp, version) ==> v'.workload == v.workload)
            && (complete ==> v'.st.workloadVersion == version && ObjectStamp(v'.workload) == version)
  {
    hide W.Wire, W.Stamp, W.Read, WireSpec, Set, Unwired, Unstamped, RolledOut, Cond;
    var (a, w) := W.Wire(v.workload, WireSpec(s, ""), inp.wireApi);
    var st := Set(v.st, WorkloadWired, true, Synced, inp.at);
    WritesOne(v.st, WorkloadWired, true, Synced, version, inp.progress, inp.at);
    WritesOne(st, WorkloadWired, true, Synced, version, Progress(true, Synced), inp.at);
    if a == W.Ok {
      if W.Stamp(w, s.kind, version, inp.stampApi).0 == W.Ok { StampLands(w, s.kind, version, inp.stampApi); }
    } else {
      WritesOne(v.st, WorkloadWired, false, WireReason(a.reason), version, inp.progress, inp.at);
      FailureChangesNothing(v.workload, WireSpec(s, ""), inp.wireApi);
    }
  }

  lemma AutoOutcome(s: Spec, v: State, inp: Inputs, version: string)
    requires !s.rolloutNone && Inspect(s, v.workload, inp).None? && version != ""
    ensures var (complete, v') := WireAuto(s, v, inp, version);
            && complete == RollsOut(s, v.workload, inp, version)
            && Holds(v'.st, WorkloadWired) == Wires(s, v.workload, inp, version)
            && (Wires(s, v.workload, inp, version) ==>
                  Holds(v'.st, RolloutComplete) == complete && TemplateStamp(v'.workload) == version)
            && SameEarlier(v'.st, v.st) && v'.objects == v.objects && v'.exceededTotal == v.exceededTotal
            && (!Wires(s, v.workload, inp, version) ==> v'.workload == v.workload)
            && (complete ==> v'.st.workloadVersion == version)
  {
    hide W.Wire, W.Read, Set, Unwired, RolledOut, Cond, WireSpec;
    var st := Set(v.st, WorkloadWired, true, Synced, inp.at);
    WritesOne(v.st, WorkloadWired, true, Synced, version, inp.progress, inp.at);
    WritesOne(st, WorkloadWired, true, Synced, version, inp.progress, inp.at);
    var a := W.Wire(v.workload, WireSpec(s, version), inp.wireApi).0;
    if a == W.Ok {
      AutoStampLands(s, v.workload, inp.wireApi, version);
    } else {
      WritesOne(v.st, WorkloadWired, false, WireReason(a.reason), version, inp.progress, inp.at);
      FailureChangesNothing(v.workload, WireSpec(s, version), inp.wireApi);
    }
  }

  /** Ready is decided afresh from the six sub-conditions. */
  lemma ReadyOutcome(st: CsStatus, at: int)
    ensures var r := ComputeReady(st, at);
            && Cond(r, Ready).Some? && r.secrets == st.secrets && r.configVersion == st.configVersion
            && r.workloadVersion == st.workloadVersion
            && (forall k :: k != Ready ==> Holds(r, k) == Holds(st, k)) && AllSix(r) == AllSix(st)
            && (Holds(r, Ready) <==> AllSix(st))
  {
    GatesHold(st);
    var r := ComputeReady(st, at);
    assert exists holds, reason :: r == Set(st, Ready, holds, reason, at) && holds == AllSix(st) by {
      hide Holds, Early, Set;
    }
    forall k | k != Ready ensures Holds(r, k) == Holds(st, k) { hide ComputeReady, GATES; }
  }

  lemma GatesHold(st: CsStatus)
    ensures (exists k :: k in GATES && !Holds(st, k)) <==> !(Early(st) && Holds(st, WorkloadWired))
  {
    hide Holds;
    assert Fetched == GATES[0] && Rendered == GATES[1] && ManifestsApplied == GATES[2] && SecretsReady == GATES[3] &&
      WorkloadWired == GATES[4];
  }

  ghost predicate FinishReady(s: Spec, v: State, inp: Inputs, version: string, st: CsStatus) {
    && Cond(st, Ready).Some? && (Holds(st, Ready) ==> AllSix(st))
    && (Holds(st, Ready) <==> RollsOut(s, v.workload, inp, version) && Early(v.st))
  }

  /** Marking references established concerns the flags alone. */
  lemma MarkKeepsConditions(st: CsStatus)
    ensures var m := st.(secrets := S.MarkEstablished(st.secrets));
            && Early(m) == Early(st) && AllSix(m) == AllSix(st)
            && Holds(m, WorkloadWired) == Holds(st, WorkloadWired)
  {
  }

  lemma FinishReadiness(s: Spec, v: State, inp: Inputs, commit: string, tokens: seq<string>)
    ensures FinishReady(s, v, inp, V.VersionOf(commit, tokens, inp.hash), Finish(s, v, inp, commit, tokens).1.st)
  {
    var version := V.VersionOf(commit, tokens, inp.hash);
    assert version != "";
    hide WireAndStamp, ComputeReady, Wires, RollsOut, StampOf, V.VersionOf, Cond, Holds, Early, S.MarkEstablished;
    var v0 := v.(st := v.st.(configVersion := version));
    WireOutcome(s, v0, inp, version);
    var v1 := WireAndStamp(s, v0, inp, version).1;
    SameIsEarly(v1.st, v0.st);
    hide SameEarlier;
    MarkKeepsConditions(v1.st);
    var st := if Holds(v1.st, WorkloadWired) then v1.st.(secrets := S.MarkEstablished(v1.st.secrets)) else v1.st;
    ReadyOutcome(st, inp.at);
    WithVersion(v.st, version);
    RollsOutWires(s, v.workload, inp, version);
    assert Finish(s, v, inp, commit, tokens).1.st == ComputeReady(st, inp.at);
    hide Finish;
  }

  lemma SameIsEarly(a: CsStatus, b: CsStatus)
    requires SameEarlier(a, b)
    ensures Early(a) == Early(b)
  {
  }

  lemma RollsOutWires(s: Spec, w: W.State, inp: Inputs, version: string)
    ensures RollsOut(s, w, inp, version) ==> Wires(s, w, inp, version)
  {
  }

  lemma FinishEffects(s: Spec, v: State, inp: Inputs, commit: string, tokens: seq<string>)
    ensures var version := V.VersionOf(commit, tokens, inp.hash);
            var v' := Finish(s, v, inp, commit, tokens).1;
            && v'.st.configVersion == version && v'.objects == v.objects && v'.exceededTotal == v.exceededTotal
            && v'.workload == WireAndStamp(s, v.(st := v.st.(configVersion := version)), inp, version).1.workload
            && (!Wires(s, v.workload, inp, version) ==> v'.workload == v.workload)
            && (RollsOut(s, v.workload, inp, version) ==>
                  v'.st.workloadVersion == version && StampOf(s, v'.workload) == version)
            && v'.st.secrets == (if Wires(s, v.workload, inp, version) then S.MarkEstablished(v.st.secrets)
                 else v.st.secrets)
            && Holds(v'.st, WorkloadWired) == Wires(s, v.workload, inp, version)
  {
    var version := V.VersionOf(commit, tokens, inp.hash);
    assert version != "";
    hide WireAndStamp, ComputeReady, Wires, RollsOut, StampOf, V.VersionOf, Cond, S.MarkEstablished;
    var v0 := v.(st := v.st.(configVersion := version));
    WireOutcome(s, v0, inp, version);
    var v1 := WireAndStamp(s, v0, inp, version).1;
    var st := if Holds(v1.st, WorkloadWired) then v1.st.(secrets := S.MarkEstablished(v1.st.secrets)) else v1.st;
    ReadyOutcome(st, inp.at);
    MarkKeepsConditions(v1.st);
    assert Finish(s, v, inp, commit, tokens).1 == v1.(st := ComputeReady(st, inp.at));
    hide Finish;
  }

  lemma WithVersion(st: CsStatus, version: string)
    ensures Early(st.(configVersion := version)) == Early(st)
  {
  }

  // -------------------------------------------------------------- the secrets gate

  function Empty(): S.Ledger {
    S.Ledger([], None)
  }

  function VersionFor(s: Spec, inp: Inputs, commit: string): string {
    V.RefsVersion(commit, S.EvaluatedAll(Empty(), Answers(s.refs, inp.resolutions)), inp.hash)
  }

  /** Rotation tokens do not depend on what was established. */
  lemma {:induction false} TokensIgnoreLedger(l: S.Ledger, answers: seq<S.Answer>)
    ensures S.RawTokens(S.EvaluatedAll(l, answers)) == S.RawTokens(S.EvaluatedAll(Empty(), answers))
  {
    if answers != [] {
      var n := |answers| - 1;
      TokensIgnoreLedger(l, answers[..n]);
      assert S.EvaluatedAll(l, answers)[..n] == S.EvaluatedAll(l, answers[..n]);
      assert S.EvaluatedAll(Empty(), answers)[..n] == S.EvaluatedAll(Empty(), answers[..n]);
    }
  }

  /** The event a reconcile that reaches the secrets gate contributes. */
  function SecretEvent(s: Spec, w: W.State, inp: Inputs, commit: string): R.Event {
    var wired := Wires(s, w, inp, VersionFor(s, inp, commit));
    R.Event(Answers(s.refs, inp.resolutions), s.maxDegraded, inp.now, inp.at, wired)
  }

  lemma GateOpens(s: Spec, l: S.Ledger, inp: Inputs, commit: string)
    ensures var d := S.Resolve(l, Answers(s.refs, inp.resolutions), s.maxDegraded, inp.now);
            && d.allReady == AllResolved(s, inp)
            && (d.allReady ==> V.VersionOf(commit, d.envTokens, inp.hash) == VersionFor(s, inp, commit))
  {
    var answers := Answers(s.refs, inp.resolutions);
    R.ReadyMeansAllReady(l, R.Event(answers, s.maxDegraded, inp.now, inp.at, false));
    TokensIgnoreLedger(l, answers);
    if AllResolved(s, inp) {
      forall a | a in answers ensures a.resolution.ready { var i :| 0 <= i < |answers| && answers[i] == a; }
    } else {
      var i: nat :| i < |s.refs| && !ResolveOne(s.refs[i], inp.resolutions(i)).ready;
      assert answers[i] in answers;
    }
  }

  /** The status after `resolveSecrets`. */
  function ResolvedStatus(s: Spec, st: CsStatus, inp: Inputs): CsStatus {
    st.(secrets := S.Resolved(st.secrets, Answers(s.refs, inp.resolutions), s.maxDegraded, inp.now, inp.at))
  }

  predicate Three(st: CsStatus) {
    Holds(st, Fetched) && Holds(st, Rendered) && Holds(st, ManifestsApplied)
  }

  lemma ResolvedConditions(s: Spec, st: CsStatus, inp: Inputs)
    requires AllResolved(s, inp)
    ensures Early(ResolvedStatus(s, st, inp)) == Three(st)
  {
    GateOpens(s, st.secrets, inp, "");
  }

  lemma Closed(st: CsStatus, reason: Reason, at: int)
    ensures var r := NotReady(st, reason, at); Cond(r, Ready).Some? && !Holds(r, Ready) && r.secrets == st.secrets
  {
  }

  lemma GateReadiness(s: Spec, v: State, inp: Inputs, commit: string)
    ensures var version := VersionFor(s, inp, commit);
            var v' := Gate(s, v, inp, commit).1;
            && Cond(v'.st, Ready).Some?
            && (Holds(v'.st, Ready) <==> AllResolved(s, inp) && RollsOut(s, v.workload, inp, version) && Three(v.st))
            && (Holds(v'.st, Ready) ==>
                  AllSix(v'.st) && v'.st.configVersion == version == v'.st.workloadVersion == StampOf(s, v'.workload))
  {
    GateOpens(s, v.st.secrets, inp, commit);
    hide AllResolved, VersionFor, RollsOut, Early, Three, AllSix, StampOf, Cond, Holds, S.Resolve, Finish,
      WireAndStamp, V.VersionOf;
    var d := S.Resolve(v.st.secrets, Answers(s.refs, inp.resolutions), s.maxDegraded, inp.now);
    var st := ResolvedStatus(s, v.st, inp);
    if d.allReady {
      ResolvedConditions(s, v.st, inp);
      FinishReadiness(s, v.(st := st), inp, commit, d.envTokens);
      FinishEffects(s, v.(st := st), inp, commit, d.envTokens);
    } else {
      Closed(st.(rolloutInProgress := false), d.readyReason, inp.at);
    }
  }

  // -------------------------------------------------------------- fresh readiness

  lemma SetsEarlier(st: CsStatus, k: Kind, holds: bool, reason: Reason, at: int)
    requires k != SecretsReady
    ensures forall j :: Holds(Set(st, k, holds, reason, at), j) <==> if j == k then holds else Holds(st, j)
    ensures Set(st, k, holds, reason, at).secrets == st.secrets
  {
  }

  lemma ManifestsReadiness(s: Spec, v: State, inp: Inputs, commit: string)
    ensures var version := VersionFor(s, inp, commit);
            var passed := M.ApplyManifests(v.objects, s.owner, s.guard, inp.load, inp.writes,
              [inp.fate0, inp.fate1]).0 == M.AllApplied;
            var v' := Manifests(s, v, inp, commit).1;
            && Cond(v'.st, Ready).Some?
            && (Holds(v'.st, Ready) <==>
                passed && AllResolved(s, inp) && RollsOut(s, v.workload, inp, version) && Holds(v.st, Fetched) &&
                  Holds(v.st, Rendered))
            && (Holds(v'.st, Ready) ==>
                  AllSix(v'.st) && v'.st.configVersion == version == v'.st.workloadVersion == StampOf(s, v'.workload))
  {
    hide AllResolved, VersionFor, RollsOut, AllSix, StampOf, Cond, Holds, Gate, Set, NotReady, M.ApplyManifests;
    var (r, objs) := M.ApplyManifests(v.objects, s.owner, s.guard, inp.load, inp.writes, [inp.fate0, inp.fate1]);
    var st := Set(v.st, ManifestsApplied, r.AllApplied?, ManifestReason(r), inp.at);
    SetsEarlier(v.st, ManifestsApplied, r.AllApplied?, ManifestReason(r), inp.at);
    GateReadiness(s, v.(st := st, objects := objs), inp, commit);
    Closed(st, Degraded, inp.at);
  }

  lemma ConfigMapReadiness(s: Spec, v: State, inp: Inputs)
    requires Reads(inp)
    ensures var v' := ConfigMap(s, v, inp, inp.fetch.commit, inp.render.content).1;
            && Cond(v'.st, Ready).Some?
            && (Holds(v'.st, Ready) <==> Succeeds(s, v, inp) && Holds(v.st, Fetched) && Holds(v.st, Rendered))
            && (Holds(v'.st, Ready) ==>
                  AllSix(v'.st) && v'.st.configVersion == Desired(s, inp) == v'.st.workloadVersion ==
                    StampOf(s, v'.workload))
  {
    hide AllResolved, VersionFor, RollsOut, AllSix, StampOf, Cond, Holds, Manifests, NotReady, O.Apply, O.Pruned,
      M.ApplyManifests;
    Closed(v.st, Degraded, inp.at);
    if Applies(s, v.objects, inp) && inp.pruneFate.Clean? {
      ManifestsReadiness(s, v.(objects := AfterConfigMap(s, v.objects, inp)), inp, inp.fetch.commit);
    }
  }

  /** Ready is True after a reconcile exactly when all its stages succeeded, whatever
      the status was before; every other exit leaves Ready False. */
  lemma ReadyExactly(s: Spec, v: State, inp: Inputs)
    ensures var v' := Sync(s, v, inp).1;
            && Cond(v'.st, Ready).Some? && (Holds(v'.st, Ready) <==> Succeeds(s, v, inp))
            && (Holds(v'.st, Ready) ==>
                  AllSix(v'.st) && v'.st.configVersion == Desired(s, inp) == v'.st.workloadVersion ==
                    StampOf(s, v'.workload))
  {
    hide Cond, Holds, ConfigMap, NotReady, Desired, AllSix, StampOf, Set, RollsOut, Pass;
    if Reads(inp) {
      var st0 := v.st.(sourceCommit := inp.fetch.commit);
      var st1 := Set(st0, Fetched, true, Synced, inp.at);
      SetsEarlier(st0, Fetched, true, Synced, inp.at);
      SetsEarlier(st1, Rendered, true, Synced, inp.at);
      ConfigMapReadiness(s, v.(st := Set(st1, Rendered, true, Synced, inp.at)), inp);
    } else {
      EarlyExit(s, v, inp);
    }
  }

  /** Before anything is applied, a failing reconcile only closes the status. */
  lemma EarlyExit(s: Spec, v: State, inp: Inputs)
    requires !Reads(inp)
    ensures var v' := Sync(s, v, inp).1;
            && v' == v.(st := v'.st) && v'.st.secrets == v.st.secrets && Cond(v'.st, Ready).Some? &&
                 !Holds(v'.st, Ready)
  {
    forall st: CsStatus, reason: Reason
      ensures Cond(NotReady(st, reason, inp.at), Ready).Some? && !Holds(NotReady(st, reason, inp.at), Ready)
      ensures NotReady(st, reason, inp.at).secrets == st.secrets
    {
      Closed(st, reason, inp.at);
    }
    hide NotReady, Cond, Holds;
  }

  /** Fresh readiness: if a reconcile ends Ready, so does the same reconcile started
      with no condition and no reference status at all, ending with all six
      sub-conditions True; so each of them is set True by this reconcile. */
  lemma FreshReadiness(s: Spec, v: State, inp: Inputs, blank: CsStatus)
    requires blank.conditions == map[] && blank.secrets == Empty() && Holds(Sync(s, v, inp).1.st, Ready)
    ensures var v' := Sync(s, v.(st := blank), inp).1;
            && Holds(v'.st, Ready) && AllSix(v'.st) && !AllSix(blank)
            && v'.st.configVersion == v'.st.workloadVersion == StampOf(s, v'.workload)
  {
    ReadyExactly(s, v, inp);
    ReadyExactly(s, v.(st := blank), inp);
    hide Sync, AllSix, StampOf, RollsOut, Advances;
    assert Succeeds(s, v.(st := blank), inp);
    BlankHoldsNothing(blank);
  }

  lemma BlankHoldsNothing(blank: CsStatus)
    requires blank.conditions == map[] && blank.secrets == Empty()
    ensures !AllSix(blank)
  {
  }
}

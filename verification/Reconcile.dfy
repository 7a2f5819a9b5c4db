/** internal/controller/configsync_controller.go: one reconcile of one ConfigSync as
    a step on its status, the objects it owns and its workload. What the outside
    world answers during the step is an `Inputs` value. */
module Reconcile {
  import opened Text
  import opened Status
  import O = Ownership
  import M = Manifests
  import S = Secrets
  import W = Wiring
  import P = ServerSideApply
  import V = Version

  // ------------------------------------------------------------------------- spec

  datatype Surface = File | Env | Unknown

  datatype Reference = Reference(
    name: string, secretName: string, surface: Surface,
    mountPath: string, envVar: string, key: string, rolloutOnRotate: bool)

  datatype Spec = Spec(
    owner: O.Owner, guard: M.Guard, kind: string, container: string, mountPath: string, configMap: string,
    rolloutNone: bool, refs: seq<Reference>, maxDegraded: int)

  /** `validateSurface`. */
  predicate ValidSurface(r: Reference) {
    match r.surface
    case File => r.mountPath != "" && r.envVar == "" && r.key == ""
    case Env => r.envVar != "" && r.key != "" && r.mountPath == ""
    case Unknown => false
  }

  /** `resolveOne`: an invalid surface is never resolved. */
  function ResolveOne(r: Reference, res: S.Resolution): S.Resolution {
    if ValidSurface(r) then res else S.Resolution(false, "", Given("InvalidSurface"))
  }

  function AnswerOf(r: Reference, res: S.Resolution): S.Answer {
    S.Answer(r.name, r.surface == Env, r.rolloutOnRotate, ResolveOne(r, res))
  }

  function Answers(refs: seq<Reference>, resolutions: nat -> S.Resolution): seq<S.Answer> {
    seq(|refs|, i requires 0 <= i < |refs| => AnswerOf(refs[i], resolutions(i)))
  }

  function FilesOf(refs: seq<Reference>): seq<W.SecretFile> {
    if refs == [] then []
    else
      var r := refs[|refs| - 1];
      FilesOf(refs[..|refs| - 1]) + if r.surface == File then [W.SecretFile(r.name, r.secretName, r.mountPath)] else []
  }

  function EnvsOf(refs: seq<Reference>): seq<W.SecretEnv> {
    if refs == [] then []
    else
      var r := refs[|refs| - 1];
      EnvsOf(refs[..|refs| - 1]) + if r.surface == Env then [W.SecretEnv(r.envVar, r.secretName, r.key)] else []
  }

  method SecretSurfaces(refs: seq<Reference>) returns (files: seq<W.SecretFile>, envs: seq<W.SecretEnv>)
    ensures files == FilesOf(refs) && envs == EnvsOf(refs)
  {
    files, envs := [], [];
    for i := 0 to |refs|
      invariant files == FilesOf(refs[..i]) && envs == EnvsOf(refs[..i])
    {
      var r := refs[i];
      assert refs[..i + 1][..i] == refs[..i];
      match r.surface {
        case File => files := files + [W.SecretFile(r.name, r.secretName, r.mountPath)];
        case Env => envs := envs + [W.SecretEnv(r.envVar, r.secretName, r.key)];
        case Unknown =>
      }
    }
    assert refs[..|refs|] == refs;
  }

  const DEFAULT_MOUNT_PATH := "/etc/kohen/config"

  function WireSpec(s: Spec, sha: string): W.Spec {
    W.Spec(s.kind, s.container, if s.mountPath == "" then DEFAULT_MOUNT_PATH else s.mountPath, s.configMap, sha,
           FilesOf(s.refs), EnvsOf(s.refs))
  }

  // ------------------------------------------------------------------------ state

  /** The ConfigSync's status; the SecretsReady condition lives in `secrets`. */
  datatype CsStatus = CsStatus(
    conditions: Conditions, secrets: S.Ledger, sourceCommit: string, configVersion: string,
    workloadVersion: string, rolloutInProgress: bool)

  /** The status, the owned objects, the workload and MaxDegradedExceededTotal. */
  datatype State = State(st: CsStatus, objects: O.Objects, workload: W.State, exceededTotal: nat)

  function Cond(st: CsStatus, k: Kind): Option<Condition> {
    if k == SecretsReady then st.secrets.cond
    else Find(st.conditions, k)
  }

  predicate Holds(st: CsStatus, k: Kind) {
    Cond(st, k).Some? && Cond(st, k).value.holds
  }

  datatype Fetch = Commit(commit: string) | NoCommit(reason: Reason)

  datatype Render = Content(content: string) | NoContent(reason: Reason)

  datatype Progress = Progress(complete: bool, reason: Reason)

  /** Everything a reconcile is told: `conflict` by singletonConflict, `inspectFails`
      and `strategyOk` by inspectWorkload, `now` and `at` by the clock. */
  datatype Inputs = Inputs(
    conflict: bool, credential: bool, fetch: Fetch, render: Render,
    applyApi: O.Api, pruneFate: O.Fate,
    load: Option<seq<M.Manifest>>, writes: M.Writes, fate0: O.Fate, fate1: O.Fate,
    resolutions: nat -> S.Resolution, hash: string -> string,
    inspectFails: bool, strategyOk: bool, wireApi: W.Api, stampReadFails: bool, stampApi: W.Api, progress: Progress,
    now: int, at: int)

  datatype Requeue = Steady | Soon | Backoff

  function Set(st: CsStatus, k: Kind, holds: bool, reason: Reason, at: int): CsStatus {
    st.(conditions := SetCondition(st.conditions, k, holds, reason, at))
  }

  function NotReady(st: CsStatus, reason: Reason, at: int): CsStatus {
    Set(st, Ready, false, reason, at)
  }

  // ----------------------------------------------------------------- wireAndStamp

  function WireReason(r: W.Reason): Reason {
    match r
    case WireFailed => Given("WireFailed")
    case WorkloadNotFound => Given("WorkloadNotFound")
    case ContainerNotFound => Given("ContainerNotFound")
    case ApplyConflict => Given("ApplyConflict")
  }

  /** `inspectWorkload`: why the workload cannot be wired, if it cannot. */
  function Inspect(s: Spec, w: W.State, inp: Inputs): Option<Reason> {
    if !W.Supported(s.kind) then Some(Given("UnsupportedStrategy"))
    else if inp.inspectFails then Some(Degraded)
    else if !w.present then Some(Given("WorkloadNotFound"))
    else if !s.rolloutNone && !inp.strategyOk then Some(Given("UnsupportedStrategy"))
    else None
  }

  function TemplateStamp(w: W.State): string {
    W.Read(w, P.TemplateAnnotation(W.CONFIG_SHA))
  }

  function ObjectStamp(w: W.State): string {
    W.Read(w, P.ObjectAnnotation(W.CONFIG_SHA))
  }

  /** Where the mode keeps its stamp. */
  function StampOf(s: Spec, w: W.State): string {
    if s.rolloutNone then ObjectStamp(w) else TemplateStamp(w)
  }

  function Unwired(st: CsStatus, reason: Reason, at: int): CsStatus {
    Set(st, WorkloadWired, false, reason, at).(rolloutInProgress := false)
  }

  function RolledOut(st: CsStatus, version: string, p: Progress, at: int): CsStatus {
    Set(st, RolloutComplete, p.complete, p.reason, at).(workloadVersion := version, rolloutInProgress := !p.complete)
  }

  /** The status when stamping the object failed. */
  function Unstamped(st: CsStatus, at: int): CsStatus {
    Set(st, RolloutComplete, false, Degraded, at).(rolloutInProgress := false)
  }

  function WireNone(s: Spec, v: State, inp: Inputs, version: string): (bool, State) {
    var (a, w) := W.Wire(v.workload, WireSpec(s, ""), inp.wireApi);
    if a.Error? then (false, v.(st := Unwired(v.st, WireReason(a.reason), inp.at), workload := w))
    else
      var st := Set(v.st, WorkloadWired, true, Synced, inp.at);
      if inp.stampReadFails then (false, v.(st := Unstamped(st, inp.at), workload := w))
      else
        var (b, w') := if ObjectStamp(w) == version then (W.Ok, w) else W.Stamp(w, s.kind, version, inp.stampApi);
        if b.Error? then (false, v.(st := Unstamped(st, inp.at), workload := w'))
        else (true, v.(st := RolledOut(st, version, Progress(true, Synced), inp.at), workload := w'))
  }

  function WireAuto(s: Spec, v: State, inp: Inputs, version: string): (bool, State) {
    var (a, w) := if TemplateStamp(v.workload) == version then (W.Ok, v.workload)
                  else W.Wire(v.workload, WireSpec(s, version), inp.wireApi);
    if a.Error? then (false, v.(st := Unwired(v.st, WireReason(a.reason), inp.at), workload := w))
    else
      var st := Set(v.st, WorkloadWired, true, Synced, inp.at);
      (inp.progress.complete, v.(st := RolledOut(st, version, inp.progress, inp.at), workload := w))
  }

  function WireAndStamp(s: Spec, v: State, inp: Inputs, version: string): (bool, State) {
    var bad := Inspect(s, v.workload, inp);
    if bad.Some? then (false, v.(st := Unwired(v.st, bad.value, inp.at)))
    else if s.rolloutNone then WireNone(s, v, inp, version)
    else WireAuto(s, v, inp, version)
  }

  // ------------------------------------------------------------------------- sync

  /** The sub-conditions `computeReady` asks for, in its order. */
  const GATES := [Fetched, Rendered, ManifestsApplied, SecretsReady, WorkloadWired]

  function ComputeReady(st: CsStatus, at: int): CsStatus {
    if exists k :: k in GATES && !Holds(st, k) then NotReady(st, Degraded, at)
    else if !Holds(st, RolloutComplete) then
      var c := Cond(st, RolloutComplete);
      NotReady(st, if c.Some? && c.value.reason == ProgressDeadlineExceeded then Degraded else Progressing, at)
    else Set(st, Ready, true, Synced, at)
  }

  /** From the version to the end of `sync`. */
  function Finish(s: Spec, v: State, inp: Inputs, commit: string, tokens: seq<string>): (Requeue, State) {
    var version := V.VersionOf(commit, tokens, inp.hash);
    var (complete, v1) := WireAndStamp(s, v.(st := v.st.(configVersion := version)), inp, version);
    var wired := Holds(v1.st, WorkloadWired);
    var st := if wired then v1.st.(secrets := S.MarkEstablished(v1.st.secrets)) else v1.st;
    (if !complete && wired then Soon else Steady, v1.(st := ComputeReady(st, inp.at)))
  }

  /** The secrets gate. */
  function Gate(s: Spec, v: State, inp: Inputs, commit: string): (Requeue, State) {
    var answers := Answers(s.refs, inp.resolutions);
    var d := S.Resolve(v.st.secrets, answers, s.maxDegraded, inp.now);
    var prior := v.st.secrets.cond;
    var st := v.st.(secrets := S.Resolved(v.st.secrets, answers, s.maxDegraded, inp.now, inp.at));
    if !d.allReady then
      var entered := d.maxDegradedExceeded && (prior.None? || prior.value.reason != MaxDegradedExceeded);
      (Soon, v.(st := NotReady(st.(rolloutInProgress := false), d.readyReason, inp.at),
                exceededTotal := v.exceededTotal + if entered then 1 else 0))
    else Finish(s, v.(st := st), inp, commit, d.envTokens)
  }

  function ManifestReason(r: M.Verdict): Reason {
    match r
    case AllApplied => Synced
    case LoadFailed => ManifestInvalid
    case Rejected(x) =>
      (match x
       case KindNotAllowed => Given("ManifestKindNotAllowed")
       case NamespaceViolation => Given("ManifestNamespaceViolation")
       case StoreNotAllowed => Given("StoreNotAllowed")
       case NameMissing => ManifestInvalid)
    case Refused => ManifestApplyFailed
    case ApplyFailed => ManifestApplyFailed
    case PruneFailed => ManifestApplyFailed
  }

  function Manifests(s: Spec, v: State, inp: Inputs, commit: string): (Requeue, State) {
    var (r, objs) := M.ApplyManifests(v.objects, s.owner, s.guard, inp.load, inp.writes, [inp.fate0, inp.fate1]);
    var st := Set(v.st, ManifestsApplied, r.AllApplied?, ManifestReason(r), inp.at);
    if r.AllApplied? then Gate(s, v.(st := st, objects := objs), inp, commit)
    else (if M.Terminal(r) then Steady else Backoff, v.(st := NotReady(st, Degraded, inp.at), objects := objs))
  }

  function ConfigMapId(s: Spec): O.Id {
    O.Id(O.ConfigMaps, s.configMap)
  }

  /** Apply the ConfigMap, then prune the sync's other ones. */
  function ConfigMap(s: Spec, v: State, inp: Inputs, commit: string, content: string): (Requeue, State) {
    var (r, objs) := O.Apply(v.objects, s.owner, ConfigMapId(s), content, inp.applyApi);
    if r != O.Done then
      (if r == O.NotOwned then Steady else Backoff, v.(st := NotReady(v.st, Degraded, inp.at), objects := objs))
    else
      var objs' := O.Pruned(objs, s.owner.name, O.ConfigMaps, [s.configMap], inp.pruneFate);
      if !inp.pruneFate.Clean? then (Backoff, v.(st := NotReady(v.st, Degraded, inp.at), objects := objs'))
      else Manifests(s, v.(objects := objs'), inp, commit)
  }

  function Sync(s: Spec, v: State, inp: Inputs): (Requeue, State) {
    if inp.conflict then
      (Steady, v.(st := NotReady(Set(v.st, WorkloadWired, false, SingletonViolation, inp.at), Degraded, inp.at)))
    else if !inp.credential then
      (Backoff, v.(st := NotReady(Set(v.st, Fetched, false, AuthFailed, inp.at), Degraded, inp.at)))
    else
      match inp.fetch
      case NoCommit(r) => (Backoff, v.(st := NotReady(Set(v.st, Fetched, false, r, inp.at), Degraded, inp.at)))
      case Commit(commit) =>
        var st := Set(v.st.(sourceCommit := commit), Fetched, true, Synced, inp.at);
        match inp.render
        case NoContent(r) => (Steady, v.(st := NotReady(Set(st, Rendered, false, r, inp.at), Degraded, inp.at)))
        case Content(content) =>
          ConfigMap(s, v.(st := Set(st, Rendered, true, Synced, inp.at)), inp, commit, content)
  }

  // --------------------------------------------------------------------- finalize

  datatype FinalInputs = FinalInputs(
    conflict: bool, unwireApi: W.Api, clearApi: W.Api, pruneFate: O.Fate, served: set<string>,
    fate0: O.Fate, fate1: O.Fate)

  /** Unwire and clear the stamp unless a rival owns the workload; then prune. */
  function Finalize(s: Spec, v: State, f: FinalInputs): (bool, State) {
    var (a, w) := if f.conflict then (W.Ok, v.workload) else W.Retract(v.workload, s.kind, P.Kohen, f.unwireApi);
    if a.Error? then (false, v.(workload := w))
    else
      var (b, w') := if f.conflict then (W.Ok, w) else W.Retract(w, s.kind, P.KohenStamp, f.clearApi);
      if b.Error? then (false, v.(workload := w'))
      else
        var objs := O.Pruned(v.objects, s.owner.name, O.ConfigMaps, [], f.pruneFate);
        if !f.pruneFate.Clean? then (false, v.(workload := w', objects := objs))
        else
          var (ok, objs') := M.PruneAll(objs, s.owner, [], f.served, [f.fate0, f.fate1]);
          (ok, v.(workload := w', objects := objs'))
  }

  // ------------------------------------------------------------------------- runs

  /** What happens to one ConfigSync. Each reconcile and finalize sees the spec of its
      day; `saved` is whether the status update at the end of Reconcile succeeded.
      `Outside` is whatever others do to the cluster, which covers a spec edit that
      chooses another workload. */
  datatype Event =
    | Reconciled(spec: Spec, inp: Inputs, saved: bool)
    | Finalized(spec: Spec, f: FinalInputs)
    | Outside(objects: O.Objects, workload: W.State)

  function Step(v: State, e: Event): State {
    match e
    case Reconciled(s, inp, saved) => var v' := Sync(s, v, inp).1; if saved then v' else v'.(st := v.st)
    case Finalized(s, f) => Finalize(s, v, f).1
    case Outside(objects, workload) => v.(objects := objects, workload := workload)
  }

  function Run(v: State, es: seq<Event>): State {
    if es == [] then v else Step(Run(v, es[..|es| - 1]), es[|es| - 1])
  }
}

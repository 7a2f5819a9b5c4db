/** What one reconcile changes outside the conditions, told from its inputs and the
    state of the world. */
module ReconcileEffects {
  import opened Text
  import opened Status
  import opened Reconcile
  import opened ReconcileTheorems
  import O = Ownership
  import M = Manifests
  import S = Secrets
  import R = SecretRuns
  import W = Wiring
  import V = Version
  import P = ServerSideApply

  /** The workload after wiring and stamping `version`. */
  function Rewired(s: Spec, w: W.State, inp: Inputs, version: string): W.State {
    if Inspect(s, w, inp).Some? then w
    else if s.rolloutNone then
      var (a, w') := W.Wire(w, WireSpec(s, ""), inp.wireApi);
      if a.Error? || inp.stampReadFails || ObjectStamp(w') == version then w'
        else W.Stamp(w', s.kind, version, inp.stampApi).1
    else if TemplateStamp(w) == version then w else W.Wire(w, WireSpec(s, version), inp.wireApi).1
  }

  lemma WireAndStampExactly(s: Spec, v: State, inp: Inputs, version: string)
    ensures WireAndStamp(s, v, inp, version).1.workload == Rewired(s, v.workload, inp, version)
  {
    hide W.Wire, W.Stamp, W.Read, WireSpec, Set, Unwired, Unstamped, RolledOut;
  }

  lemma GateEffects(s: Spec, v: State, inp: Inputs, commit: string)
    ensures var v' := Gate(s, v, inp, commit).1;
            && v'.objects == v.objects
            && v'.workload == (if AllResolved(s, inp) then Rewired(s, v.workload, inp, VersionFor(s, inp, commit))
                 else v.workload)
            && v'.st.secrets == R.Step(v.st.secrets, SecretEvent(s, v.workload, inp, commit))
            && v'.exceededTotal == v.exceededTotal + Entered(s, v.st.secrets, inp)
            && (AllResolved(s, inp) ==>
                 Holds(v'.st, WorkloadWired) == Wires(s, v.workload, inp, VersionFor(s, inp, commit)))
  {
    GateOpens(s, v.st.secrets, inp, commit);
    var d := S.Resolve(v.st.secrets, Answers(s.refs, inp.resolutions), s.maxDegraded, inp.now);
    var st := ResolvedStatus(s, v.st, inp);
    ExceededNotReady(s, v.st.secrets, inp);
    hide AllResolved, VersionFor, Cond, Holds, S.Resolve, S.Resolved, S.MarkEstablished, Finish, WireAndStamp, Rewired,
      Wires, RollsOut, V.VersionOf, NotReady;
    if d.allReady {
      FinishEffects(s, v.(st := st), inp, commit, d.envTokens);
      WireAndStampExactly(s, v.(st := st.(configVersion := V.VersionOf(commit, d.envTokens, inp.hash))), inp,
        V.VersionOf(commit, d.envTokens, inp.hash));
    } else {
      ClosedKeeps(st.(rolloutInProgress := false), d.readyReason, inp.at);
    }
  }

  lemma ClosedKeeps(st: CsStatus, reason: Reason, at: int)
    ensures NotReady(st, reason, at).secrets == st.secrets
  {
  }

  /** 1 when this reconcile enters the exceeded state, as the metric counts it. */
  function Entered(s: Spec, l: S.Ledger, inp: Inputs): nat {
    var d := S.Resolve(l, Answers(s.refs, inp.resolutions), s.maxDegraded, inp.now);
    if d.maxDegradedExceeded && (l.cond.None? || l.cond.value.reason != MaxDegradedExceeded) then 1 else 0
  }

  lemma ExceededNotReady(s: Spec, l: S.Ledger, inp: Inputs)
    ensures var d := S.Resolve(l, Answers(s.refs, inp.resolutions), s.maxDegraded, inp.now);
            d.allReady ==> !d.maxDegradedExceeded
  {
  }

  /** What a reconcile does to the objects it owns. */
  function ObjectsAfter(s: Spec, objs: O.Objects, inp: Inputs): O.Objects {
    if !Applies(s, objs, inp) then objs
    else if !inp.pruneFate.Clean? then AfterConfigMap(s, objs, inp)
    else Pass(s, objs, inp).1
  }

  /** A reconcile's whole effect outside the conditions. */
  ghost predicate Effects(s: Spec, v: State, inp: Inputs, v': State) {
    && v'.objects == ObjectsAfter(s, v.objects, inp)
    && v'.workload == (if Advances(s, v.objects, inp) then Rewired(s, v.workload, inp, Desired(s, inp)) else v.workload)
    && v'.st.secrets == (if Prepared(s, v.objects, inp)
                         then R.Step(v.st.secrets, SecretEvent(s, v.workload, inp, inp.fetch.commit))
                         else v.st.secrets)
    && v'.exceededTotal == v.exceededTotal + (if Prepared(s, v.objects, inp) then Entered(s, v.st.secrets, inp) else 0)
    && (Advances(s, v.objects, inp) ==> Holds(v'.st, WorkloadWired) == Wires(s, v.workload, inp, Desired(s, inp)))
  }

  lemma ManifestsEffects(s: Spec, v: State, inp: Inputs, commit: string)
    ensures var (r, objs) := M.ApplyManifests(v.objects, s.owner, s.guard, inp.load, inp.writes,
            [inp.fate0, inp.fate1]);
            var v' := Manifests(s, v, inp, commit).1;
            && v'.objects == objs
            && v'.workload == (if r == M.AllApplied && AllResolved(s, inp)
                 then Rewired(s, v.workload, inp, VersionFor(s, inp, commit)) else v.workload)
            && v'.st.secrets == (if r == M.AllApplied
                 then R.Step(v.st.secrets, SecretEvent(s, v.workload, inp, commit)) else v.st.secrets)
            && v'.exceededTotal == v.exceededTotal + (if r == M.AllApplied then Entered(s, v.st.secrets, inp) else 0)
            && (r == M.AllApplied && AllResolved(s, inp) ==>
                  Holds(v'.st, WorkloadWired) == Wires(s, v.workload, inp, VersionFor(s, inp, commit)))
  {
    hide AllResolved, VersionFor, Rewired, Wires, Holds, Entered, Set, NotReady, M.ApplyManifests, R.Step, SecretEvent,
      Gate;
    var (r, objs) := M.ApplyManifests(v.objects, s.owner, s.guard, inp.load, inp.writes, [inp.fate0, inp.fate1]);
    var st := Set(v.st, ManifestsApplied, r.AllApplied?, ManifestReason(r), inp.at);
    SetsEarlier(v.st, ManifestsApplied, r.AllApplied?, ManifestReason(r), inp.at);
    GateEffects(s, v.(st := st, objects := objs), inp, commit);
    ClosedKeeps(st, Degraded, inp.at);
  }

  lemma ConfigMapEffects(s: Spec, v: State, inp: Inputs)
    requires Reads(inp)
    ensures Effects(s, v, inp, ConfigMap(s, v, inp, inp.fetch.commit, inp.render.content).1)
  {
    hide AllResolved, VersionFor, Rewired, Wires, Holds, Entered, NotReady, O.Pruned, M.ApplyManifests, R.Step,
      SecretEvent, Manifests;
    ClosedKeeps(v.st, Degraded, inp.at);
    if Applies(s, v.objects, inp) && inp.pruneFate.Clean? {
      ManifestsEffects(s, v.(objects := AfterConfigMap(s, v.objects, inp)), inp, inp.fetch.commit);
    }
  }

  lemma SyncEffects(s: Spec, v: State, inp: Inputs)
    ensures Effects(s, v, inp, Sync(s, v, inp).1)
  {
    if Reads(inp) {
      hide ConfigMap, Wires, Holds, Set, ObjectsAfter, Advances, Prepared, R.Step, SecretEvent, Rewired, Entered;
      var st0 := v.st.(sourceCommit := inp.fetch.commit);
      var st1 := Set(st0, Fetched, true, Synced, inp.at);
      SetsEarlier(st0, Fetched, true, Synced, inp.at);
      SetsEarlier(st1, Rendered, true, Synced, inp.at);
      ConfigMapEffects(s, v.(st := Set(st1, Rendered, true, Synced, inp.at)), inp);
    } else {
      EarlyExit(s, v, inp);
      hide Sync, Wires, Holds, R.Step, SecretEvent, Rewired, Entered;
    }
  }

  // -------------------------------------------------------------------- requeueing

  lemma FinishRequeues(s: Spec, v: State, inp: Inputs, commit: string, tokens: seq<string>)
    ensures var version := V.VersionOf(commit, tokens, inp.hash);
            Finish(s, v, inp, commit, tokens).0 ==
            if Wires(s, v.workload, inp, version) && !RollsOut(s, v.workload, inp, version) then Soon else Steady
  {
    var version := V.VersionOf(commit, tokens, inp.hash);
    assert version != "";
    hide WireAndStamp, ComputeReady, Wires, RollsOut, StampOf, V.VersionOf, Holds, S.MarkEstablished, Cond, SameEarlier;
    WireOutcome(s, v.(st := v.st.(configVersion := version)), inp, version);
  }

  lemma GateRequeues(s: Spec, v: State, inp: Inputs, commit: string)
    ensures Gate(s, v, inp, commit).0 == if Unfinished(s, v.workload, inp, commit) then Soon else Steady
  {
    GateOpens(s, v.st.secrets, inp, commit);
    hide AllResolved, VersionFor, S.Resolve, S.Resolved, Finish, Wires, RollsOut, V.VersionOf, NotReady;
    var d := S.Resolve(v.st.secrets, Answers(s.refs, inp.resolutions), s.maxDegraded, inp.now);
    if d.allReady { FinishRequeues(s, v.(st := ResolvedStatus(s, v.st, inp)), inp, commit, d.envTokens); }
  }

  /** Past the manifests, something is still awaited: a secret or the rollout. */
  predicate Unfinished(s: Spec, w: W.State, inp: Inputs, commit: string) {
    var version := VersionFor(s, inp, commit);
    !AllResolved(s, inp) || (Wires(s, w, inp, version) && !RollsOut(s, w, inp, version))
  }

  /** A failure the user need not act on. */
  predicate Transient(s: Spec, objs: O.Objects, inp: Inputs) {
    && !inp.conflict
    && (|| !inp.credential || inp.fetch.NoCommit?
        || (Reads(inp) && O.Apply(objs, s.owner, ConfigMapId(s), inp.render.content, inp.applyApi).0 == O.Failed)
        || (Applies(s, objs, inp) && !inp.pruneFate.Clean?)
        || (Applies(s, objs, inp) && Pass(s, objs, inp).0 in {M.ApplyFailed, M.PruneFailed}))
  }

  lemma ConfigMapRequeues(s: Spec, v: State, inp: Inputs)
    requires Reads(inp)
    ensures ConfigMap(s, v, inp, inp.fetch.commit, inp.render.content).0 ==
            if Transient(s, v.objects, inp) then Backoff
            else if Prepared(s, v.objects, inp) && Unfinished(s, v.workload, inp, inp.fetch.commit) then Soon
              else Steady
  {
    hide Unfinished, O.Apply, O.Pruned, M.ApplyManifests, Gate, NotReady, Set;
    if Applies(s, v.objects, inp) && inp.pruneFate.Clean? {
      var (r, objs) := Pass(s, v.objects, inp);
      var st := Set(v.st, ManifestsApplied, r.AllApplied?, ManifestReason(r), inp.at);
      GateRequeues(s, v.(st := st, objects := objs), inp, inp.fetch.commit);
    }
  }

  /** A reconcile backs off exactly on transient failures, comes back soon exactly
      while a secret or the rollout is awaited, and is otherwise steady: conflicts,
      refused objects, bad trees and bad manifests wait for the user. */
  lemma SyncRequeues(s: Spec, v: State, inp: Inputs)
    ensures Sync(s, v, inp).0 ==
            if Transient(s, v.objects, inp) then Backoff
            else if Prepared(s, v.objects, inp) && Unfinished(s, v.workload, inp, inp.fetch.commit) then Soon
              else Steady
  {
    hide Unfinished, O.Apply, ConfigMap, Pass, Set, NotReady;
    if Reads(inp) {
      var st := Set(Set(v.st.(sourceCommit := inp.fetch.commit), Fetched, true, Synced, inp.at), Rendered, true,
        Synced, inp.at);
      ConfigMapRequeues(s, v.(st := st), inp);
    }
  }

  // --------------------------------------------------------------------- last good

  /** The ConfigMap the spec names is the owner's and holds `content`. */
  ghost predicate Filled(s: Spec, objs: O.Objects, content: string) {
    var id := O.Id(O.ConfigMaps, s.configMap);
    id in objs && O.Bears(objs[id], s.owner, content)
  }

  lemma ConfigMapAfter(s: Spec, objs: O.Objects, inp: Inputs)
    ensures if Applies(s, objs, inp) then Filled(s, ObjectsAfter(s, objs, inp), inp.render.content)
            else ObjectsAfter(s, objs, inp) == objs
  {
    if Applies(s, objs, inp) {
      var o := AfterConfigMap(s, objs, inp);
      O.AppliedExactly(objs, s.owner, ConfigMapId(s), inp.render.content, inp.applyApi);
      assert s.configMap in [s.configMap];
      assert ConfigMapId(s) in o && O.Bears(o[ConfigMapId(s)], s.owner, inp.render.content);
      if inp.pruneFate.Clean? {
        M.PassKeepsOthers(o, s.owner, s.guard, inp.load, inp.writes, [inp.fate0, inp.fate1], ConfigMapId(s));
      }
    }
    hide M.ApplyManifests;
  }

  lemma UnwiredIsUnchanged(s: Spec, w: W.State, inp: Inputs, version: string)
    requires !Wires(s, w, inp, version)
    ensures Rewired(s, w, inp, version) == w
  {
  }

  /** Last-good gating of one reconcile, from any state: failing to fetch or render
      changes nothing Kohen owns; the workload changes only if fetch, render, ConfigMap
      apply and prune, manifests and every secret succeeded, and then the ConfigMap
      already holds what the same commit rendered. */
  lemma LastGood(s: Spec, v: State, inp: Inputs)
    ensures var v' := Sync(s, v, inp).1;
            && (!Reads(inp) ==> v'.objects == v.objects && v'.workload == v.workload)
            && (v'.workload != v.workload ==>
                  && Advances(s, v.objects, inp) && Wires(s, v.workload, inp, Desired(s, inp))
                  && Filled(s, v'.objects, inp.render.content))
  {
    SyncEffects(s, v, inp);
    ConfigMapAfter(s, v.objects, inp);
    if Advances(s, v.objects, inp) && !Wires(s, v.workload, inp, Desired(s, inp)) {
      UnwiredIsUnchanged(s, v.workload, inp, Desired(s, inp));
    }
    hide Sync, Rewired, Wires, AfterConfigMap, Pass, R.Step, SecretEvent, Entered, AllResolved, Desired;
  }

  /** After the ConfigMap was applied and the others pruned, the one the spec names is the
      only ConfigMap labelled for the sync. */
  lemma OneConfigMapLeft(s: Spec, objs: O.Objects, inp: Inputs, id: O.Id)
    requires Applies(s, objs, inp) && inp.pruneFate.Clean? && id.kind == O.ConfigMaps
    ensures var o := ObjectsAfter(s, objs, inp);
            id in o && o[id].managedBy == "kohen" && o[id].owner == s.owner.name ==> id.name == s.configMap
  {
    var o := O.Apply(objs, s.owner, ConfigMapId(s), inp.render.content, inp.applyApi).1;
    O.PrunedExactly(o, s.owner.name, O.ConfigMaps, [s.configMap], id);
    M.PassKeepsOthers(AfterConfigMap(s, objs, inp), s.owner, s.guard, inp.load, inp.writes, [inp.fate0, inp.fate1], id);
    hide M.ApplyManifests, O.Apply, O.Pruned;
  }

  /** Whatever happens in a reconcile, an object not labelled for the sync stays as it is. */
  lemma OthersKept(s: Spec, v: State, inp: Inputs, id: O.Id)
    requires id in v.objects && !(v.objects[id].managedBy == "kohen" && v.objects[id].owner == s.owner.name)
    ensures var o := Sync(s, v, inp).1.objects; id in o && o[id] == v.objects[id]
  {
    SyncEffects(s, v, inp);
    if Applies(s, v.objects, inp) {
      O.AppliedExactly(v.objects, s.owner, ConfigMapId(s), inp.render.content, inp.applyApi);
      var o := AfterConfigMap(s, v.objects, inp);
      assert id in o && o[id] == v.objects[id];
      M.PassKeepsOthers(o, s.owner, s.guard, inp.load, inp.writes, [inp.fate0, inp.fate1], id);
    }
    hide Sync, M.ApplyManifests, O.Apply, O.Pruned, R.Step, SecretEvent, Rewired, Entered, Wires, AllResolved, Desired;
  }

  // ------------------------------------------------------------------------ finalize

  predicate ServesPruned(f: FinalInputs) {
    M.PRUNE_VERSIONS[0] in f.served || M.PRUNE_VERSIONS[1] in f.served
  }

  /** A finalize that runs through leaves the workload exactly as the other managers
      own it, and deletes every ConfigMap, and ExternalSecret of a served version,
      labelled for the sync; a singleton loser leaves the workload alone. */
  lemma FinalizeExactly(s: Spec, v: State, f: FinalInputs)
    requires Finalize(s, v, f).0 && P.AllOwned(v.workload.fields) && v.workload.present
    ensures var v' := Finalize(s, v, f).1;
            && v'.workload == (if f.conflict then v.workload else v.workload.(fields := P.Foreign(v.workload.fields)))
            && (forall id :: !O.Selected(v'.objects, s.owner.name, O.ConfigMaps, id))
            && (ServesPruned(f) ==> forall id :: !O.Selected(v'.objects, s.owner.name, O.ExternalSecrets, id))
  {
    FinalizeObjects(s, v, f);
    if !f.conflict {
      P.RetractedIsForeign(v.workload.fields);
      FinalizeWorkload(s, v, f);
    }
    hide P.Merge, P.Foreign, M.PruneAll, O.Pruned;
  }

  lemma FinalizeWorkload(s: Spec, v: State, f: FinalInputs)
    requires Finalize(s, v, f).0 && v.workload.present && !f.conflict
    ensures Finalize(s, v, f).1.workload == v.workload.(fields := P.Retracted(v.workload.fields))
  {
    hide P.Merge, P.Clashes, M.PruneAll, O.Pruned;
  }

  lemma FinalizeObjects(s: Spec, v: State, f: FinalInputs)
    requires Finalize(s, v, f).0
    ensures forall id :: !O.Selected(Finalize(s, v, f).1.objects, s.owner.name, O.ConfigMaps, id)
    ensures forall id :: id in v.objects && !O.Labelled(v.objects[id], s.owner.name) ==>
              M.At(Finalize(s, v, f).1.objects, id) == Some(v.objects[id])
    ensures ServesPruned(f) ==>
              forall id :: !O.Selected(Finalize(s, v, f).1.objects, s.owner.name, O.ExternalSecrets, id)
  {
    var objs := O.Pruned(v.objects, s.owner.name, O.ConfigMaps, [], f.pruneFate);
    forall id: O.Id | id.kind == O.ConfigMaps || (id in objs && !O.Labelled(objs[id], s.owner.name))
      ensures M.At(Finalize(s, v, f).1.objects, id) == M.At(objs, id)
    {
      M.PruneAllKeeps(objs, s.owner, [], f.served, [f.fate0, f.fate1], id);
      hide W.Retract, O.Pruned;
    }
    assert forall id :: O.Selected(v.objects, s.owner.name, O.ConfigMaps, id) ==>
      id in O.Doomed(v.objects, s.owner.name, O.ConfigMaps, []);
    M.PruneAllDone(objs, s.owner, [], M.Writes(i => O.Up, f.served), [f.fate0, f.fate1]);
    hide Finalize, M.PruneAll;
    assert forall id :: O.Selected(objs, s.owner.name, O.ExternalSecrets, id) ==>
      id in O.Doomed(objs, s.owner.name, O.ExternalSecrets, []);
  }

  /** Which calls a finalize needs to run through; an absent workload is no obstacle. */
  lemma FinalizeSucceedsExactly(s: Spec, v: State, f: FinalInputs)
    ensures Finalize(s, v, f).0 <==>
            && (f.conflict || (s.kind in {"Deployment", "StatefulSet"} && f.unwireApi != W.ReadFails &&
                               f.clearApi != W.ReadFails &&
                               (v.workload.present ==> f.unwireApi == W.Up && f.clearApi == W.Up)))
            && f.pruneFate.Clean?
            && ("v1" in f.served ==> f.fate0.Clean?) && ("v1beta1" in f.served ==> f.fate1.Clean?)
  {
    var w := if f.conflict then v.workload else W.Retract(v.workload, s.kind, P.Kohen, f.unwireApi).1;
    W.RetractExactly(v.workload, s.kind, P.Kohen, f.unwireApi);
    W.RetractExactly(w, s.kind, P.KohenStamp, f.clearApi);
    assert w.present == v.workload.present by { hide P.Apply; }
    M.PruneAllFails(O.Pruned(v.objects, s.owner.name, O.ConfigMaps, [], f.pruneFate), s.owner, [], f.served,
      [f.fate0, f.fate1]);
    hide W.Retract, M.PruneAll, O.Pruned;
  }

  // --------------------------------------------------------- references in service

  lemma {:induction false} Surfaced(refs: seq<Reference>, i: nat)
    requires i < |refs|
    ensures var r := refs[i];
            && (r.surface == File ==> W.SecretFile(r.name, r.secretName, r.mountPath) in FilesOf(refs))
            && (r.surface == Env ==> W.SecretEnv(r.envVar, r.secretName, r.key) in EnvsOf(refs))
  {
    if i < |refs| - 1 { Surfaced(refs[..|refs| - 1], i); }
  }

  /** Nothing is surfaced that no reference asks for. */
  lemma {:induction false} SurfacedOnly(refs: seq<Reference>)
    ensures forall x :: x in FilesOf(refs) ==>
              exists r :: r in refs && r.surface == File && x == W.SecretFile(r.name, r.secretName, r.mountPath)
    ensures forall x :: x in EnvsOf(refs) ==>
              exists r :: r in refs && r.surface == Env && x == W.SecretEnv(r.envVar, r.secretName, r.key)
  {
    if refs != [] {
      var n := |refs| - 1;
      SurfacedOnly(refs[..n]);
      assert refs[n] in refs && forall r :: r in refs[..n] ==> r in refs;
    }
  }

  /** The workload mounts, or reads from its environment, what reference `r` asks for. */
  ghost predicate Serves(w: W.State, c: string, r: Reference) {
    match r.surface
    case File =>
      && W.Read(w, P.VolumeSecret(W.SecretVolumeName(r.name))) == r.secretName
      && W.Read(w, P.MountVolume(c, r.mountPath)) == W.SecretVolumeName(r.name)
      && P.MountReadOnly(c, r.mountPath) in w.fields
    case Env =>
      && W.Read(w, P.EnvSecretName(c, r.envVar)) == r.secretName
      && W.Read(w, P.EnvSecretKey(c, r.envVar)) == r.key
    case Unknown => false
  }

  /** Kohen owns exactly what it would wire with template stamp `sha`, at those values. */
  ghost predicate Carries(s: Spec, w: W.State, sha: string) {
    && W.Target(w.containers, s.container).Some?
    && var f := W.Fields(WireSpec(s, sha), W.Target(w.containers, s.container).value);
       P.OwnedBy(w.fields, P.Kohen) == f.Keys && forall p :: p in f ==> w.fields[p].value == f[p]
  }

  lemma WiringCarries(s: Spec, w: W.State, sha: string, api: W.Api)
    requires W.Wire(w, WireSpec(s, sha), api).0 == W.Ok
    ensures Carries(s, W.Wire(w, WireSpec(s, sha), api).1, sha)
  {
    W.WiredMeansOwned(w, WireSpec(s, sha), api);
    hide W.Fields, W.Wire;
  }

  /** Once all references resolved, a workload that carries Kohen's fields serves every
      one of them: an unknown surface never gets that far, and no reference displaces
      another. */
  lemma CarriedServesEveryReference(s: Spec, w: W.State, inp: Inputs, sha: string, i: nat)
    requires AllResolved(s, inp) && W.UniqueKeys(WireSpec(s, sha)) && i < |s.refs| && Carries(s, w, sha)
    ensures Serves(w, W.Target(w.containers, s.container).value, s.refs[i])
  {
    var ws, c := WireSpec(s, sha), W.Target(w.containers, s.container).value;
    OwnedIsThere(w.fields, W.Fields(ws, c));
    W.EverySurfaceIsWired(ws, c);
    Surfaced(s.refs, i);
    assert ResolveOne(s.refs[i], inp.resolutions(i)).ready;
    hide W.Fields, W.UniqueKeys, W.FileWired, W.EnvWired, Serves, W.Target, FilesOf, EnvsOf;
    ServedBy(w, c, W.Fields(ws, c), s.refs[i]);
  }

  /** The workload mounts the ConfigMap where asked. */
  ghost predicate ServesConfig(s: Spec, w: W.State, c: string) {
    var path := if s.mountPath == "" then "/etc/kohen/config" else s.mountPath;
    W.Read(w, P.VolumeConfigMap("kohen-config")) == s.configMap && W.Read(w, P.MountVolume(c, path)) == "kohen-config"
  }

  lemma CarriedServesConfig(s: Spec, w: W.State, sha: string)
    requires W.UniqueKeys(WireSpec(s, sha)) && Carries(s, w, sha)
    ensures ServesConfig(s, w, W.Target(w.containers, s.container).value)
  {
    var ws, c := WireSpec(s, sha), W.Target(w.containers, s.container).value;
    OwnedIsThere(w.fields, W.Fields(ws, c));
    W.EverySurfaceIsWired(ws, c);
    assert ws.mountPath == WireSpec(s, "").mountPath;
    hide W.Fields, W.UniqueKeys, W.FileWired, W.EnvWired, W.Target, FilesOf, EnvsOf;
  }

  lemma ServedBy(w: W.State, c: string, f: P.Config, r: Reference)
    requires forall p :: p in f ==> p in w.fields && w.fields[p].value == f[p]
    requires match r.surface
             case File => W.FileWired(f, c, W.SecretFile(r.name, r.secretName, r.mountPath))
             case Env => W.EnvWired(f, c, W.SecretEnv(r.envVar, r.secretName, r.key))
             case Unknown => false
    ensures Serves(w, c, r)
  {
  }

  lemma OwnedIsThere(o: P.Object, f: P.Config)
    requires P.OwnedBy(o, P.Kohen) == f.Keys
    ensures forall p :: p in f ==> p in o
  {
    assert forall p :: p in f ==> p in P.OwnedBy(o, P.Kohen);
  }
}

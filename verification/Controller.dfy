/** The reconciler as internal/controller/configsync_controller.go writes it: methods
    that change a ConfigSync's status and the cluster step by step, each tied to the
    function of the same name in module Reconcile. */
module Controller {
  import opened Text
  import opened Status
  import opened Reconcile
  import O = Ownership
  import M = Manifests
  import S = Secrets
  import W = Wiring
  import P = ServerSideApply
  import V = Version

  class Reconciler {
    const spec: Spec
    const cluster: O.Cluster
    const workload: W.Workload
    const secrets: S.SecretStatus
    var conditions: Conditions
    var sourceCommit: string
    var configVersion: string
    var workloadVersion: string
    var rolloutInProgress: bool
    var exceededTotal: nat

    /** A new ConfigSync: no condition, no reference status, nothing counted. */
    constructor (spec: Spec, cluster: O.Cluster, workload: W.Workload, secrets: S.SecretStatus)
      requires secrets.View() == S.Ledger([], None)
      ensures this.spec == spec && this.cluster == cluster && this.workload == workload && this.secrets == secrets
      ensures StatusView() == CsStatus(map[], S.Ledger([], None), "", "", "", false) && exceededTotal == 0
    {
      this.spec, this.cluster, this.workload, this.secrets := spec, cluster, workload, secrets;
      conditions, sourceCommit, configVersion, workloadVersion := map[], "", "", "";
      rolloutInProgress, exceededTotal := false, 0;
    }

    ghost function StatusView(): CsStatus
      reads this, secrets
    {
      CsStatus(conditions, secrets.View(), sourceCommit, configVersion, workloadVersion, rolloutInProgress)
    }

    ghost function View(): State
      reads this, cluster, workload, secrets
    {
      State(StatusView(), cluster.objects, workload.View(), exceededTotal)
    }

    method SetCond(k: Kind, holds: bool, reason: Reason, at: int)
      modifies this`conditions
      ensures View() == old(View()).(st := Set(old(StatusView()), k, holds, reason, at))
    {
      conditions := SetCondition(conditions, k, holds, reason, at);
    }

    method ConditionTrue(k: Kind) returns (b: bool)
      ensures b == Holds(StatusView(), k)
    {
      if k == SecretsReady { return secrets.cond.Some? && secrets.cond.value.holds; }
      return k in conditions && conditions[k].holds;
    }

    /** `computeReady`. */
    method SetReady(at: int)
      modifies this`conditions
      ensures View() == old(View()).(st := ComputeReady(old(StatusView()), at))
    {
      for i := 0 to |GATES|
        invariant View() == old(View())
        invariant forall j :: 0 <= j < i ==> Holds(StatusView(), GATES[j])
      {
        var ok := ConditionTrue(GATES[i]);
        if !ok {
          SetCond(Ready, false, Degraded, at);
          return;
        }
      }
      var complete := ConditionTrue(RolloutComplete);
      if !complete {
        var stuck := RolloutComplete in conditions && conditions[RolloutComplete].reason == ProgressDeadlineExceeded;
        SetCond(Ready, false, if stuck then Degraded else Progressing, at);
        return;
      }
      SetCond(Ready, true, Synced, at);
    }

    /** `inspectWorkload`: the template stamp, or why not. */
    method InspectWorkload(inp: Inputs) returns (bad: Option<Reason>, stamp: string)
      ensures bad == Inspect(spec, workload.View(), inp)
      ensures bad.None? ==> stamp == TemplateStamp(workload.View())
    {
      stamp := "";
      if !W.Supported(spec.kind) { return Some(Given("UnsupportedStrategy")), stamp; }
      if inp.inspectFails { return Some(Degraded), stamp; }
      if !workload.present { return Some(Given("WorkloadNotFound")), stamp; }
      if !spec.rolloutNone && !inp.strategyOk { return Some(Given("UnsupportedStrategy")), stamp; }
      stamp := workload.ReadField(P.TemplateAnnotation(W.CONFIG_SHA));
      bad := None;
    }

    method MarkUnwired(reason: Reason, at: int)
      modifies this`conditions, this`rolloutInProgress
      ensures View() == old(View()).(st := Unwired(old(StatusView()), reason, at))
    {
      SetCond(WorkloadWired, false, reason, at);
      rolloutInProgress := false;
    }

    method MarkUnstamped(at: int)
      modifies this`conditions, this`rolloutInProgress
      ensures View() == old(View()).(st := Unstamped(old(StatusView()), at))
    {
      SetCond(RolloutComplete, false, Degraded, at);
      rolloutInProgress := false;
    }

    method MarkRolledOut(version: string, p: Progress, at: int)
      modifies this`conditions, this`rolloutInProgress, this`workloadVersion
      ensures View() == old(View()).(st := RolledOut(old(StatusView()), version, p, at))
    {
      workloadVersion := version;
      SetCond(RolloutComplete, p.complete, p.reason, at);
      rolloutInProgress := !p.complete;
    }

    /** The `rollout: none` branch of `wireAndStamp`. */
    method WireWithoutRestart(inp: Inputs, version: string) returns (complete: bool)
      modifies this, workload
      ensures (complete, View()) == WireNone(spec, old(View()), inp, version)
    {
      hide Set, Unwired, Unstamped, RolledOut, W.Wire, W.Stamp;
      var files, envs := SecretSurfaces(spec.refs);
      var a := workload.WireTo(WireSpec(spec, "").(files := files, env := envs), inp.wireApi);
      if a.Error? {
        MarkUnwired(WireReason(a.reason), inp.at);
        return false;
      }
      SetCond(WorkloadWired, true, Synced, inp.at);
      if inp.stampReadFails {
        MarkUnstamped(inp.at);
        return false;
      }
      var stamp := workload.ReadField(P.ObjectAnnotation(W.CONFIG_SHA));
      if stamp != version {
        var b := workload.StampNoRestart(spec.kind, version, inp.stampApi);
        if b.Error? {
          MarkUnstamped(inp.at);
          return false;
        }
      }
      MarkRolledOut(version, Progress(true, Synced), inp.at);
      return true;
    }

    /** `wireAndStamp`. */
    method WireAndStampTo(inp: Inputs, version: string) returns (complete: bool)
      modifies this, workload
      ensures (complete, View()) == WireAndStamp(spec, old(View()), inp, version)
    {
      hide Set, Unwired, RolledOut, W.Wire, Inspect;
      var bad, current := InspectWorkload(inp);
      if bad.Some? {
        MarkUnwired(bad.value, inp.at);
        return false;
      }
      if spec.rolloutNone {
        complete := WireWithoutRestart(inp, version);
        return;
      }
      if current != version {
        var files, envs := SecretSurfaces(spec.refs);
        var a := workload.WireTo(WireSpec(spec, version).(files := files, env := envs), inp.wireApi);
        if a.Error? {
          MarkUnwired(WireReason(a.reason), inp.at);
          return false;
        }
      }
      SetCond(WorkloadWired, true, Synced, inp.at);
      MarkRolledOut(version, inp.progress, inp.at);
      return inp.progress.complete;
    }

    /** `applyManifests`, which sets ManifestsApplied; `run` is `inp` with the fates of
        its prunes filled in. */
    method ApplyManifests(inp: Inputs, unlistable: set<string>, stuck: set<O.Id>)
      returns (v: M.Verdict, ghost run: Inputs)
      modifies this`conditions, cluster
      ensures run == inp.(fate0 := run.fate0, fate1 := run.fate1)
      ensures var (r, objs) := M.ApplyManifests(old(cluster.objects), spec.owner, spec.guard, run.load, run.writes,
              [run.fate0, run.fate1]);
              && v == r && cluster.objects == objs
              && View() == old(View()).(
                   st := Set(old(StatusView()), ManifestsApplied, r.AllApplied?, ManifestReason(r), inp.at),
                   objects := objs)
    {
      hide Set, M.ApplyManifests;
      ghost var fates;
      v, fates := M.ApplyManifestsTo(cluster, spec.owner, spec.guard, inp.load, inp.writes, unlistable, stuck);
      run := inp.(fate0 := fates[0], fate1 := fates[1]);
      assert fates == [run.fate0, run.fate1];
      SetCond(ManifestsApplied, v.AllApplied?, ManifestReason(v), inp.at);
    }

    /** The end of `sync`: version, wiring, establishment, readiness. */
    method FinishSync(inp: Inputs, commit: string, tokens: seq<string>) returns (r: Requeue)
      modifies this, workload, secrets
      ensures (r, View()) == Finish(spec, old(View()), inp, commit, tokens)
    {
      hide WireAndStamp, ComputeReady, V.VersionOf, S.MarkEstablished;
      var version := V.VersionWithSecrets(commit, tokens, inp.hash);
      configVersion := version;
      var complete := WireAndStampTo(inp, version);
      var wired := ConditionTrue(WorkloadWired);
      if wired { secrets.MarkSecretsEstablished(); }
      SetReady(inp.at);
      return if !complete && wired then Soon else Steady;
    }

    /** The secrets gate of `sync`. */
    method PassGate(inp: Inputs, commit: string) returns (r: Requeue)
      modifies this, workload, secrets
      ensures (r, View()) == Gate(spec, old(View()), inp, commit)
    {
      hide Finish, Set, S.Resolve, S.Resolved;
      var answers: seq<S.Answer> := [];
      for i := 0 to |spec.refs|
        invariant View() == old(View()) && answers == Answers(spec.refs, inp.resolutions)[..i]
      {
        answers := answers + [AnswerOf(spec.refs[i], inp.resolutions(i))];
      }
      assert answers == Answers(spec.refs, inp.resolutions);
      var prior := secrets.cond;
      var d := secrets.ResolveSecrets(answers, spec.maxDegraded, inp.now, inp.at);
      if !d.allReady {
        if d.maxDegradedExceeded && (prior.None? || prior.value.reason != MaxDegradedExceeded) {
          exceededTotal := exceededTotal + 1;
        }
        rolloutInProgress := false;
        SetCond(Ready, false, d.readyReason, inp.at);
        return Soon;
      }
      r := FinishSync(inp, commit, d.envTokens);
    }

    /** `sync`; `run` is `inp` with the fates of its prunes filled in. */
    method SyncOnce(inp: Inputs, listFails: bool, unlistable: set<string>, stuck: set<O.Id>)
      returns (r: Requeue, ghost run: Inputs)
      modifies this, cluster, workload, secrets
      ensures run == inp.(pruneFate := run.pruneFate, fate0 := run.fate0, fate1 := run.fate1)
      ensures (r, View()) == Sync(spec, old(View()), run)
    {
      hide Set, ConfigMap;
      run := inp;
      if inp.conflict {
        SetCond(WorkloadWired, false, SingletonViolation, inp.at);
        SetCond(Ready, false, Degraded, inp.at);
        return Steady, run;
      }
      if !inp.credential {
        SetCond(Fetched, false, AuthFailed, inp.at);
        SetCond(Ready, false, Degraded, inp.at);
        return Backoff, run;
      }
      if inp.fetch.NoCommit? {
        SetCond(Fetched, false, inp.fetch.reason, inp.at);
        SetCond(Ready, false, Degraded, inp.at);
        return Backoff, run;
      }
      sourceCommit := inp.fetch.commit;
      SetCond(Fetched, true, Synced, inp.at);
      if inp.render.NoContent? {
        SetCond(Rendered, false, inp.render.reason, inp.at);
        SetCond(Ready, false, Degraded, inp.at);
        return Steady, run;
      }
      SetCond(Rendered, true, Synced, inp.at);
      r, run := SyncObjects(inp, inp.fetch.commit, inp.render.content, listFails, unlistable, stuck);
    }

    /** ConfigMap, manifests and what follows them. */
    method SyncObjects(inp: Inputs, commit: string, content: string, listFails: bool, unlistable: set<string>,
      stuck: set<O.Id>)
      returns (r: Requeue, ghost run: Inputs)
      modifies this, cluster, workload, secrets
      ensures run == inp.(pruneFate := run.pruneFate, fate0 := run.fate0, fate1 := run.fate1)
      ensures (r, View()) == ConfigMap(spec, old(View()), run, commit, content)
    {
      hide Set, Manifests, O.Apply, O.Pruned;
      run := inp;
      var a := cluster.ApplyObject(spec.owner, ConfigMapId(spec), content, inp.applyApi);
      if a != O.Done {
        SetCond(Ready, false, Degraded, inp.at);
        return if a == O.NotOwned then Steady else Backoff, run;
      }
      var fate := cluster.Prune(spec.owner.name, O.ConfigMaps, [spec.configMap], listFails, stuck);
      run := inp.(pruneFate := fate);
      if !fate.Clean? {
        SetCond(Ready, false, Degraded, inp.at);
        return Backoff, run;
      }
      ghost var pruned := View();
      r, run := SyncManifests(inp, commit, unlistable, stuck);
      run := run.(pruneFate := fate);
      ManifestsIgnoreFate(spec, pruned, run, inp.pruneFate, commit);
    }

    /** Manifests, then the secrets gate. */
    method SyncManifests(inp: Inputs, commit: string, unlistable: set<string>, stuck: set<O.Id>)
      returns (r: Requeue, ghost run: Inputs)
      modifies this, cluster, workload, secrets
      ensures run == inp.(fate0 := run.fate0, fate1 := run.fate1)
      ensures (r, View()) == Manifests(spec, old(View()), run, commit)
    {
      hide Set, Gate, M.ApplyManifests;
      var v;
      v, run := ApplyManifests(inp, unlistable, stuck);
      if !v.AllApplied? {
        SetCond(Ready, false, Degraded, inp.at);
        return if M.Terminal(v) then Steady else Backoff, run;
      }
      ghost var before := View();
      r := PassGate(inp, commit);
      GateIgnoresFates(spec, before, inp, run, commit);
    }

    /** `finalize`, the finalizer itself set aside. */
    method FinalizeOnce(f: FinalInputs, listFails: bool, unlistable: set<string>, stuck: set<O.Id>)
      returns (done: bool, ghost run: FinalInputs)
      modifies cluster, workload
      ensures run == f.(pruneFate := run.pruneFate, fate0 := run.fate0, fate1 := run.fate1)
      ensures (done, View()) == Finalize(spec, old(View()), run)
    {
      hide W.Retract, O.Pruned, M.PruneAll;
      run := f;
      if !f.conflict {
        var a := workload.Unwire(spec.kind, f.unwireApi);
        if a.Error? { return false, run; }
        a := workload.ClearStamp(spec.kind, f.clearApi);
        if a.Error? { return false, run; }
      }
      var fate := cluster.Prune(spec.owner.name, O.ConfigMaps, [], listFails, stuck);
      run := f.(pruneFate := fate);
      if !fate.Clean? { return false, run; }
      ghost var fates;
      done, fates := M.PruneEach(cluster, spec.owner, [], f.served, unlistable, stuck);
      run := run.(fate0 := fates[0], fate1 := fates[1]);
      assert fates == [run.fate0, run.fate1];
    }
  }

  /** Nothing after the prunes looks at how they went. */
  lemma GateIgnoresFates(s: Spec, v: State, a: Inputs, b: Inputs, commit: string)
    requires b == a.(pruneFate := b.pruneFate, fate0 := b.fate0, fate1 := b.fate1)
    ensures Gate(s, v, a, commit) == Gate(s, v, b, commit)
  {
    hide Set, S.Resolve, S.Resolved, W.Wire, W.Stamp, ComputeReady, V.VersionOf, S.MarkEstablished;
  }

  lemma ManifestsIgnoreFate(s: Spec, v: State, inp: Inputs, fate: O.Fate, commit: string)
    ensures Manifests(s, v, inp.(pruneFate := fate), commit) == Manifests(s, v, inp, commit)
  {
    hide Set, M.ApplyManifests, Gate;
    var (r, objs) := M.ApplyManifests(v.objects, s.owner, s.guard, inp.load, inp.writes, [inp.fate0, inp.fate1]);
    var st := Set(v.st, ManifestsApplied, r.AllApplied?, ManifestReason(r), inp.at);
    GateIgnoresFates(s, v.(st := st, objects := objs), inp, inp.(pruneFate := fate), commit);
  }
}

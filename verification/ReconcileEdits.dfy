/** Runs in which the spec is edited: which fields Kohen owns, and where its stamps
    stand, told from the reconciles that really wrote. */
module ReconcileEdits {
  import opened Text
  import opened Reconcile
  import opened ReconcileTheorems
  import opened ReconcileEffects
  import opened ReconcileRuns
  import W = Wiring
  import P = ServerSideApply

  const TEMPLATE_STAMP: P.Path := P.TemplateAnnotation(W.CONFIG_SHA)

  /** The template stamp, if there, is Kohen's alone, and its two managers own apart. */
  ghost predicate Sound(w: W.State) {
    Tidy(w) && Lone(w.fields)
  }

  ghost predicate Lone(obj: P.Object) {
    TEMPLATE_STAMP in obj ==> obj[TEMPLATE_STAMP].owners == {P.Kohen}
  }

  /** The fields Kohen owns, as a config. */
  ghost function Owned(w: W.State): P.Config {
    map p | p in w.fields && P.Kohen in w.fields[p].owners :: w.fields[p].value
  }

  /** What wiring `sha` for `s` lists on this workload. */
  function Listed(s: Spec, w: W.State, sha: string): P.Config
    requires W.Target(w.containers, s.container).Some?
  {
    W.Fields(WireSpec(s, sha), W.Target(w.containers, s.container).value)
  }

  lemma CarriesIsOwned(s: Spec, w: W.State, sha: string)
    ensures Carries(s, w, sha) <==> W.Target(w.containers, s.container).Some? && Owned(w) == Listed(s, w, sha)
  {
    assert Owned(w).Keys == P.OwnedBy(w.fields, P.Kohen);
    if W.Target(w.containers, s.container).Some? {
      var f := Listed(s, w, sha);
      hide W.Fields, W.Target, WireSpec;
      if Carries(s, w, sha) { assert forall p :: p in f ==> p in Owned(w) && Owned(w)[p] == f[p]; }
    }
  }

  // -------------------------------------------------------- one reconcile's writing

  /** The stamp wiring puts beside the fields: none at all with `rollout: none`. */
  function Sha(s: Spec, version: string): string {
    if s.rolloutNone then "" else version
  }

  /** The reconcile sends its wiring rather than skip it, and it is accepted. */
  predicate Rewires(s: Spec, w: W.State, inp: Inputs, version: string) {
    && Inspect(s, w, inp).None? && (s.rolloutNone || TemplateStamp(w) != version)
    && W.Wire(w, WireSpec(s, Sha(s, version)), inp.wireApi).0 == W.Ok
  }

  lemma MergingLone(obj: P.Object, f: P.Config)
    requires Lone(obj)
    ensures var o := P.Merge(obj, P.Kohen, f);
            Lone(o) && (TEMPLATE_STAMP !in f ==> TEMPLATE_STAMP !in o)
  {
  }

  lemma WiringKeepsSound(s: Spec, w: W.State, sha: string, api: W.Api)
    requires Sound(w)
    ensures var w' := W.Wire(w, WireSpec(s, sha), api).1;
            Sound(w') && (sha == "" && W.Wire(w, WireSpec(s, sha), api).0 == W.Ok ==> TemplateStamp(w') == "")
  {
    WiringKeepsStamp(s, w, sha, api);
    if W.Wire(w, WireSpec(s, sha), api).0 == W.Ok {
      var c := W.Target(w.containers, s.container).value;
      W.FieldsByKind(WireSpec(s, sha), c, TEMPLATE_STAMP);
      assert WireSpec(s, sha).configSHA == sha;
      hide W.Fields, WireSpec, W.Target, Tidy;
      MergingLone(w.fields, W.Fields(WireSpec(s, sha), c));
    }
  }

  lemma StampingKeepsSound(s: Spec, w: W.State, version: string, api: W.Api)
    requires Sound(w)
    ensures var w' := W.Stamp(w, s.kind, version, api).1;
            Sound(w') && TemplateStamp(w') == TemplateStamp(w) && Owned(w') == Owned(w)
  {
    StampingKeeps(s, w, version, api);
    if W.Stamp(w, s.kind, version, api).0 == W.Ok {
      StampingMerges(w, version);
      BesideStampOwned(w, W.Stamp(w, s.kind, version, api).1);
    }
  }

  lemma BesideStampOwned(w: W.State, w': W.State)
    requires Tidy(w) && Tidy(w') && BesideStamp(w.fields, w'.fields)
    ensures Owned(w') == Owned(w)
  {
    assert forall p :: p in w.fields && P.Kohen in w.fields[p].owners ==> p != STAMP;
    assert forall p :: p in w'.fields && P.Kohen in w'.fields[p].owners ==> p != STAMP;
  }

  /** What a reconcile that gets as far as the workload leaves there. */
  lemma RewiredExactly(s: Spec, w: W.State, inp: Inputs, version: string)
    requires Sound(w) && version != ""
    ensures var w' := Rewired(s, w, inp, version);
            && Sound(w') && w'.containers == w.containers
            && (Rewires(s, w, inp, version) ==>
                  W.Target(w.containers, s.container).Some? && Owned(w') == Listed(s, w, Sha(s, version)))
            && (!Rewires(s, w, inp, version) ==> Owned(w') == Owned(w))
            && (Wires(s, w, inp, version) ==> TemplateStamp(w') == Sha(s, version))
            && (!Wires(s, w, inp, version) ==> w' == w)
            && ObjectStamp(w') == if s.rolloutNone && RollsOut(s, w, inp, version) then version else ObjectStamp(w)
  {
    if !Wires(s, w, inp, version) { UnwiredIsUnchanged(s, w, inp, version); }
    if s.rolloutNone { NoneExactly(s, w, inp, version); } else { AutoExactly(s, w, inp, version); }
  }

  lemma WiredOwns(s: Spec, w: W.State, sha: string, api: W.Api)
    requires W.Wire(w, WireSpec(s, sha), api).0 == W.Ok
    ensures var w' := W.Wire(w, WireSpec(s, sha), api).1;
            && W.Target(w.containers, s.container).Some? && w'.containers == w.containers
            && Owned(w') == Listed(s, w, sha)
  {
    WiringCarries(s, w, sha, api);
    CarriesIsOwned(s, W.Wire(w, WireSpec(s, sha), api).1, sha);
    hide Carries, Owned, Listed, W.Fields;
  }

  lemma AutoExactly(s: Spec, w: W.State, inp: Inputs, version: string)
    requires !s.rolloutNone && Sound(w) && version != ""
    ensures var w' := Rewired(s, w, inp, version);
            && Sound(w') && w'.containers == w.containers
            && (Rewires(s, w, inp, version) ==>
                  W.Target(w.containers, s.container).Some? && Owned(w') == Listed(s, w, Sha(s, version)))
            && (!Rewires(s, w, inp, version) ==> Owned(w') == Owned(w))
            && (Wires(s, w, inp, version) ==> TemplateStamp(w') == Sha(s, version))
            && ObjectStamp(w') == ObjectStamp(w)
  {
    AutoStep(s, w, inp, version);
    if Rewires(s, w, inp, version) {
      WiredOwns(s, w, version, inp.wireApi);
      WiringKeepsSound(s, w, version, inp.wireApi);
      WiringKeepsStamp(s, w, version, inp.wireApi);
    }
    hide Sound, Owned, Listed, W.Wire, TemplateStamp, ObjectStamp, Template;
  }

  lemma NoneExactly(s: Spec, w: W.State, inp: Inputs, version: string)
    requires s.rolloutNone && Sound(w)
    ensures var w' := Rewired(s, w, inp, version);
            && Sound(w') && w'.containers == w.containers
            && (Rewires(s, w, inp, version) ==>
                  W.Target(w.containers, s.container).Some? && Owned(w') == Listed(s, w, ""))
            && (!Rewires(s, w, inp, version) ==> Owned(w') == Owned(w))
            && (Wires(s, w, inp, version) ==> TemplateStamp(w') == "")
            && ObjectStamp(w') == if RollsOut(s, w, inp, version) then version else ObjectStamp(w)
  {
    var (a, u) := W.Wire(w, WireSpec(s, ""), inp.wireApi);
    NoneStep(s, w, inp, version);
    hide Sound, Owned, Listed, W.Wire, W.Stamp, TemplateStamp, ObjectStamp, Settled, Template;
    if a == W.Ok {
      WiredOwns(s, w, "", inp.wireApi);
      WiringKeepsSound(s, w, "", inp.wireApi);
      StampingKeepsSound(s, u, version, inp.stampApi);
      StampKeepsContainers(s, u, version, inp.stampApi);
    } else {
      FailureChangesNothing(w, WireSpec(s, ""), inp.wireApi);
    }
  }

  lemma StampKeepsContainers(s: Spec, w: W.State, version: string, api: W.Api)
    ensures W.Stamp(w, s.kind, version, api).1.containers == w.containers
  {
  }

  // ----------------------------------------------------------------- over whole runs

  predicate RewiresAt(u: State, e: Event) {
    && e.Reconciled? && Advances(e.spec, u.objects, e.inp)
    && Rewires(e.spec, u.workload, e.inp, Desired(e.spec, e.inp))
  }

  lemma EventExactly(u: State, e: Event)
    requires e.Reconciled? && Sound(u.workload)
    ensures var w, w' := u.workload, Step(u, e).workload;
            && Sound(w') && w'.containers == w.containers
            && (RewiresAt(u, e) ==>
                  && W.Target(w.containers, e.spec.container).Some?
                  && Owned(w') == Listed(e.spec, w, Sha(e.spec, Wanted(e))))
            && (!RewiresAt(u, e) ==> Owned(w') == Owned(w))
            && TemplateStamp(w') == (if ReachesWire(u, e) then Sha(e.spec, Wanted(e)) else TemplateStamp(w))
            && ObjectStamp(w') == (if StampsObjectAt(u, e) then Wanted(e) else ObjectStamp(w))
  {
    StepEffects(u, e);
    hide Step, ObjectsAfter, Prepared, AllResolved, Rewired, Rewires, Wires, RollsOut, Desired, Sound, Owned, Listed,
      ObjectStamp, TemplateStamp;
    if Advances(e.spec, u.objects, e.inp) {
      DesiredNotEmpty(e.spec, e.inp);
      RewiredExactly(e.spec, u.workload, e.inp, Desired(e.spec, e.inp));
    }
  }

  /** The reconcile leaves its version in the object's annotation. */
  predicate StampsObjectAt(u: State, e: Event) {
    && e.Reconciled? && e.spec.rolloutNone && Advances(e.spec, u.objects, e.inp)
    && RollsOut(e.spec, u.workload, e.inp, Desired(e.spec, e.inp))
  }

  lemma RewiresNeedsTarget(u: State, e: Event)
    ensures RewiresAt(u, e) ==> W.Target(u.workload.containers, e.spec.container).Some? && e.inp.fetch.Commit?
  {
    hide W.Fields, W.Target;
  }

  /** The fields last wired: those the last reconcile that really wrote listed then, or
      those owned at the start. */
  ghost function LastWired(v: State, es: seq<Event>): P.Config {
    if es == [] then Owned(v.workload)
    else
      var n := |es| - 1;
      var u, e := Run(v, es[..n]), es[n];
      RewiresNeedsTarget(u, e);
      if RewiresAt(u, e) then Listed(e.spec, u.workload, Sha(e.spec, Wanted(e))) else LastWired(v, es[..n])
  }

  /** Whatever the edits, Kohen owns exactly the fields it last wired. */
  lemma {:induction false} OwnsWhatItLastWired(v: State, es: seq<Event>)
    requires Reconciles(es) && Sound(v.workload)
    ensures Sound(Run(v, es).workload) && Owned(Run(v, es).workload) == LastWired(v, es)
  {
    if es != [] {
      var n := |es| - 1;
      var u, e := Run(v, es[..n]), es[n];
      OwnsWhatItLastWired(v, es[..n]);
      assert e in es;
      EventExactly(u, e);
      hide Step, Sound, Owned, Listed, RewiresAt, ReachesWire, StampsObjectAt, TemplateStamp, ObjectStamp;
    }
  }

  /** The last real wiring was for what this spec and version list now. */
  ghost predicate UpToDate(s: Spec, v: State, es: seq<Event>, inp: Inputs)
    requires inp.fetch.Commit?
  {
    var w := Run(v, es).workload;
    W.Target(w.containers, s.container).Some? && LastWired(v, es) == Listed(s, w, Sha(s, Desired(s, inp)))
  }

  /** WorkloadWired over runs with edits tells the truth exactly if the wiring was not
      skipped or, skipped, was last done for the same fields: an edit of what is wired at
      an unchanged version goes unnoticed. */
  lemma {:induction false} WiredTellsTruthExactly(s: Spec, v: State, es: seq<Event>, inp: Inputs)
    requires Reconciles(es) && Sound(v.workload) && Advances(s, Run(v, es).objects, inp)
    requires Wires(s, Run(v, es).workload, inp, Desired(s, inp))
    ensures Carries(s, Sync(s, Run(v, es), inp).1.workload, Sha(s, Desired(s, inp))) <==>
            (!Rewires(s, Run(v, es).workload, inp, Desired(s, inp)) ==> UpToDate(s, v, es, inp))
  {
    var u := Run(v, es);
    var sha := Sha(s, Desired(s, inp));
    OwnsWhatItLastWired(v, es);
    SyncEffects(s, u, inp);
    DesiredNotEmpty(s, inp);
    RewiredExactly(s, u.workload, inp, Desired(s, inp));
    CarriesIsOwned(s, Sync(s, u, inp).1.workload, sha);
    hide Run, Sync, Sound, Owned, Listed, Rewired, Rewires, Wires, RollsOut, Desired, Carries, ObjectsAfter, Prepared,
      AllResolved, TemplateStamp, ObjectStamp, LastWired;
    assert UpToDate(s, v, es, inp) <==>
           W.Target(u.workload.containers, s.container).Some? && Owned(u.workload) == Listed(s, u.workload, sha);
    SameContainersList(s, u.workload, Sync(s, u, inp).1.workload, sha);
  }

  lemma SameContainersList(s: Spec, w: W.State, w': W.State, sha: string)
    requires w'.containers == w.containers
    ensures W.Target(w'.containers, s.container) == W.Target(w.containers, s.container)
    ensures W.Target(w.containers, s.container).Some? ==> Listed(s, w', sha) == Listed(s, w, sha)
  {
  }
}

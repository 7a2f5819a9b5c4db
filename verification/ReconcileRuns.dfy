/** Whole runs of one ConfigSync with nobody else writing: reconciles with any
    outcomes, in any number, under a spec that may be edited between any two. */
module ReconcileRuns {
  import opened Reconcile
  import opened ReconcileTheorems
  import opened ReconcileEffects
  import S = Secrets
  import R = SecretRuns
  import W = Wiring
  import P = ServerSideApply

  /** Nobody else writes. A finalize needs no place in such a run: the deletion that
      brings it is final, so that no reconcile follows. */
  ghost predicate Reconciles(es: seq<Event>) {
    forall e :: e in es ==> e.Reconciled?
  }

  ghost predicate AllAuto(es: seq<Event>) {
    forall e :: e in es ==> e.Reconciled? && !e.spec.rolloutNone
  }

  /** One reconcile of a run, its status write set aside. */
  lemma StepEffects(v: State, e: Event)
    requires e.Reconciled?
    ensures var v' := Step(v, e);
            && v'.objects == ObjectsAfter(e.spec, v.objects, e.inp)
            && v'.workload == (if Advances(e.spec, v.objects, e.inp)
                               then Rewired(e.spec, v.workload, e.inp, Desired(e.spec, e.inp)) else v.workload)
            && (!e.saved ==> v'.st == v.st)
  {
    SyncEffects(e.spec, v, e.inp);
    hide Sync, ObjectsAfter, Advances, Rewired, Prepared, R.Step, Entered, Wires;
  }

  /** Desired versions are never empty, so a stamp can be told from its absence. */
  lemma DesiredNotEmpty(s: Spec, inp: Inputs)
    requires inp.fetch.Commit?
    ensures Desired(s, inp) != ""
  {
    hide S.EnvTokens, S.EvaluatedAll, Answers;
  }

  // ------------------------------------------------------ one rollout per change

  predicate TemplatePath(p: P.Path) {
    !p.ObjectAnnotation? && !p.Elsewhere?
  }

  /** The pod template as far as Kohen may write it. */
  ghost function Template(w: W.State): P.Object {
    map p | p in w.fields && TemplatePath(p) :: w.fields[p]
  }

  predicate ReachesWire(u: State, e: Event) {
    && e.Reconciled? && Advances(e.spec, u.objects, e.inp)
    && Wires(e.spec, u.workload, e.inp, Desired(e.spec, e.inp))
  }

  function Wanted(e: Event): string
    requires e.Reconciled? && e.inp.fetch.Commit?
  {
    Desired(e.spec, e.inp)
  }

  /** The desired versions of the reconciles that reached a successful wire. */
  function Reached(v: State, es: seq<Event>): seq<string> {
    if es == [] then []
    else
      var n := |es| - 1;
      Reached(v, es[..n]) + if ReachesWire(Run(v, es[..n]), es[n]) then [Wanted(es[n])] else []
  }

  /** The step writes the pod template. */
  ghost predicate Rewrites(u: State, e: Event) {
    Template(Step(u, e).workload) != Template(u.workload)
  }

  /** How many steps wrote the pod template. */
  ghost function TemplateWrites(v: State, es: seq<Event>): nat {
    if es == [] then 0
    else
      var n := |es| - 1;
      TemplateWrites(v, es[..n]) + if Rewrites(Run(v, es[..n]), es[n]) then 1 else 0
  }

  function Last(init: string, vs: seq<string>): string {
    if vs == [] then init else vs[|vs| - 1]
  }

  /** Adjacent differences of `vs` with `init` in front. */
  function Changes(init: string, vs: seq<string>): nat {
    if vs == [] then 0
    else
      var n := |vs| - 1;
      Changes(init, vs[..n]) + if vs[n] != Last(init, vs[..n]) then 1 else 0
  }

  lemma ChangesSnoc(init: string, vs: seq<string>, x: string)
    ensures Changes(init, vs + [x]) == Changes(init, vs) + if x != Last(init, vs) then 1 else 0
    ensures Last(init, vs + [x]) == x
  {
    assert (vs + [x])[..|vs|] == vs;
  }

  lemma StampShows(w: W.State, w': W.State)
    requires TemplateStamp(w') != TemplateStamp(w) && TemplateStamp(w') != ""
    ensures Template(w') != Template(w)
  {
    var p := P.TemplateAnnotation(W.CONFIG_SHA);
    assert p in Template(w') && Template(w')[p].value == TemplateStamp(w');
    assert p in Template(w) ==> Template(w)[p].value == TemplateStamp(w);
  }

  /** What wiring does to the template in auto mode. */
  lemma AutoStep(s: Spec, w: W.State, inp: Inputs, version: string)
    requires !s.rolloutNone && version != ""
    ensures var w' := Rewired(s, w, inp, version);
            && (!Wires(s, w, inp, version) ==> w' == w)
            && (Wires(s, w, inp, version) ==>
                  TemplateStamp(w') == version && (Template(w') != Template(w) <==> TemplateStamp(w) != version))
  {
    if !Wires(s, w, inp, version) {
      UnwiredIsUnchanged(s, w, inp, version);
    } else if TemplateStamp(w) != version {
      AutoStampLands(s, w, inp.wireApi, version);
      hide W.Wire;
      StampShows(w, Rewired(s, w, inp, version));
    }
    hide W.Wire, Template;
  }

  lemma AutoEvent(u: State, e: Event)
    requires e.Reconciled? && !e.spec.rolloutNone
    ensures !ReachesWire(u, e) ==> Step(u, e).workload == u.workload
    ensures ReachesWire(u, e) ==> TemplateStamp(Step(u, e).workload) == Wanted(e)
    ensures Rewrites(u, e) <==> ReachesWire(u, e) && TemplateStamp(u.workload) != Wanted(e)
  {
    StepEffects(u, e);
    hide Step, ObjectsAfter, Prepared, AllResolved, Rewired, Wires, Desired, Template, TemplateStamp;
    if Advances(e.spec, u.objects, e.inp) {
      DesiredNotEmpty(e.spec, e.inp);
      AutoStep(e.spec, u.workload, e.inp, Desired(e.spec, e.inp));
    }
  }

  /** Exactly one rollout per change: in auto mode, whatever else of the spec is edited
      on the way, the writes to the pod template are the adjacent differences of the
      versions that reached a wire. */
  lemma {:induction false} OneRolloutPerChange(v: State, es: seq<Event>)
    requires AllAuto(es)
    ensures TemplateWrites(v, es) == Changes(TemplateStamp(v.workload), Reached(v, es))
    ensures TemplateStamp(Run(v, es).workload) == Last(TemplateStamp(v.workload), Reached(v, es))
  {
    if es != [] {
      var n := |es| - 1;
      var u, e, r := Run(v, es[..n]), es[n], Reached(v, es[..n]);
      OneRolloutPerChange(v, es[..n]);
      assert e in es;
      AutoEvent(u, e);
      hide Step, ReachesWire, Wanted, Rewrites, TemplateStamp;
      RunSnoc(v, es);
      hide Run, Reached, TemplateWrites;
      if ReachesWire(u, e) { ChangesSnoc(TemplateStamp(v.workload), r, Wanted(e)); }
      assert r + [] == r;
      hide Changes, Last;
    }
  }

  /** The last step of a run, and what it adds. */
  lemma RunSnoc(v: State, es: seq<Event>)
    requires es != []
    ensures var n := |es| - 1;
            var u := Run(v, es[..n]);
            && Run(v, es) == Step(u, es[n])
            && Reached(v, es) == Reached(v, es[..n]) + (if ReachesWire(u, es[n]) then [Wanted(es[n])] else [])
            && TemplateWrites(v, es) == TemplateWrites(v, es[..n]) + if Rewrites(u, es[n]) then 1 else 0
  {
    hide Step, Rewrites;
  }

  // ------------------------------------------------------------ wired means wired

  /** A template stamp tells the truth about the fields beside it. */
  ghost predicate Truthful(s: Spec, w: W.State) {
    TemplateStamp(w) != "" ==> Carries(s, w, TemplateStamp(w))
  }

  /** In auto mode a matching stamp alone makes WorkloadWired True: after it is set,
      the workload carries Kohen's fields exactly if it was wired just now or, stamped
      already, carried them before. */
  lemma WiredCarriesExactly(s: Spec, w: W.State, inp: Inputs, version: string)
    requires !s.rolloutNone && version != "" && Wires(s, w, inp, version)
    ensures Carries(s, Rewired(s, w, inp, version), version) <==>
            (TemplateStamp(w) == version ==> Carries(s, w, version))
  {
    if TemplateStamp(w) != version { WiringCarries(s, w, version, inp.wireApi); }
    hide W.Wire, Carries, TemplateStamp, WireSpec;
  }

  lemma RewiringIsTruthful(s: Spec, w: W.State, inp: Inputs, version: string)
    requires !s.rolloutNone && version != "" && Truthful(s, w)
    ensures Truthful(s, Rewired(s, w, inp, version))
    ensures Wires(s, w, inp, version) ==> Carries(s, Rewired(s, w, inp, version), version)
  {
    AutoStep(s, w, inp, version);
    if Wires(s, w, inp, version) { WiredCarriesExactly(s, w, inp, version); }
    hide Rewired, Carries, Wires, TemplateStamp;
  }

  // ------------------------------------------------- rollout: none never restarts

  const STAMP: P.Path := P.ObjectAnnotation(W.CONFIG_SHA)

  /** The stamp manager never owned anything else, nor the wire manager the stamp. */
  ghost predicate Tidy(w: W.State) {
    Apart(w.fields)
  }

  /** On the object itself, the two managers own apart. */
  ghost predicate Apart(obj: P.Object) {
    forall p :: p in obj ==>
      && (P.KohenStamp in obj[p].owners ==> p == STAMP)
      && (P.Kohen in obj[p].owners ==> p != STAMP)
  }

  /** Kohen owns exactly what it would wire without a template stamp. */
  ghost predicate Settled(s: Spec, w: W.State) {
    Carries(s, w, "")
  }

  /** Wiring anew what is settled is a fixpoint. */
  lemma SettledRewires(s: Spec, w: W.State, api: W.Api)
    requires Settled(s, w)
    ensures W.Wire(w, WireSpec(s, ""), api).1 == w
  {
    P.SettledIsFixpoint(w.fields, P.Kohen, W.Fields(WireSpec(s, ""), W.Target(w.containers, s.container).value));
    hide W.Fields, P.Merge;
  }

  lemma WiringKeepsStamp(s: Spec, w: W.State, sha: string, api: W.Api)
    requires Tidy(w)
    ensures var w' := W.Wire(w, WireSpec(s, sha), api).1; Tidy(w') && ObjectStamp(w') == ObjectStamp(w)
  {
    if W.Wire(w, WireSpec(s, sha), api).0 == W.Ok {
      var f := W.Fields(WireSpec(s, sha), W.Target(w.containers, s.container).value);
      W.FieldsByKind(WireSpec(s, sha), W.Target(w.containers, s.container).value, STAMP);
      assert STAMP !in f;
      hide W.Fields, WireSpec, W.Target;
      MergingKeepsStamp(w.fields, f);
    }
  }

  lemma MergingKeepsStamp(obj: P.Object, f: P.Config)
    requires STAMP !in f && Apart(obj)
    ensures var o := P.Merge(obj, P.Kohen, f);
            Apart(o) && (STAMP in o <==> STAMP in obj) && (STAMP in obj ==> o[STAMP].value == obj[STAMP].value)
  {
  }

  /** Stamping the object concerns the stamp alone. */
  lemma StampingKeeps(s: Spec, w: W.State, version: string, api: W.Api)
    requires Tidy(w)
    ensures var w' := W.Stamp(w, s.kind, version, api).1;
            && Tidy(w') && Template(w') == Template(w) && (Settled(s, w) ==> Settled(s, w'))
            && (W.Stamp(w, s.kind, version, api).0 == W.Ok ==> ObjectStamp(w') == version)
            && (W.Stamp(w, s.kind, version, api).0 != W.Ok ==> w' == w)
  {
    if W.Stamp(w, s.kind, version, api).0 == W.Ok {
      var w' := W.Stamp(w, s.kind, version, api).1;
      StampLands(w, s.kind, version, api);
      StampingMerges(w, version);
      assert w'.containers == w.containers && w'.fields == P.Merge(w.fields, P.KohenStamp, map[STAMP := version]);
      hide W.Stamp, P.Merge, Settled;
      SameBesideStamp(s, w, w');
    }
  }

  lemma StampingMerges(w: W.State, version: string)
    requires Tidy(w)
    ensures BesideStamp(w.fields, P.Merge(w.fields, P.KohenStamp, map[STAMP := version]))
    ensures Tidy(w.(fields := P.Merge(w.fields, P.KohenStamp, map[STAMP := version])))
  {
    forall p | p in w.fields && p != STAMP ensures w.fields[p].owners - {P.KohenStamp} == w.fields[p].owners {
    }
  }

  /** Two objects agree on everything but the object's stamp. */
  ghost predicate BesideStamp(a: P.Object, b: P.Object) {
    forall p :: p != STAMP ==> (p in b <==> p in a) && (p in a ==> b[p] == a[p])
  }

  lemma SameBesideStamp(s: Spec, w: W.State, w': W.State)
    requires Tidy(w) && Tidy(w') && BesideStamp(w.fields, w'.fields) && w'.containers == w.containers
    ensures Template(w') == Template(w) && (Settled(s, w) ==> Settled(s, w'))
  {
    SameKohenFields(w, w');
    if Settled(s, w) {
      var f := W.Fields(WireSpec(s, ""), W.Target(w.containers, s.container).value);
      hide W.Fields, W.Target, WireSpec, Tidy, BesideStamp;
      forall p | p in f ensures w'.fields[p].value == f[p] { assert p in P.OwnedBy(w.fields, P.Kohen); }
    }
    hide Template, BesideStamp, Tidy;
  }

  lemma SameKohenFields(w: W.State, w': W.State)
    requires Tidy(w) && Tidy(w') && BesideStamp(w.fields, w'.fields)
    ensures P.OwnedBy(w'.fields, P.Kohen) == P.OwnedBy(w.fields, P.Kohen) && Template(w') == Template(w)
    ensures forall p :: p in P.OwnedBy(w.fields, P.Kohen) ==> p in w'.fields && w'.fields[p] == w.fields[p]
  {
  }

  lemma NoneStep(s: Spec, w: W.State, inp: Inputs, version: string)
    requires s.rolloutNone && Tidy(w)
    ensures var w' := Rewired(s, w, inp, version);
            && Tidy(w') && ObjectStamp(w') == (if RollsOut(s, w, inp, version) then version else ObjectStamp(w))
            && (Wires(s, w, inp, version) ==> Settled(s, w'))
            && (Settled(s, w) ==> Settled(s, w') && Template(w') == Template(w))
            && (Settled(s, w) && ObjectStamp(w) == version ==> w' == w)
  {
    hide W.Wire, W.Stamp, Tidy, Carries, Template, ObjectStamp, WireSpec;
    var (a, u) := W.Wire(w, WireSpec(s, ""), inp.wireApi);
    WiringKeepsStamp(s, w, "", inp.wireApi);
    if a == W.Ok { WiringCarries(s, w, "", inp.wireApi); }
      else { FailureChangesNothing(w, WireSpec(s, ""), inp.wireApi); }
    if Settled(s, w) { SettledRewires(s, w, inp.wireApi); }
    StampingKeeps(s, u, version, inp.stampApi);
  }

  lemma NoneEvent(u: State, e: Event)
    requires e.Reconciled? && e.spec.rolloutNone && Tidy(u.workload)
    ensures var w, w', s := u.workload, Step(u, e).workload, e.spec;
            && Tidy(w') && (ReachesWire(u, e) ==> Settled(s, w'))
            && (Settled(s, w) ==> Settled(s, w') && Template(w') == Template(w))
            && (Settled(s, w) && (e.inp.fetch.Commit? ==> ObjectStamp(w) == Desired(s, e.inp)) ==> w' == w)
  {
    StepEffects(u, e);
    hide Step, ObjectsAfter, Prepared, AllResolved, Rewired, Wires, Desired, Template, Tidy, Settled, ObjectStamp;
    if Advances(e.spec, u.objects, e.inp) { NoneStep(e.spec, u.workload, e.inp, Desired(e.spec, e.inp)); }
  }

  /** Specs that may differ in anything but what is wired and how. */
  predicate SameWiring(a: Spec, b: Spec) {
    a.rolloutNone == b.rolloutNone && WireSpec(a, "") == WireSpec(b, "")
  }

  ghost predicate AllWire(es: seq<Event>, s: Spec) {
    forall e :: e in es ==> e.Reconciled? && SameWiring(e.spec, s)
  }

  lemma SameWiringCarries(a: Spec, b: Spec, w: W.State, sha: string)
    requires SameWiring(a, b)
    ensures Carries(a, w, sha) == Carries(b, w, sha)
  {
    assert WireSpec(a, sha) == WireSpec(a, "").(configSHA := sha);
    assert WireSpec(b, sha) == WireSpec(b, "").(configSHA := sha);
    assert a.container == WireSpec(a, "").container && b.container == WireSpec(b, "").container;
    hide W.Fields, W.Target;
  }

  lemma {:induction false} SettledStays(s: Spec, v: State, es: seq<Event>)
    requires s.rolloutNone && AllWire(es, s) && Tidy(v.workload) && Settled(s, v.workload)
    ensures var w := Run(v, es).workload; Tidy(w) && Settled(s, w) && Template(w) == Template(v.workload)
  {
    if es != [] {
      var n := |es| - 1;
      var u, e := Run(v, es[..n]), es[n];
      SettledStays(s, v, es[..n]);
      assert e in es;
      SameWiringCarries(e.spec, s, u.workload, "");
      SameWiringCarries(e.spec, s, Step(u, e).workload, "");
      hide Step, Tidy, Carries, ReachesWire, Template;
      NoneEvent(u, e);
    }
  }

  /** With `rollout: none` no run following a reconcile that reached a wire touches the
      pod template again, whatever versions, failures and edits outside the wiring it
      brings. */
  lemma {:induction false} NoneNeverRestarts(v: State, e: Event, es: seq<Event>)
    requires e.Reconciled? && e.spec.rolloutNone && AllWire(es, e.spec) && Tidy(v.workload) && ReachesWire(v, e)
    ensures Template(Run(Step(v, e), es).workload) == Template(Step(v, e).workload)
  {
    NoneEvent(v, e);
    SettledStays(e.spec, Step(v, e), es);
  }

  /** At an unchanged version, a settled and stamped workload is a fixpoint of every
      further reconcile, whatever the API does. */
  lemma {:induction false} NoneIsFixpoint(s: Spec, v: State, es: seq<Event>)
    requires s.rolloutNone && AllWire(es, s) && Tidy(v.workload) && Settled(s, v.workload)
    requires forall e :: e in es && e.inp.fetch.Commit? ==> Wanted(e) == ObjectStamp(v.workload)
    ensures Run(v, es).workload == v.workload
  {
    if es != [] {
      var n := |es| - 1;
      var u, e := Run(v, es[..n]), es[n];
      NoneIsFixpoint(s, v, es[..n]);
      assert e in es;
      SameWiringCarries(e.spec, s, u.workload, "");
      hide Step, Tidy, Carries, ReachesWire, Template, ObjectStamp, Desired;
      NoneEvent(u, e);
    }
  }

  // ------------------------------------------------------- wiring under a fixed spec

  /** What a run without other writers may suppose of the workload at its start. */
  ghost predicate Untampered(s: Spec, w: W.State) {
    if s.rolloutNone then Tidy(w) else Truthful(s, w)
  }

  lemma UntamperedEvent(u: State, e: Event)
    requires e.Reconciled? && Untampered(e.spec, u.workload)
    ensures Untampered(e.spec, Step(u, e).workload)
    ensures ReachesWire(u, e) ==> Carries(e.spec, Step(u, e).workload, if e.spec.rolloutNone then "" else Wanted(e))
  {
    if e.spec.rolloutNone {
      NoneEvent(u, e);
    } else {
      StepEffects(u, e);
      hide Step, ObjectsAfter, Prepared, AllResolved, Rewired, Wires, Desired, Truthful, Carries;
      if Advances(e.spec, u.objects, e.inp) {
        DesiredNotEmpty(e.spec, e.inp);
        RewiringIsTruthful(e.spec, u.workload, e.inp, Desired(e.spec, e.inp));
      }
    }
  }

  lemma SameWiringUntampered(a: Spec, b: Spec, w: W.State)
    requires SameWiring(a, b)
    ensures Untampered(a, w) == Untampered(b, w)
  {
    SameWiringCarries(a, b, w, TemplateStamp(w));
    hide Carries, Tidy, TemplateStamp, WireSpec;
  }

  lemma {:induction false} RunIsUntampered(s: Spec, v: State, es: seq<Event>)
    requires AllWire(es, s) && Untampered(s, v.workload)
    ensures Untampered(s, Run(v, es).workload)
  {
    if es != [] {
      var n := |es| - 1;
      var u, e := Run(v, es[..n]), es[n];
      RunIsUntampered(s, v, es[..n]);
      assert e in es;
      SameWiringUntampered(e.spec, s, u.workload);
      SameWiringUntampered(e.spec, s, Step(u, e).workload);
      hide Step, Untampered, ReachesWire, Carries;
      UntamperedEvent(u, e);
    }
  }
}

/** Reconciles and finalizes interleaved with what other managers do to the same
    workload: to the others, Kohen might as well not be there. */
module Coexistence {
  import opened Reconcile
  import opened ReconcileTheorems
  import opened ReconcileEffects
  import O = Ownership
  import M = Manifests
  import W = Wiring
  import P = ServerSideApply
  import R = SecretRuns

  /** `b` differs from `a` by Kohen's own fields only. */
  ghost predicate Unobserved(a: W.State, b: W.State) {
    && b.present == a.present && b.containers == a.containers
    && P.Foreign(b.fields) == P.Foreign(a.fields) && (P.AllOwned(a.fields) ==> P.AllOwned(b.fields))
  }

  lemma MergeKeepsOwned(obj: P.Object, m: P.Manager, cfg: P.Config)
    requires P.AllOwned(obj)
    ensures P.AllOwned(P.Merge(obj, m, cfg))
  {
    assert forall p :: p in obj && obj[p].owners - {m} == {} ==> obj[p].owners == {m};
  }

  lemma PatchUnobserved(w: W.State, m: P.Manager, cfg: P.Config, api: W.Api)
    requires P.IsKohen(m)
    ensures Unobserved(w, W.Patch(w, m, cfg, api).1)
  {
    P.KohenKeepsForeign(w.fields, m, cfg);
    if P.AllOwned(w.fields) { MergeKeepsOwned(w.fields, m, cfg); }
    hide P.Merge, P.Foreign, P.AllOwned;
  }

  lemma CallsUnobserved(w: W.State, s: W.Spec, kind: string, m: P.Manager, version: string, api: W.Api)
    requires P.IsKohen(m)
    ensures Unobserved(w, W.Wire(w, s, api).1)
    ensures Unobserved(w, W.Retract(w, kind, m, api).1)
    ensures Unobserved(w, W.Stamp(w, kind, version, api).1)
  {
    forall n, cfg | P.IsKohen(n) ensures Unobserved(w, W.Patch(w, n, cfg, api).1) { PatchUnobserved(w, n, cfg, api); }
    hide W.Patch, W.Fields, P.Foreign, P.AllOwned;
  }

  lemma RewiredUnobserved(s: Spec, w: W.State, inp: Inputs, version: string)
    ensures Unobserved(w, Rewired(s, w, inp, version))
  {
    var w' := W.Wire(w, WireSpec(s, ""), inp.wireApi).1;
    CallsUnobserved(w, WireSpec(s, ""), s.kind, P.Kohen, version, inp.wireApi);
    CallsUnobserved(w, WireSpec(s, version), s.kind, P.Kohen, version, inp.wireApi);
    CallsUnobserved(w', WireSpec(s, ""), s.kind, P.Kohen, version, inp.stampApi);
    hide W.Wire, W.Stamp, WireSpec, P.Foreign, P.AllOwned;
  }

  lemma FinalizeUnobserved(s: Spec, v: State, f: FinalInputs)
    ensures Unobserved(v.workload, Finalize(s, v, f).1.workload)
  {
    hide W.Retract, Unobserved, O.Pruned, M.PruneAll;
    var w := W.Retract(v.workload, s.kind, P.Kohen, f.unwireApi).1;
    var w' := W.Retract(w, s.kind, P.KohenStamp, f.clearApi).1;
    CallsUnobserved(v.workload, WireSpec(s, ""), s.kind, P.Kohen, "", f.unwireApi);
    CallsUnobserved(w, WireSpec(s, ""), s.kind, P.KohenStamp, "", f.clearApi);
    UnobservedComposes(v.workload, w, w');
    UnobservedComposes(v.workload, v.workload, v.workload);
  }

  lemma UnobservedComposes(a: W.State, b: W.State, c: W.State)
    ensures Unobserved(a, b) && Unobserved(b, c) ==> Unobserved(a, c)
    ensures Unobserved(a, a)
  {
  }

  /** No reconcile and no finalize, whatever happens in it, is observed by the others. */
  lemma StepUnobserved(v: State, e: Event)
    requires !e.Outside?
    ensures Unobserved(v.workload, Step(v, e).workload)
  {
    match e
    case Reconciled(s, inp, saved) =>
      SyncEffects(s, v, inp);
      if Advances(s, v.objects, inp) { RewiredUnobserved(s, v.workload, inp, Desired(s, inp)); }
      hide Sync, Rewired, Advances, ObjectsAfter, Prepared, R.Step, Wires;
    case Finalized(s, f) =>
      FinalizeUnobserved(s, v, f);
      hide Finalize;
  }

  // --------------------------------------------------------------- with the others

  /** What the others do to the workload: apply their fields, change its containers,
      delete it, create it again. */
  datatype Deed =
    | Applies(manager: string, cfg: P.Config, force: bool)
    | Recontains(containers: seq<string>)
    | Deletes
    | Creates(containers: seq<string>, fields: P.Object)

  function Do(w: W.State, d: Deed): W.State {
    match d
    case Applies(m, cfg, force) =>
      if w.present then w.(fields := P.After(w.fields, P.Another(m), cfg, force)) else w
    case Recontains(cs) => if w.present then w.(containers := cs) else w
    case Deletes => W.State(false, [], map[])
    case Creates(cs, fields) => if w.present then w else W.State(true, cs, fields)
  }

  /** The workload as the others see it. */
  function Seen(w: W.State): W.State {
    w.(fields := P.Foreign(w.fields))
  }

  /** Their unforced applies are not refused for fields Kohen alone owns, and what they
      create is theirs. */
  ghost predicate Regular(w: W.State, d: Deed) {
    match d
    case Applies(m, cfg, force) =>
      !force && P.Clashes(w.fields, P.Another(m), cfg) ==> P.Clashes(P.Foreign(w.fields), P.Another(m), cfg)
    case Recontains(_) => true
    case Deletes => true
    case Creates(_, fields) => P.Foreign(fields) == fields && P.AllOwned(fields)
  }

  lemma DeedCommutes(w: W.State, d: Deed)
    requires Regular(w, d)
    ensures Seen(Do(w, d)) == Do(Seen(w), d)
    ensures P.AllOwned(w.fields) ==> P.AllOwned(Do(w, d).fields)
  {
    match d
    case Applies(m, cfg, force) =>
      if force { P.OthersMergeCommutes(w.fields, P.Another(m), cfg); }
      else { P.UnforcedCommutesExactly(w.fields, P.Another(m), cfg); }
      if P.AllOwned(w.fields) { MergeKeepsOwned(w.fields, P.Another(m), cfg); }
      hide P.Merge, P.Foreign, P.AllOwned, P.Clashes;
    case Recontains(_) =>
    case Deletes => assert P.Foreign(map[]) == map[];
    case Creates(_, _) =>
  }

  /** A reconcile or finalize, under the spec of its day, or a deed of theirs. */
  datatype Move = Ours(event: Event) | Theirs(deed: Deed)

  function MoveOn(v: State, m: Move): State {
    match m
    case Ours(e) => Step(v, e)
    case Theirs(d) => v.(workload := Do(v.workload, d))
  }

  function Play(v: State, ms: seq<Move>): State
    decreases ms
  {
    if ms == [] then v else Play(MoveOn(v, ms[0]), ms[1..])
  }

  ghost predicate AllRegular(v: State, ms: seq<Move>)
    decreases ms
  {
    ms == [] ||
    ((if ms[0].Theirs? then Regular(v.workload, ms[0].deed) else !ms[0].event.Outside?) &&
     AllRegular(MoveOn(v, ms[0]), ms[1..]))
  }

  /** The run with every step of Kohen's deleted. */
  function Alone(w: W.State, ms: seq<Move>): W.State
    decreases ms
  {
    if ms == [] then w else Alone(if ms[0].Theirs? then Do(w, ms[0].deed) else w, ms[1..])
  }

  /** Non-interference of the whole operator: after any interleaving of reconciles,
      finalizes and deeds of the others, they see the workload of the run without Kohen:
      its fields, values, owners, containers and whether it exists. */
  lemma {:induction false} OthersSeeNoKohen(v: State, ms: seq<Move>)
    requires AllRegular(v, ms)
    ensures Seen(Play(v, ms).workload) == Alone(Seen(v.workload), ms)
    ensures P.AllOwned(v.workload.fields) ==> P.AllOwned(Play(v, ms).workload.fields)
    decreases ms
  {
    if ms != [] {
      var u := MoveOn(v, ms[0]);
      OthersSeeNoKohen(u, ms[1..]);
      hide P.Foreign, P.AllOwned, Step, Do, Regular;
      if ms[0].Theirs? { DeedCommutes(v.workload, ms[0].deed); } else { StepUnobserved(v, ms[0].event); }
    }
  }

  /** Forced applies, deletions and container changes are always regular. */
  lemma {:induction false} ForcedIsRegular(v: State, ms: seq<Move>)
    requires forall m :: m in ms && m.Ours? ==> !m.event.Outside?
    requires forall m :: m in ms && m.Theirs? ==>
               (m.deed.Applies? && m.deed.force) || m.deed.Recontains? || m.deed.Deletes?
    ensures AllRegular(v, ms)
    decreases ms
  {
    if ms != [] { ForcedIsRegular(MoveOn(v, ms[0]), ms[1..]); }
  }

  /** A finalize at the end of any such run leaves no trace: the workload is exactly that
      of the run in which Kohen never existed. */
  lemma FinalizeLeavesNoTrace(s: Spec, v: State, ms: seq<Move>, f: FinalInputs)
    requires AllRegular(v, ms) && P.AllOwned(v.workload.fields) && !f.conflict
    requires Play(v, ms).workload.present && Finalize(s, Play(v, ms), f).0
    ensures Finalize(s, Play(v, ms), f).1.workload == Alone(Seen(v.workload), ms)
  {
    OthersSeeNoKohen(v, ms);
    hide P.Foreign, P.AllOwned, Finalize, Play, AllRegular;
    FinalizeExactly(s, Play(v, ms), f);
  }
}

/** At most one ConfigSync per workload: the order that decides between rivals, and
    runs in which several syncs of a namespace reconcile and finalize around one
    workload (internal/controller/configsync_controller.go:132, 462 and 506). */
module Singleton {
  import opened Text
  import opened Status
  import opened Reconcile
  import opened ReconcileTheorems
  import opened ReconcileEffects
  import opened ReconcileRuns
  import opened ReconcileWitness
  import O = Ownership
  import W = Wiring
  import P = ServerSideApply
  import M = Manifests
  import S = Secrets

  /** `spec.workloadRef`. */
  datatype Target = Target(kind: string, name: string)

  /** What singletonConflict reads of a ConfigSync. */
  datatype Peer = Peer(name: string, created: int, deleting: bool, target: Target)

  /** The older wins; ties go to the lesser name. */
  predicate WinsOver(a: Peer, b: Peer) {
    if a.created == b.created then Le(a.name, b.name) && a.name != b.name else a.created < b.created
  }

  /** A strict order, total on distinct names. */
  lemma WinsOverIsOrder(a: Peer, b: Peer, c: Peer)
    ensures !WinsOver(a, a)
    ensures WinsOver(a, b) ==> !WinsOver(b, a)
    ensures WinsOver(a, b) && WinsOver(b, c) ==> WinsOver(a, c)
    ensures a.name != b.name ==> WinsOver(a, b) || WinsOver(b, a)
    ensures WinsOver(a, b) ==>
              a.created < b.created ||
              (a.created == b.created && (a.name < b.name || exists i :: PartsAt(a.name, b.name, i)))
    ensures a.created < b.created ==> WinsOver(a, b)
  {
    LeExactly(a.name, b.name);
    LeTotal(a.name, b.name);
    LeTotal(b.name, c.name);
    if Le(a.name, b.name) && Le(b.name, c.name) { LeTransitive(a.name, b.name, c.name); }
  }

  predicate Beats(o: Peer, p: Peer) {
    o.name != p.name && !o.deleting && o.target == p.target && WinsOver(o, p)
  }

  predicate Beaten(peers: set<Peer>, p: Peer) {
    exists o :: o in peers && Beats(o, p)
  }

  /** `singletonConflict`: a failing list reads as no conflict. */
  method SingletonConflict(items: seq<Peer>, listFails: bool, p: Peer) returns (rival: Option<string>)
    ensures rival.Some? <==> !listFails && Beaten((set o | o in items), p)
    ensures rival.Some? ==> exists o :: o in items && Beats(o, p) && o.name == rival.value
  {
    if listFails { return None; }
    for i := 0 to |items|
      invariant forall j :: 0 <= j < i ==> !Beats(items[j], p)
    {
      var other := items[i];
      if other.name == p.name || other.deleting { continue; }
      if other.target == p.target && WinsOver(other, p) {
        assert other in items && Beats(other, p);
        assert other in (set o | o in items);
        return Some(other.name);
      }
    }
    return None;
  }

  ghost predicate DistinctNames(peers: set<Peer>) {
    forall a, b :: a in peers && b in peers && a.name == b.name ==> a == b
  }

  /** The live syncs on a workload. */
  ghost function Live(peers: set<Peer>, target: Target): set<Peer> {
    set p | p in peers && !p.deleting && p.target == target
  }

  lemma {:induction false} Winner(live: set<Peer>) returns (w: Peer)
    requires live != {} && forall a, b :: a in live && b in live && a.name == b.name ==> a == b
    ensures w in live && forall o :: o in live && o != w ==> WinsOver(w, o)
    decreases |live|
  {
    var x :| x in live;
    if live == {x} {
      w := x;
    } else {
      var rest := live - {x};
      assert live == rest + {x};
      var y := Winner(rest);
      WinsOverIsOrder(x, y, x);
      w := if WinsOver(x, y) then x else y;
      forall o | o in live && o != w ensures WinsOver(w, o) { WinsOverIsOrder(x, y, o); }
    }
  }

  /** Exactly one sync of a non-empty live set is unconflicted, and none is older. */
  lemma ExactlyOneUnbeaten(peers: set<Peer>, target: Target)
    requires DistinctNames(peers) && Live(peers, target) != {}
    ensures exists w :: w in Live(peers, target) && !Beaten(peers, w) &&
              (forall o :: o in Live(peers, target) && !Beaten(peers, o) ==> o == w) &&
              forall o :: o in Live(peers, target) ==> w.created <= o.created
  {
    var w := Winner(Live(peers, target));
    forall o | o in peers ensures !Beats(o, w) {
      WinsOverIsOrder(o, w, o);
      assert o in Live(peers, target) <==> !o.deleting && o.target == target;
    }
    forall o | o in Live(peers, target) && o != w ensures Beaten(peers, o) {
      assert w in peers && Beats(w, o);
    }
    forall o | o in Live(peers, target) ensures w.created <= o.created {
      if o != w { WinsOverIsOrder(w, o, w); }
    }
  }

  // ------------------------------------------------------------- several syncs at work

  datatype Member = Member(peer: Peer, spec: Spec, st: CsStatus, exceededTotal: nat)

  /** The syncs of a namespace by name, the namespace's objects and its workloads. */
  datatype System = System(members: map<string, Member>, objects: O.Objects, workloads: map<Target, W.State>)

  datatype Action =
    | Reconciles(name: string, inp: Inputs, listFails: bool, saved: bool)
    | Finalizes(name: string, f: FinalInputs, listFails: bool)
    | Joins(member: Member)
    | MarkedDeleted(name: string)
    | Leaves(name: string)

  function WorkloadAt(sys: System, t: Target): W.State {
    if t in sys.workloads then sys.workloads[t] else W.State(false, [], map[])
  }

  /** The member's spec, aimed at the workload it names. */
  function SpecOf(m: Member): Spec {
    m.spec.(kind := m.peer.target.kind)
  }

  ghost function Peers(sys: System): set<Peer> {
    set n | n in sys.members :: sys.members[n].peer
  }

  ghost predicate Conflict(sys: System, name: string, listFails: bool)
    requires name in sys.members
  {
    !listFails && Beaten(Peers(sys), sys.members[name].peer)
  }

  function StateOf(sys: System, m: Member): State {
    State(m.st, sys.objects, WorkloadAt(sys, m.peer.target), m.exceededTotal)
  }

  /** The system after member `m` left state `v` behind. */
  function Leave(sys: System, m: Member, v: State): System {
    sys.(objects := v.objects, workloads := sys.workloads[m.peer.target := v.workload])
  }

  ghost function Step(sys: System, a: Action): System {
    match a
    case Reconciles(name, inp, listFails, saved) =>
      if name !in sys.members || sys.members[name].peer.deleting then sys
      else
        var m := sys.members[name];
        var v := Sync(SpecOf(m), StateOf(sys, m), inp.(conflict := Conflict(sys, name, listFails))).1;
        var m' := m.(st := if saved then v.st else m.st, exceededTotal := v.exceededTotal);
        Leave(sys, m, v).(members := sys.members[name := m'])
    case Finalizes(name, f, listFails) =>
      if name !in sys.members || !sys.members[name].peer.deleting then sys
      else
        var m := sys.members[name];
        var (done, v) := Finalize(SpecOf(m), StateOf(sys, m), f.(conflict := Conflict(sys, name, listFails)));
        Leave(sys, m, v).(members := if done then sys.members - {name} else sys.members)
    case Joins(m) => if m.peer.name in sys.members then sys else sys.(members := sys.members[m.peer.name := m])
    case MarkedDeleted(name) =>
      if name !in sys.members then sys
      else
        var m := sys.members[name];
        sys.(members := sys.members[name := m.(peer := m.peer.(deleting := true))])
    case Leaves(name) => sys.(members := sys.members - {name})
  }

  ghost function Run(sys: System, acts: seq<Action>): System {
    if acts == [] then sys else Step(Run(sys, acts[..|acts| - 1]), acts[|acts| - 1])
  }

  /** Step `i` of the run changed workload `t`. */
  ghost predicate Writes(sys: System, acts: seq<Action>, i: nat, t: Target)
    requires i < |acts|
  {
    WorkloadAt(Run(sys, acts[..i + 1]), t) != WorkloadAt(Run(sys, acts[..i]), t)
  }

  lemma OnlyTheUnbeatenWrite(sys: System, a: Action, t: Target)
    requires WorkloadAt(Step(sys, a), t) != WorkloadAt(sys, t)
    ensures (a.Reconciles? || a.Finalizes?) && a.name in sys.members
    ensures sys.members[a.name].peer.target == t && !Conflict(sys, a.name, a.listFails)
  {
    match a
    case Reconciles(name, inp, listFails, saved) =>
      if name in sys.members && !sys.members[name].peer.deleting && Conflict(sys, name, listFails) {
        EarlyExit(SpecOf(sys.members[name]), StateOf(sys, sys.members[name]), inp.(conflict := true));
      }
      hide Sync, Conflict;
    case Finalizes(name, f, listFails) =>
      if name in sys.members && sys.members[name].peer.deleting && Conflict(sys, name, listFails) {
        LoserSpares(SpecOf(sys.members[name]), StateOf(sys, sys.members[name]), f.(conflict := true));
      }
      hide Finalize, Conflict;
    case Joins(m) =>
    case MarkedDeleted(name) =>
    case Leaves(name) =>
  }

  lemma LoserSpares(s: Spec, v: State, f: FinalInputs)
    requires f.conflict
    ensures Finalize(s, v, f).1.workload == v.workload
  {
    hide W.Retract, O.Pruned, M.PruneAll;
  }

  /** In every run of reconciles, finalizes, arrivals and departures, whoever changes a
      workload targets it and has no live winning rival, unless its list call failed. */
  lemma LosersNeverWrite(sys: System, acts: seq<Action>, i: nat, t: Target)
    requires i < |acts| && Writes(sys, acts, i, t)
    ensures (acts[i].Reconciles? || acts[i].Finalizes?) && acts[i].name in Run(sys, acts[..i]).members
    ensures var u := Run(sys, acts[..i]);
            var p := u.members[acts[i].name].peer;
            p.target == t && (acts[i].listFails || !Beaten(Peers(u), p))
  {
    assert acts[..i + 1][..i] == acts[..i] && acts[..i + 1][i] == acts[i];
    OnlyTheUnbeatenWrite(Run(sys, acts[..i]), acts[i], t);
    hide Step;
  }

  // ------------------------------------------------------------------- one writer

  ghost predicate WellNamed(sys: System) {
    forall n :: n in sys.members ==> sys.members[n].peer.name == n
  }

  /** Nobody arrives, leaves or is being deleted, and every list call succeeds. */
  ghost predicate Quiet(acts: seq<Action>) {
    forall a :: a in acts ==> a.Reconciles? && !a.listFails
  }

  lemma QuietStep(sys: System, a: Action)
    requires WellNamed(sys) && a.Reconciles?
    ensures var s' := Step(sys, a);
            && WellNamed(s') && s'.members.Keys == sys.members.Keys
            && forall n :: n in sys.members ==> s'.members[n].peer == sys.members[n].peer
  {
    hide Sync;
  }

  lemma {:induction false} QuietRun(sys: System, acts: seq<Action>)
    requires WellNamed(sys) && Quiet(acts)
    ensures var s' := Run(sys, acts);
            && WellNamed(s') && s'.members.Keys == sys.members.Keys
            && forall n :: n in sys.members ==> s'.members[n].peer == sys.members[n].peer
  {
    if acts != [] {
      QuietRun(sys, acts[..|acts| - 1]);
      assert acts[|acts| - 1] in acts;
      QuietStep(Run(sys, acts[..|acts| - 1]), acts[|acts| - 1]);
      hide Step;
    }
  }

  lemma SamePeers(a: System, b: System)
    requires a.members.Keys == b.members.Keys && forall n :: n in a.members ==> a.members[n].peer == b.members[n].peer
    ensures Peers(a) == Peers(b)
  {
    forall p ensures p in Peers(a) <==> p in Peers(b) {
      if p in Peers(a) { var n :| n in a.members && a.members[n].peer == p; assert b.members[n].peer == p; }
      if p in Peers(b) { var n :| n in b.members && b.members[n].peer == p; assert a.members[n].peer == p; }
    }
  }

  /** With the set of syncs fixed, all writes to one workload in a run come from one and
      the same sync. */
  lemma OneWriter(sys: System, acts: seq<Action>, t: Target, i: nat, j: nat)
    requires WellNamed(sys) && Quiet(acts)
    requires i < |acts| && j < |acts| && Writes(sys, acts, i, t) && Writes(sys, acts, j, t)
    ensures acts[i].name == acts[j].name
  {
    var p := WriterUnbeaten(sys, acts, i, t);
    var q := WriterUnbeaten(sys, acts, j, t);
    WinsOverIsOrder(p, q, p);
    hide Writes, Run;
    if p.name != q.name {
      assert !Beats(q, p) && !Beats(p, q);
      assert p in Peers(sys) && q in Peers(sys);
    }
  }

  lemma WriterUnbeaten(sys: System, acts: seq<Action>, i: nat, t: Target) returns (p: Peer)
    requires WellNamed(sys) && Quiet(acts) && i < |acts| && Writes(sys, acts, i, t)
    ensures acts[i].name in sys.members && p == sys.members[acts[i].name].peer && p.target == t
    ensures p.name == acts[i].name && p in Peers(sys) && !Beaten(Peers(sys), p) && !p.deleting
  {
    assert acts[i] in acts;
    assert Quiet(acts[..i]) by { assert forall a :: a in acts[..i] ==> a in acts; }
    QuietRun(sys, acts[..i]);
    SamePeers(sys, Run(sys, acts[..i]));
    LosersNeverWrite(sys, acts, i, t);
    p := sys.members[acts[i].name].peer;
    assert acts[..i + 1][..i] == acts[..i] && acts[..i + 1][i] == acts[i];
  }

  // --------------------------------------------------------------------- deletion

  /** A finalize that runs through to the end. */
  ghost predicate Departs(sys: System, name: string, f: FinalInputs, listFails: bool) {
    && name in sys.members && sys.members[name].peer.deleting
    && name !in Step(sys, Finalizes(name, f, listFails)).members
  }

  /** A sync under deletion is ignored by its rivals but still unwires: a finalize that
      runs through spares Kohen's fields on its workload, a successor's included,
      exactly if its list call succeeds and shows a live rival that wins over it. */
  lemma FinalizeSparesExactly(sys: System, name: string, f: FinalInputs, listFails: bool)
    requires Departs(sys, name, f, listFails)
    requires var w := WorkloadAt(sys, sys.members[name].peer.target);
             w.present && P.AllOwned(w.fields) && P.Foreign(w.fields) != w.fields
    ensures var p := sys.members[name].peer;
            WorkloadAt(Step(sys, Finalizes(name, f, listFails)), p.target) == WorkloadAt(sys, p.target) <==>
            !listFails && Beaten(Peers(sys), p)
  {
    var m := sys.members[name];
    hide Finalize, P.Foreign, P.AllOwned, Beaten;
    FinalizeExactly(SpecOf(m), StateOf(sys, m), f.(conflict := Conflict(sys, name, listFails)));
  }

  /** The older sync being deleted and its live successor are both unconflicted, so
      that both may write. */
  lemma BothUnconflicted(d: Peer, n: Peer)
    requires d.deleting && !n.deleting && WinsOver(d, n)
    ensures !Beaten({d, n}, d) && !Beaten({d, n}, n)
  {
    WinsOverIsOrder(d, n, d);
  }

  // --------------------------------------------------------------- losing the wiring

  const WEB := Target("Deployment", "web")

  /** The config volume as the successor wired it. */
  const WIRED := W.State(true, ["main"], map[P.VolumeItem(W.VOLUME_NAME) := P.Field("", {P.Kohen})])

  function Sketch(peer: Peer): Member {
    var spec := Spec(O.Owner(peer.name, peer.name), M.Guard("ns", []), "Deployment", "", "", peer.name, false, [], 0);
    Member(peer, spec, CsStatus(map[], S.Ledger([], None), "", "", "", false), 0)
  }

  /** A sync under deletion, created at `created`, beside a live one created at 2. */
  function Pair(created: int): System {
    System(map["d" := Sketch(Peer("d", created, true, WEB)), "n" := Sketch(Peer("n", 2, false, WEB))], map[],
           map[WEB := WIRED])
  }

  const SMOOTH := FinalInputs(false, W.Up, W.Up, O.Clean, {}, O.Clean, O.Clean)

  lemma PairPeers(created: int)
    ensures Peers(Pair(created)) == {Peer("d", created, true, WEB), Peer("n", 2, false, WEB)}
    ensures Beaten(Peers(Pair(created)), Peer("d", created, true, WEB)) <==> created > 2
  {
    var sys, d, n := Pair(created), Peer("d", created, true, WEB), Peer("n", 2, false, WEB);
    assert sys.members["d"].peer == d && sys.members["n"].peer == n;
    assert !Le("n", "d") && (Beats(n, d) <==> created > 2);
  }

  lemma SmoothFinalize(s: Spec, v: State)
    requires W.Supported(s.kind) && v.workload == WIRED
    ensures Finalize(s, v, SMOOTH).0 && Finalize(s, v, SMOOTH).1.workload.fields == map[]
  {
    var fates := [O.Clean, O.Clean];
    assert fates[..1] == [O.Clean] && [O.Clean][..0] == [];
    var objs := O.Pruned(v.objects, s.owner.name, O.ConfigMaps, [], O.Clean);
    assert M.PruneAll(objs, s.owner, [], {}, []) == (true, objs);
    assert M.PruneAll(objs, s.owner, [], {}, [O.Clean]).0;
    assert M.PruneAll(objs, s.owner, [], {}, fates).0;
    EmptyApply(WIRED.fields, P.Kohen);
    assert P.Merge(WIRED.fields, P.Kohen, map[]) == map[];
    EmptyApply(map[], P.KohenStamp);
    assert P.Merge(map[], P.KohenStamp, map[]) == map[];
    hide O.Pruned, M.PruneAll, P.Merge;
  }

  lemma EmptyApply(o: P.Object, m: P.Manager)
    ensures P.Apply(o, m, map[], false) == Some(P.Merge(o, m, map[]))
  {
  }

  lemma PairFinalizes(created: int, listFails: bool)
    requires listFails || created <= 2
    ensures WorkloadAt(Pair(created), WEB) == WIRED
    ensures WorkloadAt(Step(Pair(created), Finalizes("d", SMOOTH, listFails)), WEB).fields == map[]
  {
    var sys := Pair(created);
    PairPeers(created);
    var m := sys.members["d"];
    assert m.peer == Peer("d", created, true, WEB) && StateOf(sys, m).workload == WIRED;
    assert !Conflict(sys, "d", listFails);
    SmoothFinalize(SpecOf(m), StateOf(sys, m));
    hide Finalize, Peers, Beaten;
  }

  /** A live successor whose fields the older sync's finalize takes away. */
  lemma SuccessorStripped()
    ensures !Beaten(Peers(Pair(1)), Peer("n", 2, false, WEB)) &&
            P.OwnedBy(WorkloadAt(Pair(1), WEB).fields, P.Kohen) != {}
    ensures WorkloadAt(Step(Pair(1), Finalizes("d", SMOOTH, false)), WEB).fields == map[]
  {
    PairPeers(1);
    PairFinalizes(1, false);
    assert P.VolumeItem(W.VOLUME_NAME) in P.OwnedBy(WIRED.fields, P.Kohen);
    hide Step, Pair;
  }

  /** A beaten sync, newer than its rival, does the same when its list call fails. */
  lemma FailedListStrips()
    ensures Beaten(Peers(Pair(3)), Peer("d", 3, true, WEB)) && WorkloadAt(Pair(3), WEB) == WIRED
    ensures WorkloadAt(Step(Pair(3), Finalizes("d", SMOOTH, true)), WEB).fields == map[]
  {
    PairPeers(3);
    PairFinalizes(3, true);
    hide Step, Pair;
  }

  // ------------------------------------------------------- over the elder's fields

  /** In auto mode an unbeaten sync whose WorkloadWired is set True leaves its own fields
      on the workload exactly if it wired them just now or, the stamp matching already,
      the workload carried them before, whoever had wired it. */
  lemma SuccessorCarriesExactly(sys: System, name: string, inp: Inputs, listFails: bool, saved: bool)
    requires name in sys.members && !sys.members[name].peer.deleting && !Conflict(sys, name, listFails)
    requires var m := sys.members[name];
             && !SpecOf(m).rolloutNone && !inp.conflict && Advances(SpecOf(m), sys.objects, inp)
             && Wires(SpecOf(m), WorkloadAt(sys, m.peer.target), inp, Desired(SpecOf(m), inp))
    ensures var m, t := sys.members[name], sys.members[name].peer.target;
            var version, w := Desired(SpecOf(m), inp), WorkloadAt(sys, t);
            Carries(SpecOf(m), WorkloadAt(Step(sys, Reconciles(name, inp, listFails, saved)), t), version) <==>
            (TemplateStamp(w) == version ==> Carries(SpecOf(m), w, version))
  {
    var m := sys.members[name];
    SyncEffects(SpecOf(m), StateOf(sys, m), inp);
    DesiredNotEmpty(SpecOf(m), inp);
    assert inp.(conflict := false) == inp;
    hide Sync, Rewired, Carries, Wires, Prepared, ObjectsAfter, Desired, Conflict, AllResolved, TemplateStamp;
    WiredCarriesExactly(SpecOf(m), WorkloadAt(sys, m.peer.target), inp, Desired(SpecOf(m), inp));
  }

  /** An elder under deletion that wired the workload without references, and its live
      successor that lists one, at the same version. */
  function Heirs(): System {
    var elder := Sketch(Peer("d", 1, true, WEB)).(spec := PLAIN);
    var heir := Sketch(Peer("n", 2, false, WEB)).(spec := SPEC);
    System(map["d" := elder, "n" := heir], map[], map[WEB := WiredPlain()])
  }

  /** Reconciling before the elder is finalized, the successor finds the stamp matching,
      skips the wire and ends Ready over the elder's fields, its reference not served. */
  lemma SuccessorReadyOverElder()
    ensures var sys' := Step(Heirs(), Reconciles("n", Fine(true, 2), false, true));
            && "n" in sys'.members && Holds(sys'.members["n"].st, Ready)
            && WorkloadAt(sys', WEB) == WiredPlain() && !Serves(WorkloadAt(sys', WEB), "main", REF)
  {
    var sys := Heirs();
    var m := sys.members["n"];
    HeirUnbeaten();
    assert SpecOf(m) == SPEC && StateOf(sys, m).workload == WiredPlain();
    hide Sync, Conflict, Peers, Serves, WiredPlain, Fine;
    HeirSucceeds(StateOf(sys, m));
  }

  lemma HeirUnbeaten()
    ensures !Conflict(Heirs(), "n", false)
  {
    var sys, d, n := Heirs(), Peer("d", 1, true, WEB), Peer("n", 2, false, WEB);
    assert sys.members["d"].peer == d && sys.members["n"].peer == n;
    assert forall o :: o in Peers(sys) ==> !Beats(o, n);
    hide WiredPlain;
  }

  lemma HeirSucceeds(u: State)
    requires u.objects == map[] && u.workload == WiredPlain()
    ensures var v := Sync(SPEC, u, Fine(true, 2)).1;
            Holds(v.st, Ready) && v.workload == u.workload && !Serves(u.workload, "main", REF)
    ensures Fine(true, 2).(conflict := false) == Fine(true, 2)
  {
    assert Clear(u.objects);
    EditedSucceeds(u);
    PlainLacksSecret();
    PlainWires(1);
    hide Sync, Prepared, ObjectsAfter, Rewired, VersionFor, WireSpec, Wires, RollsOut, W.Fields, Clear;
    SyncEffects(SPEC, u, Fine(true, 2));
    ReadyExactly(SPEC, u, Fine(true, 2));
  }
}

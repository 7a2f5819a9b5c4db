/** internal/apply/apply.go: objects Kohen owns fully, in one namespace. Apply never
    adopts; Prune selects by labels alone. */
module Ownership {
  import opened Text

  const MANAGED_BY_VALUE := "kohen"

  datatype Kind = ConfigMaps | ExternalSecrets

  datatype Id = Id(kind: Kind, name: string)

  /** The two ownership labels ("" when absent), the controller reference's UID, and
      what the applier put into the object. */
  datatype Obj = Obj(managedBy: string, owner: string, controller: Option<string>, content: string)

  type Objects = map<Id, Obj>

  datatype Owner = Owner(name: string, uid: string)

  predicate Labelled(o: Obj, name: string) {
    o.managedBy == MANAGED_BY_VALUE && o.owner == name
  }

  predicate OwnedBy(o: Obj, owner: Owner) {
    Labelled(o, owner.name) && (o.controller == Some(owner.uid) || owner.uid == "")
  }

  /** What the API does to one Apply call. */
  datatype Api = Up | GetFails | ReferenceFails | PatchFails

  datatype Outcome = Done | NotOwned | Failed

  function Made(owner: Owner, content: string): Obj {
    Obj(MANAGED_BY_VALUE, owner.name, Some(owner.uid), content)
  }

  function Apply(objs: Objects, owner: Owner, id: Id, content: string, api: Api): (Outcome, Objects) {
    if api == GetFails then (Failed, objs)
    else if id in objs && !OwnedBy(objs[id], owner) then (NotOwned, objs)
    else if api != Up then (Failed, objs)
    else (Done, objs[id := Made(owner, content)])
  }

  /** The object is labelled for `owner`, controlled by it, and holds `content`. */
  predicate Bears(o: Obj, owner: Owner, content: string) {
    o.managedBy == "kohen" && o.owner == owner.name && o.controller == Some(owner.uid) && o.content == content
  }

  /** No adoption: Kohen may write where nothing is, and what is labelled for the owner
      and, unless it has no UID, controlled by it. */
  predicate MayWrite(objs: Objects, owner: Owner, id: Id) {
    id in objs ==>
      && objs[id].managedBy == "kohen" && objs[id].owner == owner.name
      && (objs[id].controller == Some(owner.uid) || owner.uid == "")
  }

  /** When an apply succeeds, when it is refused, and what it leaves. */
  lemma AppliedExactly(objs: Objects, owner: Owner, id: Id, content: string, api: Api)
    ensures var (r, o) := Apply(objs, owner, id, content, api);
            && (r == Done <==> api == Up && MayWrite(objs, owner, id))
            && (r == NotOwned <==> api != GetFails && !MayWrite(objs, owner, id))
            && (r == Done ==> id in o && Bears(o[id], owner, content) && o - {id} == objs - {id})
            && (r != Done ==> o == objs)
  {
    var o := objs[id := Made(owner, content)];
    assert o - {id} == objs - {id};
  }

  // ---------------------------------------------------------------------- pruning

  predicate Selected(objs: Objects, owner: string, kind: Kind, id: Id) {
    id in objs && id.kind == kind && Labelled(objs[id], owner)
  }

  function Doomed(objs: Objects, owner: string, kind: Kind, keep: seq<string>): set<Id> {
    set id | id in objs && Selected(objs, owner, kind, id) && id.name !in keep
  }

  /** How one Prune call went; a failing one has deleted `gone` before it stopped. */
  datatype Fate = Clean | ListFails | DeleteFails(gone: set<Id>)

  function Pruned(objs: Objects, owner: string, kind: Kind, keep: seq<string>, fate: Fate): Objects {
    match fate
    case Clean => objs - Doomed(objs, owner, kind, keep)
    case ListFails => objs
    case DeleteFails(gone) => objs - (Doomed(objs, owner, kind, keep) * gone)
  }

  /** `PruneKind`: a version the cluster does not serve has nothing to prune. */
  function PrunedKind(objs: Objects, owner: string, kind: Kind, keep: seq<string>, served: bool, fate: Fate): Objects {
    if served then Pruned(objs, owner, kind, keep, fate) else objs
  }

  /** The objects as the API server holds them. */
  class Cluster {
    var objects: Objects

    method ApplyObject(owner: Owner, id: Id, content: string, api: Api) returns (r: Outcome)
      modifies this
      ensures (r, objects) == Apply(old(objects), owner, id, content, api)
    {
      if api == GetFails { return Failed; }
      if id in objects {
        var o := objects[id];
        if o.managedBy != MANAGED_BY_VALUE || o.owner != owner.name { return NotOwned; }
        if o.controller != Some(owner.uid) && owner.uid != "" { return NotOwned; }
      }
      if api == ReferenceFails || api == PatchFails { return Failed; }
      objects := objects[id := Made(owner, content)];
      return Done;
    }

    /** Lists by label, then deletes what is not kept, one by one in any order; stops
        at the first delete that fails, as it does for `stuck` objects. */
    method Prune(owner: string, kind: Kind, keep: seq<string>, listFails: bool, stuck: set<Id>) returns (fate: Fate)
      modifies this
      ensures objects == Pruned(old(objects), owner, kind, keep, fate)
      ensures fate.ListFails? <==> listFails
      ensures fate.Clean? <==> !listFails && Doomed(old(objects), owner, kind, keep) !! stuck
      ensures fate.DeleteFails? ==> fate.gone < Doomed(old(objects), owner, kind, keep) && fate.gone !! stuck
    {
      if listFails { return ListFails; }
      var keepSet: set<string> := {};
      for i := 0 to |keep|
        invariant objects == old(objects) && forall n :: n in keepSet <==> n in keep[..i]
      {
        assert keep[..i + 1] == keep[..i] + [keep[i]];
        keepSet := keepSet + {keep[i]};
      }
      assert keep[..|keep|] == keep;
      var items := set id | id in objects && Selected(objects, owner, kind, id);
      assert Unkept(items, keepSet) == Doomed(objects, owner, kind, keep);
      fate := DeleteUnkept(items, keepSet, stuck);
    }

    method PruneKind(owner: string, kind: Kind, keep: seq<string>, served: bool, listFails: bool, stuck: set<Id>)
      returns (fate: Fate)
      modifies this
      ensures objects == PrunedKind(old(objects), owner, kind, keep, served, fate)
      ensures !served ==> fate.Clean?
      ensures served ==> (fate.Clean? <==> !listFails && Doomed(old(objects), owner, kind, keep) !! stuck)
    {
      if !served { return Clean; }
      fate := Prune(owner, kind, keep, listFails, stuck);
    }

    /** The delete loop of Prune. */
    method DeleteUnkept(listed: set<Id>, keepSet: set<string>, stuck: set<Id>) returns (fate: Fate)
      modifies this
      ensures fate.Clean? ==> Unkept(listed, keepSet) !! stuck && objects == old(objects) - Unkept(listed, keepSet)
      ensures fate.DeleteFails? ==> fate.gone < Unkept(listed, keepSet) && fate.gone !! stuck
      ensures fate.DeleteFails? ==> objects == old(objects) - fate.gone
      ensures fate.DeleteFails? <==> !(Unkept(listed, keepSet) !! stuck)
      ensures !fate.ListFails?
    {
      var items, gone: set<Id> := listed, {};
      while items != {}
        invariant items <= listed && gone == Unkept(listed, keepSet) - items && gone !! stuck
        invariant objects == old(objects) - gone
        decreases |items|
      {
        var o :| o in items;
        if o.name !in keepSet {
          if o in stuck {
            assert o in Unkept(listed, keepSet) && o !in gone;
            return DeleteFails(gone);
          }
          objects := objects - {o};
          gone := gone + {o};
        }
        items := items - {o};
      }
      return Clean;
    }
  }

  ghost function Unkept(items: set<Id>, keepSet: set<string>): set<Id> {
    set id | id in items && id.name !in keepSet
  }

  // ------------------------------------------------------------------- whole runs

  datatype Op =
    | ApplyOp(owner: Owner, id: Id, content: string, api: Api)
    | PruneOp(owner: Owner, kind: Kind, keep: seq<string>, fate: Fate)

  function Step(objs: Objects, op: Op): Objects {
    match op
    case ApplyOp(owner, id, content, api) => Apply(objs, owner, id, content, api).1
    case PruneOp(owner, kind, keep, fate) => Pruned(objs, owner.name, kind, keep, fate)
  }

  function Run(objs: Objects, ops: seq<Op>): Objects
    decreases ops
  {
    if ops == [] then objs else Run(Step(objs, ops[0]), ops[1..])
  }

  /** Whatever the acting owners do, an object labelled for none of them, an
      unlabelled one in particular, is neither changed nor deleted. */
  lemma {:induction false} OthersUntouched(objs: Objects, ops: seq<Op>, id: Id)
    requires id in objs && forall op :: op in ops ==> !Labelled(objs[id], op.owner.name)
    ensures id in Run(objs, ops) && Run(objs, ops)[id] == objs[id]
    decreases ops
  {
    if ops != [] {
      assert ops[0] in ops;
      OthersUntouched(Step(objs, ops[0]), ops[1..], id);
    }
  }

  /** The object is there after every prefix of the run. */
  ghost predicate Survives(objs: Objects, ops: seq<Op>, id: Id)
    decreases ops
  {
    id in objs && (ops == [] || Survives(Step(objs, ops[0]), ops[1..], id))
  }

  /** While an object exists, no interleaving changes its labels or controller. */
  lemma {:induction false} OwnerNeverChanges(objs: Objects, ops: seq<Op>, id: Id)
    requires Survives(objs, ops, id) && forall op :: op in ops ==> op.owner.uid != ""
    ensures id in Run(objs, ops) && Run(objs, ops)[id].(content := "") == objs[id].(content := "")
    decreases ops
  {
    if ops != [] {
      assert ops[0].owner.uid != "";
      OwnerNeverChanges(Step(objs, ops[0]), ops[1..], id);
    }
  }

  /** The one way an existing object's owner changes: an owner without a UID. */
  lemma RetargetsExactly(objs: Objects, owner: Owner, id: Id, content: string, api: Api)
    requires id in objs && Apply(objs, owner, id, content, api).0 == Done
    ensures Apply(objs, owner, id, content, api).1[id].(content := "") != objs[id].(content := "") <==>
            owner.uid == "" && objs[id].controller != Some("")
  {
  }

  /** Every managed object carries its named owner's UID. */
  ghost predicate Consistent(objs: Objects, uid: string -> string) {
    forall id :: id in objs && objs[id].managedBy == MANAGED_BY_VALUE ==>
      objs[id].controller == Some(uid(objs[id].owner))
  }

  lemma {:induction false} RunKeepsConsistent(objs: Objects, ops: seq<Op>, uid: string -> string)
    requires Consistent(objs, uid) && forall op :: op in ops ==> op.owner.uid == uid(op.owner.name)
    ensures Consistent(Run(objs, ops), uid)
    decreases ops
  {
    if ops != [] {
      assert ops[0] in ops;
      RunKeepsConsistent(Step(objs, ops[0]), ops[1..], uid);
    }
  }

  /** With distinctly named owners labels and controller agree throughout, so that
      Prune, which looks at labels alone, deletes only what its owner controls. */
  lemma PruneDeletesOwn(objs: Objects, ops: seq<Op>, uid: string -> string, p: Op, id: Id)
    requires Consistent(objs, uid) && p.PruneOp? && p.owner.uid == uid(p.owner.name)
    requires forall op :: op in ops ==> op.owner.uid == uid(op.owner.name)
    requires id in Run(objs, ops) && id !in Step(Run(objs, ops), p)
    ensures Run(objs, ops)[id].controller == Some(p.owner.uid)
  {
    RunKeepsConsistent(objs, ops, uid);
    assert id in Doomed(Run(objs, ops), p.owner.name, p.kind, p.keep);
  }

  /** An object the prune is about to delete although another UID controls it. */
  ghost predicate Uncontrolled(objs: Objects, p: Op, id: Id)
    requires p.PruneOp?
  {
    && Selected(objs, p.owner.name, p.kind, id) && id.name !in p.keep
    && objs[id].controller != Some(p.owner.uid)
  }

  /** A prune deletes something its owner does not control exactly if such an object is
      labelled for its name and not kept: the UID is never looked at. */
  lemma PrunesUncontrolledExactly(objs: Objects, p: Op)
    requires p.PruneOp? && p.fate.Clean?
    ensures (exists id :: id in objs && id !in Step(objs, p) && objs[id].controller != Some(p.owner.uid)) <==>
            (exists id :: Uncontrolled(objs, p, id))
  {
    var d := Doomed(objs, p.owner.name, p.kind, p.keep);
    if id :| id in objs && id !in Step(objs, p) && objs[id].controller != Some(p.owner.uid) {
      assert id in d;
      assert Uncontrolled(objs, p, id);
    }
    if id :| Uncontrolled(objs, p, id) {
      assert id in d;
      assert id in objs && id !in Step(objs, p);
    }
  }

  /** The object was there at the start, under the same owner. */
  ghost predicate Inherited(objs: Objects, id: Id, o: Obj) {
    id in objs && objs[id].(content := "") == o.(content := "")
  }

  ghost predicate AppliedBy(ops: seq<Op>, id: Id, o: Obj, owner: Owner) {
    o.(content := "") == Made(owner, "") && exists op :: op in ops && op.ApplyOp? && op.id == id && op.owner == owner
  }

  lemma {:induction false} Origin(objs: Objects, ops: seq<Op>, id: Id)
    requires id in Run(objs, ops)
    ensures var o := Run(objs, ops)[id]; Inherited(objs, id, o) || exists owner :: AppliedBy(ops, id, o, owner)
    decreases ops
  {
    if ops != [] {
      var next, o := Step(objs, ops[0]), Run(objs, ops)[id];
      Origin(next, ops[1..], id);
      assert forall op :: op in ops[1..] ==> op in ops;
      if owner :| AppliedBy(ops[1..], id, o, owner) {
        assert AppliedBy(ops, id, o, owner);
      } else if !Inherited(objs, id, o) {
        assert ops[0] in ops && ops[0].ApplyOp? && ops[0].id == id;
        assert AppliedBy(ops, id, o, ops[0].owner);
      }
    }
  }

  /** Whatever UIDs the owners have: what a prune deletes without controlling it was
      there at the start or applied by an earlier incarnation, of the same name and
      another UID. */
  lemma {:induction false} PruneReachesIncarnations(objs: Objects, ops: seq<Op>, p: Op, id: Id)
    requires p.PruneOp? && id in Run(objs, ops) && id !in Step(Run(objs, ops), p)
    ensures var o := Run(objs, ops)[id];
            || o.controller == Some(p.owner.uid) || Inherited(objs, id, o)
            || exists uid :: uid != p.owner.uid && AppliedBy(ops, id, o, Owner(p.owner.name, uid))
  {
    var o := Run(objs, ops)[id];
    assert id in Doomed(Run(objs, ops), p.owner.name, p.kind, p.keep);
    Origin(objs, ops, id);
    if !Inherited(objs, id, o) {
      var owner :| AppliedBy(ops, id, o, owner);
      assert owner == Owner(p.owner.name, owner.uid) && o.controller == Some(owner.uid);
    }
  }

  /** A ConfigSync created again under its old name prunes what it may not apply to. */
  lemma RecreatedPrunesWhatItMayNotApply(id: Id, content: string)
    ensures var objs := Run(map[], [ApplyOp(Owner("n", "1"), id, content, Up)]);
            && id in objs && Apply(objs, Owner("n", "2"), id, content, Up).0 == NotOwned
            && id !in Step(objs, PruneOp(Owner("n", "2"), id.kind, [], Clean))
  {
    var op := ApplyOp(Owner("n", "1"), id, content, Up);
    var objs := Step(map[], op);
    assert Run(objs, []) == objs && [op][1..] == [];
    assert id in Doomed(objs, "n", id.kind, []);
  }

  /** A clean prune deletes exactly what is of the kind, labelled for the owner and not
      kept, and leaves the rest as it is. */
  lemma PrunedExactly(objs: Objects, owner: string, kind: Kind, keep: seq<string>, id: Id)
    ensures var o := Pruned(objs, owner, kind, keep, Clean);
            && (id in o <==>
                id in objs && !(id.kind == kind && objs[id].managedBy == "kohen" && objs[id].owner == owner &&
                                id.name !in keep))
            && (id in o ==> o[id] == objs[id])
  {
    assert id in Doomed(objs, owner, kind, keep) <==>
           id in objs && Selected(objs, owner, kind, id) && id.name !in keep;
  }
}

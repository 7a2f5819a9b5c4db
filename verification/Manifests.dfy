/** internal/controller/manifests.go and internal/manifest/guard.go: applying the
    ExternalSecret manifests found in git, all of them validated first. */
module Manifests {
  import opened Text
  import opened Ownership

  const GROUP := "external-secrets.io"
  const KIND := "ExternalSecret"
  const PRUNE_VERSIONS := ["v1", "v1beta1"]

  /** A loaded manifest; `stores` are the secret stores it references anywhere,
      `generator` whether an entry uses a generatorRef. */
  datatype Manifest = Manifest(
    group: string, version: string, kind: string, name: string, namespace: string,
    stores: seq<string>, generator: bool, content: string)

  datatype Guard = Guard(namespace: string, storeAllowList: seq<string>)

  datatype Violation = KindNotAllowed | NameMissing | NamespaceViolation | StoreNotAllowed

  predicate StoresAllowed(m: Manifest, g: Guard) {
    g.storeAllowList == [] ||
    (!m.generator && m.stores != [] && forall s :: s in m.stores ==> s in g.storeAllowList)
  }

  function ViolationOf(m: Manifest, g: Guard): Option<Violation> {
    if m.kind != KIND || m.group != GROUP then Some(KindNotAllowed)
    else if m.name == "" then Some(NameMissing)
    else if m.namespace != "" && m.namespace != g.namespace then Some(NamespaceViolation)
    else if !StoresAllowed(m, g) then Some(StoreNotAllowed)
    else None
  }

  method Check(m: Manifest, g: Guard) returns (r: Option<Violation>)
    ensures r == ViolationOf(m, g)
    ensures if r.None? then Admissible(m, g) else Breaks(m, g, r.value)
  {
    ViolationExactly(m, g);
    if m.kind != KIND || m.group != GROUP { return Some(KindNotAllowed); }
    if m.name == "" { return Some(NameMissing); }
    if m.namespace != "" && m.namespace != g.namespace { return Some(NamespaceViolation); }
    if |g.storeAllowList| > 0 {
      if m.generator { return Some(StoreNotAllowed); }
      if |m.stores| == 0 { return Some(StoreNotAllowed); }
      for i := 0 to |m.stores|
        invariant forall j :: 0 <= j < i ==> m.stores[j] in g.storeAllowList
      {
        if m.stores[i] !in g.storeAllowList { return Some(StoreNotAllowed); }
      }
    }
    return None;
  }

  predicate RightKind(m: Manifest) {
    m.kind == "ExternalSecret" && m.group == "external-secrets.io"
  }

  predicate Local(m: Manifest, g: Guard) {
    m.namespace == "" || m.namespace == g.namespace
  }

  /** With an allow-list, every store is on it, there is one, and nothing is generated. */
  predicate StoresListed(m: Manifest, g: Guard) {
    g.storeAllowList == [] ||
    (!m.generator && m.stores != [] && forall i :: 0 <= i < |m.stores| ==> m.stores[i] in g.storeAllowList)
  }

  /** What the guard rails ask of a manifest. */
  predicate Admissible(m: Manifest, g: Guard) {
    RightKind(m) && m.name != "" && Local(m, g) && StoresListed(m, g)
  }

  /** Which rail a manifest breaks first. */
  predicate Breaks(m: Manifest, g: Guard, v: Violation) {
    match v
    case KindNotAllowed => !RightKind(m)
    case NameMissing => RightKind(m) && m.name == ""
    case NamespaceViolation => RightKind(m) && m.name != "" && !Local(m, g)
    case StoreNotAllowed => RightKind(m) && m.name != "" && Local(m, g) && !StoresListed(m, g)
  }

  lemma ViolationExactly(m: Manifest, g: Guard)
    ensures ViolationOf(m, g).None? <==> Admissible(m, g)
    ensures forall v :: ViolationOf(m, g) == Some(v) <==> Breaks(m, g, v)
  {
    assert StoresAllowed(m, g) <==> StoresListed(m, g);
  }

  function FirstViolation(ms: seq<Manifest>, g: Guard): Option<Violation> {
    if ms == [] then None
    else if ViolationOf(ms[0], g).Some? then ViolationOf(ms[0], g)
    else FirstViolation(ms[1..], g)
  }

  /** What the API does to the apply of each manifest, and the versions it serves. */
  datatype Writes = Writes(api: nat -> Api, served: set<string>)

  function ApiFor(m: Manifest, i: nat, w: Writes): Api {
    if m.version in w.served then w.api(i) else GetFails
  }

  function ApplyAll(objs: Objects, owner: Owner, ms: seq<Manifest>, w: Writes): (Outcome, Objects) {
    if ms == [] then (Done, objs)
    else
      var n := |ms| - 1;
      var (r, o) := ApplyAll(objs, owner, ms[..n], w);
      if r != Done then (r, o)
      else Apply(o, owner, Id(ExternalSecrets, ms[n].name), ms[n].content, ApiFor(ms[n], n, w))
  }

  function Names(ms: seq<Manifest>): seq<string> {
    seq(|ms|, i requires 0 <= i < |ms| => ms[i].name)
  }

  /** The prune loop, having tried one candidate version per fate: false when the
      last one failed. */
  function PruneAll(
    objs: Objects, owner: Owner, keep: seq<string>, served: set<string>, fates: seq<Fate>): (bool, Objects)
    requires |fates| <= |PRUNE_VERSIONS|
  {
    if fates == [] then (true, objs)
    else
      var n := |fates| - 1;
      var (ok, o) := PruneAll(objs, owner, keep, served, fates[..n]);
      if !ok then (ok, o)
      else
        var here := PRUNE_VERSIONS[n] in served;
        (here ==> fates[n].Clean?, PrunedKind(o, owner.name, ExternalSecrets, keep, here, fates[n]))
  }

  datatype Verdict = AllApplied | LoadFailed | Rejected(violation: Violation) | Refused | ApplyFailed | PruneFailed

  /** Terminal until the user acts; the others are retried. */
  predicate Terminal(v: Verdict) {
    v.LoadFailed? || v.Rejected? || v.Refused?
  }

  function ApplyManifests(
    objs: Objects, owner: Owner, g: Guard, load: Option<seq<Manifest>>, w: Writes, fates: seq<Fate>): (Verdict, Objects)
    requires |fates| == |PRUNE_VERSIONS|
  {
    if load.None? then (LoadFailed, objs)
    else
      var ms := load.value;
      if FirstViolation(ms, g).Some? then (Rejected(FirstViolation(ms, g).value), objs)
      else
        var (r, o) := ApplyAll(objs, owner, ms, w);
        if r == NotOwned then (Refused, o)
        else if r == Failed then (ApplyFailed, o)
        else
          var (ok, p) := PruneAll(o, owner, Names(ms), w.served, fates);
          (if ok then AllApplied else PruneFailed, p)
  }

  lemma {:induction false} StopsEarly(objs: Objects, owner: Owner, ms: seq<Manifest>, w: Writes, i: nat)
    requires i <= |ms| && ApplyAll(objs, owner, ms[..i], w).0 != Done
    ensures ApplyAll(objs, owner, ms, w) == ApplyAll(objs, owner, ms[..i], w)
  {
    if i < |ms| {
      var n := |ms| - 1;
      assert ms[..n][..i] == ms[..i];
      StopsEarly(objs, owner, ms[..n], w, i);
    } else {
      assert ms[..i] == ms;
    }
  }

  lemma {:induction false} NoViolationBefore(ms: seq<Manifest>, g: Guard, i: nat)
    requires i <= |ms| && forall j :: 0 <= j < i ==> ViolationOf(ms[j], g).None?
    ensures FirstViolation(ms, g) == FirstViolation(ms[i..], g)
  {
    if i > 0 {
      NoViolationBefore(ms[1..], g, i - 1);
      assert ms[1..][i - 1..] == ms[i..];
    } else {
      assert ms[0..] == ms;
    }
  }

  /** The validation loop. */
  method Validate(ms: seq<Manifest>, g: Guard) returns (r: Option<Violation>)
    ensures r == FirstViolation(ms, g)
    ensures r.None? <==> forall m :: m in ms ==> ViolationOf(m, g).None?
  {
    for i := 0 to |ms|
      invariant forall j :: 0 <= j < i ==> ViolationOf(ms[j], g).None?
    {
      r := Check(ms[i], g);
      if r.Some? {
        NoViolationBefore(ms, g, i);
        return;
      }
    }
    NoViolationBefore(ms, g, |ms|);
    return None;
  }

  /** The apply loop. */
  method ApplyEach(c: Cluster, owner: Owner, ms: seq<Manifest>, w: Writes) returns (r: Outcome, applied: seq<string>)
    modifies c
    ensures (r, c.objects) == ApplyAll(old(c.objects), owner, ms, w)
    ensures r == Done ==> applied == Names(ms)
  {
    applied := [];
    for i := 0 to |ms|
      invariant applied == Names(ms[..i]) && (Done, c.objects) == ApplyAll(old(c.objects), owner, ms[..i], w)
    {
      assert ms[..i + 1][..i] == ms[..i];
      r := c.ApplyObject(owner, Id(ExternalSecrets, ms[i].name), ms[i].content, ApiFor(ms[i], i, w));
      if r != Done {
        StopsEarly(old(c.objects), owner, ms, w, i + 1);
        return;
      }
      applied := applied + [ms[i].name];
    }
    assert ms[..|ms|] == ms;
    r := Done;
  }

  lemma PruneAllStarts(objs: Objects, owner: Owner, keep: seq<string>, served: set<string>)
    ensures PruneAll(objs, owner, keep, served, []) == (true, objs)
  {
  }

  lemma PruneAllSnoc(objs: Objects, owner: Owner, keep: seq<string>, served: set<string>, fates: seq<Fate>, fate: Fate)
    requires |fates| < |PRUNE_VERSIONS|
    ensures var (ok, o) := PruneAll(objs, owner, keep, served, fates);
            var here := PRUNE_VERSIONS[|fates|] in served;
            PruneAll(objs, owner, keep, served, fates + [fate]) ==
            if !ok then (ok, o)
            else (here ==> fate.Clean?, PrunedKind(o, owner.name, ExternalSecrets, keep, here, fate))
  {
    assert (fates + [fate])[..|fates|] == fates;
  }

  /** The prune loop; lists of `unlistable` versions fail, deletes of `stuck` objects. */
  method PruneEach(c: Cluster, owner: Owner, keep: seq<string>, served: set<string>, unlistable: set<string>,
    stuck: set<Id>)
    returns (ok: bool, ghost fates: seq<Fate>)
    modifies c
    ensures |fates| == |PRUNE_VERSIONS|
    ensures (ok, c.objects) == PruneAll(old(c.objects), owner, keep, served, fates)
    ensures ok ==> forall v :: v in PRUNE_VERSIONS ==> v !in served * unlistable
  {
    hide PruneAll, PrunedKind;
    fates := [];
    PruneAllStarts(c.objects, owner, keep, served);
    for i := 0 to |PRUNE_VERSIONS|
      invariant |fates| == i && (true, c.objects) == PruneAll(old(c.objects), owner, keep, served, fates)
      invariant forall j :: 0 <= j < i ==> PRUNE_VERSIONS[j] !in served * unlistable
    {
      var v := PRUNE_VERSIONS[i];
      var fate := c.PruneKind(owner.name, ExternalSecrets, keep, v in served, v in unlistable, stuck);
      PruneAllSnoc(old(c.objects), owner, keep, served, fates, fate);
      fates := fates + [fate];
      if !fate.Clean? {
        ok := false;
        if |fates| < |PRUNE_VERSIONS| {
          PruneAllSnoc(old(c.objects), owner, keep, served, fates, Clean);
          fates := fates + [Clean];
        }
        return;
      }
    }
    ok := true;
  }

  /** `applyManifests` on the cluster; `fates` is how its prunes went. */
  method ApplyManifestsTo(c: Cluster, owner: Owner, g: Guard, load: Option<seq<Manifest>>, w: Writes,
                          unlistable: set<string>, stuck: set<Id>)
    returns (v: Verdict, ghost fates: seq<Fate>)
    modifies c
    ensures |fates| == |PRUNE_VERSIONS|
    ensures (v, c.objects) == ApplyManifests(old(c.objects), owner, g, load, w, fates)
  {
    fates := [Clean, Clean];
    if load.None? { return LoadFailed, fates; }
    var bad := Validate(load.value, g);
    if bad.Some? { return Rejected(bad.value), fates; }
    var r, applied := ApplyEach(c, owner, load.value, w);
    if r == NotOwned { return Refused, fates; }
    if r == Failed { return ApplyFailed, fates; }
    var ok;
    ok, fates := PruneEach(c, owner, applied, w.served, unlistable, stuck);
    v := if ok then AllApplied else PruneFailed;
  }

  // ------------------------------------------------------------------- properties

  /** The content git lists for a name: the last manifest's. */
  function Listed(ms: seq<Manifest>, name: string): Option<string> {
    if ms == [] then None
    else if ms[|ms| - 1].name == name then Some(ms[|ms| - 1].content)
    else Listed(ms[..|ms| - 1], name)
  }

  lemma {:induction false} ListedIsNamed(ms: seq<Manifest>, name: string)
    ensures Listed(ms, name).Some? <==> name in Names(ms)
  {
    if ms != [] {
      ListedIsNamed(ms[..|ms| - 1], name);
      assert Names(ms) == Names(ms[..|ms| - 1]) + [ms[|ms| - 1].name];
    }
  }

  /** What a fully applied list of manifests leaves at `id`. */
  function AppliedAt(objs: Objects, owner: Owner, ms: seq<Manifest>, id: Id): Option<Obj> {
    if id.kind == ExternalSecrets && Listed(ms, id.name).Some? then Some(Made(owner, Listed(ms, id.name).value))
    else if id in objs then Some(objs[id]) else None
  }

  function At(objs: Objects, id: Id): Option<Obj> {
    if id in objs then Some(objs[id]) else None
  }

  lemma {:induction false} ApplyAllDone(objs: Objects, owner: Owner, ms: seq<Manifest>, w: Writes, id: Id)
    requires ApplyAll(objs, owner, ms, w).0 == Done
    ensures At(ApplyAll(objs, owner, ms, w).1, id) == AppliedAt(objs, owner, ms, id)
  {
    if ms != [] { ApplyAllDone(objs, owner, ms[..|ms| - 1], w, id); }
  }

  predicate Prunes(w: Writes) {
    "v1" in w.served || "v1beta1" in w.served
  }

  lemma PruneAllDone(objs: Objects, owner: Owner, keep: seq<string>, w: Writes, fates: seq<Fate>)
    requires |fates| == |PRUNE_VERSIONS| && PruneAll(objs, owner, keep, w.served, fates).0
    ensures PruneAll(objs, owner, keep, w.served, fates).1 ==
            if Prunes(w) then objs - Doomed(objs, owner.name, ExternalSecrets, keep) else objs
  {
    var d := Doomed(objs, owner.name, ExternalSecrets, keep);
    assert fates[..1][..0] == [];
    assert PruneAll(objs, owner, keep, w.served, fates[..1]) ==
           (true, if PRUNE_VERSIONS[0] in w.served then objs - d else objs);
    assert Doomed(objs - d, owner.name, ExternalSecrets, keep) == {};
    assert (objs - d) - {} == objs - d;
  }

  /** What a prune leaves of an object nobody applied. */
  function Remaining(objs: Objects, owner: Owner, w: Writes, id: Id): Option<Obj> {
    if Prunes(w) && Selected(objs, owner.name, ExternalSecrets, id) then None else At(objs, id)
  }

  /** What a successful pass leaves at every name. */
  lemma SuccessAt(objs: Objects, owner: Owner, g: Guard, ms: seq<Manifest>, w: Writes, fates: seq<Fate>, id: Id)
    requires |fates| == |PRUNE_VERSIONS| && ApplyManifests(objs, owner, g, Some(ms), w, fates).0 == AllApplied
    ensures var o := ApplyManifests(objs, owner, g, Some(ms), w, fates).1;
            if id.kind == ExternalSecrets && Listed(ms, id.name).Some?
            then id in o && Bears(o[id], owner, Listed(ms, id.name).value)
            else At(o, id) == Remaining(objs, owner, w, id)
  {
    var o := ApplyAll(objs, owner, ms, w).1;
    ApplyAllDone(objs, owner, ms, w, id);
    PruneAllDone(o, owner, Names(ms), w, fates);
    ListedIsNamed(ms, id.name);
  }

  /** Exactly what git lists is label-owned after a successful pass. */
  ghost predicate OwnsExactlyListed(o: Objects, owner: Owner, ms: seq<Manifest>) {
    forall name :: Selected(o, owner.name, ExternalSecrets, Id(ExternalSecrets, name)) <==> Listed(ms, name).Some?
  }

  /** Success leaves exactly the git-listed ExternalSecrets label-owned, unless the
      cluster serves neither pruned version and an unlisted one was left over. */
  lemma SuccessIsExactly(objs: Objects, owner: Owner, g: Guard, ms: seq<Manifest>, w: Writes, fates: seq<Fate>)
    requires |fates| == |PRUNE_VERSIONS| && ApplyManifests(objs, owner, g, Some(ms), w, fates).0 == AllApplied
    ensures var o := ApplyManifests(objs, owner, g, Some(ms), w, fates).1;
            OwnsExactlyListed(o, owner, ms) <==>
            Prunes(w) || forall id :: Selected(objs, owner.name, ExternalSecrets, id) ==> Listed(ms, id.name).Some?
  {
    hide ApplyManifests;
    var o := ApplyManifests(objs, owner, g, Some(ms), w, fates).1;
    forall id: Id
      ensures if id.kind == ExternalSecrets && Listed(ms, id.name).Some?
              then id in o && Bears(o[id], owner, Listed(ms, id.name).value)
              else At(o, id) == Remaining(objs, owner, w, id)
    {
      SuccessAt(objs, owner, g, ms, w, fates, id);
    }
    if OwnsExactlyListed(o, owner, ms) && !Prunes(w) {
      forall id | Selected(objs, owner.name, ExternalSecrets, id) ensures Listed(ms, id.name).Some? {
        assert At(o, id).Some?;
        assert Selected(o, owner.name, ExternalSecrets, Id(ExternalSecrets, id.name));
      }
    }
    if Prunes(w) || forall id :: Selected(objs, owner.name, ExternalSecrets, id) ==> Listed(ms, id.name).Some? {
      forall name ensures Selected(o, owner.name, ExternalSecrets, Id(ExternalSecrets, name)) <==>
        Listed(ms, name).Some? {
        var id := Id(ExternalSecrets, name);
        assert At(o, id).Some? <==> id in o;
        assert At(objs, id).Some? <==> id in objs;
      }
    }
  }

  /** An unlisted ExternalSecret stays owned when neither pruned version is served. */
  lemma LeftoverStays(owner: Owner, g: Guard, w: Writes)
    requires w.served == {}
    ensures var id := Id(ExternalSecrets, "old");
            var (v, o) := ApplyManifests(map[id := Made(owner, "")], owner, g, Some([]), w, [Clean, Clean]);
            v == AllApplied && !OwnsExactlyListed(o, owner, [])
  {
    var id := Id(ExternalSecrets, "old");
    var objs, fates := map[id := Made(owner, "")], [Clean, Clean];
    assert Names([]) == [] && ApplyAll(objs, owner, [], w) == (Done, objs);
    assert fates[..1] == [Clean] && [Clean][..0] == [];
    assert PruneAll(objs, owner, [], w.served, []) == (true, objs);
    assert PruneAll(objs, owner, [], w.served, [Clean]) == (true, objs);
    assert PruneAll(objs, owner, [], w.served, fates) == (true, objs);
    assert Selected(objs, owner.name, ExternalSecrets, id) && Listed([], id.name).None?;
  }

  /** However far a pass gets, it leaves alone what is not labelled for its owner,
      and every ConfigMap. */
  lemma PassKeepsOthers(objs: Objects, owner: Owner, g: Guard, load: Option<seq<Manifest>>, w: Writes,
    fates: seq<Fate>, id: Id)
    requires |fates| == |PRUNE_VERSIONS|
    requires id.kind == ConfigMaps || (id in objs && !Labelled(objs[id], owner.name))
    ensures At(ApplyManifests(objs, owner, g, load, w, fates).1, id) == At(objs, id)
  {
    if load.Some? {
      ApplyAllKeeps(objs, owner, load.value, w, id);
      PruneAllKeeps(ApplyAll(objs, owner, load.value, w).1, owner, Names(load.value), w.served, fates, id);
    }
  }

  lemma {:induction false} ApplyAllKeeps(objs: Objects, owner: Owner, ms: seq<Manifest>, w: Writes, id: Id)
    requires id.kind == ConfigMaps || (id in objs && !Labelled(objs[id], owner.name))
    ensures At(ApplyAll(objs, owner, ms, w).1, id) == At(objs, id)
  {
    if ms != [] { ApplyAllKeeps(objs, owner, ms[..|ms| - 1], w, id); }
  }

  lemma {:induction false} PruneAllKeeps(objs: Objects, owner: Owner, keep: seq<string>, served: set<string>,
    fates: seq<Fate>, id: Id)
    requires |fates| <= |PRUNE_VERSIONS|
    requires id.kind == ConfigMaps || (id in objs && !Labelled(objs[id], owner.name))
    ensures At(PruneAll(objs, owner, keep, served, fates).1, id) == At(objs, id)
  {
    if fates != [] { PruneAllKeeps(objs, owner, keep, served, fates[..|fates| - 1], id); }
  }

  /** A guard rejection happens exactly when some manifest is not admissible; it names
      the rail the first such manifest breaks, and nothing at all changes. */
  lemma RejectionChangesNothing(
    objs: Objects, owner: Owner, g: Guard, ms: seq<Manifest>, w: Writes, fates: seq<Fate>)
    requires |fates| == |PRUNE_VERSIONS|
    ensures var (v, o) := ApplyManifests(objs, owner, g, Some(ms), w, fates);
            && (v.Rejected? <==> exists m :: m in ms && !Admissible(m, g))
            && (v.Rejected? ==> o == objs && FirstToBreak(ms, g, v.violation))
  {
    ViolationFound(ms, g);
    forall m ensures ViolationOf(m, g).Some? <==> !Admissible(m, g) { ViolationExactly(m, g); }
    if FirstViolation(ms, g).Some? { FirstIsFirst(ms, g); }
    hide FirstViolation, ViolationOf, Admissible, ApplyAll, PruneAll, Breaks;
  }

  ghost predicate FirstToBreak(ms: seq<Manifest>, g: Guard, v: Violation) {
    exists i :: 0 <= i < |ms| && Breaks(ms[i], g, v) && AdmissibleUpTo(ms, g, i)
  }

  ghost predicate AdmissibleUpTo(ms: seq<Manifest>, g: Guard, i: nat) {
    forall j :: 0 <= j < i && j < |ms| ==> Admissible(ms[j], g)
  }

  lemma {:induction false} FirstIsFirst(ms: seq<Manifest>, g: Guard)
    requires FirstViolation(ms, g).Some?
    ensures FirstToBreak(ms, g, FirstViolation(ms, g).value)
  {
    ViolationExactly(ms[0], g);
    hide ViolationOf, Admissible, Breaks;
    if ViolationOf(ms[0], g).Some? {
      assert AdmissibleUpTo(ms, g, 0);
    } else {
      var v := FirstViolation(ms, g).value;
      FirstIsFirst(ms[1..], g);
      var i :| 0 <= i < |ms| - 1 && Breaks(ms[1..][i], g, v) && AdmissibleUpTo(ms[1..], g, i);
      forall j | 0 <= j < i + 1 ensures Admissible(ms[j], g) { assert j > 0 ==> ms[j] == ms[1..][j - 1]; }
      assert Breaks(ms[i + 1], g, v) && AdmissibleUpTo(ms, g, i + 1);
    }
  }

  // ------------------------------------------------------------- how a pass can fail

  lemma {:induction false} ApplyAllFails(objs: Objects, owner: Owner, ms: seq<Manifest>, w: Writes)
    ensures var (r, o) := ApplyAll(objs, owner, ms, w);
            && (r == NotOwned ==> exists m :: m in ms && !MayWrite(o, owner, Id(ExternalSecrets, m.name)))
            && (r == Failed ==> exists i: nat :: i < |ms| && (ms[i].version !in w.served || w.api(i) != Up))
            && (r == Done ==> forall m :: m in ms ==> m.version in w.served)
  {
    if ms != [] {
      var n := |ms| - 1;
      var (r, o) := ApplyAll(objs, owner, ms[..n], w);
      ApplyAllFails(objs, owner, ms[..n], w);
      assert ms == ms[..n] + [ms[n]];
      if r == Done {
        AppliedExactly(o, owner, Id(ExternalSecrets, ms[n].name), ms[n].content, ApiFor(ms[n], n, w));
        hide Apply, MayWrite;
        assert ms[n] in ms;
      } else {
        assert forall m :: m in ms[..n] ==> m in ms;
        assert forall i: nat :: i < n ==> ms[..n][i] == ms[i];
      }
    }
  }

  /** Why a pass that was not rejected failed: unreadable manifests; an object of a listed
      name that is not the owner's; an API failure or an unserved version; a failing
      prune of a served version. Success means every listed version is served. */
  lemma FailuresExactly(objs: Objects, owner: Owner, g: Guard, load: Option<seq<Manifest>>, w: Writes, fates: seq<Fate>)
    requires |fates| == |PRUNE_VERSIONS|
    ensures var (v, o) := ApplyManifests(objs, owner, g, load, w, fates);
            && (v == LoadFailed <==> load.None?)
            && (v == Refused ==>
                  load.Some? && exists m :: m in load.value && !MayWrite(o, owner, Id(ExternalSecrets, m.name)))
            && (v == ApplyFailed ==>
                  load.Some? && exists i: nat ::
                    i < |load.value| && (load.value[i].version !in w.served || w.api(i) != Up))
            && (v == PruneFailed ==>
                  ("v1" in w.served && !fates[0].Clean?) || ("v1beta1" in w.served && !fates[1].Clean?))
            && (v == AllApplied ==>
                  && ("v1" in w.served ==> fates[0].Clean?) && ("v1beta1" in w.served ==> fates[1].Clean?)
                  && load.Some? && forall m :: m in load.value ==> m.version in w.served)
  {
    if load.Some? {
      ApplyAllFails(objs, owner, load.value, w);
      PruneAllFails(ApplyAll(objs, owner, load.value, w).1, owner, Names(load.value), w.served, fates);
      hide ApplyAll, PruneAll, MayWrite, FirstViolation;
    }
  }

  lemma PruneAllFails(objs: Objects, owner: Owner, keep: seq<string>, served: set<string>, fates: seq<Fate>)
    requires |fates| == |PRUNE_VERSIONS|
    ensures PruneAll(objs, owner, keep, served, fates).0 <==>
            ("v1" in served ==> fates[0].Clean?) && ("v1beta1" in served ==> fates[1].Clean?)
  {
    assert fates[..1][..0] == [] && fates == fates[..1] + [fates[1]];
    assert PruneAll(objs, owner, keep, served, fates[..1]).0 <==> ("v1" in served ==> fates[0].Clean?);
  }

  lemma {:induction false} ViolationFound(ms: seq<Manifest>, g: Guard)
    ensures FirstViolation(ms, g).Some? <==> exists m :: m in ms && ViolationOf(m, g).Some?
  {
    if ms != [] {
      ViolationFound(ms[1..], g);
      assert ms == [ms[0]] + ms[1..];
    }
  }
}

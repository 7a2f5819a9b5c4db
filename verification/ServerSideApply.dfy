/** Kubernetes Server-Side Apply on one object (KEP-555, "Conflicts" and "Merge
    strategy"), and what Kohen's choices of two managers and never forcing on a
    workload guarantee the other managers.

    An object is a map from keyed field paths to a value and its owning managers. */
module ServerSideApply {
  import opened Text

  /** List items are addressed by their merge key: volumes and containers by name,
      mounts by container and mountPath, env entries by container and name. */
  datatype Path =
    | ObjectAnnotation(key: string)
    | TemplateAnnotation(key: string)
    | VolumeItem(name: string)
    | VolumeConfigMap(name: string)
    | VolumeSecret(name: string)
    | ContainerItem(container: string)
    | MountItem(container: string, mountPath: string)
    | MountVolume(container: string, mountPath: string)
    | MountReadOnly(container: string, mountPath: string)
    | EnvItem(container: string, name: string)
    | EnvSecretName(container: string, name: string)
    | EnvSecretKey(container: string, name: string)
    | Elsewhere(text: string)

  /** `wire.FieldManager`, `rollout.StampFieldManager`, and everybody else. */
  datatype Manager = Kohen | KohenStamp | Another(name: string)

  datatype Field = Field(value: string, owners: set<Manager>)

  type Object = map<Path, Field>

  type Config = map<Path, string>

  /** Field `p` is wanted with another value than a different manager set. */
  predicate ClashesAt(obj: Object, m: Manager, cfg: Config, p: Path) {
    p in cfg && p in obj && obj[p].value != cfg[p] && obj[p].owners - {m} != {}
  }

  predicate Clashes(obj: Object, m: Manager, cfg: Config) {
    exists p :: p in cfg && ClashesAt(obj, m, cfg, p)
  }

  /** A field disappears when its last owner stops listing it. */
  predicate Stays(obj: Object, m: Manager, cfg: Config, p: Path) {
    p in cfg || (p in obj && obj[p].owners != {m})
  }

  function MergedField(obj: Object, m: Manager, cfg: Config, p: Path): Field
    requires Stays(obj, m, cfg, p)
  {
    if p !in cfg then Field(obj[p].value, obj[p].owners - {m})
    else if p in obj && obj[p].value == cfg[p] then Field(cfg[p], obj[p].owners + {m})
    else Field(cfg[p], {m})
  }

  /** The object after manager `m` applied `cfg`, conflicts set aside. */
  function Merge(obj: Object, m: Manager, cfg: Config): Object {
    map p | p in obj.Keys + cfg.Keys && Stays(obj, m, cfg, p) :: MergedField(obj, m, cfg, p)
  }

  /** One apply request: it fails as a whole on a conflict unless forced. */
  function Apply(obj: Object, m: Manager, cfg: Config, force: bool): Option<Object> {
    if !force && Clashes(obj, m, cfg) then None else Some(Merge(obj, m, cfg))
  }

  function After(obj: Object, m: Manager, cfg: Config, force: bool): Object {
    match Apply(obj, m, cfg, force) case Some(o) => o case None => obj
  }

  // -------------------------------------------------------- what apply achieves

  ghost function OwnedBy(obj: Object, m: Manager): set<Path> {
    set p | p in obj && m in obj[p].owners
  }

  /** An unforced apply is refused exactly for a listed field that somebody else set to
      another value. */
  lemma RefusedExactly(obj: Object, m: Manager, cfg: Config, force: bool)
    ensures Apply(obj, m, cfg, force).None? <==>
            !force && exists p, x :: p in cfg && p in obj && x in obj[p].owners && x != m && obj[p].value != cfg[p]
  {
    if Clashes(obj, m, cfg) {
      var p :| p in cfg && ClashesAt(obj, m, cfg, p);
      var x :| x in obj[p].owners - {m};
    }
    if p, x :| p in cfg && p in obj && x in obj[p].owners && x != m && obj[p].value != cfg[p] {
      assert x in obj[p].owners - {m};
      assert ClashesAt(obj, m, cfg, p);
    }
  }

  /** Who owns what after a successful apply: the manager what it listed; another what it
      owned, unless the apply gave the field another value. Values follow. */
  lemma OwnersExactly(obj: Object, m: Manager, cfg: Config, force: bool, p: Path, x: Manager)
    requires Apply(obj, m, cfg, force).Some? && AllOwned(obj)
    ensures var o := Apply(obj, m, cfg, force).value;
            && ((p in o && x in o[p].owners) <==>
                if x == m then p in cfg
                else p in obj && x in obj[p].owners && (p in cfg ==> cfg[p] == obj[p].value))
            && (p in o <==> p in cfg || exists y :: y != m && p in obj && y in obj[p].owners)
            && (p in o ==> o[p].value == if p in cfg then cfg[p] else obj[p].value)
  {
    if p in obj && p !in cfg {
      assert obj[p].owners != {m} ==> exists y :: y in obj[p].owners && y != m;
    }
  }

  /** Success means: the manager owns exactly what it listed, with those values. */
  lemma ApplyOwnsExactly(obj: Object, m: Manager, cfg: Config, force: bool)
    requires Apply(obj, m, cfg, force).Some?
    ensures var o := Apply(obj, m, cfg, force).value;
            OwnedBy(o, m) == cfg.Keys && forall p :: p in cfg ==> o[p].value == cfg[p]
  {
  }

  /** Applying the same set again changes nothing. */
  lemma ApplyIdempotent(obj: Object, m: Manager, cfg: Config, force: bool)
    requires Apply(obj, m, cfg, force).Some?
    ensures var o := Apply(obj, m, cfg, force).value; Apply(o, m, cfg, false) == Some(o)
  {
    ApplyOwnsExactly(obj, m, cfg, force);
    SettledIsFixpoint(Apply(obj, m, cfg, force).value, m, cfg);
  }

  /** A manager that owns exactly its set, at its values, has nothing to do. */
  lemma SettledIsFixpoint(o: Object, m: Manager, cfg: Config)
    requires OwnedBy(o, m) == cfg.Keys && forall p :: p in cfg ==> o[p].value == cfg[p]
    ensures Apply(o, m, cfg, false) == Some(o)
  {
    forall p | p in o ensures p in Merge(o, m, cfg) && Merge(o, m, cfg)[p] == o[p] {
      assert p in cfg <==> p in OwnedBy(o, m);
      assert m in o[p].owners ==> o[p].owners + {m} == o[p].owners;
      assert m !in o[p].owners ==> o[p].owners - {m} == o[p].owners;
    }
    assert forall p :: p in cfg ==> p in OwnedBy(o, m) && !ClashesAt(o, m, cfg, p);
    assert Merge(o, m, cfg) == o;
  }

  // ----------------------------------------------------------- non-interference

  predicate IsKohen(m: Manager) {
    m == Kohen || m == KohenStamp
  }

  /** The object as the other managers own it. */
  function Foreign(obj: Object): Object {
    map p | p in obj && obj[p].owners - {Kohen, KohenStamp} != {} ::
      Field(obj[p].value, obj[p].owners - {Kohen, KohenStamp})
  }

  /** An unforced apply by Kohen never disturbs what others own. */
  lemma KohenKeepsForeign(obj: Object, m: Manager, cfg: Config)
    requires IsKohen(m)
    ensures Foreign(After(obj, m, cfg, false)) == Foreign(obj)
  {
    if !Clashes(obj, m, cfg) {
      var o := Merge(obj, m, cfg);
      forall p ensures p in Foreign(o) <==> p in Foreign(obj) {
        assert p in cfg ==> !ClashesAt(obj, m, cfg, p);
      }
      forall p | p in Foreign(obj) ensures Foreign(o)[p] == Foreign(obj)[p] {
        assert p in cfg ==> !ClashesAt(obj, m, cfg, p);
      }
    }
  }

  /** Merging by another manager commutes with forgetting Kohen. */
  lemma OthersMergeCommutes(obj: Object, m: Manager, cfg: Config)
    requires !IsKohen(m)
    ensures Foreign(Merge(obj, m, cfg)) == Merge(Foreign(obj), m, cfg)
  {
    var l, r := Foreign(Merge(obj, m, cfg)), Merge(Foreign(obj), m, cfg);
    forall p ensures p in l <==> p in r {
      OwnerSets(if p in obj then obj[p].owners else {}, m);
    }
    forall p | p in l ensures l[p] == r[p] {
      OwnerSets(if p in obj then obj[p].owners else {}, m);
    }
  }

  lemma OwnerSets(owners: set<Manager>, m: Manager)
    requires !IsKohen(m)
    ensures var k := {Kohen, KohenStamp};
            && (owners + {m}) - k == (owners - k) + {m} && {m} - k == {m}
            && (owners - {m}) - k == (owners - k) - {m}
            && ((owners - {m}) - k == {} <==> owners - k == {} || owners - k == {m})
  {
    var k := {Kohen, KohenStamp};
    assert (owners - {m}) - k == (owners - k) - {m};
    assert (owners - k) - {m} == {} ==> owners - k <= {m};
  }

  /** Exactly when an unforced apply by another manager behaves as if Kohen were
      absent: unless it conflicts with fields Kohen alone owns and nothing else. */
  lemma UnforcedCommutesExactly(obj: Object, m: Manager, cfg: Config)
    requires !IsKohen(m)
    ensures Foreign(After(obj, m, cfg, false)) == After(Foreign(obj), m, cfg, false)
            <==> (Clashes(obj, m, cfg) ==> Clashes(Foreign(obj), m, cfg))
  {
    OthersMergeCommutes(obj, m, cfg);
    if Clashes(Foreign(obj), m, cfg) { ForeignClash(obj, m, cfg); }
    if Clashes(obj, m, cfg) && !Clashes(Foreign(obj), m, cfg) {
      var p :| p in cfg && ClashesAt(obj, m, cfg, p);
      assert !ClashesAt(Foreign(obj), m, cfg, p);
      assert p in Merge(Foreign(obj), m, cfg) && m in Merge(Foreign(obj), m, cfg)[p].owners;
      assert p in Foreign(obj) ==> Foreign(obj)[p].value != cfg[p];
      assert Merge(Foreign(obj), m, cfg)[p].value == cfg[p];
    }
  }

  /** A field Kohen alone owns: without Kohen the unforced apply would have set it. */
  lemma RefusedForKohenAlone(p: Path, x: string)
    ensures var obj: Object, cfg: Config := map[p := Field("a", {Kohen})], map[p := "b"];
            && After(obj, Another(x), cfg, false) == obj && Foreign(obj) == map[]
            && After(Foreign(obj), Another(x), cfg, false) == map[p := Field("b", {Another(x)})]
  {
    var obj: Object, cfg: Config := map[p := Field("a", {Kohen})], map[p := "b"];
    assert Kohen in obj[p].owners - {Another(x)} && ClashesAt(obj, Another(x), cfg, p);
    assert Foreign(obj) == map[];
    assert Merge(map[], Another(x), cfg) == map[p := Field("b", {Another(x)})];
  }

  /** What clashes with the others alone clashes with the whole object. */
  lemma ForeignClash(obj: Object, m: Manager, cfg: Config)
    requires Clashes(Foreign(obj), m, cfg)
    ensures Clashes(obj, m, cfg)
  {
    var p :| p in cfg && ClashesAt(Foreign(obj), m, cfg, p);
    var x :| x in Foreign(obj)[p].owners - {m};
    assert x in obj[p].owners - {m};
    assert ClashesAt(obj, m, cfg, p);
  }

  /** A workload write: Kohen's are unforced, others may force. */
  datatype Write = Write(m: Manager, cfg: Config, force: bool)

  ghost predicate Lawful(w: Write) {
    IsKohen(w.m) ==> !w.force
  }

  function Run(obj: Object, ws: seq<Write>): Object
    decreases ws
  {
    if ws == [] then obj
    else Run(After(obj, ws[0].m, ws[0].cfg, ws[0].force), ws[1..])
  }

  function WithoutKohen(ws: seq<Write>): seq<Write> {
    if ws == [] then []
    else (if IsKohen(ws[0].m) then [] else [ws[0]]) + WithoutKohen(ws[1..])
  }

  /** No unforced write of another manager is refused for Kohen's fields alone. */
  ghost predicate Undisturbed(obj: Object, ws: seq<Write>)
    decreases ws
  {
    ws == [] ||
    var w := ws[0];
    && (!IsKohen(w.m) && !w.force && Clashes(obj, w.m, w.cfg) ==> Clashes(Foreign(obj), w.m, w.cfg))
    && Undisturbed(After(obj, w.m, w.cfg, w.force), ws[1..])
  }

  lemma {:induction false} ForcedIsUndisturbed(obj: Object, ws: seq<Write>)
    requires forall w :: w in ws ==> IsKohen(w.m) || w.force
    ensures Undisturbed(obj, ws)
    decreases ws
  {
    if ws != [] { ForcedIsUndisturbed(After(obj, ws[0].m, ws[0].cfg, ws[0].force), ws[1..]); }
  }

  /** Non-interference: in every interleaving, what the others own, its values and
      its owners are those of the run with Kohen's writes deleted. */
  lemma {:induction false} NonInterference(obj: Object, ws: seq<Write>)
    requires (forall w :: w in ws ==> Lawful(w)) && Undisturbed(obj, ws)
    ensures Foreign(Run(obj, ws)) == Run(Foreign(obj), WithoutKohen(ws))
    decreases ws
  {
    if ws != [] {
      var w := ws[0];
      assert Lawful(w);
      var o := After(obj, w.m, w.cfg, w.force);
      NonInterference(o, ws[1..]);
      if IsKohen(w.m) {
        KohenKeepsForeign(obj, w.m, w.cfg);
        assert WithoutKohen(ws) == WithoutKohen(ws[1..]);
      } else {
        if w.force { OthersMergeCommutes(obj, w.m, w.cfg); } else { UnforcedCommutesExactly(obj, w.m, w.cfg); }
        assert WithoutKohen(ws) == [w] + WithoutKohen(ws[1..]);
      }
    }
  }

  ghost predicate AllOwned(obj: Object) {
    forall p :: p in obj ==> obj[p].owners != {}
  }

  lemma {:induction false} RunKeepsOwned(obj: Object, ws: seq<Write>)
    requires AllOwned(obj)
    ensures AllOwned(Run(obj, ws))
    decreases ws
  {
    if ws != [] {
      var o := After(obj, ws[0].m, ws[0].cfg, ws[0].force);
      assert AllOwned(o) by {
        assert forall p :: p in obj && obj[p].owners - {ws[0].m} == {} ==> obj[p].owners == {ws[0].m};
      }
      RunKeepsOwned(o, ws[1..]);
    }
  }

  /** `Unwire` then `ClearStamp`: the two empty applies of `finalize`. */
  function Retracted(obj: Object): Object {
    After(After(obj, Kohen, map[], false), KohenStamp, map[], false)
  }

  lemma RetractedIsForeign(obj: Object)
    requires AllOwned(obj)
    ensures Retracted(obj) == Foreign(obj)
  {
    var a := Merge(obj, Kohen, map[]);
    assert After(obj, Kohen, map[], false) == a;
    assert After(a, KohenStamp, map[], false) == Merge(a, KohenStamp, map[]);
    forall p | p in obj ensures p in Retracted(obj) <==> p in Foreign(obj) {
      SplitRemoval(obj[p].owners);
    }
    forall p | p in Foreign(obj) ensures Retracted(obj)[p] == Foreign(obj)[p] {
      SplitRemoval(obj[p].owners);
    }
  }

  lemma SplitRemoval(owners: set<Manager>)
    requires owners != {}
    ensures owners - {Kohen} - {KohenStamp} == owners - {Kohen, KohenStamp}
    ensures owners - {Kohen, KohenStamp} != {} <==> (owners != {Kohen} && owners - {Kohen} != {KohenStamp})
  {
    var rest := owners - {Kohen, KohenStamp};
    assert rest == {} ==> owners <= {Kohen, KohenStamp};
    assert rest == {} && KohenStamp !in owners ==> owners == {Kohen};
    assert rest == {} && KohenStamp in owners ==> owners - {Kohen} == {KohenStamp};
  }

  /** After a finalize the object is exactly what the others alone would have made. */
  lemma {:induction false} FinalizeLeavesOthersExactly(obj: Object, ws: seq<Write>)
    requires AllOwned(obj) && (forall w :: w in ws ==> Lawful(w)) && Undisturbed(obj, ws)
    ensures Retracted(Run(obj, ws)) == Run(Foreign(obj), WithoutKohen(ws))
  {
    RunKeepsOwned(obj, ws);
    RetractedIsForeign(Run(obj, ws));
    NonInterference(obj, ws);
  }

  // ------------------------------------------------------------- two managers

  /** Disjoint field sets applied by different managers settle: repeating both
      changes nothing (rollout: none reconciles at an unchanged version). */
  lemma TwoManagersSettle(obj: Object, wiring: Config, stamp: Config)
    requires wiring.Keys !! stamp.Keys
    requires Apply(obj, Kohen, wiring, false).Some?
    requires Apply(Apply(obj, Kohen, wiring, false).value, KohenStamp, stamp, false).Some?
    ensures var o := Apply(Apply(obj, Kohen, wiring, false).value, KohenStamp, stamp, false).value;
            Apply(o, Kohen, wiring, false) == Some(o) && Apply(o, KohenStamp, stamp, false) == Some(o)
  {
    var a := Apply(obj, Kohen, wiring, false).value;
    var o := Apply(a, KohenStamp, stamp, false).value;
    ApplyOwnsExactly(obj, Kohen, wiring, false);
    ApplyIdempotent(a, KohenStamp, stamp, false);
    forall p | p in wiring ensures p in o && o[p].value == wiring[p] && Kohen in o[p].owners {
      assert p in a && Kohen in a[p].owners;
    }
    forall p | p in o && p !in wiring ensures Kohen !in o[p].owners {
      assert p in a ==> Kohen !in a[p].owners;
    }
    SettledIsFixpoint(o, Kohen, wiring);
  }

  /** With one shared manager the second apply would strip the first's fields. */
  lemma OneManagerStrips(obj: Object, wiring: Config, stamp: Config, p: Path)
    requires p in wiring && p !in stamp
    requires Apply(obj, Kohen, wiring, false).Some?
    requires p in obj ==> obj[p].owners <= {Kohen}
    ensures var a := Apply(obj, Kohen, wiring, false).value;
            Apply(a, Kohen, stamp, false).Some? ==> p !in Apply(a, Kohen, stamp, false).value
  {
    var a := Apply(obj, Kohen, wiring, false).value;
    assert a[p].owners == {Kohen};
  }
}

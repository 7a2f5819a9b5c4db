/** internal/wire/wire.go and the stamping half of internal/rollout/rollout.go:
    the field sets Kohen applies to a workload, and the workload they change. */
module Wiring {
  import opened Text
  import opened ServerSideApply

  const CONFIG_SHA := "kohen.dev/config-sha"
  const VOLUME_NAME := "kohen-config"

  function SecretVolumeName(refName: string): string {
    "kohen-secret-" + refName
  }

  datatype SecretFile = SecretFile(refName: string, secretName: string, mountPath: string)

  datatype SecretEnv = SecretEnv(envVar: string, secretName: string, key: string)

  datatype Spec = Spec(
    kind: string, container: string, mountPath: string, configMap: string, configSHA: string,
    files: seq<SecretFile>, env: seq<SecretEnv>)

  datatype Volume = ConfigMapVolume(name: string, configMap: string) | SecretVolume(name: string, secret: string)

  datatype Mount = Mount(name: string, mountPath: string, readOnly: bool)

  /** The live workload: whether it exists, its containers in order, its fields. */
  datatype State = State(present: bool, containers: seq<string>, fields: Object)

  /** How the API answers this call beyond the object's own state. */
  datatype Api = Up | ReadFails | WriteFails

  datatype Reason = WireFailed | WorkloadNotFound | ContainerNotFound | ApplyConflict

  datatype Answer = Ok | Error(reason: Reason)

  predicate Supported(kind: string) {
    kind == "Deployment" || kind == "StatefulSet"
  }

  // ---------------------------------------------------------- the owned field set

  function Volumes(s: Spec): seq<Volume> {
    [ConfigMapVolume(VOLUME_NAME, s.configMap)] +
    seq(|s.files|, i requires 0 <= i < |s.files| =>
      SecretVolume(SecretVolumeName(s.files[i].refName), s.files[i].secretName))
  }

  function Mounts(s: Spec): seq<Mount> {
    [Mount(VOLUME_NAME, s.mountPath, false)] +
    seq(|s.files|, i requires 0 <= i < |s.files| =>
      Mount(SecretVolumeName(s.files[i].refName), s.files[i].mountPath, true))
  }

  function VolumeFields(vs: seq<Volume>): Config {
    if vs == [] then map[]
    else
      var v := vs[|vs| - 1];
      VolumeFields(vs[..|vs| - 1]) + map[VolumeItem(v.name) := ""] +
      match v
      case ConfigMapVolume(n, c) => map[VolumeConfigMap(n) := c]
      case SecretVolume(n, x) => map[VolumeSecret(n) := x]
  }

  function MountFields(c: string, ms: seq<Mount>): Config {
    if ms == [] then map[]
    else
      var m := ms[|ms| - 1];
      MountFields(c, ms[..|ms| - 1]) + map[MountItem(c, m.mountPath) := "", MountVolume(c, m.mountPath) := m.name] +
      (if m.readOnly then map[MountReadOnly(c, m.mountPath) := "true"] else map[])
  }

  function EnvFields(c: string, es: seq<SecretEnv>): Config {
    if es == [] then map[]
    else
      var e := es[|es| - 1];
      EnvFields(c, es[..|es| - 1]) +
      map[EnvItem(c, e.envVar) := "", EnvSecretName(c, e.envVar) := e.secretName, EnvSecretKey(c, e.envVar) := e.key]
  }

  function StampFields(sha: string): Config {
    if sha == "" then map[] else map[TemplateAnnotation(CONFIG_SHA) := sha]
  }

  /** Everything `Wire` lists for container `c`. */
  function Fields(s: Spec, c: string): Config {
    VolumeFields(Volumes(s)) + MountFields(c, Mounts(s)) + EnvFields(c, s.env) + map[ContainerItem(c) := ""] +
    StampFields(s.configSHA)
  }

  lemma {:induction false} VolumePaths(vs: seq<Volume>, p: Path)
    requires p in VolumeFields(vs)
    ensures p.VolumeItem? || p.VolumeConfigMap? || p.VolumeSecret?
  {
    if p in VolumeFields(vs[..|vs| - 1]) { VolumePaths(vs[..|vs| - 1], p); }
  }

  lemma {:induction false} MountPaths(c: string, ms: seq<Mount>, p: Path)
    requires p in MountFields(c, ms)
    ensures p.MountItem? || p.MountVolume? || p.MountReadOnly?
  {
    if p in MountFields(c, ms[..|ms| - 1]) { MountPaths(c, ms[..|ms| - 1], p); }
  }

  lemma {:induction false} EnvPaths(c: string, es: seq<SecretEnv>, p: Path)
    requires p in EnvFields(c, es)
    ensures p.EnvItem? || p.EnvSecretName? || p.EnvSecretKey?
  {
    if p in EnvFields(c, es[..|es| - 1]) { EnvPaths(c, es[..|es| - 1], p); }
  }

  /** Which group lists a path. */
  lemma FieldsByKind(s: Spec, c: string, p: Path)
    ensures p.VolumeItem? || p.VolumeConfigMap? || p.VolumeSecret? ==>
              (p in Fields(s, c) <==> p in VolumeFields(Volumes(s))) &&
              (p in Fields(s, c) ==> Fields(s, c)[p] == VolumeFields(Volumes(s))[p])
    ensures p.MountItem? || p.MountVolume? || p.MountReadOnly? ==>
              (p in Fields(s, c) <==> p in MountFields(c, Mounts(s))) &&
              (p in Fields(s, c) ==> Fields(s, c)[p] == MountFields(c, Mounts(s))[p])
    ensures p.EnvItem? || p.EnvSecretName? || p.EnvSecretKey? ==>
              (p in Fields(s, c) <==> p in EnvFields(c, s.env)) &&
              (p in Fields(s, c) ==> Fields(s, c)[p] == EnvFields(c, s.env)[p])
    ensures p.TemplateAnnotation? || p.ObjectAnnotation? || p.Elsewhere? ==>
              (p in Fields(s, c) <==> p == TemplateAnnotation(CONFIG_SHA) && s.configSHA != "") &&
              (p in Fields(s, c) ==> Fields(s, c)[p] == s.configSHA)
  {
    if p in VolumeFields(Volumes(s)) { VolumePaths(Volumes(s), p); }
    if p in MountFields(c, Mounts(s)) { MountPaths(c, Mounts(s), p); }
    if p in EnvFields(c, s.env) { EnvPaths(c, s.env, p); }
  }

  /** Uniqueness the API enforces on a ConfigSync's references. */
  ghost predicate UniqueKeys(s: Spec) {
    && (forall i, j :: 0 <= i < j < |s.files| ==>
          s.files[i].refName != s.files[j].refName && s.files[i].mountPath != s.files[j].mountPath)
    && (forall i :: 0 <= i < |s.files| ==> s.files[i].mountPath != s.mountPath)
    && (forall i, j :: 0 <= i < j < |s.env| ==> s.env[i].envVar != s.env[j].envVar)
  }

  lemma {:induction false} VolumeListed(vs: seq<Volume>, i: nat)
    requires i < |vs| && forall a, b :: 0 <= a < b < |vs| ==> vs[a].name != vs[b].name
    ensures VolumeItem(vs[i].name) in VolumeFields(vs)
    ensures vs[i].ConfigMapVolume? ==>
              VolumeConfigMap(vs[i].name) in VolumeFields(vs) &&
              VolumeFields(vs)[VolumeConfigMap(vs[i].name)] == vs[i].configMap
    ensures vs[i].SecretVolume? ==>
              VolumeSecret(vs[i].name) in VolumeFields(vs) && VolumeFields(vs)[VolumeSecret(vs[i].name)] == vs[i].secret
  {
    if i < |vs| - 1 { VolumeListed(vs[..|vs| - 1], i); }
  }

  lemma {:induction false} MountListed(c: string, ms: seq<Mount>, i: nat)
    requires i < |ms| && forall a, b :: 0 <= a < b < |ms| ==> ms[a].mountPath != ms[b].mountPath
    ensures var f, p := MountFields(c, ms), ms[i].mountPath;
            && MountItem(c, p) in f && MountVolume(c, p) in f && f[MountVolume(c, p)] == ms[i].name
            && (MountReadOnly(c, p) in f <==> ms[i].readOnly)
  {
    if i < |ms| - 1 {
      MountListed(c, ms[..|ms| - 1], i);
    } else if MountReadOnly(c, ms[i].mountPath) in MountFields(c, ms[..i]) {
      ReadOnlyListed(c, ms[..i], ms[i].mountPath);
    }
  }

  lemma {:induction false} ReadOnlyListed(c: string, ms: seq<Mount>, path: string)
    requires MountReadOnly(c, path) in MountFields(c, ms)
    ensures exists j :: 0 <= j < |ms| && ms[j].mountPath == path
  {
    var n := |ms| - 1;
    if ms[n].mountPath != path {
      ReadOnlyListed(c, ms[..n], path);
      var j :| 0 <= j < n && ms[..n][j].mountPath == path;
      assert ms[j].mountPath == path;
    }
  }

  lemma {:induction false} EnvListed(c: string, es: seq<SecretEnv>, i: nat)
    requires i < |es| && forall a, b :: 0 <= a < b < |es| ==> es[a].envVar != es[b].envVar
    ensures var f, v := EnvFields(c, es), es[i].envVar;
            && EnvItem(c, v) in f && EnvSecretName(c, v) in f && EnvSecretKey(c, v) in f
            && f[EnvSecretName(c, v)] == es[i].secretName && f[EnvSecretKey(c, v)] == es[i].key
  {
    if i < |es| - 1 { EnvListed(c, es[..|es| - 1], i); }
  }

  ghost predicate ConfigWired(f: Config, c: string, s: Spec) {
    && VolumeConfigMap(VOLUME_NAME) in f && f[VolumeConfigMap(VOLUME_NAME)] == s.configMap
    && MountVolume(c, s.mountPath) in f && f[MountVolume(c, s.mountPath)] == VOLUME_NAME
    && MountReadOnly(c, s.mountPath) !in f
  }

  ghost predicate FileWired(f: Config, c: string, x: SecretFile) {
    var v := SecretVolumeName(x.refName);
    && VolumeSecret(v) in f && f[VolumeSecret(v)] == x.secretName
    && MountVolume(c, x.mountPath) in f && f[MountVolume(c, x.mountPath)] == v
    && MountReadOnly(c, x.mountPath) in f
  }

  ghost predicate EnvWired(f: Config, c: string, e: SecretEnv) {
    && EnvSecretName(c, e.envVar) in f && f[EnvSecretName(c, e.envVar)] == e.secretName
    && EnvSecretKey(c, e.envVar) in f && f[EnvSecretKey(c, e.envVar)] == e.key
  }

  /** The config is mounted where asked, each file reference gets its own read-only
      mount of its Secret and each env reference its own entry: no item displaces
      another, the secret volumes never being named like the config volume. */
  lemma EverySurfaceIsWired(s: Spec, c: string)
    requires UniqueKeys(s)
    ensures ConfigWired(Fields(s, c), c, s)
    ensures forall i :: 0 <= i < |s.files| ==> FileWired(Fields(s, c), c, s.files[i])
    ensures forall i :: 0 <= i < |s.env| ==> EnvWired(Fields(s, c), c, s.env[i])
  {
    hide Fields, VolumeFields, MountFields, EnvFields;
    ListsAreKeyed(s);
    VolumeListed(Volumes(s), 0);
    MountListed(c, Mounts(s), 0);
    FieldsByKind(s, c, VolumeConfigMap(VOLUME_NAME));
    FieldsByKind(s, c, MountVolume(c, s.mountPath));
    FieldsByKind(s, c, MountReadOnly(c, s.mountPath));
    forall i | 0 <= i < |s.files| ensures FileWired(Fields(s, c), c, s.files[i]) { FileIsWired(s, c, i); }
    forall i | 0 <= i < |s.env| ensures EnvWired(Fields(s, c), c, s.env[i]) {
      EnvListed(c, s.env, i);
      FieldsByKind(s, c, EnvSecretName(c, s.env[i].envVar));
      FieldsByKind(s, c, EnvSecretKey(c, s.env[i].envVar));
    }
  }

  /** What a path of container `c` has to do with the spec. */
  ghost predicate Asked(s: Spec, c: string, p: Path) {
    match p
    case VolumeItem(n) => n == "kohen-config" || exists x :: x in s.files && n == "kohen-secret-" + x.refName
    case VolumeConfigMap(n) => n == "kohen-config"
    case VolumeSecret(n) => exists x :: x in s.files && n == "kohen-secret-" + x.refName
    case ContainerItem(d) => d == c
    case MountItem(d, path) => d == c && (path == s.mountPath || exists x :: x in s.files && path == x.mountPath)
    case MountVolume(d, path) => d == c && (path == s.mountPath || exists x :: x in s.files && path == x.mountPath)
    case MountReadOnly(d, path) => d == c && exists x :: x in s.files && path == x.mountPath
    case EnvItem(d, v) => d == c && exists e :: e in s.env && v == e.envVar
    case EnvSecretName(d, v) => d == c && exists e :: e in s.env && v == e.envVar
    case EnvSecretKey(d, v) => d == c && exists e :: e in s.env && v == e.envVar
    case TemplateAnnotation(key) => key == "kohen.dev/config-sha" && s.configSHA != ""
    case _ => false
  }

  lemma {:induction false} VolumeOrigin(vs: seq<Volume>, p: Path)
    requires p in VolumeFields(vs)
    ensures exists v :: v in vs && (p == VolumeItem(v.name) || (p == VolumeConfigMap(v.name) && v.ConfigMapVolume?) ||
                                    (p == VolumeSecret(v.name) && v.SecretVolume?))
  {
    var n := |vs| - 1;
    if p in VolumeFields(vs[..n]) {
      VolumeOrigin(vs[..n], p);
      assert forall v :: v in vs[..n] ==> v in vs;
    } else {
      assert vs[n] in vs;
    }
  }

  lemma {:induction false} MountOrigin(c: string, ms: seq<Mount>, p: Path)
    requires p in MountFields(c, ms)
    ensures exists m :: m in ms && (p == MountItem(c, m.mountPath) || p == MountVolume(c, m.mountPath) ||
                                    (p == MountReadOnly(c, m.mountPath) && m.readOnly))
  {
    var n := |ms| - 1;
    if p in MountFields(c, ms[..n]) {
      MountOrigin(c, ms[..n], p);
      assert forall m :: m in ms[..n] ==> m in ms;
    } else {
      assert ms[n] in ms;
    }
  }

  lemma {:induction false} EnvOrigin(c: string, es: seq<SecretEnv>, p: Path)
    requires p in EnvFields(c, es)
    ensures exists e :: e in es &&
              (p == EnvItem(c, e.envVar) || p == EnvSecretName(c, e.envVar) || p == EnvSecretKey(c, e.envVar))
  {
    var n := |es| - 1;
    if p in EnvFields(c, es[..n]) {
      EnvOrigin(c, es[..n], p);
      assert forall e :: e in es[..n] ==> e in es;
    } else {
      assert es[n] in es;
    }
  }

  lemma VolumeOf(s: Spec, v: Volume)
    requires v in Volumes(s)
    ensures if v.ConfigMapVolume? then v.name == "kohen-config"
            else exists x :: x in s.files && v.name == "kohen-secret-" + x.refName
  {
    var i :| 0 <= i < |Volumes(s)| && Volumes(s)[i] == v;
    if i > 0 { assert s.files[i - 1] in s.files; }
  }

  lemma MountOf(s: Spec, m: Mount)
    requires m in Mounts(s)
    ensures if m.readOnly then exists x :: x in s.files && m.mountPath == x.mountPath else m.mountPath == s.mountPath
  {
    var i :| 0 <= i < |Mounts(s)| && Mounts(s)[i] == m;
    if i > 0 { assert s.files[i - 1] in s.files; }
  }

  /** Nothing is listed that the spec does not ask for. */
  lemma NothingElseIsWired(s: Spec, c: string, p: Path)
    requires p in Fields(s, c)
    ensures Asked(s, c, p)
  {
    if p in VolumeFields(Volumes(s)) {
      VolumeOrigin(Volumes(s), p);
      var v :| v in Volumes(s) && (p == VolumeItem(v.name) || (p == VolumeConfigMap(v.name) && v.ConfigMapVolume?) ||
                                   (p == VolumeSecret(v.name) && v.SecretVolume?));
      VolumeOf(s, v);
    } else if p in MountFields(c, Mounts(s)) {
      MountOrigin(c, Mounts(s), p);
      var m :| m in Mounts(s) && (p == MountItem(c, m.mountPath) || p == MountVolume(c, m.mountPath) ||
                                  (p == MountReadOnly(c, m.mountPath) && m.readOnly));
      MountOf(s, m);
    } else if p in EnvFields(c, s.env) {
      EnvOrigin(c, s.env, p);
    }
    hide VolumeFields, MountFields, EnvFields, Volumes, Mounts;
  }

  lemma FileIsWired(s: Spec, c: string, i: nat)
    requires UniqueKeys(s) && i < |s.files|
    ensures FileWired(Fields(s, c), c, s.files[i])
  {
    hide Fields, VolumeFields, MountFields, EnvFields;
    ListsAreKeyed(s);
    var x := s.files[i];
    VolumeListed(Volumes(s), i + 1);
    MountListed(c, Mounts(s), i + 1);
    FieldsByKind(s, c, VolumeSecret(SecretVolumeName(x.refName)));
    FieldsByKind(s, c, MountVolume(c, x.mountPath));
    FieldsByKind(s, c, MountReadOnly(c, x.mountPath));
  }

  lemma ListsAreKeyed(s: Spec)
    requires UniqueKeys(s)
    ensures forall a, b :: 0 <= a < b < |Volumes(s)| ==> Volumes(s)[a].name != Volumes(s)[b].name
    ensures forall a, b :: 0 <= a < b < |Mounts(s)| ==> Mounts(s)[a].mountPath != Mounts(s)[b].mountPath
  {
    var p := "kohen-secret-";
    forall a, b | 0 <= a < b < |Volumes(s)| ensures Volumes(s)[a].name != Volumes(s)[b].name {
      assert Volumes(s)[b].name[..|p|] == p && Volumes(s)[b].name[|p|..] == s.files[b - 1].refName;
      if a == 0 {
        assert VOLUME_NAME[6] == 'c' && Volumes(s)[b].name[6] == p[6] == 's';
      } else {
        assert Volumes(s)[a].name[|p|..] == s.files[a - 1].refName;
      }
    }
  }

  // ------------------------------------------------------------ workload requests

  /** The first named container. */
  function FirstNamed(cs: seq<string>): Option<string> {
    if cs == [] then None else if cs[0] != "" then Some(cs[0]) else FirstNamed(cs[1..])
  }

  /** The effective container: the requested one, or by default the first that has a
      name. */
  ghost predicate Chosen(cs: seq<string>, requested: string, c: string) {
    if requested != "" then c == requested && c in cs
    else exists i :: 0 <= i < |cs| && cs[i] == c && c != "" && forall j :: 0 <= j < i ==> cs[j] == ""
  }

  lemma {:induction false} FirstNamedExactly(cs: seq<string>)
    ensures FirstNamed(cs).None? <==> forall c :: c in cs ==> c == ""
    ensures FirstNamed(cs).Some? ==> Chosen(cs, "", FirstNamed(cs).value)
  {
    if cs != [] && cs[0] == "" {
      FirstNamedExactly(cs[1..]);
      assert forall c :: c in cs <==> c == cs[0] || c in cs[1..];
      if FirstNamed(cs).Some? {
        var c := FirstNamed(cs).value;
        var i :| 0 <= i < |cs| - 1 && cs[1..][i] == c && c != "" && forall j :: 0 <= j < i ==> cs[1..][j] == "";
        assert cs[i + 1] == c && forall j :: 0 <= j < i + 1 ==> cs[j] == if j == 0 then "" else cs[1..][j - 1];
      }
    } else if cs != [] {
      assert cs[0] in cs;
    }
  }

  /** The container is the one asked for; none only if there is none to choose. */
  lemma TargetExactly(cs: seq<string>, requested: string)
    ensures Target(cs, requested).Some? ==> Chosen(cs, requested, Target(cs, requested).value)
    ensures Target(cs, requested).None? <==>
            if requested != "" then requested !in cs else forall c :: c in cs ==> c == ""
  {
    FirstNamedExactly(cs);
  }

  /** "first container" by default, else the requested one if the workload has it. */
  function Target(cs: seq<string>, requested: string): Option<string> {
    if requested == "" then FirstNamed(cs) else if requested in cs then Some(requested) else None
  }

  function Patch(w: State, m: Manager, cfg: Config, api: Api): (Answer, State) {
    if api == WriteFails then (Error(WireFailed), w)
    else match Apply(w.fields, m, cfg, false)
         case None => (Error(ApplyConflict), w)
         case Some(o) => (Ok, w.(fields := o))
  }

  function Wire(w: State, s: Spec, api: Api): (Answer, State) {
    if !Supported(s.kind) || api == ReadFails then (Error(WireFailed), w)
    else if !w.present then (Error(WorkloadNotFound), w)
    else match Target(w.containers, s.container)
         case None => (Error(ContainerNotFound), w)
         case Some(c) => Patch(w, Kohen, Fields(s, c), api)
  }

  /** `Unwire` (manager Kohen) and `ClearStamp` (manager KohenStamp). */
  function Retract(w: State, kind: string, m: Manager, api: Api): (Answer, State) {
    if !Supported(kind) || (api == ReadFails) then (Error(WireFailed), w)
    else if !w.present then (Ok, w)
    else Patch(w, m, map[], api)
  }

  /** `StampNoRestart`: the object annotation, under its own manager. */
  function Stamp(w: State, kind: string, version: string, api: Api): (Answer, State) {
    if !Supported(kind) || !w.present || api == ReadFails then (Error(WireFailed), w)
    else Patch(w, KohenStamp, map[ObjectAnnotation(CONFIG_SHA) := version], api)
  }

  function Read(w: State, p: Path): string {
    if p in w.fields then w.fields[p].value else ""
  }

  /** A workload as the API server holds it. */
  class Workload {
    var present: bool
    var containers: seq<string>
    var fields: Object

    ghost function View(): State
      reads this
    {
      State(present, containers, fields)
    }

    method ReadField(p: Path) returns (value: string)
      ensures value == Read(View(), p)
    {
      value := if p in fields then fields[p].value else "";
    }

    method ResolveContainer(requested: string) returns (r: Option<string>)
      ensures r == Target(containers, requested)
      ensures r.Some? ==> Chosen(containers, requested, r.value)
      ensures r.None? <==> if requested != "" then requested !in containers else forall c :: c in containers ==> c == ""
    {
      TargetExactly(containers, requested);
      var names: seq<string> := [];
      for i := 0 to |containers|
        invariant forall x :: x in names <==> x != "" && x in containers[..i]
        invariant FirstNamed(containers) == if names == [] then FirstNamed(containers[i..]) else Some(names[0])
      {
        assert containers[..i + 1] == containers[..i] + [containers[i]];
        assert containers[i..][0] == containers[i] && containers[i..][1..] == containers[i + 1..];
        if containers[i] != "" {
          names := names + [containers[i]];
        }
      }
      assert containers[..|containers|] == containers;
      if requested == "" {
        return if names == [] then None else Some(names[0]);
      }
      for i := 0 to |names|
        invariant requested !in names[..i]
      {
        if names[i] == requested {
          return Some(requested);
        }
      }
      assert names[..|names|] == names;
      return None;
    }

    /** `Wire`: the lists are built by appending, then applied unforced. */
    method WireTo(s: Spec, api: Api) returns (r: Answer)
      modifies this`fields
      ensures (r, View()) == Wire(old(View()), s, api)
    {
      if !Supported(s.kind) || api == ReadFails { return Error(WireFailed); }
      if !present { return Error(WorkloadNotFound); }
      var c := ResolveContainer(s.container);
      if c.None? { return Error(ContainerNotFound); }
      var volumes := [ConfigMapVolume(VOLUME_NAME, s.configMap)];
      var mounts := [Mount(VOLUME_NAME, s.mountPath, false)];
      for i := 0 to |s.files|
        invariant volumes == Volumes(s)[..i + 1] && mounts == Mounts(s)[..i + 1]
      {
        var vol := SecretVolumeName(s.files[i].refName);
        volumes := volumes + [SecretVolume(vol, s.files[i].secretName)];
        mounts := mounts + [Mount(vol, s.files[i].mountPath, true)];
      }
      assert volumes == Volumes(s) && mounts == Mounts(s);
      var cfg := VolumeFields(volumes) + MountFields(c.value, mounts) + EnvFields(c.value, s.env) +
                 map[ContainerItem(c.value) := ""] + StampFields(s.configSHA);
      r := Send(Kohen, cfg, api);
    }

    method Unwire(kind: string, api: Api) returns (r: Answer)
      modifies this`fields
      ensures (r, View()) == Retract(old(View()), kind, Kohen, api)
    {
      if !Supported(kind) || api == ReadFails { return Error(WireFailed); }
      if !present { return Ok; }
      r := Send(Kohen, map[], api);
    }

    method ClearStamp(kind: string, api: Api) returns (r: Answer)
      modifies this`fields
      ensures (r, View()) == Retract(old(View()), kind, KohenStamp, api)
    {
      if !Supported(kind) || api == ReadFails { return Error(WireFailed); }
      if !present { return Ok; }
      r := Send(KohenStamp, map[], api);
    }

    method StampNoRestart(kind: string, version: string, api: Api) returns (r: Answer)
      modifies this`fields
      ensures (r, View()) == Stamp(old(View()), kind, version, api)
    {
      if !Supported(kind) || !present || api == ReadFails { return Error(WireFailed); }
      r := Send(KohenStamp, map[ObjectAnnotation(CONFIG_SHA) := version], api);
    }

    /** One unforced apply patch. */
    method Send(m: Manager, cfg: Config, api: Api) returns (r: Answer)
      requires IsKohen(m)
      modifies this`fields
      ensures (r, View()) == Patch(old(View()), m, cfg, api)
      ensures Foreign(fields) == Foreign(old(fields))
    {
      KohenKeepsForeign(fields, m, cfg);
      if api == WriteFails { return Error(WireFailed); }
      if Clashes(fields, m, cfg) { return Error(ApplyConflict); }
      fields := Merge(fields, m, cfg);
      return Ok;
    }
  }

  /** A successful wire leaves Kohen owning exactly its set, with its values, and
      the pod-template stamp is the requested version. */
  lemma WiredMeansOwned(w: State, s: Spec, api: Api)
    requires Wire(w, s, api).0 == Ok
    ensures Target(w.containers, s.container).Some?
    ensures var w', f := Wire(w, s, api).1, Fields(s, Target(w.containers, s.container).value);
            && w'.present && w'.containers == w.containers
            && OwnedBy(w'.fields, Kohen) == f.Keys && (forall p :: p in f ==> w'.fields[p].value == f[p])
            && (s.configSHA != "" ==> Read(w', TemplateAnnotation(CONFIG_SHA)) == s.configSHA)
  {
    var c := Target(w.containers, s.container).value;
    ApplyOwnsExactly(w.fields, Kohen, Fields(s, c), false);
    FieldsByKind(s, c, TemplateAnnotation(CONFIG_SHA));
    var f, o := Fields(s, c), Wire(w, s, api).1.fields;
    assert forall p :: p in f ==> p in OwnedBy(o, Kohen);
  }

  /** `rollout: none` at an unchanged version: wiring and stamping again is a
      fixpoint, because two managers keep two field sets. */
  lemma NoneModeSettles(w: State, s: Spec, version: string)
    requires s.configSHA == "" && Wire(w, s, Up).0 == Ok
    requires Stamp(Wire(w, s, Up).1, s.kind, version, Up).0 == Ok
    ensures var w' := Stamp(Wire(w, s, Up).1, s.kind, version, Up).1;
            && Wire(w', s, Up) == (Ok, w') && Stamp(w', s.kind, version, Up) == (Ok, w')
            && Read(w', ObjectAnnotation(CONFIG_SHA)) == version
  {
    var c := Target(w.containers, s.container).value;
    var stamp := map[ObjectAnnotation(CONFIG_SHA) := version];
    FieldsByKind(s, c, ObjectAnnotation(CONFIG_SHA));
    TwoManagersSettle(w.fields, Fields(s, c), stamp);
    ApplyOwnsExactly(Wire(w, s, Up).1.fields, KohenStamp, stamp, false);
  }

  // ----------------------------------------------------- when and how a request fails

  /** Somebody other than `m` set a field of `cfg` to another value. */
  ghost predicate Contested(o: Object, m: Manager, cfg: Config) {
    exists p, x :: p in cfg && p in o && x in o[p].owners && x != m && o[p].value != cfg[p]
  }

  lemma PatchExactly(w: State, m: Manager, cfg: Config, api: Api)
    ensures Patch(w, m, cfg, api).0 ==
            if api == WriteFails then Error(WireFailed)
            else if Contested(w.fields, m, cfg) then Error(ApplyConflict) else Ok
    ensures Patch(w, m, cfg, api).0 != Ok ==> Patch(w, m, cfg, api).1 == w
  {
    RefusedExactly(w.fields, m, cfg, false);
    hide Clashes, Merge;
  }

  /** Whether and why wiring fails, told from the kind, the API, the workload and the
      owners of its fields. */
  lemma WireExactly(w: State, s: Spec, api: Api)
    ensures var a := Wire(w, s, api).0;
            && (a == Error(WireFailed) <==>
                || s.kind !in {"Deployment", "StatefulSet"} || api == ReadFails
                || (w.present && api == WriteFails && exists c :: Chosen(w.containers, s.container, c)))
            && (a == Error(WorkloadNotFound) <==>
                s.kind in {"Deployment", "StatefulSet"} && api != ReadFails && !w.present)
            && (a == Error(ContainerNotFound) <==>
                && s.kind in {"Deployment", "StatefulSet"} && api != ReadFails && w.present
                && !exists c :: Chosen(w.containers, s.container, c))
            && (a == Error(ApplyConflict) <==>
                && s.kind in {"Deployment", "StatefulSet"} && api == Up && w.present
                && exists c :: Chosen(w.containers, s.container, c) && Contested(w.fields, Kohen, Fields(s, c)))
            && (a == Ok <==>
                && s.kind in {"Deployment", "StatefulSet"} && api == Up && w.present
                && exists c :: Chosen(w.containers, s.container, c) && !Contested(w.fields, Kohen, Fields(s, c)))
  {
    TargetExactly(w.containers, s.container);
    var t := Target(w.containers, s.container);
    forall c ensures Chosen(w.containers, s.container, c) <==> t == Some(c) {
      ChosenIsOne(w.containers, s.container, c);
    }
    if t.Some? { PatchExactly(w, Kohen, Fields(s, t.value), api); }
    hide Fields, Patch, Target, Contested, Chosen;
  }

  lemma ChosenIsOne(cs: seq<string>, requested: string, c: string)
    ensures Chosen(cs, requested, c) <==> Target(cs, requested) == Some(c)
  {
    TargetExactly(cs, requested);
    if requested == "" && Chosen(cs, "", c) {
      var i :| 0 <= i < |cs| && cs[i] == c && c != "" && forall j :: 0 <= j < i ==> cs[j] == "";
      assert cs[i] in cs;
      var d := Target(cs, "").value;
      var k :| 0 <= k < |cs| && cs[k] == d && d != "" && forall j :: 0 <= j < k ==> cs[j] == "";
      assert !(i < k) && !(k < i);
    }
  }

  /** Whether retracting fails: an absent workload is a success. */
  lemma RetractExactly(w: State, kind: string, m: Manager, api: Api)
    ensures Retract(w, kind, m, api).0 == Ok <==>
            kind in {"Deployment", "StatefulSet"} && api != ReadFails && (w.present ==> api == Up)
  {
    PatchExactly(w, m, map[], api);
  }

  /** Whether stamping the object fails. */
  lemma StampExactly(w: State, kind: string, version: string, api: Api)
    ensures Stamp(w, kind, version, api).0 == Ok <==>
            && kind in {"Deployment", "StatefulSet"} && api == Up && w.present
            && !Contested(w.fields, KohenStamp, map[ObjectAnnotation("kohen.dev/config-sha") := version])
  {
    PatchExactly(w, KohenStamp, map[ObjectAnnotation(CONFIG_SHA) := version], api);
    hide Contested;
  }
}

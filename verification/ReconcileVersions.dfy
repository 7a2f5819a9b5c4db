/** The version a reconcile asks for, told from the references of its spec and what their
    resolvers answered. */
module ReconcileVersions {
  import opened Text
  import opened Reconcile
  import opened ReconcileTheorems
  import opened ReconcileRuns
  import S = Secrets
  import V = Version

  /** The references whose tokens fold into the version: surfaced to the environment and
      not opted out. */
  predicate FoldsIn(r: Reference) {
    r.surface == Env && r.rolloutOnRotate
  }

  /** Their names with the tokens they resolved to. */
  ghost function Folding(s: Spec, inp: Inputs): set<(string, string)> {
    set i: nat | i < |s.refs| && FoldsIn(s.refs[i]) :: (s.refs[i].name, inp.resolutions(i).token)
  }

  /** Names are unique labels, tokens free of NUL, and everything resolved. */
  ghost predicate Proper(s: Spec, inp: Inputs) {
    && AllResolved(s, inp) && inp.fetch.Commit?
    && (forall i, j :: 0 <= i < j < |s.refs| ==> s.refs[i].name != s.refs[j].name)
    && (forall i: nat :: i < |s.refs| ==> ProperAt(s, inp, i))
  }

  ghost predicate ProperAt(s: Spec, inp: Inputs, i: nat)
    requires i < |s.refs|
  {
    '=' !in s.refs[i].name && '\0' !in s.refs[i].name && '\0' !in inp.resolutions(i).token
  }

  function Evals(s: Spec, inp: Inputs): seq<S.EvaluatedRef> {
    S.EvaluatedAll(Empty(), Answers(s.refs, inp.resolutions))
  }

  lemma EvalAt(s: Spec, inp: Inputs, i: nat)
    requires AllResolved(s, inp) && i < |s.refs|
    ensures |Evals(s, inp)| == |s.refs|
    ensures var r := Evals(s, inp)[i];
            && r.name == s.refs[i].name && r.resolution.token == inp.resolutions(i).token
            && (S.Folds(r) <==> FoldsIn(s.refs[i]))
  {
    assert ResolveOne(s.refs[i], inp.resolutions(i)).ready;
  }

  lemma EvalsAreRegular(s: Spec, inp: Inputs)
    requires Proper(s, inp)
    ensures V.Regular(Evals(s, inp))
  {
    var rs := Evals(s, inp);
    forall i: nat | i < |s.refs| ensures i < |rs| && rs[i].name == s.refs[i].name && V.Plain(rs[i]) {
      EvalAt(s, inp, i);
      assert ProperAt(s, inp, i);
    }
    hide Evals, V.Plain;
    assert |rs| == |s.refs| by { EvalsLength(s, inp); }
    forall r | r in rs ensures V.Plain(r) { var i: nat :| i < |rs| && rs[i] == r; }
  }

  lemma EvalsLength(s: Spec, inp: Inputs)
    ensures |Evals(s, inp)| == |s.refs|
  {
  }

  /** The name-to-token map of the version is that of the folding references. */
  lemma FoldingIsMap(s: Spec, inp: Inputs, n: string, t: string)
    requires Proper(s, inp)
    ensures (n, t) in Folding(s, inp) <==> n in V.TokenMap(Evals(s, inp)) && V.TokenMap(Evals(s, inp))[n] == t
  {
    var rs := Evals(s, inp);
    EvalsAreRegular(s, inp);
    EvalsLength(s, inp);
    if (n, t) in Folding(s, inp) {
      var i: nat :| i < |s.refs| && FoldsIn(s.refs[i]) && (s.refs[i].name, inp.resolutions(i).token) == (n, t);
      EvalAt(s, inp, i);
      V.MapHas(rs, rs[i]);
    }
    if n in V.TokenMap(rs) && V.TokenMap(rs)[n] == t {
      var r :| r in rs && S.Folds(r) && r.name == n;
      V.MapHas(rs, r);
      var i: nat :| i < |rs| && rs[i] == r;
      EvalAt(s, inp, i);
      assert (s.refs[i].name, inp.resolutions(i).token) == (n, t);
    }
  }

  lemma SameFolding(s: Spec, inp: Inputs, s': Spec, inp': Inputs)
    requires Proper(s, inp) && Proper(s', inp')
    ensures V.TokenMap(Evals(s, inp)) == V.TokenMap(Evals(s', inp')) <==> Folding(s, inp) == Folding(s', inp')
  {
    var a, b := V.TokenMap(Evals(s, inp)), V.TokenMap(Evals(s', inp'));
    forall n, t
      ensures (n, t) in Folding(s, inp) <==> n in a && a[n] == t
      ensures (n, t) in Folding(s', inp') <==> n in b && b[n] == t
    {
      FoldingIsMap(s, inp, n, t);
      FoldingIsMap(s', inp', n, t);
    }
    hide Folding, V.TokenMap, Evals;
    if Folding(s, inp) == Folding(s', inp') {
      forall n | n in a ensures n in b && b[n] == a[n] { assert (n, a[n]) in Folding(s, inp); }
      forall n | n in b ensures n in a { assert (n, b[n]) in Folding(s', inp'); }
      assert a == b;
    }
    if a == b {
      forall n, t ensures (n, t) in Folding(s, inp) <==> (n, t) in Folding(s', inp') { }
    }
  }

  predicate SameShort(c: string, d: string) {
    (if |c| <= 12 then c else c[..12]) == (if |d| <= 12 then d else d[..12])
  }

  /** The digests do not collide on what these two reconciles hash. */
  ghost predicate NoCollision(s: Spec, inp: Inputs, s': Spec, inp': Inputs) {
    inp.hash == inp'.hash && V.Separates(inp.hash, V.Hashed(Evals(s, inp)), V.Hashed(Evals(s', inp')))
  }

  /** Two reconciles, under whatever specs, ask for the same version exactly if the first
      twelve characters of their commits and their folding references with tokens are the
      same. */
  lemma DesiredIdentity(s: Spec, inp: Inputs, s': Spec, inp': Inputs)
    requires Proper(s, inp) && Proper(s', inp') && NoCollision(s, inp, s', inp')
    ensures Desired(s, inp) == Desired(s', inp') <==>
            SameShort(inp.fetch.commit, inp'.fetch.commit) && Folding(s, inp) == Folding(s', inp')
  {
    EvalsAreRegular(s, inp);
    EvalsAreRegular(s', inp');
    SameFolding(s, inp, s', inp');
    V.VersionIdentity(inp.fetch.commit, Evals(s, inp), inp'.fetch.commit, Evals(s', inp'), inp.hash);
    V.ShortCommitExactly(inp.fetch.commit);
    V.ShortCommitExactly(inp'.fetch.commit);
    ShortIs(inp.fetch.commit);
    ShortIs(inp'.fetch.commit);
    hide V.RefsVersion, V.TokenMap, Folding, Evals, V.ShortCommit, V.Hashed;
    assert Desired(s, inp) == V.RefsVersion(inp.fetch.commit, Evals(s, inp), inp.hash) by { DesiredIs(s, inp); }
    assert Desired(s', inp') == V.RefsVersion(inp'.fetch.commit, Evals(s', inp'), inp'.hash) by { DesiredIs(s', inp'); }
  }

  lemma DesiredIs(s: Spec, inp: Inputs)
    requires inp.fetch.Commit?
    ensures Desired(s, inp) == V.RefsVersion(inp.fetch.commit, Evals(s, inp), inp.hash)
  {
    hide V.RefsVersion;
  }

  lemma ShortIs(c: string)
    ensures V.ShortCommit(c) == if |c| <= 12 then c else c[..12]
  {
    V.ShortCommitExactly(c);
  }

  /** The same answers but for the token of reference `i`. */
  function Rotated(inp: Inputs, i: nat, token: string): Inputs {
    inp.(resolutions := (j: nat) => if j == i then inp.resolutions(i).(token := token) else inp.resolutions(j))
  }

  lemma RotatedIsProper(s: Spec, inp: Inputs, i: nat, token: string)
    requires Proper(s, inp) && i < |s.refs| && '\0' !in token
    ensures Proper(s, Rotated(inp, i, token))
  {
    var inp' := Rotated(inp, i, token);
    forall j: nat | j < |s.refs|
      ensures ResolveOne(s.refs[j], inp'.resolutions(j)).ready && ProperAt(s, inp', j)
    {
      assert ProperAt(s, inp, j) && ResolveOne(s.refs[j], inp.resolutions(j)).ready;
    }
  }

  lemma RotatedFolding(s: Spec, inp: Inputs, i: nat, token: string)
    requires Proper(s, inp) && i < |s.refs| && '\0' !in token
    ensures Folding(s, inp) == Folding(s, Rotated(inp, i, token)) <==>
            !(s.refs[i].surface == Env && s.refs[i].rolloutOnRotate && token != inp.resolutions(i).token)
  {
    var inp' := Rotated(inp, i, token);
    if FoldsIn(s.refs[i]) && token != inp.resolutions(i).token {
      var p := (s.refs[i].name, token);
      assert p in Folding(s, inp');
      forall j: nat | j < |s.refs| && FoldsIn(s.refs[j]) ensures (s.refs[j].name, inp.resolutions(j).token) != p {
        assert j < i || j == i || i < j;
      }
      assert p !in Folding(s, inp);
    } else {
      assert forall j: nat :: j < |s.refs| && FoldsIn(s.refs[j]) ==>
          inp'.resolutions(j).token == inp.resolutions(j).token;
      assert Folding(s, inp) == Folding(s, inp');
    }
  }

  /** A rotated secret changes the version exactly if its reference is surfaced to the
      environment, not opted out, and the token really changed. */
  lemma RotationChangesDesired(s: Spec, inp: Inputs, i: nat, token: string)
    requires Proper(s, inp) && i < |s.refs| && '\0' !in token
    requires NoCollision(s, inp, s, Rotated(inp, i, token))
    ensures Desired(s, inp) != Desired(s, Rotated(inp, i, token)) <==>
            s.refs[i].surface == Env && s.refs[i].rolloutOnRotate && token != inp.resolutions(i).token
  {
    RotatedIsProper(s, inp, i, token);
    RotatedFolding(s, inp, i, token);
    DesiredIdentity(s, inp, s, Rotated(inp, i, token));
    hide Desired, Folding, Proper;
  }

  /** In auto mode, with the version from before stamped, the reconcile that sees the
      rotation and reaches the wire rolls the pods exactly then. */
  lemma RotationRolls(u: State, s: Spec, inp: Inputs, i: nat, token: string, saved: bool)
    requires Proper(s, inp) && i < |s.refs| && '\0' !in token && !s.rolloutNone
    requires NoCollision(s, inp, s, Rotated(inp, i, token))
    requires TemplateStamp(u.workload) == Desired(s, inp)
    requires ReachesWire(u, Reconciled(s, Rotated(inp, i, token), saved))
    ensures var e := Reconciled(s, Rotated(inp, i, token), saved);
            Template(Step(u, e).workload) != Template(u.workload) <==>
            s.refs[i].surface == Env && s.refs[i].rolloutOnRotate && token != inp.resolutions(i).token
  {
    RotationChangesDesired(s, inp, i, token);
    AutoEvent(u, Reconciled(s, Rotated(inp, i, token), saved));
    hide Desired, Step, Template, TemplateStamp, Proper, NoCollision, ReachesWire;
  }
}

/** internal/secret/secret.go and internal/controller/secrets.go: the asymmetric
    readiness policy, sticky establishment and the outage clock. Times are integers
    and 0 is Go's zero time. */
module Secrets {
  import opened Text
  import opened Status

  /** What a resolver reports for one reference; `token` is its rotation token. */
  datatype Resolution = Resolution(ready: bool, token: string, reason: Reason)

  datatype EvaluatedRef = EvaluatedRef(
    name: string, envSurfaced: bool, rolloutOnRotate: bool, established: bool, resolution: Resolution)

  datatype Decision = Decision(
    allReady: bool, reason: Reason, readyReason: Reason, maxDegradedExceeded: bool, envTokens: seq<string>)

  predicate Unready(r: EvaluatedRef) {
    !r.resolution.ready
  }

  predicate AnyUnready(rs: seq<EvaluatedRef>) {
    exists r :: r in rs && Unready(r)
  }

  /** Some unready reference never had a wired version: fail closed. */
  predicate AnyFirst(rs: seq<EvaluatedRef>) {
    exists r :: r in rs && Unready(r) && !r.established
  }

  predicate Overdue(degradedSince: int, maxDegraded: int, now: int) {
    degradedSince != 0 && maxDegraded > 0 && now - degradedSince > maxDegraded
  }

  /** The policy: every reference ready, or fail closed, or fail safe within bounds. */
  function Decide(rs: seq<EvaluatedRef>, degradedSince: int, maxDegraded: int, now: int): Decision {
    if !AnyUnready(rs) then Decision(true, Synced, Synced, false, EnvTokens(rs))
    else if AnyFirst(rs) then Decision(false, AwaitingFirstResolution, Progressing, false, [])
    else if Overdue(degradedSince, maxDegraded, now) then Decision(false, MaxDegradedExceeded, Degraded, true, [])
    else Decision(false, DegradedServingLastGood, Degraded, false, [])
  }

  /** `Evaluate`, with its accumulating loop. */
  method Evaluate(rs: seq<EvaluatedRef>, degradedSince: int, maxDegraded: int, now: int) returns (d: Decision)
    ensures d == Decide(rs, degradedSince, maxDegraded, now)
  {
    if |rs| == 0 {
      return Decision(true, Synced, Synced, false, []);
    }
    var unready: seq<EvaluatedRef>, first: seq<EvaluatedRef> := [], [];
    for i := 0 to |rs|
      invariant forall r :: r in unready <==> r in rs[..i] && Unready(r)
      invariant forall r :: r in first <==> r in rs[..i] && Unready(r) && !r.established
    {
      assert rs[..i + 1] == rs[..i] + [rs[i]];
      if !rs[i].resolution.ready {
        unready := unready + [rs[i]];
        if !rs[i].established { first := first + [rs[i]]; }
      }
    }
    assert rs[..|rs|] == rs;
    assert |unready| > 0 ==> unready[0] in rs && Unready(unready[0]);
    assert |first| > 0 ==> first[0] in rs && Unready(first[0]) && !first[0].established;
    if |unready| == 0 {
      var tokens := EnvTokensOf(rs);
      return Decision(true, Synced, Synced, false, tokens);
    }
    if |first| > 0 {
      return Decision(false, AwaitingFirstResolution, Progressing, false, []);
    }
    if degradedSince != 0 && maxDegraded > 0 && now - degradedSince > maxDegraded {
      return Decision(false, MaxDegradedExceeded, Degraded, true, []);
    }
    return Decision(false, DegradedServingLastGood, Degraded, false, []);
  }

  // ------------------------------------------------------------------ env tokens

  predicate Folds(r: EvaluatedRef) {
    r.envSurfaced && r.rolloutOnRotate
  }

  function Token(r: EvaluatedRef): string {
    r.name + "=" + r.resolution.token
  }

  function RawTokens(rs: seq<EvaluatedRef>): seq<string> {
    if rs == [] then []
    else RawTokens(rs[..|rs| - 1]) + (if Folds(rs[|rs| - 1]) then [Token(rs[|rs| - 1])] else [])
  }

  function EnvTokens(rs: seq<EvaluatedRef>): seq<string> {
    SortOf(RawTokens(rs))
  }

  method EnvTokensOf(rs: seq<EvaluatedRef>) returns (out: seq<string>)
    ensures out == EnvTokens(rs)
  {
    out := [];
    for i := 0 to |rs|
      invariant out == RawTokens(rs[..i])
    {
      assert rs[..i + 1][..i] == rs[..i];
      if Folds(rs[i]) { out := out + [Token(rs[i])]; }
    }
    assert rs[..|rs|] == rs;
    out := Sort(out);
  }

  lemma {:induction false} RawTokensExactly(rs: seq<EvaluatedRef>, x: string)
    ensures x in RawTokens(rs) <==>
            exists r :: r in rs && r.envSurfaced && r.rolloutOnRotate && x == r.name + "=" + r.resolution.token
  {
    if rs != [] {
      var n := |rs| - 1;
      RawTokensExactly(rs[..n], x);
      assert forall r :: r in rs <==> r in rs[..n] || r == rs[n];
    }
  }

  /** Fail closed on anything unready never wired; else fail safe, until the bound; and
      what each verdict tells Ready and the version. */
  lemma DecisionExactly(rs: seq<EvaluatedRef>, since: int, max: int, now: int)
    ensures var d := Decide(rs, since, max, now);
            var unready := exists r :: r in rs && !r.resolution.ready;
            var first := exists r :: r in rs && !r.resolution.ready && !r.established;
            var overdue := since != 0 && max > 0 && now - since > max;
            && (d.allReady <==> !unready)
            && d.reason == (if !unready then Synced else if first then AwaitingFirstResolution
                            else if overdue then MaxDegradedExceeded else DegradedServingLastGood)
            && d.readyReason == (if !unready then Synced else if first then Progressing else Degraded)
            && (d.maxDegradedExceeded <==> unready && !first && overdue)
            && Sorted(d.envTokens)
            && forall x :: x in d.envTokens <==>
                 && !unready
                 && exists r :: r in rs && r.envSurfaced && r.rolloutOnRotate && x == r.name + "=" + r.resolution.token
  {
    SortOfSorts(RawTokens(rs));
    forall x ensures x in EnvTokens(rs) <==> x in RawTokens(rs) {
      assert x in EnvTokens(rs) <==> x in multiset(EnvTokens(rs));
    }
    forall x
      ensures x in RawTokens(rs) <==>
              exists r :: r in rs && r.envSurfaced && r.rolloutOnRotate && x == r.name + "=" + r.resolution.token
    {
      RawTokensExactly(rs, x);
    }
    hide RawTokens, EnvTokens;
  }

  // ----------------------------------------------------- establishment and outage

  datatype RefStatus = RefStatus(name: string, resolved: bool, established: bool)

  /** What of a ConfigSync's status the secret policy reads and writes. */
  datatype Ledger = Ledger(refs: seq<RefStatus>, cond: Option<Condition>)

  /** One reference of the spec with what its resolver answered. */
  datatype Answer = Answer(name: string, envSurfaced: bool, rolloutOnRotate: bool, resolution: Resolution)

  /** `priorEstablished[name]`, false when absent. */
  predicate Established(refs: seq<RefStatus>, name: string) {
    exists s :: s in refs && s.name == name && s.established
  }

  lemma EstablishedSnoc(refs: seq<RefStatus>, s: RefStatus, name: string)
    ensures Established(refs + [s], name) <==> Established(refs, name) || (s.name == name && s.established)
  {
    assert s in refs + [s];
    assert forall x :: x in refs ==> x in refs + [s];
  }

  function Evaluated(l: Ledger, a: Answer): EvaluatedRef {
    EvaluatedRef(a.name, a.envSurfaced, a.rolloutOnRotate, Established(l.refs, a.name), a.resolution)
  }

  function EvaluatedAll(l: Ledger, answers: seq<Answer>): seq<EvaluatedRef> {
    seq(|answers|, i requires 0 <= i < |answers| => Evaluated(l, answers[i]))
  }

  /** When the current outage began: the False condition's transition, else now. */
  function DegradedSince(l: Ledger, now: int): int {
    if l.cond.Some? && !l.cond.value.holds then l.cond.value.since else now
  }

  function Resolve(l: Ledger, answers: seq<Answer>, maxDegraded: int, now: int): Decision {
    Decide(EvaluatedAll(l, answers), DegradedSince(l, now), maxDegraded, now)
  }

  /** The status `resolveSecrets` leaves; `setAt` is when the condition is written. */
  function Resolved(l: Ledger, answers: seq<Answer>, maxDegraded: int, now: int, setAt: int): Ledger {
    var d := Resolve(l, answers, maxDegraded, now);
    Ledger(seq(|answers|, i requires 0 <= i < |answers| =>
             RefStatus(answers[i].name, answers[i].resolution.ready, Established(l.refs, answers[i].name))),
           Some(Flip(l.cond, d.allReady, d.reason, setAt)))
  }

  /** The new statuses list the references in order, each resolved or not as its resolver
      says, established as its name was. */
  lemma ResolvedExactly(l: Ledger, answers: seq<Answer>, max: int, now: int, setAt: int, i: nat)
    requires i < |answers|
    ensures var l' := Resolved(l, answers, max, now, setAt);
            && |l'.refs| == |answers| && l'.refs[i].name == answers[i].name
            && (l'.refs[i].resolved <==> answers[i].resolution.ready)
            && (l'.refs[i].established <==> exists s :: s in l.refs && s.name == answers[i].name && s.established)
  {
    hide Resolve;
  }

  function MarkEstablished(l: Ledger): Ledger {
    l.(refs := seq(|l.refs|, i requires 0 <= i < |l.refs| => l.refs[i].(established := true)))
  }

  /** The part of a ConfigSync object that secrets.go mutates. */
  class SecretStatus {
    var refs: seq<RefStatus>
    var cond: Option<Condition>

    ghost function View(): Ledger
      reads this
    {
      Ledger(refs, cond)
    }

    /** `resolveSecrets`. */
    method ResolveSecrets(answers: seq<Answer>, maxDegraded: int, now: int, setAt: int) returns (d: Decision)
      modifies this
      ensures d == Resolve(old(View()), answers, maxDegraded, now)
      ensures View() == Resolved(old(View()), answers, maxDegraded, now, setAt)
    {
      if |answers| == 0 {
        d := Evaluate([], 0, 0, now);
        refs := [];
        cond := Some(Flip(cond, true, d.reason, setAt));
        return;
      }
      var prior: set<string>, before := {}, refs;
      for i := 0 to |before|
        invariant View() == old(View())
        invariant forall n :: n in prior <==> Established(before[..i], n)
      {
        assert before[..i + 1] == before[..i] + [before[i]];
        forall n { EstablishedSnoc(before[..i], before[i], n); }
        if before[i].established { prior := prior + {before[i].name}; }
      }
      assert before[..|before|] == before;
      var degradedSince := now;
      if cond.Some? && !cond.value.holds { degradedSince := cond.value.since; }
      var evals: seq<EvaluatedRef>, updated: seq<RefStatus> := [], [];
      for i := 0 to |answers|
        invariant View() == old(View()) && evals == EvaluatedAll(View(), answers)[..i]
        invariant |updated| == i && forall j :: 0 <= j < i ==>
                    updated[j] == RefStatus(answers[j].name, answers[j].resolution.ready, answers[j].name in prior)
      {
        var a := answers[i];
        evals := evals + [EvaluatedRef(a.name, a.envSurfaced, a.rolloutOnRotate, a.name in prior, a.resolution)];
        updated := updated + [RefStatus(a.name, a.resolution.ready, a.name in prior)];
      }
      assert evals == EvaluatedAll(View(), answers);
      d := Evaluate(evals, degradedSince, maxDegraded, now);
      refs := updated;
      cond := Some(Flip(cond, d.allReady, d.reason, setAt));
      assert refs == Resolved(old(View()), answers, maxDegraded, now, setAt).refs;
    }

    /** `markSecretsEstablished`. */
    method MarkSecretsEstablished()
      modifies this`refs
      ensures View() == MarkEstablished(old(View()))
    {
      for i := 0 to |refs|
        invariant |refs| == |old(refs)|
        invariant forall j :: 0 <= j < i ==> refs[j] == old(refs)[j].(established := true)
        invariant forall j :: i <= j < |refs| ==> refs[j] == old(refs)[j]
      {
        refs := refs[i := refs[i].(established := true)];
      }
      assert refs == MarkEstablished(old(View())).refs;
    }
  }
}

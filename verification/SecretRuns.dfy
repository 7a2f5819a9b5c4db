/** Establishment and bounded degradation over whole histories.

    An event is one reconcile that reached secret resolution, with its status write
    persisted; the fold of `Step` over a history is the status it leaves. */
module SecretRuns {
  import opened Text
  import opened Status
  import opened Secrets

  /** `max`: the configured maxDegradedDuration; `wired`: WorkloadWired was set True later
      in the same reconcile. */
  datatype Event = Event(answers: seq<Answer>, max: int, now: int, setAt: int, wired: bool)

  function Judge(l: Ledger, e: Event): Decision {
    Resolve(l, e.answers, e.max, e.now)
  }

  function Step(l: Ledger, e: Event): Ledger {
    var r := Resolved(l, e.answers, e.max, e.now, e.setAt);
    if Judge(l, e).allReady && e.wired then MarkEstablished(r) else r
  }

  function Fold(h: seq<Event>): Ledger {
    if h == [] then Ledger([], None) else Step(Fold(h[..|h| - 1]), h[|h| - 1])
  }

  predicate AllReady(e: Event) {
    forall a :: a in e.answers ==> a.resolution.ready
  }

  ghost predicate Lists(e: Event, name: string) {
    exists a :: a in e.answers && a.name == name
  }

  /** Some reconcile resolved everything with the workload wired, and the reference
      has been listed by every reconcile since. */
  ghost predicate EstablishedBy(h: seq<Event>, name: string) {
    exists i :: 0 <= i < |h| && AllReady(h[i]) && h[i].wired && ListedFrom(h, i, name)
  }

  ghost predicate ListedFrom(h: seq<Event>, i: nat, name: string) {
    forall j :: i <= j < |h| ==> Lists(h[j], name)
  }

  lemma ReadyMeansAllReady(l: Ledger, e: Event)
    ensures Judge(l, e).allReady <==> AllReady(e)
  {
    var rs := EvaluatedAll(l, e.answers);
    assert forall i :: 0 <= i < |rs| ==> rs[i].resolution == e.answers[i].resolution;
    if AnyUnready(rs) {
      var r :| r in rs && Unready(r);
      var i :| 0 <= i < |rs| && rs[i] == r;
      assert e.answers[i] in e.answers;
    } else {
      forall a | a in e.answers ensures a.resolution.ready {
        var i :| 0 <= i < |e.answers| && e.answers[i] == a;
        assert rs[i] in rs;
      }
    }
  }

  lemma FlagAfterStep(l: Ledger, e: Event, name: string)
    ensures Established(Step(l, e).refs, name) <==>
            Lists(e, name) && ((AllReady(e) && e.wired) || Established(l.refs, name))
  {
    ReadyMeansAllReady(l, e);
    var rs := Step(l, e).refs;
    assert |rs| == |e.answers| && forall i :: 0 <= i < |rs| ==>
        rs[i].name == e.answers[i].name &&
        rs[i].established == ((AllReady(e) && e.wired) || Established(l.refs, e.answers[i].name));
    if Established(rs, name) {
      var s :| s in rs && s.name == name && s.established;
      var i :| 0 <= i < |rs| && rs[i] == s;
      assert e.answers[i] in e.answers;
    }
    if Lists(e, name) {
      var a :| a in e.answers && a.name == name;
      var i :| 0 <= i < |e.answers| && e.answers[i] == a;
      assert rs[i] in rs;
    }
  }

  lemma EstablishedBySnoc(h: seq<Event>, name: string)
    requires h != []
    ensures var e := h[|h| - 1];
            EstablishedBy(h, name) <==>
            Lists(e, name) && ((AllReady(e) && e.wired) || EstablishedBy(h[..|h| - 1], name))
  {
    var n := |h| - 1;
    var g, e := h[..n], h[n];
    if EstablishedBy(h, name) {
      var i :| 0 <= i < |h| && AllReady(h[i]) && h[i].wired && ListedFrom(h, i, name);
      assert Lists(h[n], name);
      if i < n { assert g[i] == h[i] && ListedFrom(g, i, name); }
    }
    if Lists(e, name) && AllReady(e) && e.wired {
      assert ListedFrom(h, n, name);
    } else if Lists(e, name) && EstablishedBy(g, name) {
      var i :| 0 <= i < |g| && AllReady(g[i]) && g[i].wired && ListedFrom(g, i, name);
      assert g[i] == h[i];
      forall j | i <= j < |h| ensures Lists(h[j], name) { assert j < n ==> g[j] == h[j]; }
      assert ListedFrom(h, i, name);
    }
  }

  /** The sticky flag is exactly this history. */
  lemma {:induction false} FlagIsHistory(h: seq<Event>, name: string)
    ensures Established(Fold(h).refs, name) <==> EstablishedBy(h, name)
  {
    if h != [] {
      FlagIsHistory(h[..|h| - 1], name);
      FlagAfterStep(Fold(h[..|h| - 1]), h[|h| - 1], name);
      EstablishedBySnoc(h, name);
    }
  }

  /** A flag turns true only in a reconcile that resolved everything with the
      workload wired, and is kept as long as the name stays listed. */
  lemma FlagIsSticky(h: seq<Event>, e: Event, name: string)
    ensures var was, now := Established(Fold(h).refs, name), Established(Fold(h + [e]).refs, name);
            && (!was && now ==> AllReady(e) && e.wired && Lists(e, name))
            && (was && Lists(e, name) ==> now)
  {
    assert (h + [e])[..|h|] == h;
    FlagAfterStep(Fold(h), e, name);
  }

  /** AwaitingFirstResolution is reported exactly when some unready reference was
      never part of a wired version. */
  lemma {:induction false} AwaitingFirstExactly(h: seq<Event>, e: Event)
    ensures Judge(Fold(h), e).reason == AwaitingFirstResolution <==>
            exists a :: a in e.answers && !a.resolution.ready && !EstablishedBy(h, a.name)
  {
    UnreadyFirst(Fold(h), e.answers);
    forall a | a in e.answers ensures Established(Fold(h).refs, a.name) <==> EstablishedBy(h, a.name) {
      FlagIsHistory(h, a.name);
    }
  }

  lemma UnreadyFirst(l: Ledger, answers: seq<Answer>)
    ensures AnyUnready(EvaluatedAll(l, answers)) <==> exists a :: a in answers && !a.resolution.ready
    ensures AnyFirst(EvaluatedAll(l, answers)) <==>
            exists a :: a in answers && !a.resolution.ready && !Established(l.refs, a.name)
  {
    var rs := EvaluatedAll(l, answers);
    forall a | a in answers ensures Evaluated(l, a) in rs {
      var i :| 0 <= i < |answers| && answers[i] == a;
      assert rs[i] == Evaluated(l, a);
    }
    forall r | r in rs ensures exists a :: a in answers && r == Evaluated(l, a) {
      var i :| 0 <= i < |rs| && rs[i] == r;
      assert answers[i] in answers && r == Evaluated(l, answers[i]);
    }
  }

  // ------------------------------------------------------------------ the outage

  /** The current outage began with event `i`: not ready since, ready just before. */
  ghost predicate Outage(h: seq<Event>, i: nat) {
    && i < |h| && (i > 0 ==> AllReady(h[i - 1]))
    && forall j :: i <= j < |h| ==> !AllReady(h[j])
  }

  lemma ConditionAfterStep(l: Ledger, e: Event)
    ensures Step(l, e).cond ==
            Some(Flip(l.cond, AllReady(e), Judge(l, e).reason, e.setAt))
  {
    ReadyMeansAllReady(l, e);
  }

  lemma OutageGoesOn(h: seq<Event>, i: nat)
    requires h != [] && Outage(h[..|h| - 1], i) && !AllReady(h[|h| - 1])
    ensures Outage(h, i)
  {
    var g := h[..|h| - 1];
    assert forall j :: 0 <= j < |g| ==> g[j] == h[j];
  }

  /** The condition records the last evaluation and the start of the outage. */
  lemma {:induction false} ConditionIsHistory(h: seq<Event>)
    requires h != []
    ensures var c := Fold(h).cond;
            && c.Some? && c.value.holds == AllReady(h[|h| - 1])
            && c.value.reason == Judge(Fold(h[..|h| - 1]), h[|h| - 1]).reason
            && (!c.value.holds ==> exists i: nat :: Outage(h, i) && c.value.since == h[i].setAt)
  {
    var n := |h| - 1;
    var g, e := h[..n], h[n];
    ConditionAfterStep(Fold(g), e);
    hide Step, Judge, AllReady;
    if !AllReady(e) {
      if n == 0 {
        assert Outage(h, 0);
      } else {
        ConditionIsHistory(g);
        assert g[n - 1] == h[n - 1];
        if AllReady(h[n - 1]) {
          assert Outage(h, n);
        } else {
          var i: nat :| Outage(g, i) && Fold(g).cond.value.since == g[i].setAt;
          OutageGoesOn(h, i);
        }
      }
    }
  }

  lemma OutageUnique(h: seq<Event>, i: nat, j: nat)
    requires Outage(h, i) && Outage(h, j)
    ensures i == j
  {
  }

  /** Bounded degradation: MaxDegradedExceeded is reported at `now` exactly when
      something is unready, everything unready has been established, and the outage
      began, with no ready evaluation since, more than `max` before `now`. */
  lemma {:induction false} MaxDegradedExactly(h: seq<Event>, e: Event)
    requires forall i :: 0 <= i < |h| ==> h[i].setAt != 0
    ensures Judge(Fold(h), e).maxDegradedExceeded <==>
            && (exists a :: a in e.answers && !a.resolution.ready)
            && (forall a :: a in e.answers && !a.resolution.ready ==> EstablishedBy(h, a.name))
            && e.max > 0
            && (exists i: nat :: Outage(h, i) && e.now - h[i].setAt > e.max)
  {
    var l := Fold(h);
    UnreadyFirst(l, e.answers);
    forall a | a in e.answers ensures Established(l.refs, a.name) <==> EstablishedBy(h, a.name) {
      FlagIsHistory(h, a.name);
    }
    hide Fold, AnyUnready, AnyFirst, EvaluatedAll, EstablishedBy, Outage, Established, EnvTokens;
    if h != [] { ConditionIsHistory(h); } else { FoldEmpty(); }
    if h != [] && !l.cond.value.holds {
      var i: nat :| Outage(h, i) && l.cond.value.since == h[i].setAt;
      forall j: nat | Outage(h, j) ensures j == i { OutageUnique(h, i, j); }
    } else {
      forall j: nat ensures !Outage(h, j) { NoOutage(h, j); }
    }
  }

  lemma FoldEmpty()
    ensures Fold([]) == Ledger([], None)
  {
  }

  lemma NoOutage(h: seq<Event>, j: nat)
    requires h == [] || AllReady(h[|h| - 1])
    ensures !Outage(h, j)
  {
  }

  // ------------------------------------------------------------------ the metric

  predicate Exceeded(h: seq<Event>, k: nat)
    requires k < |h|
  {
    Judge(Fold(h[..k]), h[k]).maxDegradedExceeded
  }

  /** `MaxDegradedExceededTotal` as `sync` increments it: only when the condition's
      prior reason was another one. */
  function Metric(h: seq<Event>): nat {
    if h == [] then 0
    else
      var n := |h| - 1;
      var prior := Fold(h[..n]).cond;
      Metric(h[..n]) +
      (if Exceeded(h, n) && (prior.None? || prior.value.reason != MaxDegradedExceeded) then 1 else 0)
  }

  ghost predicate Enters(h: seq<Event>, k: nat) {
    k < |h| && Exceeded(h, k) && (k == 0 || !Exceeded(h, k - 1))
  }

  lemma ExceededPrefix(h: seq<Event>, n: nat, k: nat)
    requires k < n <= |h|
    ensures Exceeded(h[..n], k) == Exceeded(h, k)
  {
    assert h[..n][..k] == h[..k] && h[..n][k] == h[k];
  }

  /** The reason before the last event tells whether the event before it exceeded. */
  lemma PriorReason(h: seq<Event>)
    requires h != []
    ensures var n := |h| - 1;
            var prior := Fold(h[..n]).cond;
            (prior.Some? && prior.value.reason == MaxDegradedExceeded) <==> (n > 0 && Exceeded(h, n - 1))
  {
    var n := |h| - 1;
    if n > 0 {
      ConditionIsHistory(h[..n]);
      assert h[..n][..n - 1] == h[..n - 1] && h[..n][n - 1] == h[n - 1];
    }
  }

  lemma EntersPrefix(h: seq<Event>, n: nat, k: nat)
    requires k < n <= |h|
    ensures Enters(h[..n], k) == Enters(h, k)
  {
    ExceededPrefix(h, n, k);
    if k > 0 { ExceededPrefix(h, n, k - 1); }
  }

  ghost function Entries(h: seq<Event>): set<nat> {
    set k: nat | k < |h| && Enters(h, k)
  }

  lemma EntriesSnoc(h: seq<Event>)
    requires h != []
    ensures var n := |h| - 1;
            && Entries(h) == (if Enters(h, n) then Entries(h[..n]) + {n} else Entries(h[..n]))
            && n !in Entries(h[..n])
  {
    hide Exceeded;
    assert |h| - 1 !in Entries(h[..|h| - 1]);
    hide Enters;
    forall k: nat | k < |h| - 1 ensures Enters(h[..|h| - 1], k) == Enters(h, k) {
      EntersPrefix(h, |h| - 1, k);
    }
  }

  /** The metric counts the entries into the exceeded state. */
  lemma {:induction false} MetricCountsEntries(h: seq<Event>)
    ensures Metric(h) == |Entries(h)|
  {
    if h != [] {
      hide Exceeded, Fold, Entries;
      MetricCountsEntries(h[..|h| - 1]);
      EntriesSnoc(h);
      PriorReason(h);
    }
  }
}

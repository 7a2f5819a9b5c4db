/** Redaction with any registered secrets, in any priority: exactly when one of them can
    reappear in an output. */
module RedactSets {
  import opened Text
  import opened Redact

  // ------------------------------------------------------------------ the scanner

  /** One step of the replacement. */
  lemma StepOf(order: seq<string>, s: string)
    requires NonEmpty(order) && s != ""
    ensures match FirstPrefix(order, s)
            case Some(q) =>
              q in order && q != "" && q <= s && Redacted(order, s) == PLACEHOLDER + Redacted(order, s[|q|..])
            case None => Redacted(order, s) == [s[0]] + Redacted(order, s[1..])
  {
    FirstPrefixFinds(order, s);
  }

  /** What matches a text matches whatever goes on from it; what matches within a text's
      beginning matches that beginning. */
  lemma {:induction false} MatchWithin(order: seq<string>, t: string, s: string)
    requires t <= s
    ensures FirstPrefix(order, s).None? ==> FirstPrefix(order, t).None?
    ensures FirstPrefix(order, s).Some? && |FirstPrefix(order, s).value| <= |t| ==>
              FirstPrefix(order, t) == FirstPrefix(order, s)
  {
    if order != [] {
      MatchWithin(order[1..], t, s);
      assert order[0] <= t ==> order[0] <= s;
      assert order[0] <= s && |order[0]| <= |t| ==> order[0] <= t;
      FirstPrefixFinds(order[1..], s);
    }
  }

  /** No secret matches where the head `h` of `h + rest` is read. */
  ghost predicate LiteralBefore(order: seq<string>, h: string, rest: string) {
    forall i: nat :: i < |h| ==> FirstPrefix(order, (h + rest)[i..]).None?
  }

  /** A head in which nothing matches comes through. */
  lemma {:induction false} HeadThrough(order: seq<string>, h: string, rest: string)
    requires NonEmpty(order) && LiteralBefore(order, h, rest)
    ensures Redacted(order, h + rest) == h + Redacted(order, rest)
    decreases |h|
  {
    hide Redacted;
    if h == "" {
      assert h + rest == rest && h + Redacted(order, rest) == Redacted(order, rest);
    } else {
      var s, tail := h + rest, h[1..];
      assert s[0..] == s && s[1..] == tail + rest;
      forall i: nat | i < |tail| ensures FirstPrefix(order, (tail + rest)[i..]).None? {
        assert (tail + rest)[i..] == s[i + 1..];
      }
      HeadThrough(order, tail, rest);
      StepOf(order, s);
      Reassociate([s[0]], tail, Redacted(order, rest));
      assert [s[0]] + tail == h;
    }
  }

  /** A registered secret by itself becomes a placeholder and something. */
  lemma SecretOpens(order: seq<string>, q: string)
    requires NonEmpty(order) && q in order
    ensures PLACEHOLDER <= Redacted(order, q)
  {
    FirstPrefixFinds(order, q);
    assert q <= q;
    StepOf(order, q);
  }

  // -------------------------------------------------------- what an output begins with

  /** No secret occurs in `x`. */
  ghost predicate Silent(order: seq<string>, x: string) {
    forall p :: p in order ==> !Contains(x, p)
  }

  /** The last `m` characters of `x` begin the placeholder. */
  ghost predicate Ends(x: string, m: nat) {
    0 < m < |PLACEHOLDER| && m <= |x| && x[|x| - m..] == PLACEHOLDER[..m]
  }

  /** `x` is text without a secret, or such text that leads into the beginning of a
      placeholder: some secret follows it without an earlier match. */
  ghost predicate Begins(order: seq<string>, x: string) {
    || Silent(order, x)
    || exists m, q :: Ends(x, m) && q in order && LiteralBefore(order, x[..|x| - m], q)
  }

  lemma SilentIsLiteral(order: seq<string>, x: string)
    ensures Silent(order, x) && NonEmpty(order) ==> LiteralBefore(order, x, "")
  {
    assert x + "" == x;
    if Silent(order, x) && NonEmpty(order) {
      forall i: nat | i < |x| ensures FirstPrefix(order, x[i..]).None? {
        FirstPrefixFinds(order, x[i..]);
        forall p | p in order ensures !(p <= x[i..]) {
          if p <= x[i..] { PrefixOfSuffix(x, i, p); }
        }
      }
    }
  }

  lemma LiteralIsSilent(order: seq<string>, x: string)
    requires NonEmpty(order) && LiteralBefore(order, x, "")
    ensures Silent(order, x)
  {
    assert x + "" == x;
    forall p, at: nat | p in order ensures !OccursAt(p, x, at) {
      if at < |x| {
        FirstPrefixFinds(order, x[at..]);
        assert at + |p| <= |x| ==> x[at..][..|p|] == x[at..at + |p|];
      }
    }
  }

  /** What may begin an output begins one. */
  lemma BeginningAppears(order: seq<string>, x: string)
    requires NonEmpty(order) && Begins(order, x)
    ensures exists s :: x <= Redacted(order, s)
  {
    if Silent(order, x) {
      SilentIsLiteral(order, x);
      HeadThrough(order, x, "");
      assert x + "" == x && Redacted(order, "") == "";
      assert x <= Redacted(order, x);
    } else {
      var m, q :| Ends(x, m) && q in order && LiteralBefore(order, x[..|x| - m], q);
      var h := x[..|x| - m];
      HeadThrough(order, h, q);
      SecretOpens(order, q);
      hide Redacted;
      LedInto(x, m, Redacted(order, q));
      assert x <= Redacted(order, h + q);
    }
  }

  lemma LedInto(x: string, m: nat, out: string)
    requires Ends(x, m) && PLACEHOLDER <= out
    ensures x <= x[..|x| - m] + out
  {
    assert out[..m] == PLACEHOLDER[..m];
    assert x == x[..|x| - m] + out[..m];
  }

  /** And nothing else does, the placeholder itself aside. */
  lemma {:induction false} BeginningIsOne(order: seq<string>, s: string, x: string, j: nat)
    requires NonEmpty(order) && !Contains(x, PLACEHOLDER)
    requires j <= |x| && j <= |s| && s[..j] == x[..j] && x[j..] <= Redacted(order, s[j..])
    requires forall i: nat :: i < j ==> FirstPrefix(order, s[i..]).None?
    ensures Begins(order, x)
    decreases |x| - j
  {
    hide Redacted;
    if j == |x| {
      ReadLiterally(order, s, x);
    } else {
      RedactedEnds(order);
      assert s[j..] != "";
      StepOf(order, s[j..]);
      if FirstPrefix(order, s[j..]).Some? {
        var q := FirstPrefix(order, s[j..]).value;
        StopsAtPlaceholder(x, j, Redacted(order, s[j..][|q|..]));
        ReadBefore(order, s, x, j, q);
      } else {
        assert s[j..][1..] == s[j + 1..] && x[j..][1..] == x[j + 1..];
        ConsPrefix(x[j..], s[j], Redacted(order, s[j + 1..]));
        assert s[..j + 1] == s[..j] + [s[j]] == x[..j + 1];
        BeginningIsOne(order, s, x, j + 1);
      }
    }
  }

  lemma ReadLiterally(order: seq<string>, s: string, x: string)
    requires NonEmpty(order) && x <= s && forall i: nat :: i < |x| ==> FirstPrefix(order, s[i..]).None?
    ensures Silent(order, x)
  {
    forall i: nat | i < |x| ensures FirstPrefix(order, (x + "")[i..]).None? {
      assert (x + "")[i..] == s[i..][..|x| - i];
      MatchWithin(order, (x + "")[i..], s[i..]);
    }
    LiteralIsSilent(order, x);
  }

  lemma StopsAtPlaceholder(x: string, j: nat, rest: string)
    requires !Contains(x, PLACEHOLDER) && j < |x| && x[j..] <= PLACEHOLDER + rest
    ensures Ends(x, |x| - j)
  {
    var out, m := PLACEHOLDER + rest, |x| - j;
    if m >= |PLACEHOLDER| {
      assert x[j..][..|PLACEHOLDER|] == out[..|PLACEHOLDER|] == PLACEHOLDER;
      PrefixOfSuffix(x, j, PLACEHOLDER);
    } else {
      assert x[j..] == out[..m] == PLACEHOLDER[..m];
    }
  }

  lemma ReadBefore(order: seq<string>, s: string, x: string, j: nat, q: string)
    requires j < |x| && j <= |s| && s[..j] == x[..j] && Ends(x, |x| - j) && q in order && q <= s[j..]
    requires forall i: nat :: i < j ==> FirstPrefix(order, s[i..]).None?
    ensures Begins(order, x)
  {
    var h := x[..j];
    forall i: nat | i < |h| ensures FirstPrefix(order, (h + q)[i..]).None? {
      assert (h + q)[i..] == s[i..][..j - i + |q|];
      MatchWithin(order, (h + q)[i..], s[i..]);
    }
    assert x[..|x| - (|x| - j)] == h;
  }

  // ------------------------------------------------------------- exactly when it survives

  /** What makes a secret reappear among others: it is part of the placeholder; an output
      can begin with it; or it continues the placeholder's end with what can begin one. */
  ghost predicate Assembled(order: seq<string>, p: string) {
    || Contains(PLACEHOLDER, p)
    || Begins(order, p)
    || exists k: nat :: Continues(p, k) && Begins(order, p[k..])
  }

  lemma AssembledSurvives(order: seq<string>, p: string)
    requires NonEmpty(order) && p in order && Assembled(order, p)
    ensures !NeverSurvives(order, p)
  {
    if Contains(PLACEHOLDER, p) {
      PartSurvives(order, p);
    } else if Begins(order, p) {
      BeginningAppears(order, p);
      var s :| p <= Redacted(order, s);
      var out := Redacted(order, s);
      assert out[0..] == out;
      PrefixOfSuffix(out, 0, p);
    } else {
      var k: nat :| Continues(p, k) && Begins(order, p[k..]);
      BeginningAppears(order, p[k..]);
      var s :| p[k..] <= Redacted(order, s);
      ContinuedAmongOthers(order, p, k, s);
    }
  }

  /** After the secret of highest priority any output may follow. */
  lemma ContinuedAmongOthers(order: seq<string>, p: string, k: nat, s: string)
    requires NonEmpty(order) && order != [] && Continues(p, k) && p[k..] <= Redacted(order, s)
    ensures Contains(Redacted(order, order[0] + s), p)
  {
    var t := order[0] + s;
    StepOf(order, t);
    assert t[|order[0]|..] == s && order[0] in order;
    hide Redacted;
    var out, at := PLACEHOLDER + Redacted(order, s), |PLACEHOLDER| - k;
    assert out[at..] == p[..k] + Redacted(order, s);
    assert p == p[..k] + p[k..];
    assert p <= out[at..];
    PrefixOfSuffix(out, at, p);
  }

  lemma {:induction false} SurvivorIsAssembled(order: seq<string>, p: string, s: string, at: nat)
    requires NonEmpty(order) && p in order && !Contains(p, PLACEHOLDER) && OccursAt(p, Redacted(order, s), at)
    ensures Assembled(order, p)
    decreases |s|
  {
    hide Redacted;
    RedactedEnds(order);
    if s != "" {
      StepOf(order, s);
      if FirstPrefix(order, s).Some? {
        var tail := s[|FirstPrefix(order, s).value|..];
        if at >= |PLACEHOLDER| {
          PastPlaceholder(Redacted(order, tail), p, at);
          SurvivorIsAssembled(order, p, tail, at - |PLACEHOLDER|);
        } else {
          AroundPlaceholder(order, p, tail, at);
        }
      } else if at == 0 {
        assert s[0..] == s && p[0..] == p;
        BeginningIsOne(order, s, p, 0);
      } else {
        ShiftedOccurrence(s[0], Redacted(order, s[1..]), p, at);
        SurvivorIsAssembled(order, p, s[1..], at - 1);
      }
    }
  }

  lemma PastPlaceholder(rest: string, p: string, at: nat)
    requires at >= |PLACEHOLDER| && OccursAt(p, PLACEHOLDER + rest, at)
    ensures OccursAt(p, rest, at - |PLACEHOLDER|)
  {
    assert (PLACEHOLDER + rest)[at..at + |p|] == rest[at - |PLACEHOLDER|..at - |PLACEHOLDER| + |p|];
  }

  lemma AroundPlaceholder(order: seq<string>, p: string, tail: string, at: nat)
    requires NonEmpty(order) && p in order && !Contains(p, PLACEHOLDER)
    requires at < |PLACEHOLDER| && OccursAt(p, PLACEHOLDER + Redacted(order, tail), at)
    ensures Assembled(order, p)
  {
    hide Redacted;
    var rest := Redacted(order, tail);
    var out, n := PLACEHOLDER + rest, |PLACEHOLDER|;
    if at + |p| <= n {
      InFront(PLACEHOLDER, rest, at, at + |p|);
      assert OccursAt(p, PLACEHOLDER, at);
    } else if at == 0 {
      HoldsInFront(p, rest);
    } else {
      SplitAtEnd(p, rest, at);
      var k := n - at;
      PartHoldsLess(p, k);
      assert tail[0..] == tail && p[k..][0..] == p[k..];
      BeginningIsOne(order, tail, p[k..], 0);
    }
  }

  lemma HoldsInFront(p: string, rest: string)
    requires OccursAt(p, PLACEHOLDER + rest, 0) && |p| >= |PLACEHOLDER|
    ensures Contains(p, PLACEHOLDER)
  {
    var out, n := PLACEHOLDER + rest, |PLACEHOLDER|;
    assert p[0..n] == out[0..|p|][0..n] == out[..n] == PLACEHOLDER;
    assert OccursAt(PLACEHOLDER, p, 0);
  }

  lemma SplitAtEnd(p: string, rest: string, at: nat)
    requires 0 < at < |PLACEHOLDER| < at + |p| && OccursAt(p, PLACEHOLDER + rest, at)
    ensures Continues(p, |PLACEHOLDER| - at) && p[|PLACEHOLDER| - at..] <= rest
  {
    var out, n := PLACEHOLDER + rest, |PLACEHOLDER|;
    var k := n - at;
    SliceOfSlice(out, at, |p|, 0, k);
    InFront(PLACEHOLDER, rest, at, n);
    assert p[0..k] == p[..k] == PLACEHOLDER[at..];
    SliceOfSlice(out, at, |p|, k, |p| - k);
    assert p[k..|p|] == p[k..] && out[n..n + |p| - k] == rest[..|p| - k];
  }

  lemma PartHoldsLess(p: string, k: nat)
    requires k <= |p| && !Contains(p, PLACEHOLDER)
    ensures !Contains(p[k..], PLACEHOLDER)
  {
    forall at: nat ensures !OccursAt(PLACEHOLDER, p[k..], at) {
      assert at + 10 <= |p| - k ==> p[k..][at..at + 10] == p[k + at..k + at + 10];
      assert !OccursAt(PLACEHOLDER, p, k + at);
    }
  }

  /** Whatever else is registered and in whatever priority, a secret that does not hold
      the placeholder survives in no output exactly if it is not assembled. */
  lemma SecretExactly(order: seq<string>, p: string)
    requires NonEmpty(order) && p in order && !Contains(p, PLACEHOLDER)
    ensures NeverSurvives(order, p) <==> !Assembled(order, p)
  {
    if s :| Contains(Redacted(order, s), p) {
      var at: nat :| OccursAt(p, Redacted(order, s), at);
      SurvivorIsAssembled(order, p, s, at);
    }
    if Assembled(order, p) { AssembledSurvives(order, p); }
  }

  /** So nothing of the set ever survives exactly if none of it is assembled. */
  lemma SetExactly(order: seq<string>)
    requires NonEmpty(order) && forall p :: p in order ==> !Contains(p, PLACEHOLDER)
    ensures (forall p :: p in order ==> NeverSurvives(order, p)) <==> (forall p :: p in order ==> !Assembled(order, p))
  {
    forall p | p in order ensures NeverSurvives(order, p) <==> !Assembled(order, p) { SecretExactly(order, p); }
  }

  // ----------------------------------------------------------- short inputs suffice

  ghost predicate Bounded(order: seq<string>, n: nat) {
    n >= 1 && forall p :: p in order ==> |p| <= n
  }

  /** The beginning of an output comes from a short beginning of the input. */
  lemma {:induction false} ShortBeginning(order: seq<string>, n: nat, s: string, x: string) returns (t: string)
    requires NonEmpty(order) && Bounded(order, n) && x <= Redacted(order, s)
    ensures t <= s && |t| <= n * |x| && x <= Redacted(order, t)
    decreases |x|
  {
    hide Redacted;
    RedactedEnds(order);
    if x == "" { return ""; }
    assert s != "";
    StepOf(order, s);
    match FirstPrefix(order, s)
    case Some(q) =>
      var d := if |x| <= |PLACEHOLDER| then |x| else |PLACEHOLDER|;
      var tail := s[|q|..];
      Divided(x, PLACEHOLDER, Redacted(order, tail), d);
      var u := ShortBeginning(order, n, tail, x[d..]);
      t := q + u;
      StartsAlike(order, s, q, u);
      Joined(x, d, PLACEHOLDER, Redacted(order, u));
      Lengths(n, |x|, d, |q|, |u|);
    case None =>
      Divided(x, [s[0]], Redacted(order, s[1..]), 1);
      var u := ShortBeginning(order, n, s[1..], x[1..]);
      t := [s[0]] + u;
      assert t <= s && t[1..] == u;
      MatchWithin(order, t, s);
      StepOf(order, t);
      Joined(x, 1, [s[0]], Redacted(order, u));
      Lengths(n, |x|, 1, 1, |u|);
  }

  lemma Lengths(n: nat, x: nat, d: nat, q: nat, u: nat)
    requires 1 <= d <= x && q <= n && u <= n * (x - d)
    ensures q + u <= n * x
  {
    assert n * (x - d) == n * x - n * d && n * d >= n;
  }

  lemma Divided(x: string, a: string, b: string, d: nat)
    requires x <= a + b && d <= |a| && d <= |x| && (d == |a| || d == |x|)
    ensures x[..d] == a[..d] && x[d..] <= b
  {
    var out := a + b;
    assert x == out[..|x|] && x[..d] == out[..d] == a[..d];
    if d == |a| { assert x[d..] == out[d..|x|] == b[..|x| - d]; }
  }

  lemma Joined(x: string, d: nat, a: string, b: string)
    requires d <= |x| && d <= |a| && x[..d] == a[..d] && x[d..] <= b && (d == |a| || d == |x|)
    ensures x <= a + b
  {
    assert x == x[..d] + x[d..];
    if d == |a| { assert x == a + x[d..]; } else { assert x == a[..d]; }
  }

  /** A match at the front stays one when the rest of the input is cut. */
  lemma StartsAlike(order: seq<string>, s: string, q: string, u: string)
    requires NonEmpty(order) && FirstPrefix(order, s) == Some(q) && q <= s && u <= s[|q|..] && q != ""
    ensures q + u <= s && Redacted(order, q + u) == PLACEHOLDER + Redacted(order, u)
  {
    var t := q + u;
    assert t <= s && t[|q|..] == u;
    MatchWithin(order, t, s);
    StepOf(order, t);
  }

  lemma {:induction false} ShortInput(order: seq<string>, n: nat, p: string, s: string, at: nat) returns (t: string)
    requires NonEmpty(order) && Bounded(order, n) && OccursAt(p, Redacted(order, s), at) && p != ""
    ensures |t| <= n * (|p| + 1) && Contains(Redacted(order, t), p)
    decreases |s|
  {
    hide Redacted;
    RedactedEnds(order);
    assert s != "";
    StepOf(order, s);
    match FirstPrefix(order, s)
    case Some(q) =>
      var rest := Redacted(order, s[|q|..]);
      if at >= |PLACEHOLDER| {
        PastPlaceholder(rest, p, at);
        t := ShortInput(order, n, p, s[|q|..], at - |PLACEHOLDER|);
      } else {
        t := ShortAround(order, n, p, s, q, at);
      }
    case None =>
      if at > 0 {
        ShiftedOccurrence(s[0], Redacted(order, s[1..]), p, at);
        t := ShortInput(order, n, p, s[1..], at - 1);
      } else {
        t := ShortFront(order, n, p, s);
      }
  }

  lemma ShortFront(order: seq<string>, n: nat, p: string, s: string) returns (t: string)
    requires NonEmpty(order) && Bounded(order, n) && OccursAt(p, Redacted(order, s), 0)
    ensures |t| <= n * (|p| + 1) && Contains(Redacted(order, t), p)
  {
    hide Redacted;
    var out := Redacted(order, s);
    assert out[0..|p|] == out[..|p|];
    t := ShortBeginning(order, n, s, p);
    var short := Redacted(order, t);
    assert short[0..] == short;
    PrefixOfSuffix(short, 0, p);
    assert n * (|p| + 1) == n * |p| + n;
  }

  lemma ShortAround(order: seq<string>, n: nat, p: string, s: string, q: string, at: nat) returns (t: string)
    requires NonEmpty(order) && Bounded(order, n) && p != "" && FirstPrefix(order, s) == Some(q)
    requires at < |PLACEHOLDER| && q in order && q <= s && q != ""
    requires OccursAt(p, PLACEHOLDER + Redacted(order, s[|q|..]), at)
    ensures |t| <= n * (|p| + 1) && Contains(Redacted(order, t), p)
  {
    hide Redacted;
    var rest := Redacted(order, s[|q|..]);
    var d := if at + |p| <= |PLACEHOLDER| then |p| else |PLACEHOLDER| - at;
    var out, back := PLACEHOLDER + rest, PLACEHOLDER[at..];
    assert out[at..] == back + rest;
    assert p == out[at..][..|p|];
    Divided(p, back, rest, d);
    var u := ShortBeginning(order, n, s[|q|..], p[d..]);
    t := q + u;
    StartsAlike(order, s, q, u);
    Joined(p, d, back, Redacted(order, u));
    assert (PLACEHOLDER + Redacted(order, u))[at..] == back + Redacted(order, u);
    PrefixOfSuffix(PLACEHOLDER + Redacted(order, u), at, p);
    Lengths(n, |p| + 1, d + 1, |q|, |u|);
  }

  /** For any registered secrets, those that hold the placeholder included: a secret that
      survives in any output does so on an input of bounded length. */
  lemma ShortInputSuffices(order: seq<string>, n: nat, p: string)
    requires NonEmpty(order) && Bounded(order, n) && p != ""
    ensures NeverSurvives(order, p) <==> forall t :: |t| <= n * (|p| + 1) ==> !Contains(Redacted(order, t), p)
  {
    if s :| Contains(Redacted(order, s), p) {
      var at: nat :| OccursAt(p, Redacted(order, s), at);
      var t := ShortInput(order, n, p, s, at);
    }
  }
}

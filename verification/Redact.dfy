/** internal/redact/redact.go: registered secrets are replaced left to right, in one
    pass, by a placeholder. Map iteration fixes an arbitrary priority among them. */
module Redact {
  import opened Text

  const PLACEHOLDER := "[REDACTED]"
  const WORD := "REDACTED"
  const MIN_SECRET_LEN := 5

  // ------------------------------------------------------------------- replacement

  /** The highest-priority secret that `s` starts with. */
  function FirstPrefix(order: seq<string>, s: string): Option<string> {
    if order == [] then None
    else if order[0] <= s then Some(order[0])
    else FirstPrefix(order[1..], s)
  }

  lemma {:induction false} FirstPrefixFinds(order: seq<string>, s: string)
    ensures FirstPrefix(order, s).None? <==> forall p :: p in order ==> !(p <= s)
    ensures FirstPrefix(order, s).Some? ==> FirstPrefix(order, s).value in order && FirstPrefix(order, s).value <= s
  {
    if order != [] {
      FirstPrefixFinds(order[1..], s);
      assert order[0] in order;
      assert forall p :: p in order <==> p == order[0] || p in order[1..];
    }
  }

  ghost predicate NonEmpty(order: seq<string>) {
    "" !in order
  }

  /** `strings.Replacer`: at each place the first secret that matches, never looking
      back at what was written. */
  ghost function Redacted(order: seq<string>, s: string): string
    requires NonEmpty(order)
    decreases |s|
  {
    FirstPrefixFinds(order, s);
    if s == "" then ""
    else match FirstPrefix(order, s)
         case Some(p) => PLACEHOLDER + Redacted(order, s[|p|..])
         case None => [s[0]] + Redacted(order, s[1..])
  }

  // -------------------------------------------------------------------- registering

  predicate Space(c: char) {
    c == ' ' || c == '\t' || c == '\n' || c == '\r' || c == '\U{0B}' || c == '\U{0C}'
  }

  function TrimLeft(s: string): string {
    if s != "" && Space(s[0]) then TrimLeft(s[1..]) else s
  }

  function TrimRight(s: string): string {
    if s != "" && Space(s[|s| - 1]) then TrimRight(s[..|s| - 1]) else s
  }

  /** `strings.TrimSpace` on ASCII. */
  function Trim(s: string): string {
    TrimRight(TrimLeft(s))
  }

  /** `strings.Split(s, "\n")`. */
  function Lines(s: string): seq<string> {
    if s == "" then [""]
    else
      var n := |s| - 1;
      var ls := Lines(s[..n]);
      if s[n] == '\n' then ls + [""] else ls[..|ls| - 1] + [ls[|ls| - 1] + [s[n]]]
  }

  /** A line of `s`: newline-free, and bounded by newlines or the ends. */
  ghost predicate LineOf(s: string, c: string) {
    '\n' !in c && exists a, b :: Between(s, a, c, b)
  }

  ghost predicate Between(s: string, a: string, c: string, b: string) {
    s == a + c + b && (a == "" || a[|a| - 1] == '\n') && (b == "" || b[0] == '\n')
  }

  /** Joined with newlines the lines give the text back. */
  function Rejoined(ls: seq<string>): string
    requires ls != []
  {
    if |ls| == 1 then ls[0] else Rejoined(ls[..|ls| - 1]) + "\n" + ls[|ls| - 1]
  }

  /** Splitting cuts at every newline and nowhere else. */
  lemma {:induction false} LinesExactly(s: string)
    ensures Lines(s) != [] && Rejoined(Lines(s)) == s && forall c :: c in Lines(s) ==> '\n' !in c
  {
    if s != "" {
      var n := |s| - 1;
      var ls := Lines(s[..n]);
      LinesExactly(s[..n]);
      assert s == s[..n] + [s[n]];
      hide Lines;
      if s[n] == '\n' { RejoinedNext(ls); } else { RejoinedLonger(ls, s[n]); }
    }
  }

  lemma RejoinedNext(ls: seq<string>)
    requires ls != []
    ensures Rejoined(ls + [""]) == Rejoined(ls) + ['\n']
  {
    assert (ls + [""])[..|ls|] == ls;
  }

  lemma RejoinedLonger(ls: seq<string>, x: char)
    requires ls != []
    ensures var front, last := ls[..|ls| - 1], ls[|ls| - 1] + [x];
            Rejoined(front + [last]) == Rejoined(ls) + [x]
  {
    var front, last := ls[..|ls| - 1], ls[|ls| - 1] + [x];
    assert (front + [last])[..|front|] == front;
    if |ls| > 1 {
      var r := Rejoined(front) + "\n";
      assert r + (ls[|ls| - 1] + [x]) == r + ls[|ls| - 1] + [x];
    }
  }

  /** Every line of a text is split off. */
  lemma LineIsSplit(s: string, c: string)
    requires LineOf(s, c)
    ensures c in Lines(s)
  {
    var a, b :| Between(s, a, c, b);
    if b == "" {
      assert s == a + c;
      LastLine(s, a, c);
      LinesExactly(s);
    } else {
      ClosedLine(s, a, c, b);
    }
  }

  /** A line closed by a newline is among those before the last. */
  lemma {:induction false} ClosedLine(s: string, a: string, c: string, b: string)
    requires s == a + c + b && b != "" && b[0] == '\n' && '\n' !in c && (a == "" || a[|a| - 1] == '\n')
    ensures Lines(s) != [] && c in Lines(s)[..|Lines(s)| - 1]
    decreases |b|
  {
    var m, front := |b| - 1, s[..|s| - 1];
    var ls := Lines(front);
    assert front == a + c + b[..m] && s[|s| - 1] == b[m];
    if m == 0 {
      assert front == a + c;
      LastLine(front, a, c);
      LinesExactly(front);
      assert (ls + [""])[..|ls|] == ls;
    } else {
      ClosedLine(front, a, c, b[..m]);
      Appended(ls, s[|s| - 1], c);
    }
  }

  lemma Appended(ls: seq<string>, x: char, c: string)
    requires ls != [] && c in ls[..|ls| - 1]
    ensures var next := if x == '\n' then ls + [""] else ls[..|ls| - 1] + [ls[|ls| - 1] + [x]];
            c in next[..|next| - 1]
  {
    var front := ls[..|ls| - 1];
    var i :| 0 <= i < |front| && front[i] == c;
    assert (ls + [""])[..|ls|] == ls && ls[i] == c;
    assert (front + [ls[|ls| - 1] + [x]])[..|front|] == front;
  }

  /** The text after the last newline is the last line. */
  lemma {:induction false} LastLine(s: string, a: string, c: string)
    requires s == a + c && '\n' !in c && (a == "" || a[|a| - 1] == '\n')
    ensures Lines(s) != [] && Lines(s)[|Lines(s)| - 1] == c
    decreases |c|
  {
    LinesStep(s);
    hide Lines;
    if c == "" {
      assert s == a;
    } else {
      var n, front := |c| - 1, s[..|s| - 1];
      assert front == a + c[..n] && s[|s| - 1] == c[n] && c[n] in c;
      LastLine(front, a, c[..n]);
      assert c == c[..n] + [c[n]];
    }
  }

  lemma LinesStep(s: string)
    ensures s == "" ==> Lines(s) == [""]
    ensures s != "" ==>
              var ls, x := Lines(s[..|s| - 1]), s[|s| - 1];
              ls != [] && Lines(s) == if x == '\n' then ls + [""] else ls[..|ls| - 1] + [ls[|ls| - 1] + [x]]
  {
    if s != "" { LinesExactly(s[..|s| - 1]); }
  }

  function Candidates(s: string): seq<string> {
    [s] + Lines(s)
  }

  predicate WhiteChar(c: char) {
    c in {' ', '\t', '\n', '\U{0B}', '\U{0C}', '\r'}
  }

  predicate White(s: string) {
    forall i :: 0 <= i < |s| ==> WhiteChar(s[i])
  }

  lemma SpaceExactly(c: char)
    ensures Space(c) <==> WhiteChar(c)
  {
  }

  lemma {:induction false} TrimLeftExactly(s: string) returns (a: string)
    ensures s == a + TrimLeft(s) && White(a)
    ensures TrimLeft(s) != "" ==> !WhiteChar(TrimLeft(s)[0])
  {
    a := "";
    hide WhiteChar, Space;
    if s != "" { SpaceExactly(s[0]); }
    if s != "" && Space(s[0]) {
      var x := TrimLeftExactly(s[1..]);
      a := [s[0]] + x;
      assert s == [s[0]] + s[1..];
    } else {
      assert s == "" + s;
    }
  }

  lemma {:induction false} TrimRightExactly(s: string) returns (b: string)
    ensures s == TrimRight(s) + b && White(b) && TrimRight(s) <= s
    ensures TrimRight(s) != "" ==> !WhiteChar(TrimRight(s)[|TrimRight(s)| - 1])
  {
    b := "";
    hide WhiteChar, Space;
    if s != "" { SpaceExactly(s[|s| - 1]); }
    if s != "" && Space(s[|s| - 1]) {
      var n := |s| - 1;
      var x := TrimRightExactly(s[..n]);
      b := x + [s[n]];
      hide TrimRight;
      Reassociate(TrimRight(s[..n]), x, [s[n]]);
      assert s == s[..n] + [s[n]];
      assert TrimRight(s) == TrimRight(s[..n]) by { TrimRightStep(s); }
    } else {
      assert s == s + "";
    }
  }

  lemma TrimRightStep(s: string)
    requires s != "" && Space(s[|s| - 1])
    ensures TrimRight(s) == TrimRight(s[..|s| - 1])
  {
  }

  /** Trimming takes white space off both ends, all of it and nothing else. */
  lemma TrimExactly(s: string)
    ensures exists a, b :: s == a + Trim(s) + b && White(a) && White(b)
    ensures Trim(s) != "" ==> !WhiteChar(Trim(s)[0]) && !WhiteChar(Trim(s)[|Trim(s)| - 1])
  {
    var l := TrimLeft(s);
    var a := TrimLeftExactly(s);
    var b := TrimRightExactly(l);
    hide TrimLeft, TrimRight, White, WhiteChar;
    assert s == a + Trim(s) + b;
  }

  predicate Registrable(t: string) {
    |t| >= MIN_SECRET_LEN
  }

  /** The secrets the first `k` candidates contribute. */
  ghost function Contributed(cs: seq<string>): set<string> {
    set c | c in cs && Registrable(Trim(c)) :: Trim(c)
  }

  ghost function Registered(values: seq<string>): set<string> {
    set v, c | v in values && c in Candidates(v) && Registrable(Trim(c)) :: Trim(c)
  }

  lemma {:induction false} LineInPlace(ls: seq<string>, i: nat)
    requires i < |ls| && '\n' !in ls[i]
    ensures LineOf(Rejoined(ls), ls[i])
  {
    hide Between;
    var n := |ls| - 1;
    if i == n {
      LineAtEnd(if n == 0 then "" else Rejoined(ls[..n]) + "\n", ls[i]);
    } else {
      LineInPlace(ls[..n], i);
      var a, b :| Between(Rejoined(ls[..n]), a, ls[i], b);
      LineGoesOn(Rejoined(ls[..n]), a, ls[i], b, ls[n]);
    }
  }

  lemma LineAtEnd(a: string, c: string)
    requires a == "" || a[|a| - 1] == '\n'
    ensures Between(a + c, a, c, "")
    ensures a == "" ==> a + c == c
  {
    assert a + c == a + c + "";
  }

  lemma LineGoesOn(s: string, a: string, c: string, b: string, tail: string)
    requires Between(s, a, c, b)
    ensures Between(s + "\n" + tail, a, c, b + "\n" + tail)
  {
    var t := b + "\n" + tail;
    assert t[0] == '\n';
    assert s + "\n" + tail == a + c + t;
  }

  /** Registered are the values and their lines, trimmed, of five characters or more. */
  lemma RegisteredExactly(values: seq<string>, p: string)
    ensures p in Registered(values) <==>
            exists v, c :: v in values && (c == v || LineOf(v, c)) && p == Trim(c) && |p| >= 5
  {
    forall v, c ensures c in Candidates(v) <==> c == v || LineOf(v, c) {
      LinesExactly(v);
      if c in Lines(v) {
        var i :| 0 <= i < |Lines(v)| && Lines(v)[i] == c;
        LineInPlace(Lines(v), i);
      }
      if LineOf(v, c) { LineIsSplit(v, c); }
      hide LineOf, Lines;
    }
    hide LineOf, Candidates, Trim;
  }

  class Redactor {
    var secrets: set<string>
    var order: seq<string>

    /** The replacer knows exactly the registered secrets. */
    ghost predicate Valid()
      reads this
    {
      && (forall p :: p in order <==> p in secrets)
      && (forall p :: p in secrets ==> Registrable(p))
    }

    constructor ()
      ensures Valid() && secrets == {}
    {
      secrets, order := {}, [];
    }

    /** `rebuild`: the pairs come in map iteration order, that is in any order. */
    method Rebuild()
      requires forall p :: p in secrets ==> Registrable(p)
      modifies this`order
      ensures Valid()
    {
      var todo, pairs: seq<string> := secrets, [];
      while todo != {}
        invariant todo <= secrets && forall p :: p in pairs <==> p in secrets && p !in todo
        decreases |todo|
      {
        var p :| p in todo;
        pairs := pairs + [p];
        todo := todo - {p};
      }
      order := pairs;
    }

    /** `Add`. */
    method Add(values: seq<string>)
      requires Valid()
      modifies this
      ensures Valid() && secrets == old(secrets) + Registered(values)
    {
      var changed := false;
      for i := 0 to |values|
        invariant secrets == old(secrets) + Registered(values[..i]) && order == old(order)
        invariant (forall p :: p in secrets ==> Registrable(p)) && (!changed ==> secrets == old(secrets))
      {
        var more := AddCandidates(Candidates(values[i]));
        changed := changed || more;
        assert values[..i + 1] == values[..i] + [values[i]];
        assert Registered(values[..i + 1]) == Registered(values[..i]) + Contributed(Candidates(values[i]));
      }
      assert values[..|values|] == values;
      if changed { Rebuild(); }
    }

    method AddCandidates(cs: seq<string>) returns (changed: bool)
      requires forall p :: p in secrets ==> Registrable(p)
      modifies this`secrets
      ensures secrets == old(secrets) + Contributed(cs)
      ensures (forall p :: p in secrets ==> Registrable(p)) && (!changed ==> secrets == old(secrets))
    {
      changed := false;
      for j := 0 to |cs|
        invariant secrets == old(secrets) + Contributed(cs[..j]) && (!changed ==> secrets == old(secrets))
      {
        var candidate := Trim(cs[j]);
        assert cs[..j + 1] == cs[..j] + [cs[j]];
        if |candidate| >= MIN_SECRET_LEN && candidate !in secrets {
          secrets := secrets + {candidate};
          changed := true;
        }
      }
      assert cs[..|cs|] == cs;
    }

    /** `String`. */
    method String(s: string) returns (out: string)
      requires Valid()
      ensures NonEmpty(order) && out == Redacted(order, s)
    {
      out := "";
      var at := 0;
      assert s[0..] == s;
      RedactedEnds(order);
      hide Redacted, FirstPrefix;
      while at < |s|
        invariant at <= |s| && out + Redacted(order, s[at..]) == Redacted(order, s)
      {
        RedactedStep(order, s, at);
        match FirstPrefix(order, s[at..]) {
          case Some(p) =>
            Reassociate(out, PLACEHOLDER, Redacted(order, s[at + |p|..]));
            out := out + PLACEHOLDER;
            at := at + |p|;
          case None =>
            Reassociate(out, [s[at]], Redacted(order, s[at + 1..]));
            out := out + [s[at]];
            at := at + 1;
        }
      }
      assert s[at..] == "";
    }
  }

  lemma Reassociate(a: string, b: string, c: string)
    ensures a + (b + c) == a + b + c
  {
  }

  lemma RedactedEnds(order: seq<string>)
    requires NonEmpty(order)
    ensures Redacted(order, "") == ""
  {
  }

  lemma RedactedStep(order: seq<string>, s: string, at: nat)
    requires NonEmpty(order) && at < |s|
    ensures match FirstPrefix(order, s[at..])
            case Some(p) =>
              0 < |p| <= |s| - at && Redacted(order, s[at..]) == PLACEHOLDER + Redacted(order, s[at + |p|..])
            case None => Redacted(order, s[at..]) == [s[at]] + Redacted(order, s[at + 1..])
  {
    FirstPrefixFinds(order, s[at..]);
    match FirstPrefix(order, s[at..])
    case Some(p) => assert s[at..][|p|..] == s[at + |p|..];
    case None => assert s[at..][1..] == s[at + 1..];
  }

  // ---------------------------------------------------------------------- redaction

  predicate BracketFree(p: string) {
    '[' !in p && ']' !in p
  }

  lemma SliceOfSlice(a: string, i: nat, n: nat, j: nat, m: nat)
    requires i + n <= |a| && j + m <= n
    ensures a[i..i + n][j..j + m] == a[i + j..i + j + m]
  {
    var l, r := a[i..i + n][j..j + m], a[i + j..i + j + m];
    assert forall k :: 0 <= k < m ==> l[k] == r[k];
  }

  /** One of `p` and the placeholder contains the other. */
  ghost predicate Nested(p: string) {
    Contains(PLACEHOLDER, p) || Contains(p, PLACEHOLDER)
  }

  /** The placeholder ends with the first `k` characters of `p`. */
  ghost predicate Continues(p: string, k: nat) {
    0 < k < |PLACEHOLDER| && k < |p| && p[..k] == PLACEHOLDER[|PLACEHOLDER| - k..]
  }

  /** The placeholder begins with the last `k` characters of `p`. */
  ghost predicate Leads(p: string, k: nat) {
    0 < k < |PLACEHOLDER| && k < |p| && p[|p| - k..] == PLACEHOLDER[..k]
  }

  /** `p` and the placeholder neither contain nor overlap one another. */
  ghost predicate Apart(p: string) {
    p != "" && !Nested(p) && forall k :: !Continues(p, k) && !Leads(p, k)
  }

  lemma InFront(a: string, b: string, i: nat, j: nat)
    requires i <= j <= |a|
    ensures (a + b)[i..j] == a[i..j]
  {
  }

  /** An end of `p` that begins the placeholder and whatever follows it. */
  lemma EndMeets(p: string, j: nat, rest: string)
    requires j < |p| && p[j..] <= PLACEHOLDER + rest
    ensures Nested(p) || Leads(p, |p| - j)
  {
    var out, n, k := PLACEHOLDER + rest, |PLACEHOLDER|, |p| - j;
    assert p[j..] == out[..k] == out[0..k];
    if k >= n {
      SliceOfSlice(out, 0, k, 0, n);
      InFront(PLACEHOLDER, rest, 0, n);
      assert p[j..j + n] == p[j..][..n] == PLACEHOLDER;
      assert OccursAt(PLACEHOLDER, p, j);
    } else {
      InFront(PLACEHOLDER, rest, 0, k);
      if j == 0 {
        assert p[j..] == p;
        assert OccursAt(p, PLACEHOLDER, 0);
      } else {
        assert p[|p| - k..] == PLACEHOLDER[..k];
      }
    }
  }

  /** An occurrence of `p` that touches the placeholder in front. */
  lemma OccurrenceMeets(rest: string, p: string, at: nat)
    requires at < |PLACEHOLDER| && OccursAt(p, PLACEHOLDER + rest, at)
    ensures Nested(p) || exists k :: Continues(p, k)
  {
    var out, n := PLACEHOLDER + rest, |PLACEHOLDER|;
    if at + |p| <= n {
      InFront(PLACEHOLDER, rest, at, at + |p|);
      assert OccursAt(p, PLACEHOLDER, at);
    } else {
      var k := n - at;
      SliceOfSlice(out, at, |p|, 0, k);
      InFront(PLACEHOLDER, rest, at, n);
      assert p[0..k] == p[..k] == PLACEHOLDER[at..];
      if at == 0 {
        assert OccursAt(PLACEHOLDER, p, 0);
      } else {
        assert Continues(p, k);
      }
    }
  }

  /** Text before the next placeholder is literal: an end of `p` at the front of the
      output stood at the front of the input. */
  lemma {:induction false} LiteralPrefix(order: seq<string>, s: string, p: string, j: nat)
    requires NonEmpty(order) && Apart(p) && j <= |p| && p[j..] <= Redacted(order, s)
    ensures p[j..] <= s
    decreases |s|
  {
    if j < |p| && s != "" {
      FirstPrefixFinds(order, s);
      if FirstPrefix(order, s).Some? {
        EndMeets(p, j, Redacted(order, s[|FirstPrefix(order, s).value|..]));
      } else {
        ConsPrefix(p[j..], s[0], Redacted(order, s[1..]));
        assert p[j..][1..] == p[j + 1..];
        LiteralPrefix(order, s[1..], p, j + 1);
        assert p[j..] == [p[j]] + p[j + 1..] && s == [s[0]] + s[1..];
      }
    }
  }

  lemma ConsPrefix(x: string, c: char, rest: string)
    requires x != "" && x <= [c] + rest
    ensures x[0] == c && x[1..] <= rest
  {
    var l := [c] + rest;
    assert x == l[..|x|];
    assert forall k :: 0 <= k < |x| - 1 ==> x[1..][k] == l[k + 1] == rest[k];
  }

  /** An occurrence after a placeholder lies wholly after it. */
  lemma AcrossPlaceholder(rest: string, p: string, at: nat)
    requires Apart(p) && OccursAt(p, PLACEHOLDER + rest, at)
    ensures at >= |PLACEHOLDER| && OccursAt(p, rest, at - |PLACEHOLDER|)
  {
    if at < |PLACEHOLDER| {
      OccurrenceMeets(rest, p, at);
    } else {
      assert (PLACEHOLDER + rest)[at..at + |p|] == rest[at - |PLACEHOLDER|..at - |PLACEHOLDER| + |p|];
    }
  }

  lemma ShiftedOccurrence(c: char, rest: string, p: string, at: nat)
    requires at > 0 && OccursAt(p, [c] + rest, at)
    ensures OccursAt(p, rest, at - 1)
  {
    assert ([c] + rest)[at..at + |p|] == rest[at - 1..at - 1 + |p|];
  }

  lemma {:induction false} NothingSurvivesAt(order: seq<string>, s: string, p: string, at: nat)
    requires NonEmpty(order) && p in order && Apart(p)
    ensures !OccursAt(p, Redacted(order, s), at)
    decreases |s|
  {
    FirstPrefixFinds(order, s);
    if s != "" && OccursAt(p, Redacted(order, s), at) {
      match FirstPrefix(order, s)
      case Some(q) =>
        NothingSurvivesAt(order, s[|q|..], p, if at >= |PLACEHOLDER| then at - |PLACEHOLDER| else 0);
        AcrossPlaceholder(Redacted(order, s[|q|..]), p, at);
      case None =>
        if at == 0 {
          assert p[0..] == p;
          LiteralPrefix(order, s, p, 0);
        } else {
          ShiftedOccurrence(s[0], Redacted(order, s[1..]), p, at);
          NothingSurvivesAt(order, s[1..], p, at - 1);
        }
    }
  }

  ghost predicate NeverSurvives(order: seq<string>, p: string)
    requires NonEmpty(order)
  {
    forall s :: !Contains(Redacted(order, s), p)
  }

  /** A secret that is part of the placeholder is put back by its own removal, whatever
      the other secrets and the priority. */
  lemma PartSurvives(order: seq<string>, p: string)
    requires NonEmpty(order) && p in order && Contains(PLACEHOLDER, p)
    ensures Contains(Redacted(order, p), p)
  {
    FirstPrefixFinds(order, p);
    assert p <= p;
    var at: nat :| OccursAt(p, PLACEHOLDER, at);
    var rest := Redacted(order, p[|FirstPrefix(order, p).value|..]);
    assert Redacted(order, p) == PLACEHOLDER + rest;
    InFront(PLACEHOLDER, rest, at, at + |p|);
    assert OccursAt(p, PLACEHOLDER + rest, at);
  }

  /** A secret that does not overlap the placeholder never survives, whatever the
      other secrets and the priority. */
  lemma ApartNeverSurvives(order: seq<string>, p: string)
    requires NonEmpty(order) && p in order && Apart(p)
    ensures NeverSurvives(order, p)
  {
    forall s ensures !Contains(Redacted(order, s), p) {
      forall at: nat ensures !OccursAt(p, Redacted(order, s), at) { NothingSurvivesAt(order, s, p, at); }
    }
  }

  /** Without brackets the only overlap is with the word. */
  lemma BracketFreeIsApart(p: string)
    requires p != "" && BracketFree(p) && !Contains(WORD, p)
    ensures Apart(p)
  {
    forall at: nat ensures !OccursAt(p, PLACEHOLDER, at) {
      if OccursAt(p, PLACEHOLDER, at) { InTheWord(p, at); }
    }
    forall at: nat ensures !OccursAt(PLACEHOLDER, p, at) {
      if at + 10 <= |p| { assert p[at..at + 10][0] == p[at] && p[at] in p; }
    }
    forall k: nat ensures !Continues(p, k) && !Leads(p, k) {
      if 0 < k < |PLACEHOLDER| && k < |p| { assert p[..k][k - 1] in p && p[|p| - k..][0] in p; }
    }
  }

  lemma WordIsPart(p: string)
    requires Contains(WORD, p)
    ensures Contains(PLACEHOLDER, p)
  {
    assert PLACEHOLDER[1..9] == WORD;
    assert OccursAt(WORD, PLACEHOLDER, 1);
    ContainsTransitive(PLACEHOLDER, WORD, p);
  }

  lemma InTheWord(p: string, at: nat)
    requires p != "" && BracketFree(p) && OccursAt(p, PLACEHOLDER, at)
    ensures Contains(WORD, p)
  {
    assert forall k :: at <= k < at + |p| ==> PLACEHOLDER[k] == p[k - at] && p[k - at] in p;
    assert PLACEHOLDER[0] == '[' && PLACEHOLDER[9] == ']';
    assert PLACEHOLDER[1..9] == WORD;
    SliceOfSlice(PLACEHOLDER, 1, 8, at - 1, |p|);
    assert OccursAt(p, WORD, at - 1);
  }

  /** For secrets without brackets, whatever their priority: none ever survives in any
      output exactly if none is part of the word REDACTED. */
  lemma RedactionExactly(order: seq<string>)
    requires NonEmpty(order) && forall p :: p in order ==> BracketFree(p)
    ensures (forall p :: p in order ==> NeverSurvives(order, p)) <==> (forall p :: p in order ==> !Contains(WORD, p))
  {
    forall p | p in order ensures NeverSurvives(order, p) <==> !Contains(WORD, p) {
      if Contains(WORD, p) {
        WordIsPart(p);
        PartSurvives(order, p);
      } else {
        BracketFreeIsApart(p);
        ApartNeverSurvives(order, p);
      }
    }
  }

  lemma ContainsTransitive(a: string, b: string, c: string)
    requires Contains(a, b) && Contains(b, c)
    ensures Contains(a, c)
  {
    var i: nat :| OccursAt(b, a, i);
    var j: nat :| OccursAt(c, b, j);
    SliceOfSlice(a, i, |b|, j, |c|);
    assert OccursAt(c, a, i + j);
  }

  lemma {:induction false} TrimLeftWithin(s: string)
    ensures |TrimLeft(s)| <= |s| && s[|s| - |TrimLeft(s)|..] == TrimLeft(s)
  {
    if s != "" && Space(s[0]) { TrimLeftWithin(s[1..]); }
  }

  lemma {:induction false} TrimRightWithin(s: string)
    ensures TrimRight(s) <= s
  {
    if s != "" && Space(s[|s| - 1]) { TrimRightWithin(s[..|s| - 1]); }
  }

  lemma TrimWithin(s: string)
    ensures Contains(s, Trim(s))
  {
    var l, t := TrimLeft(s), Trim(s);
    TrimLeftWithin(s);
    TrimRightWithin(l);
    assert t == TrimRight(l);
    hide Trim, TrimLeft, TrimRight;
    PrefixOfSuffix(s, |s| - |l|, t);
  }

  lemma PrefixOfSuffix(s: string, at: nat, t: string)
    requires at <= |s| && t <= s[at..]
    ensures OccursAt(t, s, at)
  {
    assert s[at..][..|t|] == s[at..at + |t|];
  }

  /** So an added value of at least five trimmed characters that does not overlap the
      placeholder never appears in any output, and neither does such a line of it. */
  lemma AddedNeverSurvives(order: seq<string>, values: seq<string>, v: string, c: string, s: string)
    requires NonEmpty(order) && forall p :: p in Registered(values) ==> p in order
    requires v in values && (c == v || LineOf(v, c)) && |Trim(c)| >= 5 && Apart(Trim(c))
    ensures !Contains(Redacted(order, s), Trim(c)) && !Contains(Redacted(order, s), c)
  {
    if c != v { LineIsSplit(v, c); }
    assert c in Candidates(v);
    assert Trim(c) in Registered(values);
    ApartNeverSurvives(order, Trim(c));
    TrimWithin(c);
    assert NeverSurvives(order, Trim(c));
    if Contains(Redacted(order, s), c) { ContainsTransitive(Redacted(order, s), c, Trim(c)); }
  }

  // ------------------------------------------------------------- a secret by itself

  /** `p` comes to stand in `head + p` only at the end. */
  ghost predicate FirstAtEnd(p: string, head: string) {
    forall i: nat :: i < |head| ==> !(p <= (head + p)[i..])
  }

  /** What makes a lone secret reappear: it contains the placeholder or is part of it;
      it continues its end; or it leads into its beginning without standing earlier in
      what has to precede it. */
  ghost predicate Completable(p: string) {
    || Nested(p)
    || (exists k :: Continues(p, k))
    || (exists k :: Leads(p, k) && FirstAtEnd(p, p[..|p| - k]))
  }

  lemma LoneStep(p: string, s: string)
    requires p != "" && s != ""
    ensures Redacted([p], s) ==
            if p <= s then PLACEHOLDER + Redacted([p], s[|p|..]) else [s[0]] + Redacted([p], s[1..])
  {
    assert FirstPrefix([p], s) == if p <= s then Some(p) else None;
  }

  /** Literal text in front of the first match comes through. */
  lemma {:induction false} LiteralHead(p: string, head: string, rest: string)
    requires p != "" && forall i: nat :: i < |head| ==> !(p <= (head + rest)[i..])
    ensures Redacted([p], head + rest) == head + Redacted([p], rest)
    decreases |head|
  {
    hide Redacted;
    if head == "" {
      assert head + rest == rest && head + Redacted([p], rest) == Redacted([p], rest);
    } else {
      var s, tail := head + rest, head[1..];
      assert s[0..] == s && s[1..] == tail + rest;
      forall i: nat | i < |tail| ensures !(p <= (tail + rest)[i..]) { assert (tail + rest)[i..] == s[i + 1..]; }
      LiteralHead(p, tail, rest);
      LoneStep(p, s);
      Reassociate([s[0]], tail, Redacted([p], rest));
      assert [s[0]] + tail == head;
    }
  }

  /** `p` in front is replaced; a shorter tail stays. */
  lemma ReplacedInFront(p: string, tail: string)
    requires p != "" && |tail| < |p|
    ensures Redacted([p], p + tail) == PLACEHOLDER + tail
  {
    LoneStep(p, p + tail);
    assert (p + tail)[|p|..] == tail;
    NoMatchIsIdentity([p], tail);
    hide Redacted;
  }

  lemma ContinuesIn(p: string, k: nat)
    requires Continues(p, k)
    ensures OccursAt(p, PLACEHOLDER + p[k..], |PLACEHOLDER| - k)
  {
    var front, back := PLACEHOLDER[..|PLACEHOLDER| - k], p[..k];
    assert PLACEHOLDER == front + back && p == back + p[k..];
    Reassociate(front, back, p[k..]);
    PrefixOfSuffix(PLACEHOLDER + p[k..], |PLACEHOLDER| - k, p);
  }

  lemma ContinuedSurvives(p: string, k: nat)
    requires Continues(p, k)
    ensures Contains(Redacted([p], p + p[k..]), p)
  {
    hide Redacted;
    ReplacedInFront(p, p[k..]);
    ContinuesIn(p, k);
  }

  lemma LeadsInto(p: string, k: nat)
    requires Leads(p, k)
    ensures OccursAt(p, p[..|p| - k] + PLACEHOLDER, 0)
  {
    var head, rest := p[..|p| - k], PLACEHOLDER[k..];
    assert PLACEHOLDER == PLACEHOLDER[..k] + rest;
    assert p == head + PLACEHOLDER[..k];
    Reassociate(head, PLACEHOLDER[..k], rest);
    InFront(p, rest, 0, |p|);
  }

  lemma LedSurvives(p: string, k: nat)
    requires Leads(p, k) && FirstAtEnd(p, p[..|p| - k])
    ensures Contains(Redacted([p], p[..|p| - k] + p), p)
  {
    hide Redacted;
    LeadsInto(p, k);
    LiteralHead(p, p[..|p| - k], p);
    ReplacedInFront(p, "");
    assert p + "" == p && PLACEHOLDER + "" == PLACEHOLDER;
  }

  /** The placeholder never overlaps itself, so a text that holds it for the first time
      at the end of `a` holds it nowhere earlier, however it goes on. */
  lemma NoEarlierPlaceholder(a: string, y: string, i: nat)
    requires i < |a| && forall j: nat :: !OccursAt(PLACEHOLDER, a, j)
    ensures !(PLACEHOLDER <= (a + PLACEHOLDER + y)[i..])
  {
    var s, n := a + PLACEHOLDER + y, |PLACEHOLDER|;
    if i + n <= |a| {
      assert s[i..][..n] == a[i..i + n];
      assert !OccursAt(PLACEHOLDER, a, i);
    } else {
      assert s[i..][|a| - i] == s[|a|] == '[';
      assert forall m :: 0 < m < n ==> PLACEHOLDER[m] != '[';
    }
  }

  lemma {:induction false} FirstPlaceholder(p: string, at: nat) returns (i: nat)
    requires OccursAt(PLACEHOLDER, p, at)
    ensures OccursAt(PLACEHOLDER, p, i) && forall j: nat :: !OccursAt(PLACEHOLDER, p[..i], j)
  {
    i := at;
    if j: nat :| OccursAt(PLACEHOLDER, p[..at], j) {
      PrefixOccurs(p, at, j);
      i := FirstPlaceholder(p, j);
    }
  }

  lemma PrefixOccurs(p: string, n: nat, j: nat)
    requires n <= |p| && OccursAt(PLACEHOLDER, p[..n], j)
    ensures j < n && OccursAt(PLACEHOLDER, p, j)
  {
    assert p[j..j + 10] == p[..n][j..j + 10];
  }

  lemma HolderSurvivesOn(a: string, b: string)
    requires forall j: nat :: !OccursAt(PLACEHOLDER, a, j)
    ensures var p := a + PLACEHOLDER + b; Redacted([p], a + (p + b)) == p
  {
    var p := a + PLACEHOLDER + b;
    forall m: nat | m < |a| ensures !(p <= (a + (p + b))[m..]) { EarlierHeadNoMatch(a, b, m); }
    hide Redacted;
    LiteralHead(p, a, p + b);
    ReplacedInFront(p, b);
    Reassociate(a, PLACEHOLDER, b);
  }

  lemma HolderSurvives(p: string)
    requires Contains(p, PLACEHOLDER)
    ensures exists s :: Contains(Redacted([p], s), p)
  {
    var at: nat :| OccursAt(PLACEHOLDER, p, at);
    var i := FirstPlaceholder(p, at);
    var a, b := p[..i], p[i + 10..];
    assert p == a + PLACEHOLDER + b;
    HolderSurvivesOn(a, b);
    assert p[0..|p|] == p;
    assert OccursAt(p, Redacted([p], a + (p + b)), 0);
    hide Redacted;
    assert Contains(Redacted([p], a + (p + b)), p);
  }

  lemma EarlierHeadNoMatch(a: string, b: string, m: nat)
    requires m < |a| && forall j: nat :: !OccursAt(PLACEHOLDER, a, j)
    ensures var p := a + PLACEHOLDER + b; !(p <= (a + (p + b))[m..])
  {
    var p := a + PLACEHOLDER + b;
    var s := a + (p + b);
    NoEarlierPlaceholder(a, b + b, m);
    assert s[|a|..] == a + PLACEHOLDER + (b + b);
    assert s[m + |a|..] == s[|a|..][m..];
    assert p[|a|..|a| + 10] == PLACEHOLDER;
    MatchHolds(p, s, m, |a|);
  }

  /** A match at `m` matches its own parts where they stand. */
  lemma MatchHolds(p: string, s: string, m: nat, i: nat)
    requires m + i <= |s| && OccursAt(PLACEHOLDER, p, i)
    ensures p <= s[m..] ==> PLACEHOLDER <= s[m + i..]
  {
    if p <= s[m..] {
      assert s[m..][i..i + 10] == p[i..i + 10];
      assert s[m + i..][..10] == s[m..][i..i + 10];
    }
  }

  /** A match in front of which `p` has just begun. */
  lemma LeadCompletes(p: string, s: string, j: nat)
    requires 0 < j < |p| && j <= |s| && s[..j] == p[..j] && p <= s[j..] && Leads(p, |p| - j)
    requires forall i: nat :: i < j ==> !(p <= s[i..])
    ensures Completable(p)
  {
    var head := p[..j];
    forall i: nat | i < j ensures !(p <= (head + p)[i..]) {
      assert (head + p)[i..] == s[i..][..j + |p| - i];
    }
    assert FirstAtEnd(p, p[..|p| - (|p| - j)]);
  }

  /** What begins to appear in literal text either stood in the input or is completed. */
  lemma {:induction false} LiteralRun(p: string, s: string, j: nat)
    requires j <= |p| && j <= |s| && p != "" && s[..j] == p[..j] && p[j..] <= Redacted([p], s[j..])
    requires forall i: nat :: i < j ==> !(p <= s[i..])
    ensures p <= s || Completable(p)
    decreases |p| - j
  {
    hide Redacted;
    if j < |p| && j < |s| {
      LoneStep(p, s[j..]);
      if p <= s[j..] {
        EndMeets(p, j, Redacted([p], s[j..][|p|..]));
        if j > 0 && Leads(p, |p| - j) { LeadCompletes(p, s, j); }
      } else {
        assert s[j..][1..] == s[j + 1..] && p[j..][1..] == p[j + 1..];
        ConsPrefix(p[j..], s[j], Redacted([p], s[j + 1..]));
        assert s[..j + 1] == s[..j] + [s[j]] == p[..j + 1];
        LiteralRun(p, s, j + 1);
      }
    } else if j < |p| {
      assert s[j..] == "";
      NoMatchIsIdentity([p], "");
    }
  }

  lemma {:induction false} SurvivorIsCompletable(p: string, s: string, at: nat)
    requires p != "" && OccursAt(p, Redacted([p], s), at)
    ensures Completable(p)
    decreases |s|
  {
    hide Redacted;
    NoMatchIsIdentity([p], "");
    if s != "" {
      LoneStep(p, s);
      if p <= s {
        var rest := Redacted([p], s[|p|..]);
        if at < |PLACEHOLDER| {
          OccurrenceMeets(rest, p, at);
        } else {
          assert (PLACEHOLDER + rest)[at..at + |p|] == rest[at - |PLACEHOLDER|..at - |PLACEHOLDER| + |p|];
          SurvivorIsCompletable(p, s[|p|..], at - |PLACEHOLDER|);
        }
      } else if at == 0 {
        assert p[0..] == p && s[0..] == s;
        LiteralRun(p, s, 0);
      } else {
        ShiftedOccurrence(s[0], Redacted([p], s[1..]), p, at);
        SurvivorIsCompletable(p, s[1..], at - 1);
      }
    }
  }

  /** A lone secret, brackets or not, never survives exactly if it is not completable:
      overlapping the placeholder is not enough, as when it can only be led into from
      text that holds it already. */
  lemma LoneSecretExactly(p: string)
    requires p != ""
    ensures NeverSurvives([p], p) <==> !Completable(p)
  {
    if s :| Contains(Redacted([p], s), p) {
      var at: nat :| OccursAt(p, Redacted([p], s), at);
      SurvivorIsCompletable(p, s, at);
    }
    if Completable(p) { CompletableSurvives(p); }
  }

  lemma CompletableSurvives(p: string)
    requires p != "" && Completable(p)
    ensures exists s :: Contains(Redacted([p], s), p)
  {
    if Contains(PLACEHOLDER, p) {
      PartSurvives([p], p);
    } else if Contains(p, PLACEHOLDER) {
      HolderSurvives(p);
    } else if k :| Continues(p, k) {
      ContinuedSurvives(p, k);
    } else {
      var k :| Leads(p, k) && FirstAtEnd(p, p[..|p| - k]);
      LedSurvives(p, k);
    }
  }

  /** Without a match the output is the input. */
  lemma {:induction false} NoMatchIsIdentity(order: seq<string>, s: string)
    requires NonEmpty(order) && forall p :: p in order ==> |p| > |s|
    ensures Redacted(order, s) == s
    decreases |s|
  {
    if s != "" {
      LongerNeverMatch(order, s);
      NoMatchIsIdentity(order, s[1..]);
      assert Redacted(order, s) == [s[0]] + s[1..];
    }
  }

  lemma LongerNeverMatch(order: seq<string>, s: string)
    requires forall p :: p in order ==> |p| > |s|
    ensures FirstPrefix(order, s).None?
  {
    FirstPrefixFinds(order, s);
  }
}

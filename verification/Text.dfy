/** Shared vocabulary: optional values, occurrence of one string in another, and
    the byte-wise string order with the sorting that Go's `sort.Strings` performs. */
module Text {

  datatype Option<+T> = None | Some(value: T)

  /** `part` occurs in `whole` starting at `at`. */
  ghost predicate OccursAt(part: string, whole: string, at: nat) {
    at + |part| <= |whole| && whole[at..at + |part|] == part
  }

  ghost predicate Contains(whole: string, part: string) {
    exists at :: OccursAt(part, whole, at)
  }

  /** Go's `a <= b` on strings: lexicographic on characters, a prefix first. */
  predicate Le(a: string, b: string) {
    a == [] || (b != [] && (a[0] < b[0] || (a[0] == b[0] && Le(a[1..], b[1..]))))
  }

  /** `a` and `b` part at `i`, the lesser character in `a`. */
  ghost predicate PartsAt(a: string, b: string, i: nat) {
    i < |a| && i < |b| && a[..i] == b[..i] && a[i] < b[i]
  }

  /** Lexicographic: a prefix, or the lesser character where they part. */
  lemma {:induction false} LeExactly(a: string, b: string)
    ensures Le(a, b) <==> a <= b || exists i :: PartsAt(a, b, i)
  {
    if a != [] && b != [] && a[0] == b[0] {
      var x, y := a[1..], b[1..];
      LeExactly(x, y);
      assert a == [a[0]] + x && b == [b[0]] + y;
      assert a <= b <==> x <= y;
      if i: nat :| PartsAt(x, y, i) {
        assert a[..i + 1] == [a[0]] + x[..i] && b[..i + 1] == [b[0]] + y[..i];
        assert PartsAt(a, b, i + 1);
      }
      if i: nat :| PartsAt(a, b, i) {
        assert i > 0;
        assert x[..i - 1] == a[..i][1..] && y[..i - 1] == b[..i][1..];
        assert PartsAt(x, y, i - 1);
      }
    } else if a != [] && b != [] {
      if a[0] < b[0] { assert PartsAt(a, b, 0); }
      forall i: nat ensures PartsAt(a, b, i) ==> i == 0 { PartsLater(a, b, i); }
    }
  }

  lemma PartsLater(a: string, b: string, i: nat)
    requires a != [] && b != []
    ensures PartsAt(a, b, i) && i > 0 ==> a[0] == b[0]
  {
    if PartsAt(a, b, i) && i > 0 { assert a[..i][0] == a[0] && b[..i][0] == b[0]; }
  }

  lemma {:induction false} LeTotal(a: string, b: string)
    ensures Le(a, b) || Le(b, a)
    ensures Le(a, b) && Le(b, a) ==> a == b
  {
    if a != [] && b != [] && a[0] == b[0] {
      LeTotal(a[1..], b[1..]);
      assert a == [a[0]] + a[1..] && b == [b[0]] + b[1..];
    }
  }

  lemma {:induction false} LeTransitive(a: string, b: string, c: string)
    requires Le(a, b) && Le(b, c)
    ensures Le(a, c)
  {
    if a != [] && a[0] == b[0] == c[0] {
      LeTransitive(a[1..], b[1..], c[1..]);
    }
  }

  ghost predicate Sorted(s: seq<string>) {
    forall i, j :: 0 <= i < j < |s| ==> Le(s[i], s[j])
  }

  lemma HeadIsLeast(s: seq<string>, x: string)
    requires Sorted(s) && x in s
    ensures Le(s[0], x)
  {
    LeTotal(s[0], s[0]);
  }

  lemma TailBag(s: seq<string>)
    requires s != []
    ensures multiset(s[1..]) == multiset(s) - multiset{s[0]}
  {
    assert s == [s[0]] + s[1..];
  }

  /** Two sorted arrangements of the same strings are the same sequence. */
  lemma {:induction false} SortedUnique(s: seq<string>, t: seq<string>)
    requires Sorted(s) && Sorted(t) && multiset(s) == multiset(t)
    ensures s == t
  {
    assert |s| == |multiset(s)| == |multiset(t)| == |t|;
    if s != [] {
      assert s[0] in multiset(t) && t[0] in multiset(s);
      HeadIsLeast(t, s[0]);
      HeadIsLeast(s, t[0]);
      LeTotal(s[0], t[0]);
      TailBag(s);
      TailBag(t);
      SortedUnique(s[1..], t[1..]);
      assert s == [s[0]] + s[1..] && t == [t[0]] + t[1..];
    }
  }

  /** Sorting as a function, by insertion. */
  function SortOf(s: seq<string>): seq<string> {
    if s == [] then [] else Inserted(SortOf(s[..|s| - 1]), s[|s| - 1])
  }

  function Inserted(r: seq<string>, x: string): seq<string> {
    if r == [] || Le(r[|r| - 1], x) then r + [x] else Inserted(r[..|r| - 1], x) + [r[|r| - 1]]
  }

  lemma {:induction false} InsertedBag(r: seq<string>, x: string)
    ensures multiset(Inserted(r, x)) == multiset(r) + multiset{x}
  {
    if r != [] && !Le(r[|r| - 1], x) {
      InsertedBag(r[..|r| - 1], x);
      assert r == r[..|r| - 1] + [r[|r| - 1]];
    }
  }

  lemma {:induction false} InsertedSorts(r: seq<string>, x: string)
    requires Sorted(r)
    ensures Sorted(Inserted(r, x))
  {
    if r == [] || Le(r[|r| - 1], x) {
      forall i | 0 <= i < |r| ensures Le(r[i], x) {
        if i < |r| - 1 { LeTransitive(r[i], r[|r| - 1], x); }
      }
    } else {
      var n := |r| - 1;
      InsertedSorts(r[..n], x);
      LeTotal(r[n], x);
      var t := Inserted(r[..n], x);
      forall i | 0 <= i < |t| ensures Le(t[i], r[n]) {
        InsertedBag(r[..n], x);
        assert t[i] in multiset(t);
        assert t[i] == x || t[i] in r[..n];
      }
    }
  }

  lemma {:induction false} SortOfSorts(s: seq<string>)
    ensures Sorted(SortOf(s)) && multiset(SortOf(s)) == multiset(s)
  {
    if s != [] {
      var n := |s| - 1;
      assert s == s[..n] + [s[n]];
      SortOfSorts(s[..n]);
      InsertedSorts(SortOf(s[..n]), s[n]);
      InsertedBag(SortOf(s[..n]), s[n]);
    }
  }

  /** Sorting forgets order and nothing else. */
  lemma SortOfSame(s: seq<string>, t: seq<string>)
    ensures SortOf(s) == SortOf(t) <==> multiset(s) == multiset(t)
  {
    SortOfSorts(s);
    SortOfSorts(t);
    if multiset(s) == multiset(t) { SortedUnique(SortOf(s), SortOf(t)); }
  }

  /** `sort.Strings`: each element sinks to its position. */
  method Sort(s: seq<string>) returns (r: seq<string>)
    ensures r == SortOf(s)
  {
    r := [];
    for n := 0 to |s|
      invariant r == SortOf(s[..n])
    {
      var i := |r|;
      while i > 0 && !Le(r[i - 1], s[n])
        invariant 0 <= i <= |r|
        invariant forall j :: i <= j < |r| ==> !Le(r[j], s[n])
      {
        i := i - 1;
      }
      InsertedAt(r, i, s[n]);
      assert s[..n + 1][..n] == s[..n];
      r := r[..i] + [s[n]] + r[i..];
    }
    assert s[..|s|] == s;
  }

  lemma {:induction false} InsertedAt(r: seq<string>, i: nat, x: string)
    requires i <= |r| && (i > 0 ==> Le(r[i - 1], x)) && forall j :: i <= j < |r| ==> !Le(r[j], x)
    ensures Inserted(r, x) == r[..i] + [x] + r[i..]
  {
    if i < |r| {
      var n := |r| - 1;
      InsertedAt(r[..n], i, x);
      assert r[..n][..i] == r[..i] && r[..n][i..] + [r[n]] == r[i..];
    }
  }
}

/** internal/rollout/rollout.go: the config version and what it identifies.

    The truncated hexadecimal SHA-256 is a parameter; non-collision is only ever
    supposed of the two inputs at hand. */
module Version {
  import opened Text
  import opened Secrets

  const SHORT_COMMIT_LEN := 12
  const SECRET_HASH_LEN := 12

  function ShortCommit(commit: string): string {
    if |commit| <= SHORT_COMMIT_LEN then commit else commit[..SHORT_COMMIT_LEN]
  }

  /** `strings.Join(s, "\x00")`. */
  function Joined(s: seq<string>): string {
    if s == [] then "" else if |s| == 1 then s[0] else s[0] + "\0" + Joined(s[1..])
  }

  function VersionOf(commit: string, tokens: seq<string>, hash: string -> string): string {
    var base := "git:" + ShortCommit(commit);
    if tokens == [] then base else base + "-sec:" + hash(Joined(SortOf(tokens)))
  }

  /** `VersionWithSecrets`: sorts a copy of the tokens. */
  method VersionWithSecrets(commit: string, tokens: seq<string>, hash: string -> string) returns (v: string)
    ensures v == VersionOf(commit, tokens, hash)
  {
    v := "git:" + ShortCommit(commit);
    if |tokens| > 0 {
      var sorted := Sort(tokens);
      v := v + "-sec:" + hash(Joined(sorted));
    }
  }

  /** The first twelve characters, or all there are. */
  lemma ShortCommitExactly(commit: string)
    ensures var short := ShortCommit(commit);
            && |short| == (if |commit| <= 12 then |commit| else 12)
            && forall i :: 0 <= i < |short| ==> short[i] == commit[i]
  {
  }

  lemma Parts(short: string, tail: string)
    ensures var v := "git:" + short + tail;
            "git:" <= v && v[4..][..|short|] == short && v[4 + |short|..] == tail
  {
    var v := "git:" + short + tail;
    assert v[4..] == short + tail;
  }

  /** The normative format: "git:", the short commit and, with tokens, "-sec:" and the
      truncated hash of the sorted tokens between NUL characters. */
  lemma VersionFormat(commit: string, tokens: seq<string>, hash: string -> string)
    ensures var v, short := VersionOf(commit, tokens, hash), ShortCommit(commit);
            && "git:" <= v && v[4..][..|short|] == short
            && (if tokens == [] then v[4 + |short|..] == ""
                else exists s :: Sorted(s) && multiset(s) == multiset(tokens) &&
                       v[4 + |short|..] == "-sec:" + hash(Joined(s)))
  {
    SortOfSorts(tokens);
    var short, tail := ShortCommit(commit), if tokens == [] then "" else "-sec:" + hash(Joined(SortOf(tokens)));
    assert VersionOf(commit, tokens, hash) == "git:" + short + tail;
    Parts(short, tail);
    hide VersionOf, SortOf, Sorted, ShortCommit, Joined;
  }

  // ------------------------------------------------------- joining loses nothing

  predicate NulFree(s: string) {
    '\0' !in s
  }

  /** `x` up to its first NUL or its end is `head`. */
  lemma FirstSegment(head: string, x: string, a: string, b: string)
    requires NulFree(head) && NulFree(x)
    requires head + "\0" + a == x + "\0" + b
    ensures head == x && a == b
  {
    var l, r := head + "\0" + a, x + "\0" + b;
    assert l[|head|] == '\0' && r[|x|] == '\0';
    assert forall i :: 0 <= i < |head| ==> l[i] == head[i];
    assert forall i :: 0 <= i < |x| ==> r[i] == x[i];
    assert |head| == |x|;
    assert head == l[..|head|] && x == r[..|x|];
    assert a == l[|head| + 1..] && b == r[|x| + 1..];
  }

  lemma OneSegment(s: seq<string>)
    requires s != [] && NulFree(s[0])
    ensures NulFree(Joined(s)) <==> |s| == 1
  {
    if |s| > 1 { assert Joined(s)[|s[0]|] == '\0'; }
  }

  lemma {:induction false} JoinInjective(s: seq<string>, t: seq<string>)
    requires s != [] && t != [] && Joined(s) == Joined(t)
    requires (forall x :: x in s ==> NulFree(x)) && forall x :: x in t ==> NulFree(x)
    ensures s == t
  {
    OneSegment(s);
    OneSegment(t);
    if |s| > 1 {
      FirstSegment(s[0], t[0], Joined(s[1..]), Joined(t[1..]));
      JoinInjective(s[1..], t[1..]);
      assert s == [s[0]] + s[1..] && t == [t[0]] + t[1..];
    }
  }

  // ------------------------------------------------ tokens against name-token maps

  /** Uniqueness the API enforces on the references of one ConfigSync. */
  ghost predicate UniqueNames(rs: seq<EvaluatedRef>) {
    forall i, j :: 0 <= i < j < |rs| ==> rs[i].name != rs[j].name
  }

  ghost predicate Plain(r: EvaluatedRef) {
    '=' !in r.name && NulFree(r.name) && NulFree(r.resolution.token)
  }

  lemma NameDetermines(rs: seq<EvaluatedRef>, a: EvaluatedRef, b: EvaluatedRef)
    requires UniqueNames(rs) && a in rs && b in rs && a.name == b.name
    ensures a == b
  {
    var i :| 0 <= i < |rs| && rs[i] == a;
    var j :| 0 <= j < |rs| && rs[j] == b;
  }

  ghost function FoldingNames(rs: seq<EvaluatedRef>): set<string> {
    set r | r in rs && Folds(r) :: r.name
  }

  ghost function TokenNamed(rs: seq<EvaluatedRef>, name: string): string
    requires name in FoldingNames(rs)
  {
    var r :| r in rs && Folds(r) && r.name == name;
    r.resolution.token
  }

  /** The tokens of the env-surfaced, rolloutOnRotate references by name. */
  ghost function TokenMap(rs: seq<EvaluatedRef>): map<string, string> {
    map n | n in FoldingNames(rs) :: TokenNamed(rs, n)
  }

  lemma MapHas(rs: seq<EvaluatedRef>, r: EvaluatedRef)
    requires UniqueNames(rs) && r in rs && Folds(r)
    ensures r.name in TokenMap(rs) && TokenMap(rs)[r.name] == r.resolution.token
  {
    assert r.name in FoldingNames(rs);
    var x :| x in rs && Folds(x) && x.name == r.name && TokenNamed(rs, r.name) == x.resolution.token;
    NameDetermines(rs, x, r);
  }

  lemma {:induction false} RawMembers(rs: seq<EvaluatedRef>, x: string)
    ensures x in RawTokens(rs) <==> exists r :: r in rs && Folds(r) && Token(r) == x
  {
    if rs != [] {
      var n := |rs| - 1;
      RawMembers(rs[..n], x);
      assert rs == rs[..n] + [rs[n]];
      assert forall r :: r in rs <==> r in rs[..n] || r == rs[n];
    }
  }

  /** A token is read back by its first '='. */
  lemma TokenParses(a: EvaluatedRef, b: EvaluatedRef)
    requires Token(a) == Token(b) && '=' !in a.name && '=' !in b.name
    ensures a.name == b.name && a.resolution.token == b.resolution.token
  {
    var l, r := Token(a), Token(b);
    assert l[|a.name|] == '=' && r[|b.name|] == '=';
    assert forall i :: 0 <= i < |a.name| ==> l[i] == a.name[i];
    assert forall i :: 0 <= i < |b.name| ==> r[i] == b.name[i];
    assert |a.name| == |b.name|;
    assert a.name == l[..|a.name|] && b.name == r[..|b.name|];
    assert a.resolution.token == l[|a.name| + 1..] && b.resolution.token == r[|b.name| + 1..];
  }

  lemma {:induction false} RawOnce(rs: seq<EvaluatedRef>, x: string)
    requires UniqueNames(rs) && forall r :: r in rs ==> Plain(r)
    ensures multiset(RawTokens(rs))[x] <= 1
  {
    if rs != [] {
      var n := |rs| - 1;
      RawOnce(rs[..n], x);
      NewToken(rs, n);
      assert rs[n] in rs;
    }
  }

  lemma NewToken(rs: seq<EvaluatedRef>, n: nat)
    requires n < |rs| && UniqueNames(rs) && forall r :: r in rs ==> Plain(r)
    ensures Token(rs[n]) !in RawTokens(rs[..n])
  {
    RawMembers(rs[..n], Token(rs[n]));
    forall r | r in rs[..n] ensures Token(r) != Token(rs[n]) {
      var i :| 0 <= i < n && rs[i] == r;
      assert Plain(rs[i]) && Plain(rs[n]);
      if Token(r) == Token(rs[n]) { TokenParses(r, rs[n]); }
    }
  }

  ghost predicate Regular(rs: seq<EvaluatedRef>) {
    UniqueNames(rs) && forall r :: r in rs ==> Plain(r)
  }

  lemma SharedToken(rs: seq<EvaluatedRef>, ts: seq<EvaluatedRef>, x: string)
    requires UniqueNames(rs) && UniqueNames(ts) && TokenMap(rs) == TokenMap(ts) && x in RawTokens(rs)
    ensures x in RawTokens(ts)
  {
    RawMembers(rs, x);
    var r :| r in rs && Folds(r) && Token(r) == x;
    MapHas(rs, r);
    assert r.name in FoldingNames(ts);
    var t :| t in ts && Folds(t) && t.name == r.name;
    MapHas(ts, t);
    assert Token(t) == x;
    RawMembers(ts, x);
  }

  lemma SharedEntry(rs: seq<EvaluatedRef>, ts: seq<EvaluatedRef>, n: string)
    requires Regular(rs) && Regular(ts) && multiset(RawTokens(rs)) == multiset(RawTokens(ts)) && n in TokenMap(rs)
    ensures n in TokenMap(ts) && TokenMap(ts)[n] == TokenMap(rs)[n]
  {
    var r :| r in rs && Folds(r) && r.name == n;
    MapHas(rs, r);
    RawMembers(rs, Token(r));
    assert Token(r) in multiset(RawTokens(ts));
    RawMembers(ts, Token(r));
    var t :| t in ts && Folds(t) && Token(t) == Token(r);
    TokenParses(t, r);
    MapHas(ts, t);
  }

  /** The unordered tokens and the name-to-token map say the same. */
  lemma TokensAreTheMap(rs: seq<EvaluatedRef>, ts: seq<EvaluatedRef>)
    requires Regular(rs) && Regular(ts)
    ensures multiset(RawTokens(rs)) == multiset(RawTokens(ts)) <==> TokenMap(rs) == TokenMap(ts)
  {
    hide TokenMap, RawTokens, Token;
    if multiset(RawTokens(rs)) == multiset(RawTokens(ts)) {
      forall n | n in TokenMap(rs) ensures n in TokenMap(ts) &&
        TokenMap(ts)[n] == TokenMap(rs)[n] { SharedEntry(rs, ts, n); }
      forall n | n in TokenMap(ts) ensures n in TokenMap(rs) { SharedEntry(ts, rs, n); }
      assert TokenMap(rs) == TokenMap(ts);
    }
    if TokenMap(rs) == TokenMap(ts) {
      var a, b := multiset(RawTokens(rs)), multiset(RawTokens(ts));
      forall x ensures a[x] == b[x] {
        RawOnce(rs, x);
        RawOnce(ts, x);
        if x in RawTokens(rs) { SharedToken(rs, ts, x); }
        if x in RawTokens(ts) { SharedToken(ts, rs, x); }
      }
      assert a == b;
    }
  }

  // ------------------------------------------------------------ version identity

  function RefsVersion(commit: string, rs: seq<EvaluatedRef>, hash: string -> string): string {
    VersionOf(commit, EnvTokens(rs), hash)
  }

  /** The string whose hash goes into the version. */
  function Hashed(rs: seq<EvaluatedRef>): string {
    Joined(SortOf(EnvTokens(rs)))
  }

  /** Truncated digests have a fixed length and do not collide on these two inputs. */
  ghost predicate Separates(hash: string -> string, x: string, y: string) {
    && |hash(x)| == SECRET_HASH_LEN && |hash(y)| == SECRET_HASH_LEN
    && (hash(x) == hash(y) ==> x == y)
  }

  lemma EnvTokensBag(rs: seq<EvaluatedRef>)
    ensures multiset(EnvTokens(rs)) == multiset(RawTokens(rs)) && |EnvTokens(rs)| == |RawTokens(rs)|
    ensures multiset(SortOf(EnvTokens(rs))) == multiset(RawTokens(rs))
  {
    SortOfSorts(RawTokens(rs));
    SortOfSorts(EnvTokens(rs));
    assert |multiset(EnvTokens(rs))| == |multiset(RawTokens(rs))|;
  }

  lemma TokensAreNulFree(rs: seq<EvaluatedRef>)
    requires Regular(rs)
    ensures forall x :: x in SortOf(EnvTokens(rs)) ==> NulFree(x)
  {
    forall x | x in SortOf(EnvTokens(rs)) ensures NulFree(x) {
      EnvTokensBag(rs);
      assert x in multiset(RawTokens(rs));
      RawMembers(rs, x);
    }
  }

  /** What is hashed determines the tokens. */
  lemma HashedDetermines(rs: seq<EvaluatedRef>, ts: seq<EvaluatedRef>)
    requires Regular(rs) && Regular(ts) && EnvTokens(rs) != [] && EnvTokens(ts) != []
    ensures Hashed(rs) == Hashed(ts) <==> TokenMap(rs) == TokenMap(ts)
  {
    EnvTokensBag(rs);
    EnvTokensBag(ts);
    TokensAreTheMap(rs, ts);
    TokensAreNulFree(rs);
    TokensAreNulFree(ts);
    var a, b := SortOf(EnvTokens(rs)), SortOf(EnvTokens(ts));
    assert |multiset(a)| == |a| && |multiset(b)| == |b|;
    SortOfSame(EnvTokens(rs), EnvTokens(ts));
    hide SortOf, TokenMap, RawTokens, Regular, EnvTokens;
    if Hashed(rs) == Hashed(ts) { JoinInjective(a, b); }
  }

  lemma NoTokensNoMap(rs: seq<EvaluatedRef>)
    requires UniqueNames(rs)
    ensures EnvTokens(rs) == [] <==> TokenMap(rs) == map[]
  {
    EnvTokensBag(rs);
    if TokenMap(rs) != map[] {
      var n :| n in TokenMap(rs);
      var r :| r in rs && Folds(r) && r.name == n;
      RawMembers(rs, Token(r));
    } else if RawTokens(rs) != [] {
      RawMembers(rs, RawTokens(rs)[0]);
      var r :| r in rs && Folds(r) && Token(r) == RawTokens(rs)[0];
      MapHas(rs, r);
    }
  }

  /** The two shapes of a version are told apart by length, and split by it. */
  lemma VersionSplits(c: string, d: string, h: string, k: string)
    requires |h| == SECRET_HASH_LEN && |k| == SECRET_HASH_LEN
    ensures "git:" + ShortCommit(c) != "git:" + ShortCommit(d) + "-sec:" + h
    ensures "git:" + ShortCommit(c) == "git:" + ShortCommit(d) <==> ShortCommit(c) == ShortCommit(d)
    ensures "git:" + ShortCommit(c) + "-sec:" + h == "git:" + ShortCommit(d) + "-sec:" + k <==>
            ShortCommit(c) == ShortCommit(d) && h == k
  {
    var a, b := "git:" + ShortCommit(c), "git:" + ShortCommit(d);
    assert a[4..] == ShortCommit(c) && b[4..] == ShortCommit(d);
    var x, y := a + "-sec:" + h, b + "-sec:" + k;
    assert x[..|x| - 17] == a && x[|x| - 12..] == h;
    assert y[..|y| - 17] == b && y[|y| - 12..] == k;
    assert |a| <= 16 < |b + "-sec:" + h|;
  }

  /** Version identity: two versions are equal exactly when the short commits and
      the name-to-token maps of the folding references are. */
  lemma VersionIdentity(c: string, rs: seq<EvaluatedRef>, d: string, ts: seq<EvaluatedRef>, hash: string -> string)
    requires Regular(rs) && Regular(ts) && Separates(hash, Hashed(rs), Hashed(ts))
    ensures RefsVersion(c, rs, hash) == RefsVersion(d, ts, hash) <==>
            ShortCommit(c) == ShortCommit(d) && TokenMap(rs) == TokenMap(ts)
  {
    NoTokensNoMap(rs);
    NoTokensNoMap(ts);
    var h, k := hash(Hashed(rs)), hash(Hashed(ts));
    VersionSplits(c, d, h, k);
    VersionSplits(d, c, h, k);
    if EnvTokens(rs) != [] && EnvTokens(ts) != [] { HashedDetermines(rs, ts); }
    hide ShortCommit, TokenMap, EnvTokens, Regular, Joined;
  }

  /** Whatever the hash: reference order, file-surfaced tokens and opted-out env
      tokens never reach the version. */
  lemma SameTokensSameVersion(c: string, rs: seq<EvaluatedRef>, ts: seq<EvaluatedRef>, hash: string -> string)
    requires Regular(rs) && Regular(ts) && TokenMap(rs) == TokenMap(ts)
    ensures RefsVersion(c, rs, hash) == RefsVersion(c, ts, hash)
  {
    TokensAreTheMap(rs, ts);
    SortOfSame(RawTokens(rs), RawTokens(ts));
  }

  function Rotated(rs: seq<EvaluatedRef>, i: nat, token: string): seq<EvaluatedRef>
    requires i < |rs|
  {
    rs[i := rs[i].(resolution := rs[i].resolution.(token := token))]
  }

  /** Rotating one secret changes the version exactly if it is env-surfaced, not
      opted out, and its token really changed. */
  lemma RotationExactly(c: string, rs: seq<EvaluatedRef>, i: nat, token: string, hash: string -> string)
    requires Regular(rs) && i < |rs| && NulFree(token)
    requires Separates(hash, Hashed(rs), Hashed(Rotated(rs, i, token)))
    ensures RefsVersion(c, rs, hash) == RefsVersion(c, Rotated(rs, i, token), hash) <==>
            !Folds(rs[i]) || token == rs[i].resolution.token
  {
    var ts := Rotated(rs, i, token);
    RotatedRegular(rs, i, token);
    VersionIdentity(c, rs, c, ts, hash);
    if Folds(rs[i]) {
      MapHas(rs, rs[i]);
      MapHas(ts, ts[i]);
      if token == rs[i].resolution.token { assert ts == rs; }
    } else {
      RotatedAway(rs, i, token);
      TokensAreTheMap(rs, ts);
    }
  }

  lemma RotatedRegular(rs: seq<EvaluatedRef>, i: nat, token: string)
    requires Regular(rs) && i < |rs| && NulFree(token)
    ensures Regular(Rotated(rs, i, token))
  {
    var ts := Rotated(rs, i, token);
    forall t | t in ts ensures Plain(t) {
      var j :| 0 <= j < |ts| && ts[j] == t;
      assert Plain(rs[j]);
    }
  }

  lemma {:induction false} RotatedAway(rs: seq<EvaluatedRef>, i: nat, token: string)
    requires i < |rs| && !Folds(rs[i])
    ensures RawTokens(Rotated(rs, i, token)) == RawTokens(rs)
  {
    var n, ts := |rs| - 1, Rotated(rs, i, token);
    if i < n {
      RotatedAway(rs[..n], i, token);
      assert ts[..n] == Rotated(rs[..n], i, token);
    } else {
      assert ts[..n] == rs[..n];
    }
  }
}

/** internal/render/render.go: a walked tree becomes ConfigMap keys and values. */
module Render {
  import opened Text

  newtype Byte = b: int | 0 <= b < 256

  type Bytes = seq<Byte>

  /** A regular file by its slash-separated path; `text`: its content is valid UTF-8;
      `manifest`: a YAML or JSON file that declares a Kubernetes object. */
  datatype File = File(path: string, content: Bytes, text: bool, manifest: bool)

  /** What the walk meets, in walk order. */
  datatype Node =
    | Directory
    | Special
    | Regular(file: File)
    | Broken
    | Outside
    | LinkToDirectory
    | LinkToFile(file: File)

  datatype Reason = TreeSafetyViolation | InvalidKey | KeyConflict | Oversize

  const HARD_LIMIT := 1048576
  const DEFAULT_MARGIN := 131072
  const DEFAULT_SEPARATOR := "__"
  const MAX_KEY_LEN := 253
  const RESERVED := "kohen."

  // ------------------------------------------------------------------------- keys

  /** `strings.ReplaceAll(rel, "/", sep)`. */
  function Key(path: string, sep: string): string {
    if path == "" then "" else (if path[0] == '/' then sep else [path[0]]) + Key(path[1..], sep)
  }

  predicate KeyChar(c: char) {
    'a' <= c <= 'z' || 'A' <= c <= 'Z' || '0' <= c <= '9' || c == '-' || c == '_' || c == '.'
  }

  predicate ValidKey(key: string) {
    key != "" && |key| <= MAX_KEY_LEN && key != "." && key != ".." && forall c :: c in key ==> KeyChar(c)
  }

  method ValidateKey(key: string) returns (ok: bool)
    ensures ok == ValidKey(key)
  {
    if key == "" || |key| > MAX_KEY_LEN || key == "." || key == ".." { return false; }
    for i := 0 to |key|
      invariant forall j :: 0 <= j < i ==> KeyChar(key[j])
    {
      if !KeyChar(key[i]) { return false; }
    }
    return true;
  }

  const PUNCTUATION := "-._"
  const DIGITS := "0123456789"
  const CAPITALS := "ABCDEFGHIJKLMNOPQRSTUVWXYZ"
  const SMALLS := "abcdefghijklmnopqrstuvwxyz"

  predicate InAlphabet(c: char) {
    c in PUNCTUATION || c in DIGITS || c in CAPITALS || c in SMALLS
  }

  /** `s` lists the characters from `first` on, in order. */
  ghost predicate Consecutive(s: string, first: char) {
    forall i :: 0 <= i < |s| ==> s[i] as int == first as int + i
  }

  lemma InRange(s: string, first: char, c: char)
    requires Consecutive(s, first)
    ensures c in s <==> 0 <= c as int - first as int < |s|
  {
    var i := c as int - first as int;
    if 0 <= i < |s| { assert s[i] == c; }
  }

  lemma KeyCharExactly(c: char)
    ensures KeyChar(c) <==> InAlphabet(c)
  {
    InRange(DIGITS, '0', c);
    InRange(CAPITALS, 'A', c);
    InRange(SMALLS, 'a', c);
    assert c in PUNCTUATION <==> c == PUNCTUATION[0] || c == PUNCTUATION[1] || c == PUNCTUATION[2];
  }

  /** Between 1 and 253 characters of the alphabet, and not a directory's own name. */
  lemma ValidKeyExactly(key: string)
    ensures ValidKey(key) <==> 1 <= |key| <= 253 && key != "." && key != ".." && forall c :: c in key ==> InAlphabet(c)
  {
    forall c ensures KeyChar(c) <==> InAlphabet(c) { KeyCharExactly(c); }
    hide KeyChar, InAlphabet;
  }

  /** The last path component. */
  function Base(path: string): string {
    if path == "" then "" else if path[|path| - 1] == '/' then "" else Base(path[..|path| - 1]) + [path[|path| - 1]]
  }

  predicate Excluded(f: File) {
    RESERVED <= Base(f.path) || f.manifest
  }

  /** What follows the last slash, or all of it. */
  ghost predicate LastComponent(path: string, b: string) {
    '/' !in b && (path == b || exists d :: path == d + "/" + b)
  }

  lemma {:induction false} BaseExactly(path: string)
    ensures LastComponent(path, Base(path))
  {
    if path != "" {
      var n := |path| - 1;
      assert path == path[..n] + [path[n]];
      if path[n] == '/' {
        assert path == path[..n] + "/" + "";
      } else {
        BaseExactly(path[..n]);
        var b := Base(path[..n]);
        if d :| path[..n] == d + "/" + b { assert path == d + "/" + (b + [path[n]]); }
      }
    }
  }

  /** Kept out: files whose name starts with "kohen.", and manifests. */
  lemma ExcludedExactly(f: File)
    ensures exists b :: LastComponent(f.path, b) && (Excluded(f) <==> "kohen." <= b || f.manifest)
  {
    BaseExactly(f.path);
  }

  // --------------------------------------------------------------------- collecting

  /** The included file a node contributes. */
  function Included(n: Node): seq<File> {
    if (n.Regular? || n.LinkToFile?) && !Excluded(n.file) then [n.file] else []
  }

  function FilesOf(nodes: seq<Node>): seq<File> {
    if nodes == [] then [] else FilesOf(nodes[..|nodes| - 1]) + Included(nodes[|nodes| - 1])
  }

  predicate Taken(files: seq<File>, key: string, sep: string) {
    exists f :: f in files && Key(f.path, sep) == key
  }

  /** Why the walk stops at node `n` after having included `before`. */
  function Fault(n: Node, before: seq<File>, sep: string): Option<Reason> {
    if n.Broken? || n.Outside? then Some(TreeSafetyViolation)
    else if Included(n) == [] then None
    else
      var key := Key(n.file.path, sep);
      if !ValidKey(key) then Some(InvalidKey) else if Taken(before, key, sep) then Some(KeyConflict) else None
  }

  function FirstFault(nodes: seq<Node>, sep: string): Option<Reason> {
    if nodes == [] then None
    else
      var n := |nodes| - 1;
      var r := FirstFault(nodes[..n], sep);
      if r.Some? then r else Fault(nodes[n], FilesOf(nodes[..n]), sep)
  }

  lemma {:induction false} FaultStays(nodes: seq<Node>, i: nat, sep: string)
    requires i <= |nodes| && FirstFault(nodes[..i], sep).Some?
    ensures FirstFault(nodes, sep) == FirstFault(nodes[..i], sep)
  {
    if i < |nodes| {
      assert nodes[..|nodes| - 1][..i] == nodes[..i];
      FaultStays(nodes[..|nodes| - 1], i, sep);
    } else {
      assert nodes[..i] == nodes;
    }
  }

  lemma WalkStarts(sep: string)
    ensures FirstFault([], sep).None? && FilesOf([]) == [] && forall k :: !Taken([], k, sep)
  {
  }

  /** What the next node does to the walk. */
  lemma WalkGoesOn(nodes: seq<Node>, i: nat, sep: string)
    requires i < |nodes| && FirstFault(nodes[..i], sep).None?
    ensures FilesOf(nodes[..i + 1]) == FilesOf(nodes[..i]) + Included(nodes[i])
    ensures var r := Fault(nodes[i], FilesOf(nodes[..i]), sep);
            FirstFault(nodes[..i + 1], sep) == r && (r.Some? ==> FirstFault(nodes, sep) == r)
  {
    hide Key, ValidKey, Included, Taken;
    assert nodes[..i + 1][..i] == nodes[..i];
    if FirstFault(nodes[..i + 1], sep).Some? { FaultStays(nodes, i + 1, sep); }
  }

  datatype Collected = Candidates(files: seq<File>) | Refused(reason: Reason)

  /** `collect` and `consider`: `seen` maps keys to the paths that took them. */
  method Collect(nodes: seq<Node>, sep: string) returns (r: Collected)
    ensures r == if FirstFault(nodes, sep).Some? then Refused(FirstFault(nodes, sep).value)
            else Candidates(FilesOf(nodes))
  {
    hide Key, ValidKey, Excluded, FilesOf, FirstFault, Taken;
    var seen: map<string, string>, out: seq<File> := map[], [];
    WalkStarts(sep);
    for i := 0 to |nodes|
      invariant FirstFault(nodes[..i], sep).None? && out == FilesOf(nodes[..i])
      invariant forall k :: k in seen <==> Taken(out, k, sep)
    {
      var n := nodes[i];
      WalkGoesOn(nodes, i, sep);
      if n.Broken? || n.Outside? {
        return Refused(TreeSafetyViolation);
      }
      if (n.Regular? || n.LinkToFile?) && !Excluded(n.file) {
        var key := Key(n.file.path, sep);
        var ok := ValidateKey(key);
        if !ok || key in seen {
          return Refused(if !ok then InvalidKey else KeyConflict);
        }
        TakenSnoc(out, n.file, sep);
        seen := seen[key := n.file.path];
        out := out + [n.file];
      }
    }
    assert nodes[..|nodes|] == nodes;
    return Candidates(out);
  }

  lemma TakenSnoc(files: seq<File>, f: File, sep: string)
    ensures forall k :: Taken(files + [f], k, sep) <==> Taken(files, k, sep) || k == Key(f.path, sep)
  {
    assert f in files + [f];
  }

  /** Every included file has a valid key of its own. */
  ghost predicate Keyed(files: seq<File>, sep: string) {
    && (forall f :: f in files ==> ValidKey(Key(f.path, sep)))
    && forall i, j :: 0 <= i < j < |files| ==> Key(files[i].path, sep) != Key(files[j].path, sep)
  }

  ghost predicate LinksStay(nodes: seq<Node>) {
    Broken !in nodes && Outside !in nodes
  }

  lemma KeyedSnoc(files: seq<File>, f: File, sep: string)
    ensures Keyed(files + [f], sep) <==>
            Keyed(files, sep) && ValidKey(Key(f.path, sep)) && !Taken(files, Key(f.path, sep), sep)
  {
    var all := files + [f];
    assert all[|files|] == f && forall i :: 0 <= i < |files| ==> all[i] == files[i];
    if Taken(files, Key(f.path, sep), sep) {
      var x :| x in files && Key(x.path, sep) == Key(f.path, sep);
      var i :| 0 <= i < |files| && files[i] == x;
      assert Key(all[i].path, sep) == Key(all[|files|].path, sep);
    } else {
      forall i | 0 <= i < |files| ensures Key(files[i].path, sep) != Key(f.path, sep) { assert files[i] in files; }
    }
    if Keyed(all, sep) {
      assert forall x :: x in files ==> x in all;
      assert forall i, j :: 0 <= i < j < |files| ==> Key(all[i].path, sep) != Key(all[j].path, sep);
    }
  }

  /** Collecting succeeds exactly when no link leaves the tree, all included keys are
      valid and the path-to-key map is injective on the included files. */
  lemma {:induction false} CollectExactly(nodes: seq<Node>, sep: string)
    ensures FirstFault(nodes, sep).None? <==> LinksStay(nodes) && Keyed(FilesOf(nodes), sep)
  {
    if nodes != [] {
      var n := |nodes| - 1;
      CollectExactly(nodes[..n], sep);
      assert nodes == nodes[..n] + [nodes[n]];
      var files := FilesOf(nodes[..n]);
      if Included(nodes[n]) == [] { assert files + [] == files; } else { KeyedSnoc(files, nodes[n].file, sep); }
      hide Keyed, Taken, ValidKey, Key, Excluded;
    }
  }

  // ---------------------------------------------------------------------- rendering

  datatype Options = Options(separator: string, maxTotalBytes: int, safetyMarginBytes: int)

  function Separator(o: Options): string {
    if o.separator == "" then DEFAULT_SEPARATOR else o.separator
  }

  function EffectiveLimit(o: Options): int {
    var max := if o.maxTotalBytes <= 0 then HARD_LIMIT else o.maxTotalBytes;
    var margin := if o.safetyMarginBytes == 0 then DEFAULT_MARGIN else o.safetyMarginBytes;
    if margin >= max then max else max - margin
  }

  /** Standard padded base64 (RFC 4648, section 4). */
  function EncodedLen(n: nat): nat {
    (n + 2) / 3 * 4
  }

  /** Four characters for every three bytes begun. */
  lemma EncodedLenExactly(n: nat)
    ensures exists k: nat :: EncodedLen(n) == 4 * k && 3 * k >= n && (k > 0 ==> 3 * (k - 1) < n)
  {
    var k := (n + 2) / 3;
    assert EncodedLen(n) == 4 * k && 3 * k >= n && (k > 0 ==> 3 * (k - 1) < n);
  }

  function Cost(f: File, sep: string): nat {
    |Key(f.path, sep)| + if f.text then |f.content| else EncodedLen(|f.content|)
  }

  function Sum(files: seq<File>, weight: File -> nat): nat {
    if files == [] then 0 else Sum(files[..|files| - 1], weight) + weight(files[|files| - 1])
  }

  function ByLength(): File -> nat {
    (f: File) => |f.content|
  }

  function ByCost(sep: string): File -> nat {
    (f: File) => Cost(f, sep)
  }

  function Raw(files: seq<File>): nat {
    Sum(files, ByLength())
  }

  function Total(files: seq<File>, sep: string): nat {
    Sum(files, ByCost(sep))
  }

  /** The data (`text`) or binaryData part. */
  function Part(files: seq<File>, sep: string, text: bool): map<string, Bytes> {
    if files == [] then map[]
    else
      var f := files[|files| - 1];
      var rest := Part(files[..|files| - 1], sep, text);
      if f.text == text then rest[Key(f.path, sep) := f.content] else rest
  }

  datatype Outcome =
    | Rendered(data: map<string, Bytes>, binaryData: map<string, Bytes>, totalBytes: nat)
    | Failed(reason: Reason)

  function RenderOf(nodes: seq<Node>, o: Options): Outcome {
    var sep, files := Separator(o), FilesOf(nodes);
    if FirstFault(nodes, sep).Some? then Failed(FirstFault(nodes, sep).value)
    else if Raw(files) > HARD_LIMIT then Failed(Oversize)
    else if Total(files, sep) > EffectiveLimit(o) then Failed(Oversize)
    else Rendered(Part(files, sep, true), Part(files, sep, false), Total(files, sep))
  }

  method Render(nodes: seq<Node>, o: Options) returns (r: Outcome)
    ensures r == RenderOf(nodes, o)
  {
    hide Key, FilesOf, FirstFault;
    var sep := Separator(o);
    var c := Collect(nodes, sep);
    if c.Refused? { return Failed(c.reason); }
    var files := c.files;
    var rawTotal := 0;
    for i := 0 to |files|
      invariant rawTotal == Raw(files[..i])
    {
      assert files[..i + 1][..i] == files[..i];
      rawTotal := rawTotal + |files[i].content|;
    }
    assert files[..|files|] == files;
    if rawTotal > HARD_LIMIT { return Failed(Oversize); }
    var data: map<string, Bytes>, binaryData: map<string, Bytes>, total := map[], map[], 0;
    for i := 0 to |files|
      invariant total == Total(files[..i], sep)
      invariant data == Part(files[..i], sep, true) && binaryData == Part(files[..i], sep, false)
    {
      var f := files[i];
      var key := Key(f.path, sep);
      assert files[..i + 1][..i] == files[..i];
      if f.text {
        data := data[key := f.content];
        total := total + |key| + |f.content|;
      } else {
        binaryData := binaryData[key := f.content];
        total := total + |key| + EncodedLen(|f.content|);
      }
    }
    if total > EffectiveLimit(o) { return Failed(Oversize); }
    return Rendered(data, binaryData, total);
  }

  /** The defaults, and the margin taken off where it fits. */
  lemma OptionsExactly(o: Options)
    ensures Separator(o) == if o.separator == "" then "__" else o.separator
    ensures var max := if o.maxTotalBytes > 0 then o.maxTotalBytes else 1048576;
            var margin := if o.safetyMarginBytes != 0 then o.safetyMarginBytes else 131072;
            if margin < max then EffectiveLimit(o) + margin == max else EffectiveLimit(o) == max
  {
  }

  lemma {:induction false} CostsExactly(files: seq<File>, sep: string)
    ensures files == [] ==> Raw(files) == 0 && Total(files, sep) == 0
    ensures files != [] ==>
              var f, front := files[|files| - 1], files[..|files| - 1];
              && Raw(files) == Raw(front) + |f.content|
              && Total(files, sep) ==
                 Total(front, sep) + |Key(f.path, sep)| + (if f.text then |f.content| else EncodedLen(|f.content|))
  {
  }

  /** When rendering succeeds. */
  lemma RenderExactly(nodes: seq<Node>, o: Options)
    ensures var files, sep := FilesOf(nodes), Separator(o);
            RenderOf(nodes, o).Rendered? <==>
            LinksStay(nodes) && Keyed(files, sep) && Raw(files) <= 1048576 && Total(files, sep) <= EffectiveLimit(o)
  {
    CollectExactly(nodes, Separator(o));
    hide Keyed, FilesOf, Total, Raw, EffectiveLimit, FirstFault, Part;
  }

  // ----------------------------------------------------------------- what is reported

  /** Node `i` stops the walk for reason `r`, nothing before it does. */
  ghost predicate StopsAt(nodes: seq<Node>, sep: string, i: nat, r: Reason) {
    && i < |nodes| && FirstFault(nodes[..i], sep).None?
    && match r
       case TreeSafetyViolation => nodes[i].Broken? || nodes[i].Outside?
       case InvalidKey => FileAt(nodes[i]) && !ValidKey(Key(nodes[i].file.path, sep))
       case KeyConflict =>
         && FileAt(nodes[i]) && ValidKey(Key(nodes[i].file.path, sep))
         && exists f :: f in FilesOf(nodes[..i]) && Key(f.path, sep) == Key(nodes[i].file.path, sep)
       case Oversize => false
  }

  predicate FileAt(n: Node) {
    (n.Regular? || n.LinkToFile?) && !Excluded(n.file)
  }

  /** The reason a walk reports is that of the first node at fault. */
  lemma {:induction false} FaultExactly(nodes: seq<Node>, sep: string)
    requires FirstFault(nodes, sep).Some?
    ensures exists i :: StopsAt(nodes, sep, i, FirstFault(nodes, sep).value)
  {
    var n := |nodes| - 1;
    if FirstFault(nodes[..n], sep).Some? {
      FaultExactly(nodes[..n], sep);
      var r := FirstFault(nodes[..n], sep).value;
      var i: nat :| StopsAt(nodes[..n], sep, i, r);
      assert nodes[..n][..i] == nodes[..i];
      assert StopsAt(nodes, sep, i, r);
    } else {
      assert StopsAt(nodes, sep, n, FirstFault(nodes, sep).value);
    }
    hide Key, ValidKey, Excluded;
  }

  // --------------------------------------------------------------- keys as a bijection

  ghost predicate HoldsAt(files: seq<File>, sep: string, text: bool, k: string, c: Bytes) {
    exists f :: f in files && f.text == text && Key(f.path, sep) == k && f.content == c
  }

  /** A part holds exactly its files' contents at their keys. */
  lemma PartExactly(files: seq<File>, sep: string, text: bool, k: string)
    requires Keyed(files, sep)
    ensures forall c :: (k in Part(files, sep, text) && Part(files, sep, text)[k] == c) <==>
            HoldsAt(files, sep, text, k, c)
    ensures k in Part(files, sep, text) <==> exists c :: HoldsAt(files, sep, text, k, c)
  {
    if k in Part(files, sep, text) { EntryExactly(files, sep, text, k, Part(files, sep, text)[k]); }
    forall c ensures (k in Part(files, sep, text) && Part(files, sep, text)[k] == c) <==>
      HoldsAt(files, sep, text, k, c) {
      EntryExactly(files, sep, text, k, c);
    }
  }

  lemma {:induction false} EntryExactly(files: seq<File>, sep: string, text: bool, k: string, c: Bytes)
    requires Keyed(files, sep)
    ensures (k in Part(files, sep, text) && Part(files, sep, text)[k] == c) <==> HoldsAt(files, sep, text, k, c)
  {
    if files != [] {
      var n := |files| - 1;
      var f := files[n];
      assert files == files[..n] + [f];
      KeyedSnoc(files[..n], f, sep);
      EntryExactly(files[..n], sep, text, k, c);
      hide Keyed, Key, ValidKey;
      assert forall x :: x in files <==> x in files[..n] || x == f;
    }
  }

  lemma UntakenHasNoEntry(files: seq<File>, sep: string, text: bool, k: string)
    requires Keyed(files, sep) && !Taken(files, k, sep)
    ensures k !in Part(files, sep, text)
  {
    PartExactly(files, sep, text, k);
    assert forall c :: !HoldsAt(files, sep, text, k, c);
  }

  lemma {:induction false} PartSizes(files: seq<File>, sep: string)
    requires Keyed(files, sep)
    ensures |Part(files, sep, true)| + |Part(files, sep, false)| == |files|
  {
    if files != [] {
      var n := |files| - 1;
      var f := files[n];
      assert files == files[..n] + [f];
      KeyedSnoc(files[..n], f, sep);
      PartSizes(files[..n], sep);
      var rest, k := Part(files[..n], sep, f.text), Key(f.path, sep);
      UntakenHasNoEntry(files[..n], sep, f.text, k);
      hide Keyed, Key, ValidKey;
      assert rest[k := f.content].Keys == rest.Keys + {k};
    }
  }

  lemma KeyHasOneFile(files: seq<File>, sep: string, f: File, g: File)
    requires Keyed(files, sep) && f in files && g in files && Key(f.path, sep) == Key(g.path, sep)
    ensures f == g
  {
    var i :| 0 <= i < |files| && files[i] == f;
    var j :| 0 <= j < |files| && files[j] == g;
    assert !(i < j) && !(j < i);
  }

  lemma NoSharedKey(files: seq<File>, sep: string, k: string)
    requires Keyed(files, sep) && k in Part(files, sep, true)
    ensures k !in Part(files, sep, false)
  {
    PartExactly(files, sep, true, k);
    assert HoldsAt(files, sep, true, k, Part(files, sep, true)[k]);
    var f :| f in files && f.text && Key(f.path, sep) == k;
    forall g | g in files && Key(g.path, sep) == k ensures g == f { KeyHasOneFile(files, sep, f, g); }
    assert forall c :: !HoldsAt(files, sep, false, k, c);
    PartExactly(files, sep, false, k);
  }

  /** A successful result is a bijection between the included files and the keys of
      two disjoint maps, contents included, and within the limit. */
  lemma {:induction false} RenderedIsBijection(nodes: seq<Node>, o: Options)
    requires RenderOf(nodes, o).Rendered?
    ensures var r, sep, files := RenderOf(nodes, o), Separator(o), FilesOf(nodes);
            && Keyed(files, sep) && r.data.Keys !! r.binaryData.Keys && |r.data| + |r.binaryData| == |files|
            && (forall f :: f in files ==>
                  var part := if f.text then r.data else r.binaryData;
                  Key(f.path, sep) in part && part[Key(f.path, sep)] == f.content)
            && r.totalBytes == Total(files, sep) <= EffectiveLimit(o)
  {
    var r, sep, files := RenderOf(nodes, o), Separator(o), FilesOf(nodes);
    CollectExactly(nodes, sep);
    PartSizes(files, sep);
    forall k | k in r.data ensures k !in r.binaryData { NoSharedKey(files, sep, k); }
    forall f | f in files
      ensures var part := if f.text then r.data else r.binaryData;
              Key(f.path, sep) in part && part[Key(f.path, sep)] == f.content
    {
      PartExactly(files, sep, f.text, Key(f.path, sep));
      assert HoldsAt(files, sep, f.text, Key(f.path, sep), f.content);
    }
    hide Keyed, Part, FilesOf;
  }

  // -------------------------------------------------------------------- walk order

  lemma {:induction false} SumWithout(files: seq<File>, i: nat, weight: File -> nat)
    requires i < |files|
    ensures Sum(files, weight) == Sum(files[..i] + files[i + 1..], weight) + weight(files[i])
  {
    var n := |files| - 1;
    var rest := files[..i] + files[i + 1..];
    if i < n {
      SumWithout(files[..n], i, weight);
      assert rest[..n - 1] == files[..n][..i] + files[..n][i + 1..] && rest[n - 1] == files[n];
    } else {
      assert rest == files[..n];
    }
  }

  lemma WithoutBag<T>(s: seq<T>, i: nat)
    requires i < |s|
    ensures multiset(s[..i] + s[i + 1..]) == multiset(s) - multiset{s[i]}
  {
    assert s == s[..i] + [s[i]] + s[i + 1..];
  }

  lemma {:induction false} SumBag(a: seq<File>, b: seq<File>, weight: File -> nat)
    requires multiset(a) == multiset(b)
    ensures Sum(a, weight) == Sum(b, weight)
  {
    assert |multiset(a)| == |a| && |multiset(b)| == |b|;
    if a != [] {
      var n := |a| - 1;
      assert a[n] in multiset(b);
      var i :| 0 <= i < |b| && b[i] == a[n];
      WithoutBag(a, n);
      WithoutBag(b, i);
      assert a[..n] + a[n + 1..] == a[..n];
      SumBag(a[..n], b[..i] + b[i + 1..], weight);
      SumWithout(b, i, weight);
    }
  }

  lemma {:induction false} FilesOfAppend(a: seq<Node>, b: seq<Node>)
    ensures FilesOf(a + b) == FilesOf(a) + FilesOf(b)
  {
    hide Included;
    if b == [] {
      assert a + b == a;
    } else {
      var n := |b| - 1;
      FilesOfAppend(a, b[..n]);
      assert (a + b)[..|a| + n] == a + b[..n];
    }
  }

  lemma FilesBagMiddle(l: seq<Node>, x: Node, r: seq<Node>)
    ensures multiset(FilesOf(l + [x] + r)) == multiset(FilesOf(l + r)) + multiset(Included(x))
  {
    SingleFile(x);
    hide Included, FilesOf;
    FilesOfAppend(l + [x], r);
    FilesOfAppend(l, [x]);
    FilesOfAppend(l, r);
    BagMiddle(FilesOf(l), Included(x), FilesOf(r));
  }

  lemma FilesBagWithout(nodes: seq<Node>, i: nat)
    requires i < |nodes|
    ensures multiset(FilesOf(nodes)) == multiset(FilesOf(nodes[..i] + nodes[i + 1..])) + multiset(Included(nodes[i]))
  {
    hide Included, FilesOf;
    FilesBagMiddle(nodes[..i], nodes[i], nodes[i + 1..]);
    assert nodes[..i] + [nodes[i]] + nodes[i + 1..] == nodes;
  }

  lemma SingleFile(x: Node)
    ensures FilesOf([x]) == Included(x)
  {
    assert [x][..0] == [] && FilesOf([]) == [];
  }

  lemma BagMiddle<T>(a: seq<T>, b: seq<T>, c: seq<T>)
    ensures multiset(a + b + c) == multiset(a + c) + multiset(b)
  {
  }

  lemma {:induction false} FilesBag(a: seq<Node>, b: seq<Node>)
    requires multiset(a) == multiset(b)
    ensures multiset(FilesOf(a)) == multiset(FilesOf(b))
  {
    assert |multiset(a)| == |a| && |multiset(b)| == |b|;
    if a != [] {
      var n := |a| - 1;
      assert a[n] in multiset(b);
      var i :| 0 <= i < |b| && b[i] == a[n];
      WithoutBag(a, n);
      WithoutBag(b, i);
      assert a[..n] + a[n + 1..] == a[..n];
      FilesBag(a[..n], b[..i] + b[i + 1..]);
      FilesBagWithout(b, i);
      FilesBagWithout(a, n);
    }
  }

  /** Equal elements at two places count twice. */
  lemma TwiceCounts<T>(s: seq<T>, i: nat, j: nat)
    requires i < j < |s| && s[i] == s[j]
    ensures multiset(s)[s[i]] >= 2
  {
    assert s == s[..i] + [s[i]] + s[i + 1..];
    assert s[j] == s[i + 1..][j - i - 1];
    assert s[i] in s[i + 1..];
  }

  lemma {:induction false} CountsTwice<T>(s: seq<T>, x: T)
    requires multiset(s)[x] >= 2
    ensures exists i, j :: 0 <= i < j < |s| && s[i] == s[j] == x
  {
    var n := |s| - 1;
    assert s == s[..n] + [s[n]];
    if s[n] == x {
      assert x in s[..n];
      var i :| 0 <= i < n && s[..n][i] == x;
      assert s[i] == s[n] == x;
    } else {
      CountsTwice(s[..n], x);
      var i, j :| 0 <= i < j < n && s[..n][i] == s[..n][j] == x;
      assert s[i] == s[j] == x;
    }
  }

  lemma KeyedBag(a: seq<File>, b: seq<File>, sep: string)
    requires multiset(a) == multiset(b) && Keyed(a, sep)
    ensures Keyed(b, sep)
  {
    forall f | f in b ensures f in a { assert f in multiset(a); }
    forall i, j | 0 <= i < j < |b| ensures Key(b[i].path, sep) != Key(b[j].path, sep) {
      if b[i] == b[j] {
        TwiceCounts(b, i, j);
        CountsTwice(a, b[i]);
      } else {
        var x :| 0 <= x < |a| && a[x] == b[i];
        var y :| 0 <= y < |a| && a[y] == b[j];
        assert x < y || y < x;
      }
    }
  }

  lemma PartBag(a: seq<File>, b: seq<File>, sep: string, text: bool)
    requires multiset(a) == multiset(b) && Keyed(a, sep) && Keyed(b, sep)
    ensures Part(a, sep, text) == Part(b, sep, text)
  {
    var p, q := Part(a, sep, text), Part(b, sep, text);
    forall k ensures (k in p <==> k in q) && (k in p ==> p[k] == q[k]) {
      PartExactly(a, sep, text, k);
      PartExactly(b, sep, text, k);
      assert forall f :: f in a <==> f in multiset(a);
      assert forall f :: f in b <==> f in multiset(b);
      if k in p { assert HoldsAt(a, sep, text, k, p[k]); assert HoldsAt(b, sep, text, k, p[k]); }
      if k in q { assert HoldsAt(b, sep, text, k, q[k]); assert HoldsAt(a, sep, text, k, q[k]); }
    }
  }

  lemma SuccessIgnoresOrder(a: seq<Node>, b: seq<Node>, o: Options)
    requires multiset(a) == multiset(b) && RenderOf(a, o).Rendered?
    ensures RenderOf(b, o) == RenderOf(a, o)
  {
    var sep := Separator(o);
    CollectExactly(a, sep);
    CollectExactly(b, sep);
    FilesBag(a, b);
    assert forall n :: n in b ==> n in multiset(a);
    KeyedBag(FilesOf(a), FilesOf(b), sep);
    SumBag(FilesOf(a), FilesOf(b), ByLength());
    SumBag(FilesOf(a), FilesOf(b), ByCost(sep));
    PartBag(FilesOf(a), FilesOf(b), sep, true);
    PartBag(FilesOf(a), FilesOf(b), sep, false);
    hide Keyed, FilesOf, Part, Sum, FirstFault;
  }

  /** In whatever order the tree is walked, rendering succeeds or not alike, and with the
      same result. */
  lemma RenderIgnoresOrder(a: seq<Node>, b: seq<Node>, o: Options)
    requires multiset(a) == multiset(b)
    ensures RenderOf(a, o).Rendered? <==> RenderOf(b, o).Rendered?
    ensures RenderOf(a, o).Rendered? ==> RenderOf(a, o) == RenderOf(b, o)
  {
    hide RenderOf;
    if RenderOf(a, o).Rendered? { SuccessIgnoresOrder(a, b, o); }
    if RenderOf(b, o).Rendered? { SuccessIgnoresOrder(b, a, o); }
  }

  // -------------------------------------------------------------- default separator

  function Joined(parts: seq<string>, sep: string): string {
    if parts == [] then "" else if |parts| == 1 then parts[0] else parts[0] + sep + Joined(parts[1..], sep)
  }

  lemma KeyBegins(path: string, sep: string)
    requires path != ""
    ensures Key(path, sep) == (if path[0] == '/' then sep else [path[0]]) + Key(path[1..], sep)
  {
  }

  lemma Regroups(c: string, k: string, l: string)
    ensures c + (k + l) == (c + k) + l
  {
  }

  lemma {:induction false} KeyAppends(a: string, b: string, sep: string)
    ensures Key(a + b, sep) == Key(a, sep) + Key(b, sep)
  {
    if a == "" {
      assert a + b == b && Key(a, sep) == "";
    } else {
      hide Key;
      var t := a[1..];
      KeyAppends(t, b, sep);
      KeyBegins(a, sep);
      KeyBegins(a + b, sep);
      assert (a + b)[1..] == t + b;
      var c := if a[0] == '/' then sep else [a[0]];
      assert Key(a + b, sep) == c + (Key(t, sep) + Key(b, sep));
      Regroups(c, Key(t, sep), Key(b, sep));
    }
  }

  lemma {:induction false} PlainKey(a: string, sep: string)
    requires '/' !in a
    ensures Key(a, sep) == a
  {
    if a != "" { PlainKey(a[1..], sep); }
  }

  /** The key of a path is its components joined by the separator. */
  lemma {:induction false} KeyIsJoined(parts: seq<string>, sep: string)
    requires forall p :: p in parts ==> '/' !in p
    ensures Key(Joined(parts, "/"), sep) == Joined(parts, sep)
  {
    if |parts| == 1 {
      PlainKey(parts[0], sep);
    } else if |parts| > 1 {
      KeyIsJoined(parts[1..], sep);
      PlainKey(parts[0], sep);
      KeyAppends(parts[0] + "/", Joined(parts[1..], "/"), sep);
      KeyAppends(parts[0], "/", sep);
      assert Key("/", sep) == sep + Key("", sep) == sep;
    }
  }

  /** A component the default separator cannot be confused with. */
  ghost predicate Clear(p: string) {
    p != "" && p[|p| - 1] != '_' && forall i :: 0 <= i < |p| - 1 ==> !(p[i] == '_' && p[i + 1] == '_')
  }

  lemma NoEarlierSeparator(a: string, x: string)
    requires Clear(a)
    ensures var l := a + DEFAULT_SEPARATOR + x;
            forall i {:trigger l[i]} :: 0 <= i < |a| ==> !(l[i] == '_' && l[i + 1] == '_')
  {
    var l := a + DEFAULT_SEPARATOR + x;
    assert forall i :: 0 <= i < |a| ==> l[i] == a[i];
  }

  /** `a` is the part of the key before the first separator. */
  lemma FirstComponent(a: string, b: string, x: string, y: string)
    requires Clear(a) && Clear(b) && a + DEFAULT_SEPARATOR + x == b + DEFAULT_SEPARATOR + y
    ensures a == b && x == y
  {
    var l, r := a + DEFAULT_SEPARATOR + x, b + DEFAULT_SEPARATOR + y;
    NoEarlierSeparator(a, x);
    NoEarlierSeparator(b, y);
    assert l[|a|] == l[|a| + 1] == '_' && r[|b|] == r[|b| + 1] == '_';
    assert |a| == |b|;
    assert a == l[..|a|] && b == r[..|b|];
    assert x == l[|a| + 2..] && y == r[|b| + 2..];
  }

  lemma NotJoined(a: string, b: string, y: string)
    requires Clear(a)
    ensures a != b + DEFAULT_SEPARATOR + y
  {
    var r := b + DEFAULT_SEPARATOR + y;
    assert r[|b|] == r[|b| + 1] == '_' && |r| >= |b| + 2;
  }

  lemma {:induction false} JoinedInjective(p: seq<string>, q: seq<string>)
    requires p != [] && q != [] && (forall x :: x in p ==> Clear(x)) && (forall x :: x in q ==> Clear(x))
    requires Joined(p, DEFAULT_SEPARATOR) == Joined(q, DEFAULT_SEPARATOR)
    ensures p == q
  {
    if |p| > 1 && |q| > 1 {
      FirstComponent(p[0], q[0], Joined(p[1..], DEFAULT_SEPARATOR), Joined(q[1..], DEFAULT_SEPARATOR));
      JoinedInjective(p[1..], q[1..]);
      assert p == [p[0]] + p[1..] && q == [q[0]] + q[1..];
    } else if |p| > 1 {
      NotJoined(q[0], p[0], Joined(p[1..], DEFAULT_SEPARATOR));
    } else if |q| > 1 {
      NotJoined(p[0], q[0], Joined(q[1..], DEFAULT_SEPARATOR));
    }
  }

  /** Under the default separator two different paths never conflict if no component
      contains "__" or ends with "_"; a leading "_" alone is harmless. */
  lemma {:induction false} DefaultSeparatorSeparates(p: seq<string>, q: seq<string>)
    requires p != [] && q != [] && p != q
    requires forall x :: x in p + q ==> Clear(x) && '/' !in x
    ensures Key(Joined(p, "/"), DEFAULT_SEPARATOR) != Key(Joined(q, "/"), DEFAULT_SEPARATOR)
  {
    assert forall x :: x in p ==> x in p + q;
    assert forall x :: x in q ==> x in p + q;
    KeyIsJoined(p, DEFAULT_SEPARATOR);
    KeyIsJoined(q, DEFAULT_SEPARATOR);
    if Joined(p, DEFAULT_SEPARATOR) == Joined(q, DEFAULT_SEPARATOR) { JoinedInjective(p, q); }
  }

  lemma TwoParts(a: string, b: string)
    requires '/' !in a && '/' !in b
    ensures Key(a + "/" + b, DEFAULT_SEPARATOR) == a + "__" + b
  {
    assert Key("/", DEFAULT_SEPARATOR) == DEFAULT_SEPARATOR + Key("", DEFAULT_SEPARATOR);
    hide Key;
    KeyAppends(a + "/", b, DEFAULT_SEPARATOR);
    KeyAppends(a, "/", DEFAULT_SEPARATOR);
    PlainKey(a, DEFAULT_SEPARATOR);
    PlainKey(b, DEFAULT_SEPARATOR);
  }

  /** Each exclusion is needed. */
  lemma ConfusablePaths()
    ensures Key("a_" + "/" + "b", DEFAULT_SEPARATOR) == Key("a" + "/" + "_b", DEFAULT_SEPARATOR)
    ensures Key("a__b", DEFAULT_SEPARATOR) == Key("a" + "/" + "b", DEFAULT_SEPARATOR)
  {
    TwoParts("a_", "b");
    TwoParts("a", "_b");
    TwoParts("a", "b");
    PlainKey("a__b", DEFAULT_SEPARATOR);
    hide Key;
  }

  // --------------------------------------------------------------------------- size

  /** Base64 never shrinks and keys are not empty. */
  lemma {:induction false} TotalExceedsRaw(files: seq<File>, sep: string)
    requires forall f :: f in files ==> Key(f.path, sep) != ""
    ensures Total(files, sep) >= Raw(files) + |files|
  {
    if files != [] { TotalExceedsRaw(files[..|files| - 1], sep); }
  }

  /** The exact check would have accepted a tree the early one rejects. */
  ghost predicate Spurious(nodes: seq<Node>, o: Options) {
    && LinksStay(nodes) && Keyed(FilesOf(nodes), Separator(o))
    && RenderOf(nodes, o) == Failed(Oversize) && Total(FilesOf(nodes), Separator(o)) <= EffectiveLimit(o)
  }

  lemma SpuriousNeedsRoom(nodes: seq<Node>, o: Options)
    requires Spurious(nodes, o)
    ensures EffectiveLimit(o) >= HARD_LIMIT + 2
  {
    CollectExactly(nodes, Separator(o));
    TotalExceedsRaw(FilesOf(nodes), Separator(o));
    assert FilesOf(nodes) != [];
  }

  lemma SumOne(f: File, weight: File -> nat)
    ensures Sum([f], weight) == weight(f)
  {
    assert [f][..0] == [];
  }

  /** A tree of one plain text file is collected. */
  lemma OneFile(f: File, sep: string)
    requires f.path == "a" && f.text && !f.manifest
    ensures var nodes := [Regular(f)]; FilesOf(nodes) == [f] && FirstFault(nodes, sep).None?
  {
    var nodes := [Regular(f)];
    PlainKey("a", sep);
    assert Base("a") == "a";
    assert nodes[..0] == [] && FilesOf([]) == [];
    assert FirstFault(nodes, sep) == Fault(nodes[0], [], sep);
  }

  lemma OneFileSize(f: File, sep: string)
    requires f.path == "a" && f.text
    ensures Raw([f]) == |f.content| && Total([f], sep) == |f.content| + 1
  {
    PlainKey("a", sep);
    SumOne(f, ByLength());
    SumOne(f, ByCost(sep));
  }

  lemma OneBigFile(f: File, o: Options)
    requires f.path == "a" && f.text && !f.manifest && |f.content| == HARD_LIMIT + 1
    requires EffectiveLimit(o) >= HARD_LIMIT + 2
    ensures Spurious([Regular(f)], o)
  {
    OneFile(f, Separator(o));
    OneFileSize(f, Separator(o));
    CollectExactly([Regular(f)], Separator(o));
    hide FilesOf, FirstFault, Raw, Total, LinksStay, Keyed, EffectiveLimit, Separator, Part;
  }

  /** The early raw-size rejection can turn away an acceptable tree exactly when the
      configured limit leaves at least two bytes above the hard one. */
  lemma EarlyRejectionExactly(o: Options)
    ensures (exists nodes :: Spurious(nodes, o)) <==> EffectiveLimit(o) >= HARD_LIMIT + 2
  {
    if nodes :| Spurious(nodes, o) { SpuriousNeedsRoom(nodes, o); }
    if EffectiveLimit(o) >= HARD_LIMIT + 2 {
      OneBigFile(File("a", seq(HARD_LIMIT + 1, i => 0), true, false), o);
      hide Spurious, EffectiveLimit;
    }
  }

  /** So never under a maximum of at most 1 MiB and a margin that is not negative. */
  lemma UsualOptionsNeverSpurious(o: Options, nodes: seq<Node>)
    requires o.maxTotalBytes <= HARD_LIMIT && o.safetyMarginBytes >= 0
    ensures !Spurious(nodes, o)
  {
    if Spurious(nodes, o) { SpuriousNeedsRoom(nodes, o); }
  }
}

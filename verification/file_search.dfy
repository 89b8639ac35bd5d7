/** How the setup scripts look for an editor's settings file: index the
    `*.json` files of editor-looking directories whose names mention a
    client, score them by keywords in the name and the content, and offer at
    most five, preferring files whose content looks like an MCP setting.
    The directory walk and the file reads are inputs: a walk is the list of
    directories visited with their file names, and a read is the file's
    content, or nothing when opening or decoding it raised. */
module FileSearch {
  import opened Wrappers
  import opened PyStr
  import opened Glob
  import opened Sorting

  const DirMarkers: seq<string> := ["code", "vscode", "claude", "copilot", "gemini"]
  const ClientKeywords: seq<string> := ["cline", "copilot", "gemini", "mcp", "settings"]
  const ContentKeywords: seq<string> := ["mcp", "filesystem", "server", "token", "endpoint"]
  const QuickCheck: seq<string> := ["filesystem", "mcp", "servers", "token", "path", "cwd"]

  /** How many of the keywords occur in `s`:
      `sum(1 for kw in keywords if kw in s)`. */
  function Hits(s: string, keywords: seq<string>): (r: nat)
    ensures r <= |keywords|
    ensures r > 0 <==> exists i :: 0 <= i < |keywords| && Contains(s, keywords[i])
    decreases |keywords|
  {
    if keywords == [] then 0
    else
      var rest := Hits(s, keywords[1..]);
      assert forall i :: 1 <= i < |keywords| ==> keywords[i] == keywords[1..][i - 1];
      (if Contains(s, keywords[0]) then 1 else 0) + rest
  }

  /** A settings file found by the walk: `Path(root) / name`. */
  datatype JsonPath = JsonPath(root: string, name: string)

  /** A directory visited by `os.walk`, with the names of its files. */
  datatype WalkedDir = WalkedDir(root: string, files: seq<string>)

  /** The test `index_json_files` applies to a file of a visited directory. */
  predicate Indexed(root: string, name: string, keywords: seq<string>) {
    Hits(Lower(root), DirMarkers) > 0 && Match(name, "*.json") && Hits(Lower(name), keywords) > 0
  }

  function IndexDir(d: WalkedDir, files: seq<string>, keywords: seq<string>): (r: seq<JsonPath>)
    ensures forall p :: p in r <==> p.root == d.root && p.name in files && Indexed(d.root, p.name, keywords)
    decreases |files|
  {
    if files == [] then []
    else
      assert forall x :: x in files <==> x == files[0] || x in files[1..];
      (if Indexed(d.root, files[0], keywords) then [JsonPath(d.root, files[0])] else [])
        + IndexDir(d, files[1..], keywords)
  }

  /** `index_json_files`: the JSON files of directories whose lower-cased path
      holds a marker and whose lower-cased name holds a keyword, in walk
      order. */
  function IndexJsonFiles(walk: seq<WalkedDir>, keywords: seq<string>): (r: seq<JsonPath>)
    ensures forall p :: p in r ==> Indexed(p.root, p.name, keywords)
    decreases |walk|
  {
    if walk == [] then []
    else IndexDir(walk[0], walk[0].files, keywords) + IndexJsonFiles(walk[1..], keywords)
  }

  /** Some visited directory is `p`'s root and lists `p`'s name. */
  ghost predicate Walked(walk: seq<WalkedDir>, p: JsonPath) {
    exists i :: 0 <= i < |walk| && walk[i].root == p.root && p.name in walk[i].files
  }

  /** A path is indexed exactly when the walk lists it and it passes the
      test. */
  lemma {:induction false} IndexJsonFilesMembers(walk: seq<WalkedDir>, keywords: seq<string>, p: JsonPath)
    ensures p in IndexJsonFiles(walk, keywords) <==> Walked(walk, p) && Indexed(p.root, p.name, keywords)
    decreases |walk|
  {
    if walk != [] {
      IndexJsonFilesMembers(walk[1..], keywords, p);
      if Walked(walk[1..], p) {
        var i :| 0 <= i < |walk[1..]| && walk[1..][i].root == p.root && p.name in walk[1..][i].files;
        assert walk[i + 1] == walk[1..][i];
      }
      if Walked(walk, p) && !(walk[0].root == p.root && p.name in walk[0].files) {
        var i :| 0 <= i < |walk| && walk[i].root == p.root && p.name in walk[i].files;
        assert walk[1..][i - 1] == walk[i];
      }
      if walk[0].root == p.root && p.name in walk[0].files {
        assert Walked(walk, p);
      }
    }
  }

  /** The file-name test is a suffix test: `*.json` selects the names ending
      in `.json`. */
  lemma IndexedIsJsonSuffix(root: string, name: string, keywords: seq<string>)
    ensures Indexed(root, name, keywords) <==>
      Hits(Lower(root), DirMarkers) > 0 && EndsWith(name, ".json") && Hits(Lower(name), keywords) > 0
  {
    assert "*.json" == ['*'] + ".json";
    StarSuffix(name, ".json");
  }

  /** A file with the content read from it, when reading succeeded. */
  datatype ReadFile = ReadFile(path: JsonPath, content: Option<string>)

  /** `(total_score, file_path, quick_check)` */
  datatype Candidate = Candidate(score: int, path: JsonPath, quick: bool)

  /** The candidate a readable file makes: keyword hits in its lower-cased
      name plus keyword hits in its lower-cased content, and whether that
      content holds any of the quick-check words. */
  function CandidateOf(path: JsonPath, content: string): (c: Candidate)
    ensures c.path == path && c.score >= 0
    ensures c.score > 0 <==> Hits(Lower(path.name), ClientKeywords) > 0 || Hits(Lower(content), ContentKeywords) > 0
    ensures c.quick <==> exists i :: 0 <= i < |QuickCheck| && Contains(Lower(content), QuickCheck[i])
  {
    var text := Lower(content);
    Candidate(Hits(Lower(path.name), ClientKeywords) + Hits(text, ContentKeywords), path, Hits(text, QuickCheck) > 0)
  }

  /** The candidate a file makes, if it was read and scores above zero. */
  function Scored(f: ReadFile): (r: seq<Candidate>)
    ensures |r| <= 1
  {
    if f.content.Some? && CandidateOf(f.path, f.content.value).score > 0
    then [CandidateOf(f.path, f.content.value)] else []
  }

  /** `score_candidate_files`: the files read successfully and scoring above
      zero, in their order. */
  function ScoreCandidates(files: seq<ReadFile>): (r: seq<Candidate>)
    ensures |r| <= |files|
    decreases |files|
  {
    if files == [] then [] else Scored(files[0]) + ScoreCandidates(files[1..])
  }

  /** A candidate is kept exactly when it is what a readable file scored,
      above zero. */
  lemma {:induction false} ScoreCandidatesMembers(files: seq<ReadFile>, c: Candidate)
    ensures c in ScoreCandidates(files) <==>
      c.score > 0 && exists f :: f in files && f.content.Some? && c == CandidateOf(f.path, f.content.value)
    decreases |files|
  {
    if files != [] {
      ScoreCandidatesMembers(files[1..], c);
      assert forall f :: f in files <==> f == files[0] || f in files[1..];
    }
  }

  /** The characters of a string as integers shifted past the two
      terminators below, so that a shorter string sorts first. */
  function CharCodes(s: string): (r: seq<int>)
    ensures |r| == |s|
    ensures forall i :: 0 <= i < |s| ==> r[i] == s[i] as int + 2
  {
    seq(|s|, i requires 0 <= i < |s| => s[i] as int + 2)
  }

  /** The parts of a path, each closed by 1, and the list closed by 0:
      comparing codes lexicographically compares the part lists as Python
      compares lists of strings. */
  function PartsCode(parts: seq<string>): seq<int>
    decreases |parts|
  {
    if parts == [] then [0] else CharCodes(parts[0]) + [1] + PartsCode(parts[1..])
  }

  /** The path as `pathlib` compares it: its string split at the slashes. */
  function PathParts(p: JsonPath): seq<string> {
    Split(p.root + "/" + p.name, '/')
  }

  /** The candidate tuple as one integer sequence whose lexicographic order
      is Python's tuple order: score, then path, then `False < True`. */
  function TupleKey(c: Candidate): (k: seq<int>)
    ensures |k| >= 3 && k[0] == c.score && k[|k| - 1] == (if c.quick then 1 else 0)
  {
    [c.score] + PartsCode(PathParts(c.path)) + [if c.quick then 1 else 0]
  }

  /** A code sequence opening with the codes of a non-empty string starts
      with its first character's code, then the codes of the rest. */
  lemma CharCodesCons(x: string, r: seq<int>)
    requires x != []
    ensures CharCodes(x) + [1] + r == [x[0] as int + 2] + (CharCodes(x[1..]) + [1] + r)
  {
  }

  /** Closed by 1 and followed by anything, the codes of two strings compare
      as Python compares the strings, and equal strings defer to what
      follows. */
  lemma {:induction false} CodesOrder(x: string, y: string, r1: seq<int>, r2: seq<int>)
    ensures LexLeq(CharCodes(x) + [1] + r1, CharCodes(y) + [1] + r2) <==>
      StrLt(x, y) || (x == y && LexLeq(r1, r2))
    decreases |x|
  {
    if x == [] && y == [] {
      LexCons(1, r1, 1, r2);
    } else if x == [] {
      CharCodesCons(y, r2);
      LexCons(1, r1, y[0] as int + 2, CharCodes(y[1..]) + [1] + r2);
    } else if y == [] {
      CharCodesCons(x, r1);
      LexCons(x[0] as int + 2, CharCodes(x[1..]) + [1] + r1, 1, r2);
    } else {
      CharCodesCons(x, r1);
      CharCodesCons(y, r2);
      LexCons(x[0] as int + 2, CharCodes(x[1..]) + [1] + r1, y[0] as int + 2, CharCodes(y[1..]) + [1] + r2);
      CodesOrder(x[1..], y[1..], r1, r2);
      assert x == y <==> x[0] == y[0] && x[1..] == y[1..] by {
        assert x == [x[0]] + x[1..];
        assert y == [y[0]] + y[1..];
      }
    }
  }

  /** Followed by anything, the codes of two part lists compare as Python
      compares the lists, and equal lists defer to what follows. */
  lemma {:induction false} PartsCodeTail(a: seq<string>, b: seq<string>, r1: seq<int>, r2: seq<int>)
    ensures LexLeq(PartsCode(a) + r1, PartsCode(b) + r2) <==>
      PartsLt(a, b) || (a == b && LexLeq(r1, r2))
    decreases |a|
  {
    if a == [] && b == [] {
      LexCons(0, r1, 0, r2);
    } else if a == [] {
      var u := CharCodes(b[0]) + [1] + PartsCode(b[1..]);
      assert PartsCode(b) + r2 == [u[0]] + (u[1..] + r2);
      LexCons(0, r1, u[0], u[1..] + r2);
    } else if b == [] {
      var u := CharCodes(a[0]) + [1] + PartsCode(a[1..]);
      assert PartsCode(a) + r1 == [u[0]] + (u[1..] + r1);
      LexCons(u[0], u[1..] + r1, 0, r2);
    } else {
      var t1 := PartsCode(a[1..]) + r1;
      var t2 := PartsCode(b[1..]) + r2;
      assert PartsCode(a) + r1 == CharCodes(a[0]) + [1] + t1;
      assert PartsCode(b) + r2 == CharCodes(b[0]) + [1] + t2;
      CodesOrder(a[0], b[0], t1, t2);
      PartsCodeTail(a[1..], b[1..], r1, r2);
      assert a == b <==> a[0] == b[0] && a[1..] == b[1..] by {
        assert a == [a[0]] + a[1..];
        assert b == [b[0]] + b[1..];
      }
    }
  }

  /** The part-list codes compare exactly as Python compares the lists. */
  lemma PartsCodeOrder(a: seq<string>, b: seq<string>)
    ensures LexLeq(PartsCode(a), PartsCode(b)) <==> PartsLeq(a, b)
  {
    PartsCodeTail(a, b, [], []);
    assert PartsCode(a) + [] == PartsCode(a);
    assert PartsCode(b) + [] == PartsCode(b);
  }

  /** Tuple keys compare as Python compares the candidate tuples
      `(score, path, quick)`: by score, then by path, then `False < True`. */
  lemma TupleKeyOrder(c: Candidate, d: Candidate)
    ensures LexLeq(TupleKey(c), TupleKey(d)) <==>
      c.score < d.score || (c.score == d.score &&
        (PartsLt(PathParts(c.path), PathParts(d.path)) ||
         (PathParts(c.path) == PathParts(d.path) && (!c.quick || d.quick))))
  {
    var qc: seq<int> := [if c.quick then 1 else 0];
    var qd: seq<int> := [if d.quick then 1 else 0];
    assert TupleKey(c) == [c.score] + (PartsCode(PathParts(c.path)) + qc);
    assert TupleKey(d) == [d.score] + (PartsCode(PathParts(d.path)) + qd);
    LexCons(c.score, PartsCode(PathParts(c.path)) + qc, d.score, PartsCode(PathParts(d.path)) + qd);
    PartsCodeTail(PathParts(c.path), PathParts(d.path), qc, qd);
    LexCons(qc[0], [], qd[0], []);
    assert qc == [qc[0]] + [] && qd == [qd[0]] + [];
  }

  function KeyedByTuple(cs: seq<Candidate>): (r: seq<Keyed<Candidate>>)
    ensures |r| == |cs|
    ensures forall i :: 0 <= i < |cs| ==> r[i] == Keyed(TupleKey(cs[i]), cs[i])
  {
    seq(|cs|, i requires 0 <= i < |cs| => Keyed(TupleKey(cs[i]), cs[i]))
  }

  /** Every key of a keyed list is its item's tuple key. */
  predicate KeysAreTupleKeys(ks: seq<Keyed<Candidate>>) {
    forall y :: y in ks ==> y.key == TupleKey(y.item)
  }

  /** `candidate_files.sort(reverse=True)`: the candidates by descending
      tuple. */
  function SortDescending(cs: seq<Candidate>): (r: seq<Candidate>)
    ensures |r| == |cs|
  {
    Items(SortByKeyDescending(KeyedByTuple(cs)))
  }

  /** The sort keeps exactly the candidates it was given. */
  lemma SortDescendingPermutes(cs: seq<Candidate>)
    ensures multiset(SortDescending(cs)) == multiset(cs)
    ensures forall c :: c in SortDescending(cs) <==> c in cs
  {
    SortByKeyDescendingItems(KeyedByTuple(cs));
    KeyedItems(cs);
    assert forall c :: c in SortDescending(cs) <==> c in multiset(SortDescending(cs));
  }

  /** The sort leaves the candidates in descending tuple order. */
  lemma SortDescendingOrdered(cs: seq<Candidate>)
    ensures var r := SortDescending(cs);
      forall i, j :: 0 <= i < j < |r| ==> LexLeq(TupleKey(r[j]), TupleKey(r[i]))
  {
    var ks := SortByKeyDescending(KeyedByTuple(cs));
    SortByKeyDescendingSorted(KeyedByTuple(cs));
    SortByKeyDescendingItems(KeyedByTuple(cs));
    assert KeysAreTupleKeys(ks);
  }

  lemma KeyedItems(cs: seq<Candidate>)
    ensures Items(KeyedByTuple(cs)) == cs
  {
  }

  function Paths(cs: seq<Candidate>): (r: seq<JsonPath>)
    ensures |r| == |cs|
    ensures forall i :: 0 <= i < |cs| ==> r[i] == cs[i].path
  {
    seq(|cs|, i requires 0 <= i < |cs| => cs[i].path)
  }

  /** `[f for s, f, q in candidates if q]` */
  function QuickPaths(cs: seq<Candidate>): (r: seq<JsonPath>)
    ensures |r| <= |cs|
    ensures forall p :: p in r <==> exists c :: c in cs && c.quick && c.path == p
    ensures r == [] <==> forall c :: c in cs ==> !c.quick
    decreases |cs|
  {
    if cs == [] then []
    else
      assert forall c :: c in cs <==> c == cs[0] || c in cs[1..];
      (if cs[0].quick then [cs[0].path] else []) + QuickPaths(cs[1..])
  }

  /** The quick paths keep the candidates' order: those of two runs are
      those of each, one after the other. */
  lemma {:induction false} QuickPathsAppend(a: seq<Candidate>, b: seq<Candidate>)
    ensures QuickPaths(a + b) == QuickPaths(a) + QuickPaths(b)
    decreases |a|
  {
    if a == [] {
      assert a + b == b;
    } else {
      assert (a + b)[0] == a[0];
      assert (a + b)[1..] == a[1..] + b;
      QuickPathsAppend(a[1..], b);
    }
  }

  /** One candidate gives its path exactly when it is quick. */
  lemma QuickPathsOne(c: Candidate)
    ensures QuickPaths([c]) == (if c.quick then [c.path] else [])
  {
    assert [c][1..] == [];
  }

  function Min(a: int, b: int): int {
    if a <= b then a else b
  }

  /** `select_best_files`: the first five quick-check paths of the sorted
      candidates when there are any, and otherwise the first five paths. */
  function SelectBestFiles(cs: seq<Candidate>): (r: seq<JsonPath>)
    ensures |r| <= 5
    ensures cs == [] ==> r == []
  {
    var sorted := SortDescending(cs);
    var quick := QuickPaths(sorted);
    if quick != [] then quick[..Min(5, |quick|)]
    else if sorted != [] then Paths(sorted[..Min(5, |sorted|)])
    else []
  }

  /** When some candidate passed the quick check, only such candidates'
      paths are offered, and at least one is: the first five quick paths of
      the candidates sorted in descending order, in that order. */
  lemma SelectPrefersQuick(cs: seq<Candidate>)
    requires exists c :: c in cs && c.quick
    ensures var r := SelectBestFiles(cs);
      && r != []
      && forall p :: p in r ==> exists c :: c in cs && c.quick && c.path == p
    ensures var quick := QuickPaths(SortDescending(cs));
      SelectBestFiles(cs) == quick[..Min(5, |quick|)]
  {
    var sorted := SortDescending(cs);
    SortDescendingPermutes(cs);
    var quick := QuickPaths(sorted);
    assert quick != [];
    var r := SelectBestFiles(cs);
    assert r == quick[..Min(5, |quick|)];
    forall p | p in r
      ensures exists c :: c in cs && c.quick && c.path == p
    {
      assert p in quick;
    }
  }

  /** When no candidate passed the quick check, the paths offered are those
      of the five greatest candidates, in descending order. */
  lemma SelectTopFive(cs: seq<Candidate>)
    requires forall c :: c in cs ==> !c.quick
    ensures var r := SelectBestFiles(cs);
      && |r| == Min(5, |cs|)
      && forall i :: 0 <= i < |r| ==> r[i] == SortDescending(cs)[i].path
  {
    var sorted := SortDescending(cs);
    SortDescendingPermutes(cs);
  }
}

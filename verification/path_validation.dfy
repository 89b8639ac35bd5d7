/** The path sandbox: `os.path.abspath` as a pure normalisation, the
    allow-list containment test of `validate_path`, and the small string
    helpers that sit beside it. */
module PathValidation {
  import opened Wrappers
  import opened PyStr
  import opened PyWords
  import opened WordFacts
  import Glob

  // ---------------------------------------------------------------------------
  // posixpath.normpath / abspath
  // ---------------------------------------------------------------------------

  /** A path as `posixpath.normpath` leaves it: the number of leading slashes it
      keeps (POSIX keeps exactly two, and folds one or three-or-more into one)
      and the components between the separators. */
  datatype NormPath = NormPath(lead: nat, comps: seq<string>)

  /** One step of normpath's component loop: drop `""` and `.`, pop on `..`
      unless the path is relative and the stack is empty or ends in `..`. */
  function NormStep(acc: seq<string>, comp: string, absolute: bool): seq<string> {
    if comp == "" || comp == "." then acc
    else if comp != ".." || (!absolute && acc == []) || (acc != [] && acc[|acc| - 1] == "..") then acc + [comp]
    else if acc != [] then acc[..|acc| - 1]
    else acc
  }

  function NormFold(comps: seq<string>, absolute: bool, acc: seq<string>): seq<string>
    decreases |comps|
  {
    if comps == [] then acc else NormFold(comps[1..], absolute, NormStep(acc, comps[0], absolute))
  }

  function LeadingSlashes(s: string): nat {
    if StartsWith(s, "//") && !StartsWith(s, "///") then 2
    else if StartsWith(s, "/") then 1
    else 0
  }

  function Norm(s: string): NormPath {
    var lead := LeadingSlashes(s);
    NormPath(lead, NormFold(Split(s, '/'), lead > 0, []))
  }

  function Slashes(n: nat): string {
    if n == 0 then "" else if n == 1 then "/" else "//"
  }

  function Render(n: NormPath): string {
    var p := Slashes(n.lead) + Join(n.comps, "/");
    if p == "" then "." else p
  }

  /** `os.path.normpath(s)` */
  function NormPathStr(s: string): string {
    Render(Norm(s))
  }

  predicate IsAbs(s: string) {
    StartsWith(s, "/")
  }

  /** `os.path.join(a, b)` for two arguments. */
  function JoinPath(a: string, b: string): string {
    if IsAbs(b) then b else if a == "" || EndsWith(a, "/") then a + b else a + "/" + b
  }

  /** The normalised form of `os.path.abspath(path)`; `cwd` is `os.getcwd()`. */
  function AbsNorm(path: string, cwd: string): NormPath {
    Norm(JoinPath(cwd, path))
  }

  /** `os.path.abspath(path)`: symbolic links are NOT resolved. */
  function AbsPath(path: string, cwd: string): (r: string)
    ensures IsAbs(cwd) ==> IsAbs(r) && Norm(r) == AbsNorm(path, cwd)
  {
    AbsNormRender(path, cwd);
    Render(AbsNorm(path, cwd))
  }

  /** A component normpath keeps in an absolute path. */
  predicate Clean(c: string) {
    c != "" && c != "." && c != ".." && '/' !in c
  }

  /** The shape of every normalised absolute path. */
  predicate WfAbs(n: NormPath) {
    (n.lead == 1 || n.lead == 2) && forall i :: 0 <= i < |n.comps| ==> Clean(n.comps[i])
  }

  predicate AllClean(cs: seq<string>) {
    forall i :: 0 <= i < |cs| ==> Clean(cs[i])
  }

  predicate IsPrefix<T(==)>(p: seq<T>, s: seq<T>) {
    |p| <= |s| && s[..|p|] == p
  }

  // ---------------------------------------------------------------------------
  // Facts about normalisation
  // ---------------------------------------------------------------------------

  lemma {:induction false} FoldAbsClean(comps: seq<string>, acc: seq<string>)
    requires AllClean(acc)
    requires forall i :: 0 <= i < |comps| ==> '/' !in comps[i]
    ensures AllClean(NormFold(comps, true, acc))
    decreases |comps|
  {
    if comps != [] {
      var next := NormStep(acc, comps[0], true);
      assert AllClean(next);
      FoldAbsClean(comps[1..], next);
    }
  }

  lemma {:induction false} FoldConcat(xs: seq<string>, ys: seq<string>, absolute: bool, acc: seq<string>)
    ensures NormFold(xs + ys, absolute, acc) == NormFold(ys, absolute, NormFold(xs, absolute, acc))
    decreases |xs|
  {
    if xs != [] {
      assert (xs + ys)[1..] == xs[1..] + ys;
      assert (xs + ys)[0] == xs[0];
      FoldConcat(xs[1..], ys, absolute, NormStep(acc, xs[0], absolute));
    } else {
      assert xs + ys == ys;
    }
  }

  lemma {:induction false} FoldOfClean(xs: seq<string>, absolute: bool, acc: seq<string>)
    requires AllClean(xs)
    ensures NormFold(xs, absolute, acc) == acc + xs
    decreases |xs|
  {
    if xs != [] {
      FoldOfClean(xs[1..], absolute, acc + [xs[0]]);
      assert acc + [xs[0]] + xs[1..] == acc + xs;
    }
  }

  lemma {:induction false} FoldBlanks(xs: seq<string>, absolute: bool, acc: seq<string>)
    requires forall i :: 0 <= i < |xs| ==> xs[i] == ""
    ensures NormFold(xs, absolute, acc) == acc
    decreases |xs|
  {
    if xs != [] {
      FoldBlanks(xs[1..], absolute, acc);
    }
  }

  /** Normalising an absolute path yields a well-formed absolute path. */
  lemma NormAbsWf(s: string)
    requires IsAbs(s)
    ensures WfAbs(Norm(s))
  {
    SplitPartsFree(s, '/');
    FoldAbsClean(Split(s, '/'), []);
  }

  lemma {:induction false} JoinAppend(xs: seq<string>, ys: seq<string>, sep: string)
    requires |xs| >= 1 && |ys| >= 1
    ensures Join(xs + ys, sep) == Join(xs, sep) + sep + Join(ys, sep)
    decreases |xs|
  {
    if |xs| == 1 {
      JoinCons(xs[0], ys, sep);
      assert xs + ys == [xs[0]] + ys;
    } else {
      JoinAppend(xs[1..], ys, sep);
      assert xs + ys == [xs[0]] + (xs[1..] + ys);
      JoinCons(xs[0], xs[1..] + ys, sep);
      JoinCons(xs[0], xs[1..], sep);
      assert xs == [xs[0]] + xs[1..];
    }
  }

  lemma JoinHead(cs: seq<string>, sep: string)
    requires |cs| >= 1 && |cs[0]| >= 1
    ensures |Join(cs, sep)| >= 1 && Join(cs, sep)[0] == cs[0][0]
  {
  }

  function Blanks(n: nat): seq<string> {
    if n == 1 then [""] else ["", ""]
  }

  /** How a well-formed absolute path splits on the separator. */
  lemma SplitRender(n: NormPath)
    requires WfAbs(n)
    ensures Split(Render(n), '/') == Blanks(n.lead) + (if n.comps == [] then [""] else n.comps)
  {
    var j := Join(n.comps, "/");
    if n.comps == [] {
      assert Split(j, '/') == [""];
    } else {
      SplitJoin(n.comps, '/');
    }
    assert Split(j, '/') == (if n.comps == [] then [""] else n.comps);
    if n.lead == 1 {
      assert Render(n) == "" + ['/'] + j;
      SplitConcatSep("", j, '/');
    } else {
      assert Render(n) == "" + ['/'] + ("" + ['/'] + j);
      SplitConcatSep("", "" + ['/'] + j, '/');
      SplitConcatSep("", j, '/');
    }
  }

  lemma RenderShape(n: NormPath)
    requires WfAbs(n)
    ensures Render(n) == Slashes(n.lead) + Join(n.comps, "/")
    ensures n.comps == [] ==> Join(n.comps, "/") == ""
    ensures n.comps != [] ==> |Join(n.comps, "/")| >= 1 && Join(n.comps, "/")[0] != '/'
  {
    if n.comps != [] {
      assert Clean(n.comps[0]);
      JoinHead(n.comps, "/");
      assert n.comps[0][0] in n.comps[0];
    }
  }

  lemma LeadRender(n: NormPath)
    requires WfAbs(n)
    ensures LeadingSlashes(Render(n)) == n.lead
  {
    RenderShape(n);
    var r := Render(n);
    var j := Join(n.comps, "/");
    if n.lead == 1 {
      assert r == "/" + j;
      if |r| >= 2 {
        assert r[1] == j[0];
      }
    } else {
      assert r == "//" + j;
      assert r[..2] == "//";
      if |r| >= 3 {
        assert r[2] == j[0];
      }
    }
  }

  /** Normalising an already normalised absolute path changes nothing. */
  lemma NormRender(n: NormPath)
    requires WfAbs(n)
    ensures Norm(Render(n)) == n
  {
    LeadRender(n);
    SplitRender(n);
    var parts := Split(Render(n), '/');
    var tail := if n.comps == [] then [""] else n.comps;
    FoldConcat(Blanks(n.lead), tail, true, []);
    FoldBlanks(Blanks(n.lead), true, []);
    if n.comps == [] {
      FoldBlanks(tail, true, []);
    } else {
      FoldOfClean(tail, true, []);
    }
  }

  /** With an absolute working directory, the normal form of abspath is well
      formed, and rendering it gives an absolute path that normalises back to
      it. */
  lemma AbsNormRender(path: string, cwd: string)
    ensures IsAbs(cwd) ==> WfAbs(AbsNorm(path, cwd))
    ensures IsAbs(cwd) ==> Norm(Render(AbsNorm(path, cwd))) == AbsNorm(path, cwd)
    ensures IsAbs(cwd) ==> IsAbs(Render(AbsNorm(path, cwd)))
  {
    if IsAbs(cwd) {
      var j := JoinPath(cwd, path);
      assert IsAbs(j) by {
        if !IsAbs(path) {
          assert j[0] == cwd[0];
        }
      }
      NormAbsWf(j);
      NormRender(AbsNorm(path, cwd));
      RenderShape(AbsNorm(path, cwd));
    }
  }

  /** With an absolute working directory, abspath is absolute and well formed. */
  lemma AbsNormWf(path: string, cwd: string)
    requires IsAbs(cwd)
    ensures WfAbs(AbsNorm(path, cwd))
    ensures Norm(AbsPath(path, cwd)) == AbsNorm(path, cwd)
    ensures IsAbs(AbsPath(path, cwd))
  {
    AbsNormRender(path, cwd);
  }

  /** `abspath` is idempotent. */
  lemma AbsPathIdempotent(path: string, cwd: string)
    requires IsAbs(cwd)
    ensures AbsPath(AbsPath(path, cwd), cwd) == AbsPath(path, cwd)
  {
    AbsNormWf(path, cwd);
  }

  // ---------------------------------------------------------------------------
  // validate_path
  // ---------------------------------------------------------------------------

  /** The string test of `validate_path`: equal to the root, or starting with
      the root followed by the separator. */
  predicate RootMatches(absPath: string, allowedAbs: string) {
    StartsWith(absPath, allowedAbs + "/") || absPath == allowedAbs
  }

  /** `a` is the root itself or lies in its subtree, stated on components. The
      second disjunct is the `/` root: its test prefix is `//`, so besides `/`
      it admits only the paths POSIX spells with exactly two leading slashes. */
  predicate Inside(a: NormPath, root: NormPath) {
    || (a.lead == root.lead && IsPrefix(root.comps, a.comps) && (root.comps == [] ==> a.comps == []))
    || (root == NormPath(1, []) && a.lead == 2)
  }

  lemma StartsWithConcat(a: string, b: string, c: string)
    requires StartsWith(a, b + c)
    ensures a == b + c + a[|b| + |c|..]
  {
    assert a == a[..|b| + |c|] + a[|b| + |c|..];
  }

  lemma RenderInjective(a: NormPath, b: NormPath)
    requires WfAbs(a) && WfAbs(b)
    requires Render(a) == Render(b)
    ensures a == b
  {
    NormRender(a);
    NormRender(b);
  }

  /** The roots `/` and `//`: the test prefix is `//` or `///`. */
  lemma MatchesBareRoot(a: NormPath, root: NormPath)
    requires WfAbs(a) && WfAbs(root) && root.comps == []
    ensures StartsWith(Render(a), Render(root) + "/") <==> (root.lead == 1 && a.lead == 2)
  {
    var A := Render(a);
    RenderShape(a);
    RenderShape(root);
    var ja := Join(a.comps, "/");
    if root.lead == 1 {
      assert Render(root) + "/" == "//";
      if a.lead == 1 && |A| >= 2 {
        assert A[1] == ja[0];
      }
      if a.lead == 2 {
        assert A[..2] == "//";
      }
    } else {
      assert Render(root) + "/" == "///";
      if a.lead == 1 && |A| >= 2 {
        assert A[1] == ja[0];
      }
      if a.lead == 2 && |A| >= 3 {
        assert A[2] == ja[0];
      }
    }
  }

  /** A proper descendant renders as the root, a separator and the rest. */
  lemma DescendantStartsWithRoot(a: NormPath, root: NormPath)
    requires WfAbs(a) && WfAbs(root) && root.comps != []
    requires a.lead == root.lead && IsPrefix(root.comps, a.comps) && |a.comps| > |root.comps|
    ensures StartsWith(Render(a), Render(root) + "/")
  {
    RenderShape(a);
    RenderShape(root);
    var rest := a.comps[|root.comps|..];
    assert a.comps == root.comps + rest;
    JoinAppend(root.comps, rest, "/");
    assert Render(a) == Render(root) + "/" + Join(rest, "/");
  }

  lemma BlanksAlign(la: nat, ac: seq<string>, lr: nat, rc: seq<string>, ws: seq<string>)
    requires la == 1 || la == 2
    requires lr == 1 || lr == 2
    requires ac == [""] || (ac != [] && AllClean(ac))
    requires rc != [] && AllClean(rc) && |ws| >= 1
    requires Blanks(la) + ac == Blanks(lr) + rc + ws
    ensures la == lr && ac == rc + ws && ac != [""]
  {
    var lhs := Blanks(la) + ac;
    var rhs := Blanks(lr) + rc + ws;
    assert Clean(rc[0]);
    assert lhs[1] == rhs[1];
    var k := |Blanks(la)|;
    assert ac == lhs[k..];
    assert rc + ws == rhs[k..];
    assert |ac| >= 2;
  }

  /** Conversely, starting with the root and a separator means being a proper
      descendant. */
  lemma StartsWithRootIsDescendant(a: NormPath, root: NormPath)
    requires WfAbs(a) && WfAbs(root) && root.comps != []
    requires StartsWith(Render(a), Render(root) + "/")
    ensures a.lead == root.lead && IsPrefix(root.comps, a.comps) && |a.comps| > |root.comps|
  {
    var A := Render(a);
    var R := Render(root);
    var w := A[|R| + 1..];
    StartsWithConcat(A, R, "/");
    assert A == R + ['/'] + w;
    SplitConcatSep(R, w, '/');
    SplitRender(a);
    SplitRender(root);
    var ac := if a.comps == [] then [""] else a.comps;
    BlanksAlign(a.lead, ac, root.lead, root.comps, Split(w, '/'));
    assert a.comps == root.comps + Split(w, '/');
    assert a.comps[..|root.comps|] == root.comps;
  }

  lemma PrefixLonger<T>(p: seq<T>, s: seq<T>)
    requires IsPrefix(p, s) && p != s
    ensures |s| > |p|
  {
  }

  /** The string test agrees with component containment. */
  lemma MatchesIffInside(a: NormPath, root: NormPath)
    requires WfAbs(a) && WfAbs(root)
    ensures RootMatches(Render(a), Render(root)) <==> Inside(a, root)
  {
    if Render(a) == Render(root) {
      RenderInjective(a, root);
    }
    if root.comps == [] {
      MatchesBareRoot(a, root);
    } else {
      if Inside(a, root) && a != root {
        PrefixLonger(root.comps, a.comps);
        DescendantStartsWithRoot(a, root);
      }
      if StartsWith(Render(a), Render(root) + "/") {
        StartsWithRootIsDescendant(a, root);
      }
    }
  }

  /** Why `validate_path` refuses a path. */
  datatype PathError = EmptyPath | NotAllowed(absPath: string, allowed: seq<string>)

  /** The loop over the allowed directories, stopping at the first match. */
  function AnyRootMatches(absPath: string, roots: seq<string>, cwd: string): (r: bool)
    ensures r <==> exists i :: 0 <= i < |roots| && RootMatches(absPath, AbsPath(roots[i], cwd))
    decreases |roots|
  {
    if roots == [] then false
    else if RootMatches(absPath, AbsPath(roots[0], cwd)) then true
    else
      var rest := AnyRootMatches(absPath, roots[1..], cwd);
      assert forall i :: 1 <= i < |roots| ==> roots[i] == roots[1..][i - 1];
      rest
  }

  /** `validate_path(path, allowed_directories)`: rejects the empty path, then
      accepts exactly the paths whose absolute form lies in the subtree of some
      allowed directory's absolute form, and returns that absolute form. */
  function ValidatePath(path: string, roots: seq<string>, cwd: string): (r: Result<string, PathError>)
    requires IsAbs(cwd)
    ensures path == "" ==> r == Err(EmptyPath)
    ensures r.Ok? <==> path != "" && exists i :: 0 <= i < |roots| && Inside(AbsNorm(path, cwd), AbsNorm(roots[i], cwd))
    ensures r.Ok? ==> r.value == AbsPath(path, cwd) && IsAbs(r.value)
    ensures r.Err? && path != "" ==> r.error == NotAllowed(AbsPath(path, cwd), roots)
  {
    if path == "" then Err(EmptyPath)
    else
      var absPath := AbsPath(path, cwd);
      var found := AnyRootMatches(absPath, roots, cwd);
      AbsNormWf(path, cwd);
      assert found <==> exists i :: 0 <= i < |roots| && Inside(AbsNorm(path, cwd), AbsNorm(roots[i], cwd)) by {
        forall i | 0 <= i < |roots|
          ensures RootMatches(absPath, AbsPath(roots[i], cwd)) <==> Inside(AbsNorm(path, cwd), AbsNorm(roots[i], cwd))
        {
          AbsNormWf(roots[i], cwd);
          MatchesIffInside(AbsNorm(path, cwd), AbsNorm(roots[i], cwd));
        }
      }
      if found then Ok(absPath) else Err(NotAllowed(absPath, roots))
  }

  /** `a` is `root` or a descendant of it; with the `/` root, also the paths
      spelled with two leading slashes, which POSIX may read as the same tree. */
  predicate InSubtree(a: NormPath, root: NormPath) {
    || (a.lead == root.lead && IsPrefix(root.comps, a.comps))
    || (root == NormPath(1, []) && a.lead == 2)
  }

  /** The sandbox theorem: an accepted path is, component by component, an
      allowed directory or one of its descendants. */
  lemma AcceptedIsInsideSomeRoot(path: string, roots: seq<string>, cwd: string)
    requires IsAbs(cwd)
    requires ValidatePath(path, roots, cwd).Ok?
    ensures exists i :: 0 <= i < |roots| && InSubtree(Norm(ValidatePath(path, roots, cwd).value), AbsNorm(roots[i], cwd))
  {
    AbsNormWf(path, cwd);
  }

  /** Validating an accepted result again accepts it unchanged. */
  lemma ValidateIdempotent(path: string, roots: seq<string>, cwd: string)
    requires IsAbs(cwd)
    requires ValidatePath(path, roots, cwd).Ok?
    ensures ValidatePath(ValidatePath(path, roots, cwd).value, roots, cwd) == ValidatePath(path, roots, cwd)
  {
    var v := ValidatePath(path, roots, cwd).value;
    AbsNormWf(path, cwd);
    assert JoinPath(cwd, v) == v;
    assert AbsNorm(v, cwd) == AbsNorm(path, cwd);
  }

  /** Only the set of allowed directories matters, not their order. */
  lemma RootOrderIrrelevant(path: string, roots1: seq<string>, roots2: seq<string>, cwd: string)
    requires IsAbs(cwd)
    requires forall x :: x in roots1 <==> x in roots2
    ensures ValidatePath(path, roots1, cwd).Ok? <==> ValidatePath(path, roots2, cwd).Ok?
    ensures ValidatePath(path, roots1, cwd).Ok? ==> ValidatePath(path, roots1, cwd) == ValidatePath(path, roots2, cwd)
  {
    var a := AbsNorm(path, cwd);
    if ValidatePath(path, roots1, cwd).Ok? {
      var i :| 0 <= i < |roots1| && Inside(a, AbsNorm(roots1[i], cwd));
      assert roots1[i] in roots2;
      var j :| 0 <= j < |roots2| && roots2[j] == roots1[i];
    }
    if ValidatePath(path, roots2, cwd).Ok? {
      var i :| 0 <= i < |roots2| && Inside(a, AbsNorm(roots2[i], cwd));
      assert roots2[i] in roots1;
      var j :| 0 <= j < |roots1| && roots1[j] == roots2[i];
    }
  }

  function DropLast<T>(s: seq<T>): seq<T>
    requires |s| >= 1
  {
    s[..|s| - 1]
  }

  /** How `root/../x` splits on the separator. */
  lemma SplitDotDot(root: NormPath, x: string)
    requires WfAbs(root) && |root.comps| >= 1 && Clean(x)
    ensures Split(Render(root) + "/../" + x, '/') == Blanks(root.lead) + root.comps + ["..", x]
  {
    var R := Render(root);
    RenderShape(root);
    assert R + "/../" + x == R + ['/'] + (".." + ['/'] + x);
    SplitConcatSep(R, ".." + ['/'] + x, '/');
    SplitConcatSep("..", x, '/');
    SplitNoSep("..", '/');
    SplitNoSep(x, '/');
    SplitRender(root);
  }

  lemma LeadDotDot(root: NormPath, x: string)
    requires WfAbs(root) && |root.comps| >= 1
    ensures LeadingSlashes(Render(root) + "/../" + x) == root.lead
  {
    var R := Render(root);
    var p := R + "/../" + x;
    RenderShape(root);
    LeadRender(root);
    assert p[..|R|] == R;
    assert p[..2] == R[..2];
    if |R| >= 3 {
      assert p[..3] == R[..3];
    }
  }

  lemma FoldDotDot(root: NormPath, x: string)
    requires WfAbs(root) && |root.comps| >= 1 && Clean(x)
    ensures NormFold(Blanks(root.lead) + root.comps + ["..", x], true, []) == DropLast(root.comps) + [x]
  {
    var c := root.comps;
    FoldConcat(Blanks(root.lead) + c, ["..", x], true, []);
    FoldConcat(Blanks(root.lead), c, true, []);
    FoldBlanks(Blanks(root.lead), true, []);
    assert AllClean(c);
    FoldOfClean(c, true, []);
    assert [] + c == c;
    FoldParentThen(c, x);
  }

  /** `..` then a clean name, after clean components, replaces the last one. */
  lemma FoldParentThen(c: seq<string>, x: string)
    requires |c| >= 1 && Clean(c[|c| - 1]) && Clean(x)
    ensures NormFold(["..", x], true, c) == DropLast(c) + [x]
  {
    assert NormStep(c, "..", true) == DropLast(c);
    assert ["..", x][1..] == [x];
    assert NormFold([x], true, DropLast(c)) == NormFold([], true, DropLast(c) + [x]);
  }

  /** `..` is collapsed before the containment test: `root/../x` is the sibling
      `x` of the root, which the root itself does not admit. */
  lemma DotDotCollapses(root: NormPath, x: string, cwd: string)
    requires WfAbs(root) && |root.comps| >= 1
    requires Clean(x) && x != root.comps[|root.comps| - 1]
    requires IsAbs(cwd)
    ensures AbsNorm(Render(root) + "/../" + x, cwd) == NormPath(root.lead, DropLast(root.comps) + [x])
    ensures !Inside(AbsNorm(Render(root) + "/../" + x, cwd), root)
    ensures ValidatePath(Render(root) + "/../" + x, [Render(root)], cwd).Err?
  {
    var R := Render(root);
    var p := R + "/../" + x;
    RenderShape(root);
    assert IsAbs(p);
    assert JoinPath(cwd, p) == p;
    SplitDotDot(root, x);
    LeadDotDot(root, x);
    FoldDotDot(root, x);
    var a := NormPath(root.lead, DropLast(root.comps) + [x]);
    assert AbsNorm(p, cwd) == a;
    assert !IsPrefix(root.comps, a.comps) by {
      var n := |root.comps|;
      assert a.comps[n - 1] == x;
    }
    NormRender(root);
    assert AbsNorm(R, cwd) == root by {
      assert JoinPath(cwd, R) == R;
    }
  }

  /** A sibling that merely shares a string prefix with the root is refused:
      the separator appended to the root keeps `/a/bc` out of `/a/b`. */
  lemma SiblingPrefixRejected(root: NormPath, y: string, cwd: string)
    requires WfAbs(root) && |root.comps| >= 1
    requires Clean(y) && y != root.comps[|root.comps| - 1]
    requires IsAbs(cwd)
    ensures ValidatePath(Render(NormPath(root.lead, DropLast(root.comps) + [y])), [Render(root)], cwd).Err?
  {
    var a := NormPath(root.lead, DropLast(root.comps) + [y]);
    assert WfAbs(a);
    var A := Render(a);
    RenderShape(a);
    RenderShape(root);
    NormRender(a);
    NormRender(root);
    assert JoinPath(cwd, A) == A;
    assert JoinPath(cwd, Render(root)) == Render(root);
    assert A != "";
    var n := |root.comps|;
    assert a.comps[n - 1] == y;
    assert !Inside(a, root);
  }

  /** The `/` root admits `/` itself and the paths written with exactly two
      leading slashes, and nothing else: its test prefix is `//`. */
  lemma SlashRootAdmits(path: string, cwd: string)
    requires IsAbs(cwd)
    ensures ValidatePath(path, ["/"], cwd).Ok? <==>
      path != "" && (AbsPath(path, cwd) == "/" || AbsNorm(path, cwd).lead == 2)
  {
    var root := NormPath(1, []);
    assert Render(root) == "/";
    assert JoinPath(cwd, "/") == "/";
    NormRender(root);
    assert AbsNorm("/", cwd) == root;
    if path != "" {
      AbsNormWf(path, cwd);
      var a := AbsNorm(path, cwd);
      if AbsPath(path, cwd) == "/" {
        assert a == Norm("/");
      }
      if a == root {
        assert AbsPath(path, cwd) == "/";
      }
    }
  }

  // ---------------------------------------------------------------------------
  // is_safe_path, get_safe_filename, match_patterns
  // ---------------------------------------------------------------------------

  const DangerousPatterns: seq<string> := ["..", "~", "/etc/", "/proc/", "/sys/", "/dev/"]

  function NoPatternIn(s: string, pats: seq<string>): (r: bool)
    ensures r <==> forall i :: 0 <= i < |pats| ==> !Contains(s, pats[i])
    decreases |pats|
  {
    if pats == [] then true
    else if Contains(s, pats[0]) then false
    else
      var rest := NoPatternIn(s, pats[1..]);
      assert rest <==> forall i :: 1 <= i < |pats| ==> !Contains(s, pats[i]) by {
        if !rest {
          var i :| 0 <= i < |pats[1..]| && Contains(s, pats[1..][i]);
          assert pats[1..][i] == pats[i + 1];
        }
      }
      rest
  }

  /** `is_safe_path(path)`: false whenever the normalised, lower-cased path
      contains any dangerous pattern, true otherwise. */
  function IsSafePath(path: string): (r: bool)
    ensures r <==> forall i :: 0 <= i < |DangerousPatterns| ==> !Contains(Lower(NormPathStr(path)), DangerousPatterns[i])
  {
    NoPatternIn(Lower(NormPathStr(path)), DangerousPatterns)
  }

  lemma {:induction false} JoinContainsPart(parts: seq<string>, sep: string, k: int)
    requires 0 <= k < |parts|
    ensures exists i :: OccursAt(Join(parts, sep), parts[k], i)
    decreases |parts|
  {
    var j := Join(parts, sep);
    if k == 0 {
      assert OccursAt(j, parts[0], 0);
    } else {
      JoinContainsPart(parts[1..], sep, k - 1);
      var i :| OccursAt(Join(parts[1..], sep), parts[1..][k - 1], i);
      var off := |parts[0]| + |sep|;
      assert j == parts[0] + sep + Join(parts[1..], sep);
      assert j[off + i..off + i + |parts[k]|] == Join(parts[1..], sep)[i..i + |parts[k]|];
      assert OccursAt(j, parts[k], off + i);
    }
  }

  lemma OccursInLower(s: string, sub: string, i: int)
    requires OccursAt(s, sub, i)
    requires Lower(sub) == sub
    ensures OccursAt(Lower(s), sub, i)
  {
    forall k | 0 <= k < |sub|
      ensures Lower(s)[i + k] == sub[k]
    {
      assert s[i + k] == s[i..i + |sub|][k];
      assert LowerChar(sub[k]) == sub[k];
    }
    assert Lower(s)[i..i + |sub|] == sub;
  }

  /** Every component of a normalised path occurs in its rendering. */
  lemma CompInRender(n: NormPath, k: int)
    requires 0 <= k < |n.comps|
    ensures Contains(Render(n), n.comps[k])
  {
    JoinContainsPart(n.comps, "/", k);
    var j := Join(n.comps, "/");
    var i :| OccursAt(j, n.comps[k], i);
    var pre := Slashes(n.lead);
    if pre + j == "" {
      assert n.comps[k] == "";
      assert OccursAt(Render(n), "", 0);
    } else {
      assert Render(n) == pre + j;
      assert Render(n)[|pre| + i..|pre| + i + |n.comps[k]|] == j[i..i + |n.comps[k]|];
      assert OccursAt(Render(n), n.comps[k], |pre| + i);
    }
  }

  /** An occurrence of a lower-case pattern survives lower-casing the text. */
  lemma ContainsLower(s: string, sub: string)
    requires Contains(s, sub) && Lower(sub) == sub
    ensures Contains(Lower(s), sub)
  {
    var i :| OccursAt(s, sub, i);
    OccursInLower(s, sub, i);
  }

  lemma SafeComponent(n: NormPath, k: int)
    requires 0 <= k < |n.comps|
    requires !Contains(Lower(Render(n)), "..")
    ensures n.comps[k] != ".."
  {
    if n.comps[k] == ".." {
      CompInRender(n, k);
      assert Lower("..") == "..";
      ContainsLower(Render(n), "..");
      assert false;
    }
  }

  /** A path judged safe cannot climb: its normalised form has no `..` component. */
  lemma SafePathHasNoParentStep(path: string)
    requires IsSafePath(path)
    ensures forall k :: 0 <= k < |Norm(path).comps| ==> Norm(path).comps[k] != ".."
  {
    var n := Norm(path);
    assert !Contains(Lower(Render(n)), DangerousPatterns[0]);
    forall k | 0 <= k < |n.comps|
      ensures n.comps[k] != ".."
    {
      SafeComponent(n, k);
    }
  }

  /** Lower-casing an absolute path starts with `/`, its lower-cased first
      component and `/`, when there is a second component. */
  lemma LowerRenderPrefix(n: NormPath)
    requires n.lead == 1 && |n.comps| >= 2
    ensures OccursAt(Lower(Render(n)), "/" + Lower(n.comps[0]) + "/", 0)
  {
    var c0 := n.comps[0];
    var pat := "/" + Lower(c0) + "/";
    JoinCons(c0, n.comps[1..], "/");
    assert [c0] + n.comps[1..] == n.comps;
    var r := Render(n);
    assert r == "/" + c0 + "/" + Join(n.comps[1..], "/");
    var low := Lower(r);
    forall m | 0 <= m < |pat|
      ensures low[m] == pat[m]
    {
      if m == 0 {
      } else if m <= |c0| {
        assert r[m] == c0[m - 1];
      } else {
        assert r[m] == '/';
      }
    }
    assert low[..|pat|] == pat;
  }

  /** An absolute path judged safe is not below `/etc`, `/proc`, `/sys` or
      `/dev`, in any letter case. */
  lemma SafePathAvoidsSystemDirs(path: string, k: int)
    requires IsSafePath(path)
    requires 2 <= k < |DangerousPatterns|
    requires Norm(path).lead == 1 && |Norm(path).comps| >= 2
    ensures "/" + Lower(Norm(path).comps[0]) + "/" != DangerousPatterns[k]
  {
    LowerRenderPrefix(Norm(path));
  }

  const DangerousChars: seq<char> := ['/', '\\', ':', '*', '?', '"', '<', '>', '|']

  /** The replacement loop over the dangerous characters. */
  function ReplaceEach(s: string, chars: seq<char>): (r: string)
    ensures |r| == |s|
    ensures forall i :: 0 <= i < |s| ==> r[i] == (if s[i] in chars then '_' else s[i])
    decreases |chars|
  {
    if chars == [] then s
    else
      var t := Replace(s, [chars[0]], "_");
      ReplaceChar(s, chars[0], '_');
      ReplaceEach(t, chars[1..])
  }

  /** `r` is the part of `s` starting at `i`, with only dots before it and
      only dots after it. */
  predicate MiddleAt(s: string, r: string, i: int) {
    && 0 <= i <= |s| - |r| && r == s[i..i + |r|]
    && (forall k :: 0 <= k < i ==> s[k] == '.')
    && (forall k :: i + |r| <= k < |s| ==> s[k] == '.')
  }

  /** `s.strip(".")`: the middle of `s` between a run of dots at the front
      and one at the back, with neither end of the middle a dot. */
  function StripDots(s: string): (r: string)
    ensures forall c :: c in r ==> c in s
    ensures r == [] || (r[0] != '.' && r[|r| - 1] != '.')
    ensures exists i :: MiddleAt(s, r, i)
  {
    var l := LStripBy(s, Dots);
    var r := RStripBy(l, Dots);
    StripDotsMiddle(s);
    r
  }

  /** The two strips leave the middle of `s`, starting where the leading dots end. */
  lemma StripDotsMiddle(s: string)
    ensures var l := LStripBy(s, Dots);
      MiddleAt(s, RStripBy(l, Dots), |s| - |l|)
  {
    StripDotsSlice(s);
    StripDotsTail(s);
  }

  lemma StripDotsSlice(s: string)
    ensures var l := LStripBy(s, Dots);
      var r, i := RStripBy(l, Dots), |s| - |l|;
      0 <= i <= |s| - |r| && r == s[i..i + |r|]
  {
    var l := LStripBy(s, Dots);
    assert l == s[|s| - |l|..];
    assert RStripBy(l, Dots) == l[..|RStripBy(l, Dots)|];
  }

  lemma StripDotsTail(s: string)
    ensures var l := LStripBy(s, Dots);
      var r, i := RStripBy(l, Dots), |s| - |l|;
      forall k :: i + |r| <= k < |s| ==> s[k] == '.'
  {
    var l := LStripBy(s, Dots);
    var r, i := RStripBy(l, Dots), |s| - |l|;
    forall k | i + |r| <= k < |s|
      ensures s[k] == '.'
    {
      assert s[k] == l[k - i];
      assert InClass(l[k - i], Dots);
    }
  }

  /** No replaced character survives the replacement loop. */
  lemma ReplaceEachClears(s: string, chars: seq<char>, c: char)
    requires '_' !in chars
    requires c in ReplaceEach(s, chars)
    ensures c !in chars
  {
    var r := ReplaceEach(s, chars);
    var i :| 0 <= i < |r| && r[i] == c;
  }

  /** Joining the words of `s` with spaces introduces no character but the space. */
  lemma SpacedChars(s: string, c: char)
    requires c in Join(Words(s), " ")
    ensures c == ' ' || c in s
  {
    var words := Words(s);
    JoinChars(words, " ", c);
    if c != ' ' {
      var i :| 0 <= i < |words| && c in words[i];
      var j :| 0 <= j < |words[i]| && words[i][j] == c;
      var k := WordsChars(s, i, j);
    }
  }

  /** The name `get_safe_filename` falls back to. */
  const UnnamedFile: string := "unnamed_file"

  lemma UnnamedFileSafe()
    ensures forall c :: c in UnnamedFile ==> c !in DangerousChars
    ensures UnnamedFile[0] != '.' && UnnamedFile[|UnnamedFile| - 1] != '.'
  {
    forall c | c in UnnamedFile
      ensures c !in DangerousChars
    {
      var i :| 0 <= i < |UnnamedFile| && UnnamedFile[i] == c;
      assert 'a' <= c <= 'u' || c == '_';
    }
  }

  /** After replacement and whitespace collapsing no replaced character is left. */
  lemma SpacedSafe(filename: string, chars: seq<char>, c: char)
    requires '_' !in chars && ' ' !in chars
    requires c in Join(Words(ReplaceEach(filename, chars)), " ")
    ensures c !in chars
  {
    SpacedChars(ReplaceEach(filename, chars), c);
    if c != ' ' {
      ReplaceEachClears(filename, chars, c);
    }
  }

  /** The cleaning steps of `get_safe_filename` before the fallback, over any
      list of replaced characters: replace each by `_`, collapse whitespace runs
      into one space, rejoin on `_`, strip dots at both ends. */
  function CleanName(filename: string, chars: seq<char>): (r: string)
    requires '_' !in chars && ' ' !in chars
    ensures forall c :: c in r ==> c !in chars
    ensures r == [] || (r[0] != '.' && r[|r| - 1] != '.')
  {
    var replaced := ReplaceEach(filename, chars);
    var spaced := Join(Words(replaced), " ");
    var underscored := Join(Split(spaced, '_'), "_");
    JoinSplit(spaced, '_');
    assert forall c :: c in underscored ==> c !in chars by {
      forall c | c in underscored
        ensures c !in chars
      {
        SpacedSafe(filename, chars, c);
      }
    }
    StripDots(underscored)
  }

  /** `get_safe_filename(filename)`: the result is never empty, holds none of
      the dangerous characters, and neither starts nor ends with a dot. */
  function GetSafeFilename(filename: string): (r: string)
    ensures r != ""
    ensures forall c :: c in r ==> c !in DangerousChars
    ensures r[0] != '.' && r[|r| - 1] != '.'
  {
    var cleaned := CleanName(filename, DangerousChars);
    UnnamedFileSafe();
    if cleaned == "" then UnnamedFile else cleaned
  }

  lemma ContainsChar(s: string, c: char)
    ensures Contains(s, [c]) <==> c in s
  {
    if c in s {
      var i :| 0 <= i < |s| && s[i] == c;
      assert OccursAt(s, [c], i);
    }
    if Contains(s, [c]) {
      var i :| OccursAt(s, [c], i);
      assert s[i] == s[i..i + 1][0];
    }
  }

  lemma ReplaceEachNoop(s: string, chars: seq<char>)
    requires forall c :: c in s ==> c !in chars
    ensures ReplaceEach(s, chars) == s
  {
  }

  lemma StripDotsNoop(s: string)
    requires s != [] && s[0] != '.' && s[|s| - 1] != '.'
    ensures StripDots(s) == s
  {
    assert LStripBy(s, Dots) == s;
  }

  lemma CleanNameNoop(name: string, chars: seq<char>)
    requires '_' !in chars && ' ' !in chars
    requires name != "" && name[0] != '.' && name[|name| - 1] != '.'
    requires forall i :: 0 <= i < |name| ==> name[i] !in chars && !IsSpace(name[i])
    ensures CleanName(name, chars) == name
  {
    ReplaceEachNoop(name, chars);
    WordsOfWord(name);
    JoinSplit(name, '_');
    StripDotsNoop(name);
  }

  /** A whitespace-free name with no dot at either end keeps its shape through
      the cleaning steps: only the replaced characters change. */
  lemma CleanNameOfWord(name: string, chars: seq<char>)
    requires '_' !in chars && ' ' !in chars
    requires name != "" && name[0] != '.' && name[|name| - 1] != '.'
    requires forall i :: 0 <= i < |name| ==> !IsSpace(name[i])
    ensures CleanName(name, chars) == ReplaceEach(name, chars)
  {
    var replaced := ReplaceEach(name, chars);
    assert !IsSpace('_');
    WordsOfWord(replaced);
    JoinSplit(replaced, '_');
    StripDotsNoop(replaced);
  }

  /** Names without whitespace and without a dot at either end: every
      dangerous character becomes `_`, and nothing else changes. */
  lemma SafeFilenameReplaces(name: string)
    requires name != "" && name[0] != '.' && name[|name| - 1] != '.'
    requires forall i :: 0 <= i < |name| ==> !IsSpace(name[i])
    ensures |GetSafeFilename(name)| == |name|
    ensures forall i :: 0 <= i < |name| ==>
      GetSafeFilename(name)[i] == (if name[i] in DangerousChars then '_' else name[i])
  {
    CleanNameOfWord(name, DangerousChars);
  }

  /** One replaced character between two clean parts becomes `_`. */
  lemma CleanNameReplacesOne(a: string, c: char, b: string, chars: seq<char>)
    requires '_' !in chars && ' ' !in chars && c in chars && !IsSpace(c)
    requires a != [] && a[0] != '.' && b != [] && b[|b| - 1] != '.'
    requires forall i :: 0 <= i < |a| ==> a[i] !in chars && !IsSpace(a[i])
    requires forall i :: 0 <= i < |b| ==> b[i] !in chars && !IsSpace(b[i])
    ensures CleanName(a + [c] + b, chars) == a + "_" + b
  {
    var name := a + [c] + b;
    assert forall i :: 0 <= i < |name| ==> !IsSpace(name[i]) by {
      forall i | 0 <= i < |name|
        ensures !IsSpace(name[i])
      {
        if i < |a| {
          assert name[i] == a[i];
        } else if i > |a| {
          assert name[i] == b[i - |a| - 1];
        }
      }
    }
    CleanNameOfWord(name, chars);
    ReplaceEachOne(a, c, b, chars);
  }

  /** Replacing in `a + [c] + b` touches only `c` when `a` and `b` hold none
      of the replaced characters. */
  lemma {:induction false} ReplaceEachOne(a: string, c: char, b: string, chars: seq<char>)
    requires c in chars
    requires forall i :: 0 <= i < |a| ==> a[i] !in chars
    requires forall i :: 0 <= i < |b| ==> b[i] !in chars
    ensures ReplaceEach(a + [c] + b, chars) == a + "_" + b
  {
    var name := a + [c] + b;
    var r := ReplaceEach(name, chars);
    var t := a + "_" + b;
    forall i | 0 <= i < |name|
      ensures r[i] == t[i]
    {
      if i < |a| {
        assert name[i] == a[i] && t[i] == a[i];
      } else if i == |a| {
        assert name[i] == c && t[i] == '_';
      } else {
        assert name[i] == b[i - |a| - 1] && t[i] == b[i - |a| - 1];
      }
    }
    assert r == t;
  }

  /** One dangerous character between two clean parts is replaced by `_`. */
  lemma SafeFilenameReplacesOne(a: string, c: char, b: string)
    requires c in DangerousChars
    requires a != [] && a[0] != '.' && b != [] && b[|b| - 1] != '.'
    requires forall i :: 0 <= i < |a| ==> a[i] !in DangerousChars && !IsSpace(a[i])
    requires forall i :: 0 <= i < |b| ==> b[i] !in DangerousChars && !IsSpace(b[i])
    ensures GetSafeFilename(a + [c] + b) == a + "_" + b
  {
    DangerousUntouched();
    CleanNameReplacesOne(a, c, b, DangerousChars);
  }

  /** Characters the cleaning never replaces. */
  predicate Untouched(chars: seq<char>) {
    '_' !in chars && '.' !in chars && forall i :: 0 <= i < |chars| ==> !IsSpace(chars[i])
  }

  lemma DangerousUntouched()
    ensures Untouched(DangerousChars) && ' ' !in DangerousChars
    ensures forall c :: c in DangerousChars ==> !IsSpace(c)
  {
  }

  /** Whitespace around one run of dots cleans to nothing. */
  lemma CleanNameDotsOnly(a: string, d: string, b: string, chars: seq<char>)
    requires Untouched(chars) && ' ' !in chars
    requires forall i :: 0 <= i < |a| ==> IsSpace(a[i])
    requires forall i :: 0 <= i < |d| ==> d[i] == '.'
    requires forall i :: 0 <= i < |b| ==> IsSpace(b[i])
    ensures CleanName(a + d + b, chars) == ""
  {
    var s := a + d + b;
    ReplaceEachNoop(s, chars);
    WordsSkipSpaces(a, d + b);
    assert s == a + (d + b);
    if d == [] {
      assert d + b == b;
      WordsFromSpaces(b, "");
    } else if b == [] {
      assert d + b == d;
      WordsOfWord(d);
    } else {
      WordsFromRun(d, b, "");
      WordsFromSpaces(b[1..], "");
      assert "" + d == d;
    }
    assert Join(Words(s), " ") == d;
    SplitNoSep(d, '_');
    var r := StripDots(d);
    assert r == [];
  }

  /** `get_safe_filename` falls back to "unnamed_file" for a name that is a
      single run of dots with only whitespace around it, the empty name and
      the all-whitespace name included. */
  lemma SafeFilenameFallback(a: string, d: string, b: string)
    requires forall i :: 0 <= i < |a| ==> IsSpace(a[i])
    requires forall i :: 0 <= i < |d| ==> d[i] == '.'
    requires forall i :: 0 <= i < |b| ==> IsSpace(b[i])
    ensures GetSafeFilename(a + d + b) == UnnamedFile
  {
    DangerousUntouched();
    CleanNameDotsOnly(a, d, b, DangerousChars);
  }

  /** `strip(".")` of dots, one other character, dots: that character. */
  lemma StripDotsAround(d1: string, c: char, d2: string)
    requires c != '.'
    requires forall i :: 0 <= i < |d1| ==> d1[i] == '.'
    requires forall i :: 0 <= i < |d2| ==> d2[i] == '.'
    ensures StripDots(d1 + [c] + d2) == [c]
  {
    var x := d1 + [c] + d2;
    var r := StripDots(x);
    var i :| MiddleAt(x, r, i);
    assert x[|d1|] == c;
    assert i <= |d1| < i + |r|;
    assert forall k :: 0 <= k < |d1| ==> x[k] == '.';
    assert forall k :: |d1| < k < |x| ==> x[k] == '.';
    assert x[i] == r[0] && x[i + |r| - 1] == r[|r| - 1];
  }

  /** Two runs of dots with whitespace between them clean to one space. */
  lemma CleanNameSpacedDots(d1: string, w: string, d2: string, chars: seq<char>)
    requires Untouched(chars) && ' ' !in chars
    requires d1 != [] && d2 != [] && w != []
    requires forall i :: 0 <= i < |d1| ==> d1[i] == '.'
    requires forall i :: 0 <= i < |w| ==> IsSpace(w[i])
    requires forall i :: 0 <= i < |d2| ==> d2[i] == '.'
    ensures CleanName(d1 + w + d2, chars) == " "
  {
    var s := d1 + w + d2;
    ReplaceEachNoop(s, chars);
    assert s == d1 + (w + d2);
    WordsFromRun(d1, w + d2, "");
    assert (w + d2)[1..] == w[1..] + d2;
    WordsSkipSpaces(w[1..], d2);
    WordsOfWord(d2);
    assert "" + d1 == d1;
    assert Words(s) == [d1] + [d2];
    var x := d1 + " " + d2;
    assert Join(Words(s), " ") == x;
    SplitNoSep(x, '_');
    StripDotsAround(d1, ' ', d2);
  }

  /** Two runs of dots with whitespace between them clean to one space, not to
      the fallback name: whitespace collapsing leaves the space in the middle
      and `strip(".")` only removes the dots. */
  lemma SafeFilenameSpacedDots(d1: string, w: string, d2: string)
    requires d1 != [] && d2 != [] && w != []
    requires forall i :: 0 <= i < |d1| ==> d1[i] == '.'
    requires forall i :: 0 <= i < |w| ==> IsSpace(w[i])
    requires forall i :: 0 <= i < |d2| ==> d2[i] == '.'
    ensures GetSafeFilename(d1 + w + d2) == " "
  {
    DangerousUntouched();
    CleanNameSpacedDots(d1, w, d2, DangerousChars);
  }

  /** A name that is already safe comes back unchanged. */
  lemma SafeFilenameFixedPoint(name: string)
    requires name != "" && name[0] != '.' && name[|name| - 1] != '.'
    requires forall i :: 0 <= i < |name| ==> name[i] !in DangerousChars && !IsSpace(name[i])
    ensures GetSafeFilename(name) == name
  {
    CleanNameNoop(name, DangerousChars);
  }

  /** `os.path.basename(path)`: the text after the last separator, which is
      the whole path when there is no separator. */
  function Basename(path: string): (r: string)
    ensures '/' !in r
    ensures |r| <= |path| && path[|path| - |r|..] == r
    ensures |r| == |path| || path[|path| - |r| - 1] == '/'
  {
    var parts := Split(path, '/');
    SplitPartsFree(path, '/');
    SplitFromLast(path, '/', "");
    assert "" + path == path;
    parts[|parts| - 1]
  }

  predicate PatternHits(path: string, pattern: string) {
    Glob.Match(Basename(path), pattern) || Glob.Match(path, pattern)
  }

  /** `match_patterns(path, patterns)`: some pattern matches the basename or
      the whole path. */
  method MatchPatterns(path: string, patterns: seq<string>) returns (r: bool)
    ensures r <==> exists i :: 0 <= i < |patterns| && PatternHits(path, patterns[i])
    ensures "*" in patterns ==> r
  {
    if "*" in patterns {
      Glob.StarMatchesAll(path);
    }
    var k := 0;
    while k < |patterns|
      invariant 0 <= k <= |patterns|
      invariant forall j :: 0 <= j < k ==> !PatternHits(path, patterns[j])
    {
      if PatternHits(path, patterns[k]) {
        return true;
      }
      k := k + 1;
    }
    return false;
  }
}

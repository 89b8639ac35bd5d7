/** The Python `str` primitives the modelled code relies on, on `seq<char>`. */
module PyStr {

  /** `str.isspace()` for one character: the whitespace set `str.split()` and
      `str.strip()` use with no argument. */
  predicate IsSpace(c: char) {
    var n := c as int;
    n == 0x20 || 0x09 <= n <= 0x0D || 0x1C <= n <= 0x1F || n == 0x85 || n == 0xA0
    || n == 0x1680 || 0x2000 <= n <= 0x200A || n == 0x2028 || n == 0x2029
    || n == 0x202F || n == 0x205F || n == 0x3000
  }

  /** The character sets the strip calls of the modelled code remove. */
  datatype CharClass = Whitespace | Dots

  predicate InClass(c: char, cls: CharClass) {
    match cls
    case Whitespace => IsSpace(c)
    case Dots => c == '.'
  }

  /** `s.startswith(p)` */
  predicate StartsWith(s: string, p: string) {
    |p| <= |s| && s[..|p|] == p
  }

  /** `s.endswith(p)` */
  predicate EndsWith(s: string, p: string) {
    |p| <= |s| && s[|s| - |p|..] == p
  }

  /** `sub` occurs in `s` starting at index `i`. */
  predicate OccursAt(s: string, sub: string, i: int) {
    0 <= i && i + |sub| <= |s| && s[i..i + |sub|] == sub
  }

  lemma OccursShift(s: string, sub: string, i: int)
    requires |s| > 0 && 0 <= i
    ensures OccursAt(s[1..], sub, i) <==> OccursAt(s, sub, i + 1)
  {
    if 0 <= i && i + |sub| <= |s| - 1 {
      assert s[1..][i..i + |sub|] == s[i + 1..i + 1 + |sub|];
    }
  }

  /** Python's `sub in s`; the empty string occurs in every string. */
  function Contains(s: string, sub: string): (r: bool)
    ensures r <==> exists i :: OccursAt(s, sub, i)
    decreases |s|
  {
    if StartsWith(s, sub) then
      assert OccursAt(s, sub, 0);
      true
    else if |s| == 0 then
      false
    else
      var rest := Contains(s[1..], sub);
      assert rest ==> exists i :: OccursAt(s, sub, i) by {
        if rest {
          var i :| OccursAt(s[1..], sub, i);
          OccursShift(s, sub, i);
        }
      }
      assert (exists i :: OccursAt(s, sub, i)) ==> rest by {
        if exists i :: OccursAt(s, sub, i) {
          var i :| OccursAt(s, sub, i);
          assert i != 0;
          OccursShift(s, sub, i - 1);
        }
      }
      rest
  }

  /** `s.lower()` restricted to ASCII letters. */
  function LowerChar(c: char): char {
    if 'A' <= c <= 'Z' then (c as int + 32) as char else c
  }

  function Lower(s: string): (r: string)
    ensures |r| == |s|
    ensures forall i :: 0 <= i < |s| ==> r[i] == LowerChar(s[i])
  {
    seq(|s|, i requires 0 <= i < |s| => LowerChar(s[i]))
  }

  /** Strips the leading characters of class `cls`: `s.lstrip(...)`. */
  function LStripBy(s: string, cls: CharClass): (r: string)
    ensures |r| <= |s| && r == s[|s| - |r|..]
    ensures r == [] || !InClass(r[0], cls)
    ensures forall i :: 0 <= i < |s| - |r| ==> InClass(s[i], cls)
    decreases |s|
  {
    if |s| > 0 && InClass(s[0], cls) then LStripBy(s[1..], cls) else s
  }

  /** Strips the trailing characters of class `cls`: `s.rstrip(...)`. */
  function RStripBy(s: string, cls: CharClass): (r: string)
    ensures |r| <= |s| && r == s[..|r|]
    ensures r == [] || !InClass(r[|r| - 1], cls)
    ensures forall i :: |r| <= i < |s| ==> InClass(s[i], cls)
    decreases |s|
  {
    if |s| > 0 && InClass(s[|s| - 1], cls) then RStripBy(s[..|s| - 1], cls) else s
  }

  /** `s.strip()` with no argument. */
  function Strip(s: string): string {
    RStripBy(LStripBy(s, Whitespace), Whitespace)
  }

  /** `s.rstrip()` with no argument. */
  function RStrip(s: string): string {
    RStripBy(s, Whitespace)
  }

  /** `s.strip()` is empty exactly when every character of `s` is whitespace. */
  lemma StripEmptyIff(s: string)
    ensures Strip(s) == [] <==> forall i :: 0 <= i < |s| ==> IsSpace(s[i])
  {
    var l := LStripBy(s, Whitespace);
    if l != [] {
      assert !IsSpace(s[|s| - |l|]);
    }
  }

  /** `s.split(c)` for a one-character separator. */
  function Split(s: string, c: char): (r: seq<string>)
    ensures |r| >= 1
  {
    SplitFrom(s, c, "")
  }

  /** The scan behind `Split`, with the part read so far in `cur`. */
  function SplitFrom(s: string, c: char, cur: string): (r: seq<string>)
    ensures |r| >= 1
    decreases |s|
  {
    if |s| == 0 then [cur]
    else if s[0] == c then [cur] + SplitFrom(s[1..], c, "")
    else SplitFrom(s[1..], c, cur + [s[0]])
  }

  /** `sep.join(parts)` */
  function Join(parts: seq<string>, sep: string): string {
    if |parts| == 0 then ""
    else if |parts| == 1 then parts[0]
    else parts[0] + sep + Join(parts[1..], sep)
  }

  lemma JoinCons(h: string, rest: seq<string>, sep: string)
    requires |rest| >= 1
    ensures Join([h] + rest, sep) == h + sep + Join(rest, sep)
  {
    assert ([h] + rest)[1..] == rest;
  }

  lemma {:induction false} JoinSplitFrom(s: string, c: char, cur: string)
    ensures Join(SplitFrom(s, c, cur), [c]) == cur + s
    decreases |s|
  {
    if |s| > 0 {
      if s[0] == c {
        JoinSplitFrom(s[1..], c, "");
        JoinCons(cur, SplitFrom(s[1..], c, ""), [c]);
        assert cur + s == cur + [c] + ("" + s[1..]);
      } else {
        JoinSplitFrom(s[1..], c, cur + [s[0]]);
        assert cur + s == cur + [s[0]] + s[1..];
      }
    } else {
      assert cur + s == cur;
    }
  }

  /** Splitting on a character and joining with it again gives the input back. */
  lemma JoinSplit(s: string, c: char)
    ensures Join(Split(s, c), [c]) == s
  {
    JoinSplitFrom(s, c, "");
    assert "" + s == s;
  }

  lemma {:induction false} SplitFromNoSep(p: string, c: char, cur: string)
    requires c !in p
    ensures SplitFrom(p, c, cur) == [cur + p]
    decreases |p|
  {
    if |p| > 0 {
      SplitFromNoSep(p[1..], c, cur + [p[0]]);
      assert cur + [p[0]] + p[1..] == cur + p;
    } else {
      assert cur + p == cur;
    }
  }

  lemma SplitNoSep(p: string, c: char)
    requires c !in p
    ensures Split(p, c) == [p]
  {
    SplitFromNoSep(p, c, "");
    assert "" + p == p;
  }

  /** The scan of `x + c + w` closes the pending part at the separator. */
  lemma {:induction false} SplitFromConcatSep(x: string, w: string, c: char, cur: string)
    ensures SplitFrom(x + [c] + w, c, cur) == SplitFrom(x, c, cur) + SplitFrom(w, c, "")
    decreases |x|
  {
    var s := x + [c] + w;
    if |x| == 0 {
      assert s == [c] + w;
      assert s[1..] == w;
    } else if x[0] == c {
      SplitFromConcatSep(x[1..], w, c, "");
      assert s[1..] == x[1..] + [c] + w;
    } else {
      SplitFromConcatSep(x[1..], w, c, cur + [x[0]]);
      assert s[1..] == x[1..] + [c] + w;
    }
  }

  /** Python's `x.split(c)` of `x + c + w` is `x.split(c) + w.split(c)`. */
  lemma SplitConcatSep(x: string, w: string, c: char)
    ensures Split(x + [c] + w, c) == Split(x, c) + Split(w, c)
  {
    SplitFromConcatSep(x, w, c, "");
  }

  lemma SplitAfterSep(p: string, w: string, c: char)
    requires c !in p
    ensures Split(p + [c] + w, c) == [p] + Split(w, c)
  {
    SplitConcatSep(p, w, c);
    SplitNoSep(p, c);
  }

  /** No part of the scan holds the separator if the pending part does not. */
  lemma {:induction false} SplitFromPartsFree(s: string, c: char, cur: string)
    requires c !in cur
    ensures forall i :: 0 <= i < |SplitFrom(s, c, cur)| ==> c !in SplitFrom(s, c, cur)[i]
    decreases |s|
  {
    if |s| > 0 {
      if s[0] == c {
        SplitFromPartsFree(s[1..], c, "");
      } else {
        SplitFromPartsFree(s[1..], c, cur + [s[0]]);
      }
    }
  }

  /** No part of a split holds the separator. */
  lemma SplitPartsFree(s: string, c: char)
    ensures forall i :: 0 <= i < |Split(s, c)| ==> c !in Split(s, c)[i]
  {
    SplitFromPartsFree(s, c, "");
  }

  /** Joining parts free of the separator and splitting again gives the parts back. */
  lemma {:induction false} SplitJoin(parts: seq<string>, c: char)
    requires |parts| >= 1
    requires forall i :: 0 <= i < |parts| ==> c !in parts[i]
    ensures Split(Join(parts, [c]), c) == parts
    decreases |parts|
  {
    if |parts| == 1 {
      SplitNoSep(parts[0], c);
    } else {
      SplitJoin(parts[1..], c);
      SplitAfterSep(parts[0], Join(parts[1..], [c]), c);
      assert parts == [parts[0]] + parts[1..];
    }
  }

  /** Every character of a join comes from a part or from the separator. */
  lemma {:induction false} JoinChars(parts: seq<string>, sep: string, x: char)
    requires x in Join(parts, sep)
    ensures x in sep || exists i :: 0 <= i < |parts| && x in parts[i]
    decreases |parts|
  {
    if |parts| > 1 {
      var rest := Join(parts[1..], sep);
      if x !in parts[0] && x !in sep {
        assert x in rest;
        JoinChars(parts[1..], sep, x);
        var i :| 0 <= i < |parts[1..]| && x in parts[1..][i];
        assert x in parts[i + 1];
      }
    }
  }

  /** `s.replace(target, repl)` with Python semantics: every non-overlapping
      occurrence, scanned left to right; an empty `target` inserts `repl`
      before every character and at the end. */
  function Replace(s: string, target: string, repl: string): (r: string)
    ensures |target| > 0 && !Contains(s, target) ==> r == s
    decreases |s|
  {
    if |target| == 0 then Interleave(s, repl)
    else if |s| < |target| then s
    else if s[..|target|] == target then repl + Replace(s[|target|..], target, repl)
    else [s[0]] + Replace(s[1..], target, repl)
  }

  /** `s.replace("", repl)`: `repl` before every character of `s` and once
      more at the end. */
  function Interleave(s: string, repl: string): (r: string)
    ensures |r| == |s| + (|s| + 1) * |repl|
    ensures |s| == 0 ==> r == repl
    decreases |s|
  {
    if |s| == 0 then repl else repl + [s[0]] + Interleave(s[1..], repl)
  }

  /** Block `i` of `Interleave(s, repl)`, of width `|repl| + 1` and starting
      at `p`, is `repl` followed by `s[i]`; the last block is `repl` alone. */
  lemma {:induction false} InterleaveAt(s: string, repl: string, i: int, p: int)
    requires 0 <= i <= |s| && p == i * (|repl| + 1)
    ensures p + |repl| <= |Interleave(s, repl)|
    ensures Interleave(s, repl)[p..p + |repl|] == repl
    ensures i < |s| ==> p + |repl| < |Interleave(s, repl)| && Interleave(s, repl)[p + |repl|] == s[i]
    ensures i == |s| ==> p + |repl| == |Interleave(s, repl)|
    decreases i
  {
    var r := Interleave(s, repl);
    if |s| == 0 {
    } else if i == 0 {
      assert r == repl + [s[0]] + Interleave(s[1..], repl);
    } else {
      var q := (i - 1) * (|repl| + 1);
      assert p == q + |repl| + 1;
      InterleaveAt(s[1..], repl, i - 1, q);
      var rest := Interleave(s[1..], repl);
      assert r == repl + [s[0]] + rest;
      assert r[p..p + |repl|] == rest[q..q + |repl|];
    }
  }

  /** A prefix of `u[1..]` that contains `t` leaves `t` in `u`. */
  lemma ContainsTail(u: string, t: string)
    requires |u| > 0
    ensures Contains(u[1..], t) ==> Contains(u, t)
  {
    if Contains(u[1..], t) {
      var i :| OccursAt(u[1..], t, i);
      OccursShift(u, t, i);
    }
  }

  /** No copy of `t` starts at the front of `a + t + b` when `a` is non-empty
      and `t` does not occur in `a` extended by all but the last character of `t`. */
  lemma NotAtFront(a: string, t: string, b: string)
    requires |t| > 0 && a != [] && !Contains(a + t[..|t| - 1], t)
    ensures (a + t + b)[..|t|] != t
  {
    var u := a + t[..|t| - 1];
    assert u[..|t|] == (a + t + b)[..|t|];
    assert !StartsWith(u, t);
  }

  /** One step of the `replace` scan past a position where `t` does not start. */
  lemma ReplaceSkip(s: string, t: string, repl: string)
    requires |t| > 0 && |s| >= |t| && s[..|t|] != t
    ensures Replace(s, t, repl) == [s[0]] + Replace(s[1..], t, repl)
  {
  }

  /** One step of the `replace` scan at a position where `t` starts. */
  lemma ReplaceHit(t: string, b: string, repl: string)
    requires |t| > 0
    ensures Replace(t + b, t, repl) == repl + Replace(b, t, repl)
  {
    var s := t + b;
    assert s[..|t|] == t && s[|t|..] == b;
  }

  lemma ConsAssoc<T>(x: T, y: seq<T>, z: seq<T>, w: seq<T>)
    ensures [x] + (y + z + w) == ([x] + y) + z + w
  {
  }

  /** Dropping the first character of `a` keeps `t` out of `a + t[..|t| - 1]`. */
  lemma NotContainsTail(a: string, t: string)
    requires |t| > 0 && a != [] && !Contains(a + t[..|t| - 1], t)
    ensures !Contains(a[1..] + t[..|t| - 1], t)
  {
    var u := a + t[..|t| - 1];
    assert u[1..] == a[1..] + t[..|t| - 1];
    ContainsTail(u, t);
  }

  lemma ConcatTail<T>(a: seq<T>, t: seq<T>, b: seq<T>)
    requires a != []
    ensures (a + t + b)[0] == a[0] && (a + t + b)[1..] == a[1..] + t + b
    ensures [a[0]] + a[1..] == a
  {
  }

  /** The step of `ReplaceLeftmost` past the first character of `a`. */
  lemma ReplaceLeftmostStep(a: string, t: string, b: string, repl: string)
    requires |t| > 0 && a != [] && !Contains(a + t[..|t| - 1], t)
    requires Replace(a[1..] + t + b, t, repl) == a[1..] + repl + Replace(b, t, repl)
    ensures Replace(a + t + b, t, repl) == a + repl + Replace(b, t, repl)
  {
    NotAtFront(a, t, b);
    ConcatTail(a, t, b);
    ReplaceSkip(a + t + b, t, repl);
    ConsAssoc(a[0], a[1..], repl, Replace(b, t, repl));
  }

  /** `replace` rewrites the leftmost occurrence of `t` and resumes the scan
      right after it: when `t` does not occur before the copy that follows
      `a`, that copy is the one replaced. */
  lemma {:induction false} ReplaceLeftmost(a: string, t: string, b: string, repl: string)
    requires |t| > 0 && !Contains(a + t[..|t| - 1], t)
    ensures Replace(a + t + b, t, repl) == a + repl + Replace(b, t, repl)
    decreases |a|
  {
    if a == [] {
      assert a + t + b == t + b;
      ReplaceHit(t, b, repl);
    } else {
      NotContainsTail(a, t);
      ReplaceLeftmost(a[1..], t, b, repl);
      ReplaceLeftmostStep(a, t, b, repl);
    }
  }

  /** Replacing one character by another rewrites exactly those positions. */
  lemma {:induction false} ReplaceChar(s: string, a: char, b: char)
    ensures |Replace(s, [a], [b])| == |s|
    ensures forall i :: 0 <= i < |s| ==> Replace(s, [a], [b])[i] == (if s[i] == a then b else s[i])
    decreases |s|
  {
    if |s| > 0 {
      ReplaceChar(s[1..], a, b);
      assert s[..1] == [s[0]];
    }
  }

  /** `last` is the text of `t` after its last `c`: a suffix of `t` that is
      either all of `t` or preceded by `c`. */
  predicate LastPart(t: string, last: string, c: char) {
    |last| <= |t| && t[|t| - |last|..] == last && (|last| == |t| || t[|t| - |last| - 1] == c)
  }

  lemma LastPartAfterSep(p: string, t: string, last: string, c: char)
    requires LastPart(t, last, c) && p != [] && p[|p| - 1] == c
    ensures LastPart(p + t, last, c)
  {
    var x := p + t;
    assert x[|x| - |last|..] == t[|t| - |last|..];
    if |last| == |t| {
      assert x[|x| - |last| - 1] == p[|p| - 1];
    } else {
      assert x[|x| - |last| - 1] == t[|t| - |last| - 1];
    }
  }

  /** The last part of `s.split(c)` as scanned from `cur`. */
  function LastSplit(s: string, c: char, cur: string): string {
    var parts := SplitFrom(s, c, cur);
    parts[|parts| - 1]
  }

  /** The step of `SplitFromLast` at a separator. */
  lemma SplitFromLastSep(s: string, c: char, cur: string)
    requires s != [] && s[0] == c
    requires LastPart(s[1..], LastSplit(s[1..], c, ""), c)
    ensures LastPart(cur + s, LastSplit(s, c, cur), c)
  {
    var rest := SplitFrom(s[1..], c, "");
    assert SplitFrom(s, c, cur) == [cur] + rest;
    assert cur + s == (cur + [c]) + s[1..];
    LastPartAfterSep(cur + [c], s[1..], rest[|rest| - 1], c);
  }

  /** The step of `SplitFromLast` past a character that is no separator. */
  lemma SplitFromLastOther(s: string, c: char, cur: string)
    requires s != [] && s[0] != c
    requires LastPart(cur + [s[0]] + s[1..], LastSplit(s[1..], c, cur + [s[0]]), c)
    ensures LastPart(cur + s, LastSplit(s, c, cur), c)
  {
    assert SplitFrom(s, c, cur) == SplitFrom(s[1..], c, cur + [s[0]]);
    assert cur + [s[0]] + s[1..] == cur + s;
  }

  /** The last part of `s.split(c)` is the text after the last `c`. */
  lemma {:induction false} SplitFromLast(s: string, c: char, cur: string)
    ensures LastPart(cur + s, LastSplit(s, c, cur), c)
    decreases |s|
  {
    if |s| == 0 {
      assert cur + s == cur;
      assert LastSplit(s, c, cur) == cur;
    } else if s[0] == c {
      SplitFromLast(s[1..], c, "");
      assert "" + s[1..] == s[1..];
      SplitFromLastSep(s, c, cur);
    } else {
      SplitFromLast(s[1..], c, cur + [s[0]]);
      SplitFromLastOther(s, c, cur);
    }
  }

  // ---------------------------------------------------------------------------
  // repr
  // ---------------------------------------------------------------------------

  /** The quote `repr(s)` uses: a double quote when `s` holds a single quote and
      no double quote, a single quote otherwise. */
  function ReprQuote(s: string): (q: char)
    ensures q == '"' <==> '\'' in s && '"' !in s
    ensures q == '"' || q == '\''
  {
    if '\'' in s && '"' !in s then '"' else '\''
  }

  function HexDigit(n: int): (d: char)
    requires 0 <= n < 16
  {
    if n < 10 then ('0' as int + n) as char else ('a' as int + n - 10) as char
  }

  function HexValue(d: char): int {
    if '0' <= d <= '9' then d as int - '0' as int
    else if 'a' <= d <= 'f' then d as int - 'a' as int + 10
    else 0
  }

  /** A control character that `repr` writes as `\xNN`. */
  predicate IsHexEscaped(c: char) {
    (c as int < 0x20 || c as int == 0x7F) && c != '\t' && c != '\n' && c != '\r'
  }

  /** One character inside a `repr` quoted with `q`: the quote and the
      backslash take a backslash, tab, newline and carriage return their
      letter escapes, the other ASCII control characters a `\x` escape with
      two lower-case hex digits. */
  function ReprChar(c: char, q: char): string {
    if c == q || c == '\\' then ['\\', c]
    else if c == '\t' then "\\t"
    else if c == '\n' then "\\n"
    else if c == '\r' then "\\r"
    else if IsHexEscaped(c) then "\\x" + [HexDigit(c as int / 16), HexDigit(c as int % 16)]
    else [c]
  }

  function ReprBody(s: string, q: char): string
    decreases |s|
  {
    if s == [] then [] else ReprChar(s[0], q) + ReprBody(s[1..], q)
  }

  /** `repr(s)` for a `str`. */
  function Repr(s: string): (r: string)
    ensures |r| >= |s| + 2
    ensures r[0] == r[|r| - 1] == ReprQuote(s)
  {
    ReprBodyLength(s, ReprQuote(s));
    [ReprQuote(s)] + ReprBody(s, ReprQuote(s)) + [ReprQuote(s)]
  }

  lemma {:induction false} ReprBodyLength(s: string, q: char)
    ensures |ReprBody(s, q)| >= |s|
    decreases |s|
  {
    if s != [] {
      ReprBodyLength(s[1..], q);
    }
  }

  /** Reading the escapes of a `repr` body back. */
  function Unescape(t: string): string
    decreases |t|
  {
    if |t| >= 2 && t[0] == '\\' then
      if t[1] == 't' then "\t" + Unescape(t[2..])
      else if t[1] == 'n' then "\n" + Unescape(t[2..])
      else if t[1] == 'r' then "\r" + Unescape(t[2..])
      else if t[1] == 'x' && |t| >= 4 then [(HexValue(t[2]) * 16 + HexValue(t[3])) as char] + Unescape(t[4..])
      else [t[1]] + Unescape(t[2..])
    else if t == [] then []
    else [t[0]] + Unescape(t[1..])
  }

  /** `python` reads `repr(s)` back as `s`. */
  function Unrepr(r: string): string
    requires |r| >= 2
  {
    Unescape(r[1..|r| - 1])
  }

  lemma HexRoundTrip(c: char)
    requires c as int < 0x80
    ensures (HexValue(HexDigit(c as int / 16)) * 16 + HexValue(HexDigit(c as int % 16))) as char == c
  {
  }

  /** Unescaping the form `repr` gives one character yields that character. */
  lemma UnescapeChar(c: char, q: char, rest: string)
    requires q == '"' || q == '\''
    ensures Unescape(ReprChar(c, q) + rest) == [c] + Unescape(rest)
  {
    var e := ReprChar(c, q);
    var t := e + rest;
    if c == q || c == '\\' {
      assert t[2..] == rest;
    } else if c == '\t' || c == '\n' || c == '\r' {
      assert t[2..] == rest;
    } else if IsHexEscaped(c) {
      assert t[4..] == rest;
      HexRoundTrip(c);
    } else {
      assert t[1..] == rest;
    }
  }

  lemma {:induction false} UnescapeBody(s: string, q: char)
    requires q == '"' || q == '\''
    ensures Unescape(ReprBody(s, q)) == s
    decreases |s|
  {
    if s != [] {
      UnescapeChar(s[0], q, ReprBody(s[1..], q));
      UnescapeBody(s[1..], q);
    }
  }

  /** `repr` loses nothing: reading it back gives the string. */
  lemma ReprRoundTrip(s: string)
    ensures Unrepr(Repr(s)) == s
  {
    var q := ReprQuote(s);
    var r := Repr(s);
    assert r[1..|r| - 1] == ReprBody(s, q);
    UnescapeBody(s, q);
  }

  /** A character `repr` copies unchanged under quote `q`. */
  predicate ReprPlain(c: char, q: char) {
    c != q && c != '\\' && c as int >= 0x20 && c as int != 0x7F
  }

  lemma {:induction false} ReprBodyPlain(s: string, q: char)
    requires forall i :: 0 <= i < |s| ==> ReprPlain(s[i], q)
    ensures ReprBody(s, q) == s
    decreases |s|
  {
    if s != [] {
      ReprBodyPlain(s[1..], q);
      assert [s[0]] + s[1..] == s;
    }
  }

  /** A string with no backslash, no control character and no single quote is
      shown between single quotes as it is; one that holds a single quote but no
      double quote is shown between double quotes as it is. */
  lemma ReprVerbatim(s: string)
    requires forall i :: 0 <= i < |s| ==> s[i] != '\\' && s[i] != '"' && s[i] as int >= 0x20 && s[i] as int != 0x7F
    ensures '\'' !in s ==> Repr(s) == "'" + s + "'"
    ensures '\'' in s ==> Repr(s) == "\"" + s + "\""
  {
    ReprBodyPlain(s, ReprQuote(s));
  }

  /** Python's `<` on two strings: the first differing character decides,
      and a proper prefix comes first. */
  predicate StrLt(a: string, b: string)
    decreases |a|
  {
    b != [] && (a == [] || a[0] < b[0] || (a[0] == b[0] && StrLt(a[1..], b[1..])))
  }

  /** Python's `<=` on two strings. */
  predicate StrLeq(a: string, b: string) {
    StrLt(a, b) || a == b
  }

  /** Python's `<` on two lists of strings: the first differing item decides
      by `StrLt`, and a proper prefix comes first. */
  predicate PartsLt(a: seq<string>, b: seq<string>)
    decreases |a|
  {
    b != [] && (a == [] || StrLt(a[0], b[0]) || (a[0] == b[0] && PartsLt(a[1..], b[1..])))
  }

  /** Python's `<=` on two lists of strings. */
  predicate PartsLeq(a: seq<string>, b: seq<string>) {
    PartsLt(a, b) || a == b
  }
}

/** Reading an editor's `settings.json`, which may hold `//` comments, as the
    older setup script does: each line loses its comment, found by a scan
    that knows about double-quoted strings and backslash escapes, and lines
    left blank are dropped. Parsing the cleaned text is not part of this
    model. */
module JsonComments {
  import opened Wrappers
  import opened PyStr
  import opened Seqs

  /** The scan of `_remove_line_comment` from index `i` on, in the given
      string and escape state: the index of the first `//` met outside a
      string, if any. */
  function CommentStart(line: string, i: nat, inString: bool, escape: bool): (r: Option<nat>)
    requires i <= |line|
    ensures r.Some? ==> i <= r.value && r.value + 1 < |line| && line[r.value] == '/' && line[r.value + 1] == '/'
    decreases |line| - i
  {
    if i == |line| then None
    else if escape then CommentStart(line, i + 1, inString, false)
    else if line[i] == '\\' then CommentStart(line, i + 1, inString, true)
    else if line[i] == '"' then CommentStart(line, i + 1, !inString, false)
    else if !inString && i + 1 < |line| && line[i + 1] == '/' && line[i] == '/' then Some(i)
    else CommentStart(line, i + 1, inString, false)
  }

  /** Where the comment of `line` starts, scanning from its first character
      outside any string. */
  function FirstComment(line: string): Option<nat> {
    CommentStart(line, 0, false, false)
  }

  /** `_remove_line_comment`: the text before the first comment with its
      trailing whitespace stripped, or the whole line when it has none. */
  function RemoveLineComment(line: string): (r: string)
    ensures |r| <= |line| && r == line[..|r|]
    ensures r == line <==> FirstComment(line).None?
    ensures FirstComment(line).Some? ==> |r| <= FirstComment(line).value && (r == [] || !IsSpace(r[|r| - 1]))
  {
    match FirstComment(line)
    case None => line
    case Some(i) => RStrip(line[..i])
  }

  /** The scan of a prefix that stops before the first comment's second
      slash agrees with the scan of the whole line: it finds the same comment
      if the prefix holds both slashes, and none otherwise. */
  lemma {:induction false} CommentStartPrefix(line: string, k: nat, i: nat, inString: bool, escape: bool)
    requires i <= k <= |line|
    ensures CommentStart(line[..k], i, inString, escape) ==
      (match CommentStart(line, i, inString, escape)
       case Some(j) => if j + 1 < k then Some(j) else None
       case None => None)
    decreases k - i
  {
    var p := line[..k];
    if i < k {
      assert p[i] == line[i];
      if i + 1 < k {
        assert p[i + 1] == line[i + 1];
      }
      if escape {
        CommentStartPrefix(line, k, i + 1, inString, false);
      } else if line[i] == '\\' {
        CommentStartPrefix(line, k, i + 1, inString, true);
      } else if line[i] == '"' {
        CommentStartPrefix(line, k, i + 1, !inString, false);
      } else {
        CommentStartPrefix(line, k, i + 1, inString, false);
      }
    }
  }

  /** Removing the comment twice is removing it once: what is left holds no
      comment. */
  lemma RemoveLineCommentIdempotent(line: string)
    ensures FirstComment(RemoveLineComment(line)).None?
    ensures RemoveLineComment(RemoveLineComment(line)) == RemoveLineComment(line)
  {
    var r := RemoveLineComment(line);
    if FirstComment(line).Some? {
      assert r == line[..|r|];
      CommentStartPrefix(line, |r|, 0, false, false);
    }
  }

  /** A string that neither closes nor escapes hides every slash in it. */
  lemma {:induction false} InsideStringNoComment(line: string, i: nat)
    requires i <= |line|
    requires forall j :: i <= j < |line| ==> line[j] != '"' && line[j] != '\\'
    ensures CommentStart(line, i, true, false) == None
    decreases |line| - i
  {
    if i < |line| {
      InsideStringNoComment(line, i + 1);
    }
  }

  /** A `//` after an opening quote belongs to the string: `"http://x` is
      kept whole. */
  lemma SlashesInStringKept(s: string)
    requires forall j :: 0 <= j < |s| ==> s[j] != '"' && s[j] != '\\'
    ensures RemoveLineComment(['"'] + s) == ['"'] + s
  {
    var line := ['"'] + s;
    InsideStringNoComment(line, 1);
  }

  /** An escaped quote does not close the string, so a `//` after it is
      still inside: `"\"//x` is kept whole. */
  lemma EscapedQuoteKeepsString(s: string)
    requires forall j :: 0 <= j < |s| ==> s[j] != '"' && s[j] != '\\'
    ensures RemoveLineComment(['"', '\\', '"'] + s) == ['"', '\\', '"'] + s
  {
    var line := ['"', '\\', '"'] + s;
    assert line[0] == '"' && line[1] == '\\';
    assert CommentStart(line, 1, true, false) == CommentStart(line, 2, true, true) == CommentStart(line, 3, true, false);
    InsideStringNoComment(line, 3);
  }

  /** A line with a closed string and a comment after it loses the comment
      and the blanks before it: `"a" // b` becomes `"a"`. */
  lemma CommentAfterString(s: string, blanks: string, rest: string)
    requires forall j :: 0 <= j < |s| ==> s[j] != '"' && s[j] != '\\'
    requires forall j :: 0 <= j < |blanks| ==> blanks[j] == ' '
    ensures RemoveLineComment(['"'] + s + ['"'] + blanks + "//" + rest) == ['"'] + s + ['"']
  {
    var q := ['"'] + s + ['"'];
    var line := q + blanks + "//" + rest;
    var n := |q| + |blanks|;
    StringThenComment(line, |s|, n);
    assert line[..n] == q + blanks;
    RStripBlanks(q, blanks);
  }

  /** The scan over a quoted run of `m` plain characters and then more
      characters other than quotes, backslashes and slashes reaches the `//`
      at index `n`. */
  lemma StringThenComment(line: string, m: nat, n: nat)
    requires m + 2 <= n && n + 1 < |line|
    requires line[0] == '"' && line[m + 1] == '"'
    requires forall j :: 1 <= j <= m ==> line[j] != '"' && line[j] != '\\'
    requires forall j :: m + 2 <= j < n ==> line[j] != '"' && line[j] != '\\' && line[j] != '/'
    requires line[n] == '/' && line[n + 1] == '/'
    ensures FirstComment(line) == Some(n)
  {
    InStringUntilQuote(line, 1, m + 1);
    PlainUntilComment(line, m + 2, n);
  }

  lemma {:induction false} InStringUntilQuote(line: string, i: nat, q: nat)
    requires i <= q < |line| && line[q] == '"'
    requires forall j :: i <= j < q ==> line[j] != '"' && line[j] != '\\'
    ensures CommentStart(line, i, true, false) == CommentStart(line, q + 1, false, false)
    decreases q - i
  {
    if i < q {
      InStringUntilQuote(line, i + 1, q);
    }
  }

  lemma {:induction false} PlainUntilComment(line: string, i: nat, n: nat)
    requires i <= n && n + 1 < |line|
    requires forall j :: i <= j < n ==> line[j] != '"' && line[j] != '\\' && line[j] != '/'
    requires line[n] == '/' && line[n + 1] == '/'
    ensures CommentStart(line, i, false, false) == Some(n)
    decreases n - i
  {
    if i < n {
      PlainUntilComment(line, i + 1, n);
    }
  }

  /** Stripping trailing blanks after a text that ends in a quote removes
      exactly the blanks. */
  lemma RStripBlanks(q: string, blanks: string)
    requires |q| > 0 && q[|q| - 1] == '"'
    requires forall j :: 0 <= j < |blanks| ==> blanks[j] == ' '
    ensures RStrip(q + blanks) == q
  {
    var t := q + blanks;
    var r := RStrip(t);
    assert IsSpace(' ') && !IsSpace('"');
    assert t[|q| - 1] == '"';
    assert |r| >= |q|;
    assert forall i :: |q| <= i < |t| ==> IsSpace(t[i]);
  }

  /** What one line contributes: its cleaned form, unless that is blank. */
  function Kept(line: string): (r: seq<string>)
    ensures |r| <= 1
  {
    var c := RemoveLineComment(line);
    if Strip(c) != [] then [c] else []
  }

  /** The lines kept by the list comprehension of `parse_json_with_comments`:
      every line without its comment, unless nothing but whitespace is left. */
  function CleanLines(lines: seq<string>): (r: seq<string>)
    ensures |r| <= |lines|
    decreases |lines|
  {
    if lines == [] then [] else Kept(lines[0]) + CleanLines(lines[1..])
  }

  /** No kept line is blank, and none still holds a comment. */
  lemma {:induction false} CleanLinesClean(lines: seq<string>)
    ensures forall i :: 0 <= i < |CleanLines(lines)| ==>
      Strip(CleanLines(lines)[i]) != [] && FirstComment(CleanLines(lines)[i]).None?
    decreases |lines|
  {
    if lines != [] {
      var kept, rest := Kept(lines[0]), CleanLines(lines[1..]);
      CleanLinesClean(lines[1..]);
      RemoveLineCommentIdempotent(lines[0]);
      assert CleanLines(lines) == kept + rest;
      forall i | 0 <= i < |kept + rest|
        ensures Strip((kept + rest)[i]) != [] && FirstComment((kept + rest)[i]).None?
      {
        if i < |kept| {
          assert (kept + rest)[i] == RemoveLineComment(lines[0]);
        } else {
          assert (kept + rest)[i] == rest[i - |kept|];
        }
      }
    }
  }

  lemma CleanLinesCons(x: string, rest: seq<string>)
    ensures CleanLines([x] + rest) == Kept(x) + CleanLines(rest)
  {
    assert ([x] + rest)[1..] == rest;
  }

  /** Every line whose cleaned form is not blank is kept, and every kept line
      is the cleaned form of an input line. */
  lemma {:induction false} CleanLinesMembers(lines: seq<string>)
    ensures forall l :: l in lines && Strip(RemoveLineComment(l)) != [] ==> RemoveLineComment(l) in CleanLines(lines)
    ensures forall c :: c in CleanLines(lines) ==> exists l :: l in lines && c == RemoveLineComment(l)
    decreases |lines|
  {
    if lines != [] {
      CleanLinesMembers(lines[1..]);
      assert forall l :: l in lines ==> l == lines[0] || l in lines[1..];
      forall c | c in CleanLines(lines)
        ensures exists l :: l in lines && c == RemoveLineComment(l)
      {
        if c !in CleanLines(lines[1..]) {
          assert c == RemoveLineComment(lines[0]);
        } else {
          var l :| l in lines[1..] && c == RemoveLineComment(l);
          assert l in lines;
        }
      }
    }
  }

  /** Cleaning works line by line, so it keeps the order of the lines:
      cleaning two runs of lines is cleaning each. */
  lemma {:induction false} CleanLinesAppend(a: seq<string>, b: seq<string>)
    ensures CleanLines(a + b) == CleanLines(a) + CleanLines(b)
    decreases |a|
  {
    if a == [] {
      assert a + b == b;
    } else {
      CleanLinesAppend(a[1..], b);
      CleanLinesAppendCons(a, b);
    }
  }

  lemma CleanLinesAppendCons(a: seq<string>, b: seq<string>)
    requires a != []
    requires CleanLines(a[1..] + b) == CleanLines(a[1..]) + CleanLines(b)
    ensures CleanLines(a + b) == CleanLines(a) + CleanLines(b)
  {
    var k, t := Kept(a[0]), a[1..];
    HeadTail(a, b);
    CleanLinesCons(a[0], t + b);
    CleanLinesCons(a[0], t);
    Assoc(k, CleanLines(t), CleanLines(b));
  }

  /** The text handed to `json.loads`: the kept lines joined by newlines. */
  function CleanedContent(content: string): (r: string)
    ensures forall x :: x in r ==> x == '\n' || x in content
  {
    var kept := CleanLines(Split(content, '\n'));
    forall x | x in Join(kept, "\n")
      ensures x == '\n' || x in content
    {
      JoinChars(kept, "\n", x);
      if x != '\n' {
        var i :| 0 <= i < |kept| && x in kept[i];
        KeptCharsFromContent(content, kept[i], x);
      }
    }
    Join(kept, "\n")
  }

  lemma KeptCharsFromContent(content: string, c: string, x: char)
    requires c in CleanLines(Split(content, '\n')) && x in c
    ensures x in content
  {
    var lines := Split(content, '\n');
    CleanLinesMembers(lines);
    var l :| l in lines && c == RemoveLineComment(l);
    var i :| 0 <= i < |lines| && lines[i] == l;
    JoinSplit(content, '\n');
    assert x in Join(lines, "\n") by {
      JoinHasPart(lines, "\n", i, x);
    }
  }

  lemma {:induction false} JoinHasPart(parts: seq<string>, sep: string, i: nat, x: char)
    requires i < |parts| && x in parts[i]
    ensures x in Join(parts, sep)
    decreases |parts|
  {
    if |parts| > 1 && i > 0 {
      JoinHasPart(parts[1..], sep, i - 1, x);
    }
  }

  /** Text with no comments and no blank lines reaches `json.loads` as it
      was written. */
  lemma CleanedContentUnchanged(content: string)
    requires forall i :: 0 <= i < |Split(content, '\n')| ==>
      FirstComment(Split(content, '\n')[i]).None? && Strip(Split(content, '\n')[i]) != []
    ensures CleanedContent(content) == content
  {
    var lines := Split(content, '\n');
    CleanLinesAll(lines);
    JoinSplit(content, '\n');
  }

  lemma {:induction false} CleanLinesAll(lines: seq<string>)
    requires forall i :: 0 <= i < |lines| ==> FirstComment(lines[i]).None? && Strip(lines[i]) != []
    ensures CleanLines(lines) == lines
    decreases |lines|
  {
    if lines != [] {
      CleanLinesAll(lines[1..]);
      assert lines == [lines[0]] + lines[1..];
    }
  }
}

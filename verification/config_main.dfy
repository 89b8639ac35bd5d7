/** The pure parts of the configuration script's entry point: the list of
    allowed directories built from the home directory and what the user
    typed, and the line filter applied to the settings file before parsing.
    The prompt's answer and the home directory are parameters. */
module ConfigMain {
  import opened Wrappers
  import opened PyStr
  import opened Seqs
  import JsonComments

  /** The entries of a comma-separated answer, each stripped, blanks
      dropped: `[d.strip() for d in s.split(",") if d.strip()]`. */
  function Entries(parts: seq<string>): (r: seq<string>)
    ensures |r| <= |parts|
    ensures forall i :: 0 <= i < |r| ==> r[i] != []
    decreases |parts|
  {
    if parts == [] then []
    else (if Strip(parts[0]) != [] then [Strip(parts[0])] else []) + Entries(parts[1..])
  }

  /** An entry is kept exactly when it is the stripped, non-blank form of one
      of the parts. */
  lemma {:induction false} EntriesMembers(parts: seq<string>, x: string)
    ensures x in Entries(parts) <==> x != [] && exists p :: p in parts && Strip(p) == x
    decreases |parts|
  {
    if parts != [] {
      EntriesMembers(parts[1..], x);
      assert forall p :: p in parts <==> p == parts[0] || p in parts[1..];
    }
  }

  predicate NoDuplicates(xs: seq<string>) {
    forall i, j :: 0 <= i < j < |xs| ==> xs[i] != xs[j]
  }

  /** Appends, in order, each of `xs` not already present: the loop of
      `collect_allowed_dirs`. */
  function AppendNew(acc: seq<string>, xs: seq<string>): (r: seq<string>)
    requires NoDuplicates(acc)
    ensures NoDuplicates(r)
    ensures |acc| <= |r| && r[..|acc|] == acc
    ensures forall x :: x in r <==> x in acc || x in xs
    decreases |xs|
  {
    if xs == [] then acc
    else if xs[0] in acc then AppendNew(acc, xs[1..])
    else AppendNew(acc + [xs[0]], xs[1..])
  }

  /** Directories already distinct are appended as they are. */
  lemma {:induction false} AppendNewDistinct(acc: seq<string>, xs: seq<string>)
    requires NoDuplicates(acc) && NoDuplicates(acc + xs)
    ensures AppendNew(acc, xs) == acc + xs
    decreases |xs|
  {
    if xs != [] {
      assert xs[0] == (acc + xs)[|acc|];
      assert xs[0] !in acc by {
        forall i | 0 <= i < |acc|
          ensures acc[i] != xs[0]
        {
          assert acc[i] == (acc + xs)[i];
        }
      }
      assert acc + xs == (acc + [xs[0]]) + xs[1..];
      AppendNewDistinct(acc + [xs[0]], xs[1..]);
    } else {
      assert acc + xs == acc;
    }
  }

  /** A later copy of a directory never moves it: the first occurrence
      decides the position. */
  lemma {:induction false} AppendNewSkipsKnown(acc: seq<string>, x: string, xs: seq<string>)
    requires NoDuplicates(acc) && x in acc
    ensures AppendNew(acc, [x] + xs) == AppendNew(acc, xs)
  {
    assert ([x] + xs)[1..] == xs;
  }

  /** `collect_allowed_dirs`: the home directory, then each new entry of the
      answer, in the order typed. */
  function CollectAllowedDirs(home: string, answer: string): (r: seq<string>)
    ensures |r| >= 1 && r[0] == home
    ensures NoDuplicates(r)
    ensures forall x :: x in r <==> x == home || x in Entries(Split(Strip(answer), ','))
    ensures Strip(answer) == [] ==> r == [home]
  {
    var extra := Strip(answer);
    if extra == [] then
      assert Split(extra, ',') == [""];
      assert Entries([""]) == [];
      [home]
    else AppendNew([home], Entries(Split(extra, ',')))
  }

  /** A directory is allowed exactly when it is the home directory or the
      stripped, non-blank form of one comma-separated part of the answer. */
  lemma CollectMembers(home: string, answer: string, x: string)
    ensures x in CollectAllowedDirs(home, answer) <==>
      x == home || (x != [] && exists p :: p in Split(Strip(answer), ',') && Strip(p) == x)
  {
    EntriesMembers(Split(Strip(answer), ','), x);
  }

  /** When the answer names distinct directories, none of them the home
      directory, the result lists them after it in the order typed. */
  lemma CollectDistinct(home: string, answer: string)
    requires Strip(answer) != []
    requires NoDuplicates([home] + Entries(Split(Strip(answer), ',')))
    ensures CollectAllowedDirs(home, answer) == [home] + Entries(Split(Strip(answer), ','))
  {
    AppendNewDistinct([home], Entries(Split(Strip(answer), ',')));
  }

  /** The filter of `parse_json_with_comments` in the entry-point script: a
      line survives, unchanged, when it is not blank and does not start
      with `//` once stripped. */
  predicate KeepsLine(line: string) {
    Strip(line) != [] && !StartsWith(Strip(line), "//")
  }

  function FilterLines(lines: seq<string>): (r: seq<string>)
    ensures |r| <= |lines|
    decreases |lines|
  {
    if lines == [] then [] else (if KeepsLine(lines[0]) then [lines[0]] else []) + FilterLines(lines[1..])
  }

  /** A line is in the result exactly when it is a kept input line. */
  lemma {:induction false} FilterLinesMembers(lines: seq<string>, x: string)
    ensures x in FilterLines(lines) <==> x in lines && KeepsLine(x)
    decreases |lines|
  {
    if lines != [] {
      FilterLinesMembers(lines[1..], x);
      assert x in lines <==> x == lines[0] || x in lines[1..];
    }
  }

  lemma FilterLinesCons(x: string, rest: seq<string>)
    ensures FilterLines([x] + rest) == (if KeepsLine(x) then [x] else []) + FilterLines(rest)
  {
    assert ([x] + rest)[1..] == rest;
  }

  /** The filter keeps the order of the lines: filtering two runs of lines
      is filtering each. */
  lemma {:induction false} FilterLinesAppend(a: seq<string>, b: seq<string>)
    ensures FilterLines(a + b) == FilterLines(a) + FilterLines(b)
    decreases |a|
  {
    if a == [] {
      assert a + b == b;
    } else {
      FilterLinesAppend(a[1..], b);
      HeadTail(a, b);
      FilterLinesCons(a[0], a[1..] + b);
      FilterLinesCons(a[0], a[1..]);
      Assoc(if KeepsLine(a[0]) then [a[0]] else [], FilterLines(a[1..]), FilterLines(b));
    }
  }

  /** Unlike the older script's cleaning, this filter does not remove a
      comment that follows other text: `"a": 1, // b` is kept whole, comment
      included. */
  lemma TrailingCommentKept()
    ensures var line := "\"a\": 1, // b";
      FilterLines([line]) == [line] && JsonComments.FirstComment(line) == Some(8)
  {
    var line := "\"a\": 1, // b";
    KeepsTrimmedLine(line);
    FilterLinesCons(line, []);
    assert [line] + [] == [line];
    JsonComments.StringThenComment(line, 1, 8);
  }

  /** A line that neither starts nor ends with whitespace, and does not start
      with a slash, is kept. */
  lemma KeepsTrimmedLine(line: string)
    requires |line| > 0 && !IsSpace(line[0]) && !IsSpace(line[|line| - 1]) && line[0] != '/'
    ensures KeepsLine(line)
  {
    assert LStripBy(line, Whitespace) == line;
    assert Strip(line) == line;
  }
}

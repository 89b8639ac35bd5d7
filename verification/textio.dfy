/** What a text-mode `open(..., "r")` shows of a stored file: newline
    translation, `readlines()`, and the head/tail selection of
    `read_text_file`. */
module TextIO {
  import opened Wrappers
  import opened PyStr

  /** Universal newlines: `\r\n` and a lone `\r` both read as `\n`. */
  function Translate(s: string): (r: string)
    ensures '\r' !in r
    ensures |r| <= |s|
    decreases |s|
  {
    if |s| == 0 then ""
    else if s[0] == '\r' then
      if |s| > 1 && s[1] == '\n' then "\n" + Translate(s[2..]) else "\n" + Translate(s[1..])
    else [s[0]] + Translate(s[1..])
  }

  /** Text without carriage returns reads back unchanged. */
  lemma {:induction false} TranslateNoCR(s: string)
    requires '\r' !in s
    ensures Translate(s) == s
    decreases |s|
  {
    if |s| > 0 {
      TranslateNoCR(s[1..]);
      assert s == [s[0]] + s[1..];
    }
  }

  /** A translated text is translated again to itself. */
  lemma TranslateIdempotent(s: string)
    ensures Translate(Translate(s)) == Translate(s)
  {
    TranslateNoCR(Translate(s));
  }

  /** `"".join(lines)` */
  function Concat(lines: seq<string>): string {
    if |lines| == 0 then "" else lines[0] + Concat(lines[1..])
  }

  lemma {:induction false} ConcatAppend(a: seq<string>, b: seq<string>)
    ensures Concat(a + b) == Concat(a) + Concat(b)
    decreases |a|
  {
    if |a| > 0 {
      ConcatAppend(a[1..], b);
      assert (a + b)[1..] == a[1..] + b;
    } else {
      assert a + b == b;
    }
  }

  /** `readlines()`: the pieces ending in `\n`, and a last piece without one
      if the text does not end in a newline. */
  function Lines(s: string): seq<string> {
    LinesFrom(s, "")
  }

  /** The scan behind `Lines`, with the line read so far in `cur`. */
  function LinesFrom(s: string, cur: string): seq<string>
    decreases |s|
  {
    if |s| == 0 then (if cur == "" then [] else [cur])
    else if s[0] == '\n' then [cur + "\n"] + LinesFrom(s[1..], "")
    else LinesFrom(s[1..], cur + [s[0]])
  }

  /** A line holds a newline only as its last character. */
  predicate IsLine(l: string) {
    l != "" && forall i :: 0 <= i < |l| - 1 ==> l[i] != '\n'
  }

  lemma {:induction false} LinesFromFacts(s: string, cur: string)
    requires '\n' !in cur
    ensures Concat(LinesFrom(s, cur)) == cur + s
    ensures forall i :: 0 <= i < |LinesFrom(s, cur)| ==> IsLine(LinesFrom(s, cur)[i])
    ensures forall i :: 0 <= i < |LinesFrom(s, cur)| - 1 ==> EndsWith(LinesFrom(s, cur)[i], "\n")
    decreases |s|
  {
    if |s| == 0 {
      assert cur + s == cur;
    } else if s[0] == '\n' {
      var rest := LinesFrom(s[1..], "");
      LinesFromFacts(s[1..], "");
      assert cur + s == (cur + "\n") + ("" + s[1..]);
      assert ([cur + "\n"] + rest)[1..] == rest;
      assert IsLine(cur + "\n");
    } else {
      LinesFromFacts(s[1..], cur + [s[0]]);
      assert cur + s == cur + [s[0]] + s[1..];
    }
  }

  /** Concatenating the lines gives the text back; every line but the last
      ends in `\n`, and none has a newline anywhere else. */
  lemma LinesFacts(s: string)
    ensures Concat(Lines(s)) == s
    ensures forall i :: 0 <= i < |Lines(s)| ==> IsLine(Lines(s)[i])
    ensures forall i :: 0 <= i < |Lines(s)| - 1 ==> EndsWith(Lines(s)[i], "\n")
  {
    LinesFromFacts(s, "");
    assert "" + s == s;
  }

  /** Python truthiness of an optional count: `None` and `0` are false. */
  predicate Truthy(n: Option<int>) {
    n.Some? && n.value != 0
  }

  /** Where `lines[-t:]` starts in a list of `n` lines. */
  function TailStart(n: nat, t: int): (r: nat)
    ensures r <= n
    ensures t > 0 ==> r == (if t >= n then 0 else n - t)
    ensures t < 0 ==> r == (if -t >= n then n else -t)
  {
    var x := -t;
    if x < 0 then (if n + x < 0 then 0 else n + x)
    else (if x > n then n else x)
  }

  /** How many lines the `head` loop keeps: it stops at the first index
      `i >= h`. */
  function HeadCount(n: nat, h: int): (r: nat)
    ensures r <= n
    ensures h <= 0 ==> r == 0
    ensures h > 0 ==> r == (if h >= n then n else h)
  {
    if h <= 0 then 0 else if h >= n then n else h
  }

  /** The text `read_text_file` returns for a stored content: a truthy `tail`
      wins over `head`; with neither, the whole translated text. */
  function ReadText(content: string, head: Option<int>, tail: Option<int>): (r: string)
    ensures Truthy(tail) ==> EndsWith(Translate(content), r)
    ensures !Truthy(tail) && Truthy(head) ==> StartsWith(Translate(content), r)
    ensures !Truthy(tail) && !Truthy(head) ==> r == Translate(content)
  {
    var text := Translate(content);
    var lines := Lines(text);
    if Truthy(tail) then
      SplitLines(text, TailStart(|lines|, tail.value));
      Concat(lines[TailStart(|lines|, tail.value)..])
    else if Truthy(head) then
      SplitLines(text, HeadCount(|lines|, head.value));
      Concat(lines[..HeadCount(|lines|, head.value)])
    else text
  }

  /** The head/tail selections are a prefix and a suffix of the translated
      text, made of whole lines. */
  lemma ReadTextShape(content: string, head: Option<int>, tail: Option<int>)
    ensures var text := Translate(content);
      var r := ReadText(content, head, tail);
      && (Truthy(tail) ==> EndsWith(text, r) && r == Concat(Lines(text)[TailStart(|Lines(text)|, tail.value)..]))
      && (!Truthy(tail) && Truthy(head) ==> StartsWith(text, r) && r == Concat(Lines(text)[..HeadCount(|Lines(text)|, head.value)]))
      && (!Truthy(tail) && !Truthy(head) ==> r == text)
  {
    var text := Translate(content);
    var lines := Lines(text);
    if Truthy(tail) {
      SplitLines(text, TailStart(|lines|, tail.value));
    } else if Truthy(head) {
      SplitLines(text, HeadCount(|lines|, head.value));
    }
  }

  /** The lines before a cut and the lines after it give a prefix and a
      suffix of the text that together make it up. */
  lemma SplitLines(text: string, k: nat)
    requires k <= |Lines(text)|
    ensures var lines := Lines(text);
      text == Concat(lines[..k]) + Concat(lines[k..])
  {
    var lines := Lines(text);
    LinesFacts(text);
    assert lines == lines[..k] + lines[k..];
    ConcatAppend(lines[..k], lines[k..]);
  }

  /** A tail at least as long as the file returns the whole text, as does a
      head at least as long. */
  lemma ReadTextLongWindow(content: string, n: int)
    requires n >= |Lines(Translate(content))|
    ensures ReadText(content, None, Some(n)) == Translate(content) || n == 0
    ensures ReadText(content, Some(n), None) == Translate(content) || n == 0
  {
    var lines := Lines(Translate(content));
    LinesFacts(Translate(content));
    assert lines[0..] == lines;
    assert lines[..|lines|] == lines;
  }
}

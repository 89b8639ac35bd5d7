/** `str.split()` with no argument: the runs of non-whitespace characters. */
module PyWords {
  import opened PyStr

  /** `s.split()`: scans left to right, closing the current word at each
      whitespace character and dropping the empty ones. */
  function Words(s: string): seq<string> {
    WordsFrom(s, "")
  }

  /** The scan with the word read so far in `cur`. */
  function WordsFrom(s: string, cur: string): seq<string>
    decreases |s|
  {
    if |s| == 0 then (if cur == "" then [] else [cur])
    else if IsSpace(s[0]) then (if cur == "" then WordsFrom(s[1..], "") else [cur] + WordsFrom(s[1..], ""))
    else WordsFrom(s[1..], cur + [s[0]])
  }
}

/** Facts about `str.split()` that the filename cleaner relies on. */
module WordFacts {
  import opened PyStr
  import opened PyWords

  /** Every character of a word of the scan comes from the pending word or
      from the rest of the input: `k` says where. */
  lemma {:induction false} WordsFromChars(s: string, cur: string, i: int, j: int) returns (inCur: bool, k: int)
    requires 0 <= i < |WordsFrom(s, cur)| && 0 <= j < |WordsFrom(s, cur)[i]|
    ensures inCur ==> 0 <= k < |cur| && cur[k] == WordsFrom(s, cur)[i][j]
    ensures !inCur ==> 0 <= k < |s| && s[k] == WordsFrom(s, cur)[i][j]
    decreases |s|
  {
    if |s| == 0 {
      inCur, k := true, j;
    } else if IsSpace(s[0]) {
      var rest := WordsFrom(s[1..], "");
      if cur != "" && i == 0 {
        inCur, k := true, j;
      } else {
        var i' := if cur == "" then i else i - 1;
        assert WordsFrom(s, cur)[i] == rest[i'];
        var c, m := WordsFromChars(s[1..], "", i', j);
        inCur, k := false, m + 1;
      }
    } else {
      var c, m := WordsFromChars(s[1..], cur + [s[0]], i, j);
      if c && m < |cur| {
        inCur, k := true, m;
      } else if c {
        inCur, k := false, 0;
      } else {
        inCur, k := false, m + 1;
      }
    }
  }

  /** Every character of a word comes from the input: `k` is where. */
  lemma WordsChars(s: string, i: int, j: int) returns (k: int)
    requires 0 <= i < |Words(s)| && 0 <= j < |Words(s)[i]|
    ensures 0 <= k < |s| && s[k] == Words(s)[i][j]
  {
    var c, m := WordsFromChars(s, "", i, j);
    k := m;
  }

  /** Scanning a run without whitespace only extends the pending word. */
  lemma {:induction false} WordsFromNoSpace(s: string, cur: string)
    requires cur + s != [] && forall i :: 0 <= i < |s| ==> !IsSpace(s[i])
    ensures WordsFrom(s, cur) == [cur + s]
    decreases |s|
  {
    if |s| > 0 {
      WordsFromNoSpace(s[1..], cur + [s[0]]);
      assert cur + [s[0]] + s[1..] == cur + s;
    } else {
      assert cur + s == cur;
    }
  }

  /** A non-empty string without whitespace is its own single word. */
  lemma WordsOfWord(s: string)
    requires s != [] && forall i :: 0 <= i < |s| ==> !IsSpace(s[i])
    ensures Words(s) == [s]
  {
    WordsFromNoSpace(s, "");
    assert "" + s == s;
  }

  /** A whitespace run closes the pending word and yields nothing more. */
  lemma {:induction false} WordsFromSpaces(s: string, cur: string)
    requires forall i :: 0 <= i < |s| ==> IsSpace(s[i])
    ensures WordsFrom(s, cur) == (if cur == "" then [] else [cur])
    decreases |s|
  {
    if |s| > 0 {
      WordsFromSpaces(s[1..], "");
    }
  }

  /** Leading whitespace yields no word. */
  lemma {:induction false} WordsSkipSpaces(a: string, x: string)
    requires forall i :: 0 <= i < |a| ==> IsSpace(a[i])
    ensures Words(a + x) == Words(x)
    decreases |a|
  {
    if |a| > 0 {
      WordsSkipSpaces(a[1..], x);
      assert (a + x)[0] == a[0] && (a + x)[1..] == a[1..] + x;
      assert WordsFrom(a + x, "") == WordsFrom(a[1..] + x, "");
    } else {
      assert a + x == x;
    }
  }

  /** A run without whitespace that ends at a whitespace character is one word
      (when it and the pending word are not both empty), and the scan starts
      afresh after that whitespace character. */
  lemma {:induction false} WordsFromRun(w: string, rest: string, cur: string)
    requires forall i :: 0 <= i < |w| ==> !IsSpace(w[i])
    requires rest != [] && IsSpace(rest[0])
    ensures WordsFrom(w + rest, cur) == (if cur + w == "" then [] else [cur + w]) + WordsFrom(rest[1..], "")
    decreases |w|
  {
    if |w| == 0 {
      assert w + rest == rest && cur + w == cur;
    } else {
      WordsFromRun(w[1..], rest, cur + [w[0]]);
      assert (w + rest)[1..] == w[1..] + rest;
      assert cur + [w[0]] + w[1..] == cur + w;
    }
  }
}

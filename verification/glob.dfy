/** Shell-style wildcard matching as `fnmatch.fnmatch` does it on POSIX
    (case-sensitive, whole-string): `*` matches any run of characters, `?` any
    single character, every other character itself. Bracket classes are not
    part of this model. */
module Glob {
  import opened PyStr

  /** How many characters of `s` the pattern `p` consumes at the least:
      one for each character but `*`. */
  function FixedLength(p: string): nat
    decreases |p|
  {
    if p == [] then 0 else (if p[0] == '*' then 0 else 1) + FixedLength(p[1..])
  }

  function Match(s: string, p: string): (r: bool)
    ensures r ==> FixedLength(p) <= |s|
    decreases |p|, |s|
  {
    if |p| == 0 then |s| == 0
    else if p[0] == '*' then Match(s, p[1..]) || (|s| > 0 && Match(s[1..], p))
    else |s| > 0 && (p[0] == '?' || p[0] == s[0]) && Match(s[1..], p[1..])
  }

  /** A pattern with no wildcard characters. */
  predicate Literal(p: string) {
    '*' !in p && '?' !in p
  }

  /** A literal pattern matches exactly the string it spells. */
  lemma {:induction false} LiteralMatchesOnlyItself(s: string, p: string)
    requires Literal(p)
    ensures Match(s, p) <==> s == p
    decreases |p|
  {
    if |p| > 0 && |s| > 0 {
      LiteralMatchesOnlyItself(s[1..], p[1..]);
      assert s == [s[0]] + s[1..];
      assert p == [p[0]] + p[1..];
    }
  }

  /** `*` alone matches every string. */
  lemma {:induction false} StarMatchesAll(s: string)
    ensures Match(s, "*")
    decreases |s|
  {
    if |s| > 0 {
      StarMatchesAll(s[1..]);
    }
  }

  /** `*` followed by a literal suffix matches exactly the strings ending with it;
      so `*.json` selects the names ending in `.json`. */
  lemma {:induction false} StarSuffix(s: string, lit: string)
    requires Literal(lit)
    ensures Match(s, ['*'] + lit) <==> EndsWith(s, lit)
    decreases |s|
  {
    var p := ['*'] + lit;
    assert p[1..] == lit;
    LiteralMatchesOnlyItself(s, lit);
    if |s| > 0 {
      StarSuffix(s[1..], lit);
      if |lit| <= |s| - 1 {
        assert s[1..][|s[1..]| - |lit|..] == s[|s| - |lit|..];
      }
      if EndsWith(s, lit) && |lit| == |s| {
        assert s == lit;
      }
    }
  }
}

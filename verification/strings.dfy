/** The two Python string operations the selection parser uses: `str.split(sep)`
    with an explicit one-character separator, and `str.strip()` with no argument,
    plus `sep.join(parts)`. */
module Strings {

  /** Python's `str.isspace()` for one character: the Unicode white-space code points. */
  predicate IsSpace(c: char) {
    var n := c as int;
    || 0x09 <= n <= 0x0D
    || 0x1C <= n <= 0x20
    || n == 0x85 || n == 0xA0 || n == 0x1680
    || 0x2000 <= n <= 0x200A
    || n == 0x2028 || n == 0x2029 || n == 0x202F || n == 0x205F || n == 0x3000
  }

  predicate AllSpace(s: string) {
    forall i :: 0 <= i < |s| ==> IsSpace(s[i])
  }

  /** Neither end of `s` is white space (vacuously true of ""). */
  predicate Trimmed(s: string) {
    |s| == 0 || (!IsSpace(s[0]) && !IsSpace(s[|s| - 1]))
  }

  /** `str.lstrip()`: the suffix left after removing all leading white space. */
  function TrimStart(s: string): (r: string)
    ensures |r| <= |s| && r == s[|s| - |r|..]
    ensures AllSpace(s[..|s| - |r|])
    ensures |r| == 0 || !IsSpace(r[0])
  {
    if |s| > 0 && IsSpace(s[0]) then
      var r := TrimStart(s[1..]);
      assert s[..|s| - |r|] == [s[0]] + s[1..][..|s| - 1 - |r|];
      r
    else s
  }

  /** `str.rstrip()`: the prefix left after removing all trailing white space. */
  function TrimEnd(s: string): (r: string)
    ensures |r| <= |s| && r == s[..|r|]
    ensures AllSpace(s[|r|..])
    ensures |r| == 0 || !IsSpace(r[|r| - 1])
  {
    if |s| > 0 && IsSpace(s[|s| - 1]) then
      var r := TrimEnd(s[..|s| - 1]);
      assert s[|r|..] == s[..|s| - 1][|r|..] + [s[|s| - 1]];
      r
    else s
  }

  /** `str.strip()`: white space removed from both ends. The result neither
      starts nor ends with white space. */
  function Strip(s: string): (r: string)
    ensures Trimmed(r) && |r| <= |s|
  {
    TrimEnd(TrimStart(s))
  }

  /** `s` is `r` with only white space before it (the first `k` characters) and
      after it. */
  predicate PaddedAt(s: string, r: string, k: nat) {
    && k + |r| <= |s|
    && r == s[k..k + |r|]
    && AllSpace(s[..k])
    && AllSpace(s[k + |r|..])
  }

  /** What `strip` removes is white space only: the input is the result with
      white space before and after it. */
  lemma StripIsPadded(s: string)
    ensures exists k :: PaddedAt(s, Strip(s), k)
  {
    var t := TrimStart(s);
    var r := TrimEnd(t);
    var k := |s| - |t|;
    assert s[k..k + |r|] == t[..|r|];
    assert s[k + |r|..] == t[|r|..];
    assert Strip(s) == r && PaddedAt(s, r, k);
  }

  /** Leading white space in front of a string that does not start with white
      space is exactly what `TrimStart` removes. */
  lemma {:induction false} TrimStartOf(pre: string, t: string)
    requires AllSpace(pre)
    requires |t| == 0 || !IsSpace(t[0])
    ensures TrimStart(pre + t) == t
  {
    if |pre| > 0 {
      assert (pre + t)[1..] == pre[1..] + t;
      TrimStartOf(pre[1..], t);
    } else {
      assert pre + t == t;
    }
  }

  /** Trailing white space behind a string that does not end with white space is
      exactly what `TrimEnd` removes. */
  lemma {:induction false} TrimEndOf(t: string, post: string)
    requires AllSpace(post)
    requires |t| == 0 || !IsSpace(t[|t| - 1])
    ensures TrimEnd(t + post) == t
  {
    if |post| > 0 {
      var post0 := post[..|post| - 1];
      assert (t + post)[..|t + post| - 1] == t + post0;
      TrimEndOf(t, post0);
    } else {
      assert t + post == t;
    }
  }

  /** `strip` recovers any trimmed string from any white-space padding around it. */
  lemma StripOf(pre: string, t: string, post: string)
    requires AllSpace(pre) && AllSpace(post) && Trimmed(t)
    ensures Strip(pre + t + post) == t
  {
    if |t| == 0 {
      assert pre + t + post == pre + post;
      TrimStartOf(pre + post, "");
      assert pre + post + "" == pre + post;
      TrimEndOf("", "");
    } else {
      assert pre + t + post == pre + (t + post);
      TrimStartOf(pre, t + post);
      TrimEndOf(t, post);
    }
  }

  /** Stripping twice is stripping once. */
  lemma StripIdempotent(s: string)
    ensures Strip(Strip(s)) == Strip(s)
  {
    var r := Strip(s);
    StripOf("", r, "");
    assert "" + r + "" == r;
  }

  /** Python's `sep.join(parts)`. */
  function Join(parts: seq<string>, sep: string): (r: string)
    ensures |parts| > 0 ==> parts[0] <= r
    ensures forall c :: c in r ==> c in sep || exists i :: 0 <= i < |parts| && c in parts[i]
  {
    if |parts| == 0 then ""
    else if |parts| == 1 then parts[0]
    else parts[0] + sep + Join(parts[1..], sep)
  }

  /** Python's `s.split(sep)` for a one-character separator: the maximal
      separator-free pieces, which joined back with `sep` give `s` again. */
  function Split(s: string, sep: char): (parts: seq<string>)
    ensures |parts| >= 1
    ensures forall i :: 0 <= i < |parts| ==> sep !in parts[i]
    ensures Join(parts, [sep]) == s
  {
    if |s| == 0 then [""]
    else
      var rest := Split(s[1..], sep);
      if s[0] == sep then
        var parts := [""] + rest;
        assert parts[1..] == rest;
        parts
      else
        var parts := [[s[0]] + rest[0]] + rest[1..];
        assert |rest| > 1 ==> Join(rest, [sep]) == rest[0] + [sep] + Join(rest[1..], [sep]);
        assert parts[1..] == rest[1..];
        parts
  }

  /** A separator-free string is not split. */
  lemma {:induction false} SplitNone(p: string, sep: char)
    requires sep !in p
    ensures Split(p, sep) == [p]
  {
    if |p| > 0 {
      SplitNone(p[1..], sep);
      assert [p[0]] + p[1..] == p;
    }
  }

  /** Splitting `p sep t` yields `p` followed by the pieces of `t`. */
  lemma {:induction false} SplitAfter(p: string, sep: char, t: string)
    requires sep !in p
    ensures Split(p + [sep] + t, sep) == [p] + Split(t, sep)
  {
    var s := p + [sep] + t;
    if |p| == 0 {
      assert s[1..] == t;
    } else {
      assert s[1..] == p[1..] + [sep] + t;
      SplitAfter(p[1..], sep, t);
      assert [p[0]] + p[1..] == p;
    }
  }

  /** The other direction of the round trip: splitting the join of
      separator-free pieces gives the pieces back. */
  lemma {:induction false} SplitJoin(parts: seq<string>, sep: char)
    requires |parts| >= 1
    requires forall i :: 0 <= i < |parts| ==> sep !in parts[i]
    ensures Split(Join(parts, [sep]), sep) == parts
  {
    if |parts| == 1 {
      SplitNone(parts[0], sep);
    } else {
      SplitJoin(parts[1..], sep);
      SplitAfter(parts[0], sep, Join(parts[1..], [sep]));
      assert [parts[0]] + parts[1..] == parts;
    }
  }
}

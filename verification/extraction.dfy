/** Cutting the structured payload out of the extraction backend's free-text
    reply: `re.search(r'\{.*\}', reply, re.DOTALL)` and `group(0)`. */
module Extraction {
  import opened Wrappers

  /** The first position of `c` in `s`, if any. */
  function FirstIndex(s: string, c: char): (r: Option<nat>)
    ensures r.None? <==> c !in s
    ensures r.Some? ==> r.value < |s| && s[r.value] == c
    ensures r.Some? ==> forall k :: 0 <= k < r.value ==> s[k] != c
  {
    if |s| == 0 then None
    else if s[0] == c then Some(0)
    else
      match FirstIndex(s[1..], c)
      case None =>
        assert s == [s[0]] + s[1..];
        None
      case Some(i) =>
        assert forall k :: 1 <= k < i + 1 ==> s[k] == s[1..][k - 1];
        Some(i + 1)
  }

  /** The last position of `c` in `s`, if any. */
  function LastIndex(s: string, c: char): (r: Option<nat>)
    ensures r.None? <==> c !in s
    ensures r.Some? ==> r.value < |s| && s[r.value] == c
    ensures r.Some? ==> forall k :: r.value < k < |s| ==> s[k] != c
  {
    if |s| == 0 then None
    else if s[|s| - 1] == c then Some(|s| - 1)
    else
      assert s == s[..|s| - 1] + [s[|s| - 1]];
      LastIndex(s[..|s| - 1], c)
  }

  /** A half-open range `[start, end)` of the reply. */
  datatype Span = Span(start: nat, end: nat)

  /** The reply has an opening brace with a closing brace somewhere after it:
      exactly the replies on which the pattern matches. */
  predicate HasBracePair(s: string) {
    exists i, j :: 0 <= i < j < |s| && s[i] == '{' && s[j] == '}'
  }

  /** The span `\{.*\}` matches in DOTALL mode: from the first `{` to the last `}`,
      both included, provided that `}` comes after that `{`. */
  function BraceSpan(s: string): (r: Option<Span>)
    ensures r.Some? <==> HasBracePair(s)
    ensures r.Some? ==>
      && r.value.start < r.value.end <= |s|
      && s[r.value.start] == '{' && s[r.value.end - 1] == '}'
      && (forall k :: 0 <= k < r.value.start ==> s[k] != '{')
      && (forall k :: r.value.end <= k < |s| ==> s[k] != '}')
  {
    match FirstIndex(s, '{')
    case None => None
    case Some(i) =>
      match LastIndex(s, '}')
      case None => None
      case Some(j) =>
        if i < j then Some(Span(i, j + 1))
        else None
  }

  /** `json_match.group(0)`: the matched text. */
  function MatchedText(s: string, span: Span): (r: string)
    requires span.start <= span.end <= |s|
    ensures |r| == span.end - span.start
    ensures BraceSpan(s) == Some(span) ==>
              && |r| >= 2 && r[0] == '{' && r[|r| - 1] == '}'
              && '{' !in s[..span.start] && '}' !in s[span.end..]
  {
    s[span.start..span.end]
  }

  /** The backtracking search `re.search` performs for `\{.*\}` under DOTALL: try
      each start position from the left; at a `{`, let `.*` take the rest of the
      reply and give characters back one at a time until a `}` follows. */
  method SearchGreedy(s: string) returns (m: Option<Span>)
    ensures m == BraceSpan(s)
  {
    var start := 0;
    while start < |s|
      invariant 0 <= start <= |s|
      invariant forall i, j :: 0 <= i < start && i < j < |s| && s[i] == '{' ==> s[j] != '}'
    {
      if s[start] == '{' {
        var end := |s|;
        while end > start + 1
          invariant start + 1 <= end <= |s|
          invariant forall j :: end <= j < |s| ==> s[j] != '}'
        {
          if s[end - 1] == '}' {
            m := Some(Span(start, end));
            SpanIsMatch(s, start, end);
            return;
          }
          end := end - 1;
        }
      }
      start := start + 1;
    }
    m := None;
  }

  /** The first successful start and end the search finds is the match span. */
  lemma SpanIsMatch(s: string, start: nat, end: nat)
    requires start + 1 < end <= |s| && s[start] == '{' && s[end - 1] == '}'
    requires forall i, j :: 0 <= i < start && i < j < |s| && s[i] == '{' ==> s[j] != '}'
    requires forall j :: end <= j < |s| ==> s[j] != '}'
    ensures BraceSpan(s) == Some(Span(start, end))
  {
    assert HasBracePair(s);
  }

  /** Prose around the payload is stripped: text before it without `{` and text
      after it without `}` leave exactly the payload as the match. */
  lemma ProseIsStripped(before: string, payload: string, after: string)
    requires |payload| >= 2 && payload[0] == '{' && payload[|payload| - 1] == '}'
    requires '{' !in before && '}' !in after
    ensures var s := before + payload + after;
            BraceSpan(s) == Some(Span(|before|, |before| + |payload|))
            && MatchedText(s, Span(|before|, |before| + |payload|)) == payload
  {
    var s := before + payload + after;
    var start, end := |before|, |before| + |payload|;
    assert s[start] == '{' && s[end - 1] == '}';
    assert s[start..end] == payload;
    assert forall k :: 0 <= k < start ==> s[k] == before[k];
    assert forall k :: end <= k < |s| ==> s[k] == after[k - end];
    SpanIsMatch(s, start, end);
  }

  /** Matching again on the matched text returns all of it. */
  lemma MatchIsStable(s: string)
    requires BraceSpan(s).Some?
    ensures var t := MatchedText(s, BraceSpan(s).value);
            BraceSpan(t) == Some(Span(0, |t|))
  {
    var t := MatchedText(s, BraceSpan(s).value);
    SpanIsMatch(t, 0, |t|);
  }
}

/** Expansion of ${NAME} and ${NAME:default} in configuration text: the pattern as a
    relation, a scanner for it, and the leftmost, non-overlapping rewriting built on it. */
module EnvTemplate {
  import opened Options

  type Env = map<string, string>

  // ---------------------------------------------------------------- the pattern

  predicate Without(s: string, c: char) {
    forall i :: 0 <= i < |s| ==> s[i] != c
  }

  predicate IsName(name: string) {
    name != "" && Without(name, '}') && Without(name, ':')
  }

  predicate IsDefault(default: Option<string>) {
    default.Some? ==> Without(default.value, '}')
  }

  function VarText(name: string, default: Option<string>): string {
    "${" + name + (if default.Some? then ":" + default.value else "") + "}"
  }

  /** The pattern matches s[i..j], with these groups. */
  ghost predicate IsMatch(s: string, i: nat, j: nat, name: string, default: Option<string>) {
    i <= j <= |s| && IsName(name) && IsDefault(default) && s[i..j] == VarText(name, default)
  }

  // ---------------------------------------------------------------- the scanner

  datatype Match = Match(length: nat, name: string, default: Option<string>)

  /** The number of leading characters before the first stop, or all of them. */
  function Span(s: string, stop: char, alsoStop: char): (n: nat)
    ensures n <= |s|
    ensures Without(s[..n], stop) && Without(s[..n], alsoStop)
    ensures n < |s| ==> s[n] == stop || s[n] == alsoStop
  {
    if s == "" || s[0] == stop || s[0] == alsoStop then 0
    else
      var n := Span(s[1..], stop, alsoStop);
      assert s[..n + 1] == [s[0]] + s[1..][..n];
      n + 1
  }

  /** The match at the start of s, if there is one. */
  function Head(s: string): (m: Option<Match>)
    ensures m.Some? ==> 0 < m.value.length <= |s|
  {
    if |s| < 2 || s[0] != '$' || s[1] != '{' then None
    else
      var n := 2 + Span(s[2..], '}', ':');
      if n == 2 || n == |s| then None
      else if s[n] == '}' then Some(Match(n + 1, s[2..n], None))
      else
        var d := n + 1 + Span(s[n + 1..], '}', '}');
        if d == |s| then None else Some(Match(d + 1, s[2..n], Some(s[n + 1..d])))
  }

  /** The scanner finds exactly what the pattern allows; hence at most one match starts at
      each position, and greedy and lazy readings of the pattern agree. */
  lemma HeadIffMatch(s: string, i: nat, m: Match)
    requires i <= |s|
    ensures Head(s[i..]) == Some(m) <==> IsMatch(s, i, i + m.length, m.name, m.default)
  {
    var t := s[i..];
    if Head(t) == Some(m) {
      HeadIsMatch(t, m);
      assert s[i..i + m.length] == t[..m.length];
    }
    if IsMatch(s, i, i + m.length, m.name, m.default) {
      assert s[i..i + m.length] == t[..m.length];
      assert t == VarText(m.name, m.default) + t[m.length..];
      MatchIsHead(t[m.length..], m.name, m.default);
    }
  }

  lemma HeadIsMatch(s: string, m: Match)
    requires Head(s) == Some(m)
    ensures IsName(m.name) && IsDefault(m.default) && s[..m.length] == VarText(m.name, m.default)
  {
    var n := 2 + Span(s[2..], '}', ':');
    assert s[2..n] == s[2..][..n - 2];
    if s[n] != '}' {
      assert s[n] == s[2..][n - 2] == ':';
      var d := n + 1 + Span(s[n + 1..], '}', '}');
      assert s[n + 1..d] == s[n + 1..][..d - n - 1];
      assert s[d] == s[n + 1..][d - n - 1];
    }
  }

  lemma {:induction false} SpanIs(a: string, rest: string, stop: char, alsoStop: char)
    requires Without(a, stop) && Without(a, alsoStop)
    requires rest != "" && (rest[0] == stop || rest[0] == alsoStop)
    ensures Span(a + rest, stop, alsoStop) == |a|
  {
    if a == "" {
      assert a + rest == rest;
    } else {
      assert (a + rest)[0] == a[0] && (a + rest)[1..] == a[1..] + rest;
      SpanIs(a[1..], rest, stop, alsoStop);
    }
  }

  lemma PlainIsHead(rest: string, name: string)
    requires IsName(name)
    ensures Head("${" + name + ("}" + rest)) == Some(Match(|name| + 3, name, None))
  {
    var s := "${" + name + ("}" + rest);
    assert s[2..] == name + ("}" + rest);
    SpanIs(name, "}" + rest, '}', ':');
    assert s[2..2 + |name|] == name;
  }

  lemma DefaultedIsHead(rest: string, name: string, default: string)
    requires IsName(name) && Without(default, '}')
    ensures Head("${" + name + (":" + (default + ("}" + rest)))) ==
            Some(Match(|name| + |default| + 4, name, Some(default)))
  {
    var afterColon := default + ("}" + rest);
    var s := "${" + name + (":" + afterColon);
    assert s[2..] == name + (":" + afterColon);
    SpanIs(name, ":" + afterColon, '}', ':');
    var n := 2 + |name|;
    assert s[2..n] == name && s[n] == ':' && s[n + 1..] == afterColon;
    SpanIs(default, "}" + rest, '}', '}');
    assert s[n + 1..n + 1 + |default|] == default;
  }

  lemma PlainText(name: string, rest: string)
    ensures VarText(name, None) + rest == "${" + name + ("}" + rest)
  {
  }

  lemma DefaultedText(name: string, default: string, rest: string)
    ensures VarText(name, Some(default)) + rest == "${" + name + (":" + (default + ("}" + rest)))
  {
  }

  lemma PlainMatchIsHead(rest: string, name: string)
    requires IsName(name)
    ensures Head(VarText(name, None) + rest) == Some(Match(|VarText(name, None)|, name, None))
  {
    PlainText(name, rest);
    PlainIsHead(rest, name);
  }

  lemma DefaultedMatchIsHead(rest: string, name: string, default: string)
    requires IsName(name) && Without(default, '}')
    ensures Head(VarText(name, Some(default)) + rest) ==
            Some(Match(|VarText(name, Some(default))|, name, Some(default)))
  {
    DefaultedText(name, default, rest);
    DefaultedIsHead(rest, name, default);
  }

  lemma MatchIsHead(rest: string, name: string, default: Option<string>)
    requires IsName(name) && IsDefault(default)
    ensures Head(VarText(name, default) + rest) == Some(Match(|VarText(name, default)|, name, default))
  {
    if default.Some? {
      DefaultedMatchIsHead(rest, name, default.value);
    } else {
      PlainMatchIsHead(rest, name);
    }
  }

  // ---------------------------------------------------------------- the rewriting

  /** A variable that is unset, or set to the empty string, takes its default. */
  function Value(name: string, default: Option<string>, env: Env): string {
    if name in env && env[name] != "" then env[name]
    else if default.Some? then default.value
    else ""
  }

  /** The callback sees only the matched text and searches it again for the groups. */
  function Callback(text: string, env: Env): string
    decreases |text|
  {
    if text == "" then text
    else match Head(text)
      case Some(m) => Value(m.name, m.default, env)
      case None => Callback(text[1..], env)
  }

  /** Searching the matched text again gives the groups of the match. */
  lemma CallbackSeesGroups(s: string, env: Env)
    requires Head(s).Some?
    ensures Callback(s[..Head(s).value.length], env) == Value(Head(s).value.name, Head(s).value.default, env)
  {
    var m := Head(s).value;
    HeadIsMatch(s, m);
    MatchIsHead("", m.name, m.default);
    assert s[..m.length] == VarText(m.name, m.default) + "";
  }

  function Expand(s: string, env: Env): string
    decreases |s|
  {
    if s == "" then ""
    else match Head(s)
      case Some(m) => Callback(s[..m.length], env) + Expand(s[m.length..], env)
      case None => [s[0]] + Expand(s[1..], env)
  }

  datatype Range = Range(from: nat, to: nat)

  ghost predicate MatchesRange(s: string, r: Range) {
    exists name, default :: IsMatch(s, r.from, r.to, name, default)
  }

  ghost predicate MatchStarts(s: string, i: nat) {
    exists j :: MatchesRange(s, Range(i, j))
  }

  /** Leftmost and non-overlapping, from position p on: the ranges are matches in order, and
      no match starts outside them. */
  ghost predicate LeftmostRanges(s: string, p: nat, ranges: seq<Range>) {
    && (forall k :: 0 <= k < |ranges| ==> MatchesRange(s, ranges[k]) && p <= ranges[k].from)
    && (forall k, l :: 0 <= k < l < |ranges| ==> ranges[k].to <= ranges[l].from)
    && (forall i: nat :: p <= i < |s| && MatchStarts(s, i) ==>
          exists k :: 0 <= k < |ranges| && ranges[k].from <= i < ranges[k].to)
  }

  /** The text from p on with each range replaced. */
  function Splice(s: string, p: nat, ranges: seq<Range>, env: Env): string
    requires p <= |s|
    requires forall k :: 0 <= k < |ranges| ==> p <= ranges[k].from <= ranges[k].to <= |s|
    requires forall k, l :: 0 <= k < l < |ranges| ==> ranges[k].to <= ranges[l].from
    decreases |ranges|
  {
    if ranges == [] then s[p..]
    else
      s[p..ranges[0].from] + Callback(s[ranges[0].from..ranges[0].to], env) +
      Splice(s, ranges[0].to, ranges[1..], env)
  }

  lemma MatchStartsIffHead(s: string, i: nat)
    requires i <= |s|
    ensures MatchStarts(s, i) <==> Head(s[i..]).Some?
    ensures forall j: nat :: MatchesRange(s, Range(i, j)) <==> Head(s[i..]).Some? && j == i + Head(s[i..]).value.length
  {
    forall j: nat | MatchesRange(s, Range(i, j))
      ensures Head(s[i..]).Some? && j == i + Head(s[i..]).value.length
    {
      var name, default :| IsMatch(s, i, j, name, default);
      HeadIffMatch(s, i, Match(j - i, name, default));
    }
    if Head(s[i..]).Some? {
      var m := Head(s[i..]).value;
      HeadIffMatch(s, i, m);
      assert MatchesRange(s, Range(i, i + m.length));
    }
  }

  predicate Plain(s: string, i: nat)
    requires i <= |s|
  {
    Head(s[i..]).None?
  }

  lemma ExpandPlain(s: string, p: nat, env: Env)
    requires p < |s| && Plain(s, p)
    ensures Expand(s[p..], env) == [s[p]] + Expand(s[p + 1..], env)
  {
    assert s[p..][1..] == s[p + 1..];
  }

  lemma ExpandMatch(s: string, p: nat, env: Env)
    requires p < |s| && Head(s[p..]).Some?
    ensures var q := p + Head(s[p..]).value.length;
      q <= |s| && Expand(s[p..], env) == Callback(s[p..q], env) + Expand(s[q..], env)
  {
    var q := p + Head(s[p..]).value.length;
    assert s[p..q] == s[p..][..q - p] && s[p..][q - p..] == s[q..];
  }

  /** If every step from p to q puts out one character of s, the whole stretch is copied. */
  lemma {:induction false} StretchIsCopied(s: string, p: nat, q: nat, output: nat -> string)
    requires p <= q <= |s|
    requires forall i: nat :: p <= i < q ==> output(i) == [s[i]] + output(i + 1)
    ensures output(p) == s[p..q] + output(q)
    decreases q - p
  {
    if p < q {
      StretchIsCopied(s, p + 1, q, output);
      assert s[p..q] == [s[p]] + s[p + 1..q];
    }
  }

  lemma GapIsCopied(s: string, p: nat, q: nat, env: Env)
    requires p <= q <= |s|
    requires forall i :: p <= i < q ==> Plain(s, i)
    ensures Expand(s[p..], env) == s[p..q] + Expand(s[q..], env)
  {
    var output := (i: nat) => if i <= |s| then Expand(s[i..], env) else "";
    forall i: nat | p <= i < q
      ensures output(i) == [s[i]] + output(i + 1)
    {
      ExpandPlain(s, i, env);
    }
    StretchIsCopied(s, p, q, output);
  }

  /** Nothing matches before the first range, so that text is copied. */
  lemma LeadingGap(s: string, p: nat, ranges: seq<Range>, env: Env)
    requires p <= |s| && LeftmostRanges(s, p, ranges)
    ensures var q := if ranges == [] then |s| else ranges[0].from;
      p <= q <= |s| && Expand(s[p..], env) == s[p..q] + Expand(s[q..], env)
  {
    var q := if ranges == [] then |s| else ranges[0].from;
    assert ranges != [] ==> MatchesRange(s, ranges[0]);
    forall i | p <= i < q
      ensures Plain(s, i)
    {
      MatchStartsIffHead(s, i);
    }
    GapIsCopied(s, p, q, env);
  }

  lemma ChosenMatch(s: string, r: Range, env: Env)
    requires MatchesRange(s, r)
    ensures r.from < r.to <= |s|
    ensures Expand(s[r.from..], env) == Callback(s[r.from..r.to], env) + Expand(s[r.to..], env)
  {
    MatchStartsIffHead(s, r.from);
    ExpandMatch(s, r.from, env);
  }

  /** Any leftmost choice of matches gives the expansion. */
  lemma {:induction false} ExpandIsLeftmost(s: string, p: nat, ranges: seq<Range>, env: Env)
    requires p <= |s| && LeftmostRanges(s, p, ranges)
    ensures forall k :: 0 <= k < |ranges| ==> p <= ranges[k].from <= ranges[k].to <= |s|
    ensures Expand(s[p..], env) == Splice(s, p, ranges, env)
    decreases |ranges|
  {
    LeadingGap(s, p, ranges, env);
    forall k | 0 <= k < |ranges|
      ensures ranges[k].from <= ranges[k].to <= |s|
    {
      assert MatchesRange(s, ranges[k]);
    }
    if ranges != [] {
      ChosenMatch(s, ranges[0], env);
      RestIsLeftmost(s, p, ranges);
      ExpandIsLeftmost(s, ranges[0].to, ranges[1..], env);
    }
  }

  lemma RestIsLeftmost(s: string, p: nat, ranges: seq<Range>)
    requires LeftmostRanges(s, p, ranges) && ranges != []
    ensures LeftmostRanges(s, ranges[0].to, ranges[1..])
  {
  }

  /** There is such a choice for every text. */
  lemma {:induction false} LeftmostExists(s: string, p: nat)
    requires p <= |s|
    ensures exists ranges :: LeftmostRanges(s, p, ranges)
    decreases |s| - p
  {
    if p == |s| {
      assert LeftmostRanges(s, p, []);
    } else if Plain(s, p) {
      MatchStartsIffHead(s, p);
      LeftmostExists(s, p + 1);
      var ranges :| LeftmostRanges(s, p + 1, ranges);
      assert LeftmostRanges(s, p, ranges);
    } else {
      MatchStartsIffHead(s, p);
      var q := p + Head(s[p..]).value.length;
      LeftmostExists(s, q);
      var rest :| LeftmostRanges(s, q, rest);
      PrependRange(s, Range(p, q), rest);
    }
  }

  lemma PrependRange(s: string, r: Range, rest: seq<Range>)
    requires MatchesRange(s, r) && LeftmostRanges(s, r.to, rest)
    ensures LeftmostRanges(s, r.from, [r] + rest)
  {
    var ranges := [r] + rest;
    forall i: nat | r.from <= i < |s| && MatchStarts(s, i)
      ensures exists k :: 0 <= k < |ranges| && ranges[k].from <= i < ranges[k].to
    {
      if i < r.to {
        assert ranges[0].from <= i < ranges[0].to;
      } else {
        var k :| 0 <= k < |rest| && rest[k].from <= i < rest[k].to;
        assert ranges[k + 1] == rest[k];
      }
    }
  }
}

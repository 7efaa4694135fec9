/** Laws of the expansion: it inverts rendering, and exactly which substituted values make
    its result final. */
module EnvLaws {
  import opened Options
  import opened EnvTemplate

  // ---------------------------------------------------------------- rendering

  datatype Piece = Literal(text: string) | Var(name: string, default: Option<string>)

  function PieceText(p: Piece): string {
    if p.Literal? then p.text else VarText(p.name, p.default)
  }

  function PieceValue(p: Piece, env: Env): string {
    if p.Literal? then p.text else Value(p.name, p.default, env)
  }

  function Render(pieces: seq<Piece>): string {
    if pieces == [] then "" else PieceText(pieces[0]) + Render(pieces[1..])
  }

  function Substitute(pieces: seq<Piece>, env: Env): string {
    if pieces == [] then "" else PieceValue(pieces[0], env) + Substitute(pieces[1..], env)
  }

  predicate NoOpening(text: string) {
    forall i :: 0 <= i < |text| - 1 ==> !(text[i] == '$' && text[i + 1] == '{')
  }

  predicate IsTemplate(pieces: seq<Piece>) {
    && (forall k :: 0 <= k < |pieces| ==>
          if pieces[k].Literal? then NoOpening(pieces[k].text)
          else IsName(pieces[k].name) && IsDefault(pieces[k].default))
    && (forall k :: 0 <= k < |pieces| - 1 ==> !(pieces[k].Literal? && pieces[k + 1].Literal?))
  }

  lemma LiteralIsPlain(text: string, rest: string, i: nat)
    requires NoOpening(text) && (rest == "" || rest[0] != '{') && i < |text|
    ensures Plain(text + rest, i)
  {
    var s := text + rest;
    assert s[i..][0] == text[i];
    assert i + 1 < |s| ==> s[i..][1] == if i + 1 < |text| then text[i + 1] else rest[0];
  }

  lemma LiteralIsCopied(text: string, rest: string, env: Env)
    requires NoOpening(text) && (rest == "" || rest[0] != '{')
    ensures Expand(text + rest, env) == text + Expand(rest, env)
  {
    var s := text + rest;
    forall i | 0 <= i < |text|
      ensures Plain(s, i)
    {
      LiteralIsPlain(text, rest, i);
    }
    GapIsCopied(s, 0, |text|, env);
    assert s[0..] == s && s[0..|text|] == text && s[|text|..] == rest;
  }

  lemma VariableIsReplaced(name: string, default: Option<string>, rest: string, env: Env)
    requires IsName(name) && IsDefault(default)
    ensures Expand(VarText(name, default) + rest, env) == Value(name, default, env) + Expand(rest, env)
  {
    var s := VarText(name, default) + rest;
    MatchIsHead(rest, name, default);
    CallbackSeesGroups(s, env);
    assert s[|VarText(name, default)|..] == rest;
  }

  /** Expanding the rendered text of a template is substitution into the template. */
  lemma {:induction false} ExpandInvertsRender(pieces: seq<Piece>, env: Env)
    requires IsTemplate(pieces)
    ensures Expand(Render(pieces), env) == Substitute(pieces, env)
  {
    if pieces != [] {
      var rest := Render(pieces[1..]);
      ExpandInvertsRender(pieces[1..], env);
      if pieces[0].Literal? {
        assert |pieces| > 1 ==> pieces[1].Var? && pieces[1..][0] == pieces[1];
        LiteralIsCopied(pieces[0].text, rest, env);
      } else {
        VariableIsReplaced(pieces[0].name, pieces[0].default, rest, env);
      }
    }
  }

  /** The environment decides through nonempty settings of the variable itself; setting it
      empty is the same as not setting it, and then the default decides. */
  lemma ValueFollowsEnvironment(name: string, default: Option<string>, env: Env, x: string, other: string)
    ensures x != "" ==> Value(name, default, env[name := x]) == x
    ensures Value(name, default, env[name := ""]) == Value(name, default, env - {name})
    ensures Value(name, None, env - {name}) == "" && Value(name, Some(x), env - {name}) == x
    ensures other != name ==> Value(name, default, env[other := x]) == Value(name, default, env)
  {
  }

  // ---------------------------------------------------------------- when is the result final?

  /** What a match needs, without its groups. */
  predicate Opens(s: string) {
    |s| > 2 && s[0] == '$' && s[1] == '{' && s[2] != '}' && s[2] != ':' && !Without(s[2..], '}')
  }

  lemma HeadIffOpens(s: string)
    ensures Head(s).Some? <==> Opens(s)
  {
  }

  /** No match starts anywhere. */
  predicate Quiet(s: string) {
    forall i :: 0 <= i <= |s| ==> !Opens(s[i..])
  }

  /** A value from which no match can arise, whatever surrounds it: it is not empty, does not
      end in '$', and an opening in it, or one that its first character completes, is at
      once spoiled by '}' or ':'. */
  predicate Inert(v: string) {
    && v != "" && v[|v| - 1] != '$'
    && (v[0] == '{' ==> |v| > 1 && Spoils(v[1]))
    && (forall i :: 0 <= i < |v| - 1 && v[i] == '$' && v[i + 1] == '{' ==> i + 2 < |v| && Spoils(v[i + 2]))
  }

  predicate Spoils(c: char) {
    c == '}' || c == ':'
  }

  /** The values that the expansion of s puts in. */
  function Values(s: string, env: Env): seq<string>
    decreases |s|
  {
    if s == "" then []
    else match Head(s)
      case Some(m) => [Value(m.name, m.default, env)] + Values(s[m.length..], env)
      case None => Values(s[1..], env)
  }

  lemma {:induction false} NoBraceNoMatch(s: string, env: Env)
    requires Without(s, '}')
    ensures Expand(s, env) == s
  {
    if s != "" {
      HeadIffOpens(s);
      NoBraceNoMatch(s[1..], env);
    }
  }

  lemma QuietAfterValue(v: string, t: string)
    requires Inert(v) && Quiet(t)
    ensures Quiet(v + t)
  {
    var s := v + t;
    forall i | 0 <= i <= |s|
      ensures !Opens(s[i..])
    {
      if i >= |v| {
        assert s[i..] == t[i - |v|..];
      }
    }
  }

  /** Text that no opening before it can use, because it is spoiled at once or never closed. */
  predicate Unusable(t: string) {
    t == "" || Spoils(t[0]) || Without(t, '}')
  }

  lemma OpensIffUsable(t: string)
    ensures Opens("${" + t) <==> !Unusable(t)
  {
    assert ("${" + t)[2..] == t;
  }

  lemma ExpandStaysUnusable(t: string, env: Env)
    requires Unusable(t)
    ensures Unusable(Expand(t, env))
  {
    if Without(t, '}') {
      NoBraceNoMatch(t, env);
    } else {
      assert Head(t).None?;
    }
  }

  lemma UncoveredOpening(s: string, env: Env)
    requires |s| >= 2 && s[0] == '$' && s[1] == '{' && Head(s).None?
    ensures !Opens([s[0]] + Expand(s[1..], env))
  {
    var t := s[2..];
    assert s == "${" + t;
    HeadIffOpens(s);
    OpensIffUsable(t);
    ExpandStaysUnusable(t, env);
    OpensIffUsable(Expand(t, env));
    ExpandPlain(s, 1, env);
    assert [s[0]] + Expand(s[1..], env) == "${" + Expand(t, env);
  }

  /** A character that no match covers does not become the start of one. */
  lemma UncoveredStaysClosed(s: string, env: Env)
    requires s != "" && Head(s).None?
    requires forall v :: v in Values(s[1..], env) ==> Inert(v)
    ensures !Opens([s[0]] + Expand(s[1..], env))
  {
    var u := s[1..];
    if u != "" && Head(u).Some? {
      CallbackSeesGroups(u, env);
      var v := Values(u, env)[0];
      assert v in Values(u, env);
      assert Expand(u, env)[..|v|] == v;
    } else if |s| >= 2 && s[0] == '$' && s[1] == '{' {
      UncoveredOpening(s, env);
    }
  }

  /** Inert values leave nothing to expand, whatever unmatched openings the text contains. */
  lemma {:induction false} InertValuesLeaveQuiet(s: string, env: Env)
    requires forall v :: v in Values(s, env) ==> Inert(v)
    ensures Quiet(Expand(s, env))
    decreases |s|
  {
    if s != "" {
      if Head(s).Some? {
        var m := Head(s).value;
        CallbackSeesGroups(s, env);
        var v := Value(m.name, m.default, env);
        assert Values(s, env) == [v] + Values(s[m.length..], env);
        InertValuesLeaveQuiet(s[m.length..], env);
        QuietAfterValue(v, Expand(s[m.length..], env));
      } else {
        InertValuesLeaveQuiet(s[1..], env);
        UncoveredStaysClosed(s, env);
        QuietAfterChar(s[0], Expand(s[1..], env));
      }
    }
  }

  lemma QuietAfterChar(c: char, t: string)
    requires Quiet(t) && !Opens([c] + t)
    ensures Quiet([c] + t)
  {
    forall i | 0 <= i <= |t| + 1
      ensures !Opens(([c] + t)[i..])
    {
      if i == 0 {
        assert ([c] + t)[0..] == [c] + t;
      } else {
        assert ([c] + t)[i..] == t[i - 1..];
      }
    }
  }

  /** With every variable unset, a match is replaced by something shorter. */
  lemma {:induction false} ExpandShrinks(s: string)
    ensures |Expand(s, map[])| <= |s|
    ensures !Quiet(s) ==> |Expand(s, map[])| < |s|
    decreases |s|
  {
    HeadIffOpens(s);
    if s != "" {
      if Head(s).Some? {
        var m := Head(s).value;
        CallbackSeesGroups(s, map[]);
        HeadIsMatch(s, m);
        ExpandShrinks(s[m.length..]);
      } else {
        ExpandShrinks(s[1..]);
        if Quiet(s[1..]) {
          QuietAfterChar(s[0], s[1..]);
          assert [s[0]] + s[1..] == s;
        }
      }
    }
  }

  lemma {:induction false} QuietIsFixed(s: string, env: Env)
    requires Quiet(s)
    ensures Expand(s, env) == s
    decreases |s|
  {
    if s != "" {
      assert s[0..] == s;
      HeadIffOpens(s);
      forall i | 0 <= i <= |s| - 1
        ensures !Opens(s[1..][i..])
      {
        assert s[1..][i..] == s[i + 1..];
      }
      QuietIsFixed(s[1..], env);
    }
  }

  /** A text is final, that is left alone by every environment, exactly when nothing matches. */
  lemma FinalIffQuiet(s: string)
    ensures Quiet(s) <==> forall env :: Expand(s, env) == s
  {
    if Quiet(s) {
      forall env
        ensures Expand(s, env) == s
      {
        QuietIsFixed(s, env);
      }
    } else {
      ExpandShrinks(s);
      assert Expand(s, map[]) != s;
    }
  }

  /** Expanding twice is expanding once when every value put in is inert. */
  lemma ExpandIsIdempotent(s: string, env: Env, later: Env)
    requires forall v :: v in Values(s, env) ==> Inert(v)
    ensures Expand(Expand(s, env), later) == Expand(s, env)
  {
    InertValuesLeaveQuiet(s, env);
    QuietIsFixed(Expand(s, env), later);
  }

  /** Nonempty values without '$' and '{' are inert. */
  lemma PlainValuesAreInert(v: string)
    requires v != "" && Without(v, '$') && Without(v, '{')
    ensures Inert(v)
  {
  }

  // ---------------------------------------------------------------- inertness is needed

  predicate OnlyA(pieces: seq<Piece>) {
    forall k :: 0 <= k < |pieces| && pieces[k].Var? ==> pieces[k] == Var("A", None)
  }

  lemma {:induction false} ConstantAlong<T>(p: nat, q: nat, f: nat -> T)
    requires p <= q && forall i: nat :: p <= i < q ==> f(i) == f(i + 1)
    ensures f(p) == f(q)
    decreases q - p
  {
    if p < q {
      ConstantAlong(p + 1, q, f);
    }
  }

  lemma PlainHasNoValue(s: string, p: nat, env: Env)
    requires p < |s| && Plain(s, p)
    ensures Values(s[p..], env) == Values(s[p + 1..], env)
  {
    assert s[p..][1..] == s[p + 1..];
  }

  lemma LiteralHasNoValues(text: string, rest: string, env: Env)
    requires NoOpening(text) && (rest == "" || rest[0] != '{')
    ensures Values(text + rest, env) == Values(rest, env)
  {
    var s := text + rest;
    var values := (i: nat) => if i <= |s| then Values(s[i..], env) else [];
    forall i: nat | i < |text|
      ensures values(i) == values(i + 1)
    {
      LiteralIsPlain(text, rest, i);
      PlainHasNoValue(s, i, env);
    }
    ConstantAlong(0, |text|, values);
    assert s[0..] == s && s[|text|..] == rest;
  }

  lemma {:induction false} OnlyValueOfA(pieces: seq<Piece>, v: string)
    requires IsTemplate(pieces) && OnlyA(pieces)
    ensures forall x :: x in Values(Render(pieces), map["A" := v]) ==> x == v
  {
    if pieces != [] {
      var rest := Render(pieces[1..]);
      OnlyValueOfA(pieces[1..], v);
      if pieces[0].Literal? {
        assert |pieces| > 1 ==> pieces[1].Var? && pieces[1..][0] == pieces[1];
        LiteralHasNoValues(pieces[0].text, rest, map["A" := v]);
      } else {
        MatchIsHead(rest, "A", None);
        assert (VarText("A", None) + rest)[|VarText("A", None)|..] == rest;
      }
    }
  }

  /** A template in which a value that is not inert completes a new match. */
  function Breaker(v: string): seq<Piece> {
    if v == "" then [Literal("$"), Var("A", None), Literal("{B}")]
    else if v[|v| - 1] == '$' then [Var("A", None), Literal("{B}")]
    else if v[0] == '{' && (|v| == 1 || !Spoils(v[1])) then [Literal("$"), Var("A", None), Literal("B}")]
    else [Var("A", None), Literal("B}")]
  }

  lemma TwoPieces(p: Piece, q: Piece, env: Env)
    ensures Substitute([p, q], env) == PieceValue(p, env) + PieceValue(q, env)
  {
    assert [p, q][1..] == [q] && [q][1..] == [];
    assert Substitute([q], env) == PieceValue(q, env) + "";
  }

  lemma ThreePieces(p: Piece, q: Piece, r: Piece, env: Env)
    ensures Substitute([p, q, r], env) == PieceValue(p, env) + (PieceValue(q, env) + PieceValue(r, env))
  {
    assert [p, q, r][1..] == [q, r];
    TwoPieces(q, r, env);
  }

  lemma BreakerIsTemplate(v: string)
    ensures IsTemplate(Breaker(v)) && OnlyA(Breaker(v))
  {
  }

  /** What comes out of the breaking template. */
  function Broken(v: string): string {
    if v == "" then "$" + (v + "{B}")
    else if v[|v| - 1] == '$' then v + "{B}"
    else if v[0] == '{' && (|v| == 1 || !Spoils(v[1])) then "$" + (v + "B}")
    else v + "B}"
  }

  lemma BreakerGivesBroken(v: string)
    ensures Expand(Render(Breaker(v)), map["A" := v]) == Broken(v)
  {
    var env: Env := map["A" := v];
    BreakerIsTemplate(v);
    ExpandInvertsRender(Breaker(v), env);
    ValueOfA(v);
    var variable := Var("A", None);
    if v == "" {
      ThreePieces(Literal("$"), variable, Literal("{B}"), env);
    } else if v[|v| - 1] == '$' {
      TwoPieces(variable, Literal("{B}"), env);
    } else {
      TwoPieces(variable, Literal("B}"), env);
      ThreePieces(Literal("$"), variable, Literal("B}"), env);
    }
  }

  lemma ValueOfA(v: string)
    ensures PieceValue(Var("A", None), map["A" := v]) == v
  {
  }

  lemma BrokenIsNotQuiet(v: string)
    requires !Inert(v)
    ensures !Quiet(Broken(v))
  {
    var s := Broken(v);
    assert s[|s| - 1] == '}';
    if v == "" || (v[|v| - 1] != '$' && v[0] == '{' && (|v| == 1 || !Spoils(v[1]))) {
      OpensAt(s, 0);
    } else if v[|v| - 1] == '$' {
      OpensAt(s, |v| - 1);
    } else {
      var i :| 0 <= i < |v| - 1 && v[i] == '$' && v[i + 1] == '{' && !(i + 2 < |v| && Spoils(v[i + 2]));
      OpensAt(s, i);
    }
  }

  lemma OpensAt(s: string, i: nat)
    requires i + 3 < |s| && s[|s| - 1] == '}'
    requires s[i] == '$' && s[i + 1] == '{' && !Spoils(s[i + 2])
    ensures !Quiet(s)
  {
    var t := s[i..];
    assert t[2..][|t| - 3] == '}';
    assert Opens(t);
  }

  /** Exactly the inert values leave nothing to expand, whatever template they go into. */
  lemma InertIsExact(v: string)
    ensures Inert(v) <==>
      forall pieces :: IsTemplate(pieces) && OnlyA(pieces) ==> Quiet(Expand(Render(pieces), map["A" := v]))
  {
    if Inert(v) {
      forall pieces | IsTemplate(pieces) && OnlyA(pieces)
        ensures Quiet(Expand(Render(pieces), map["A" := v]))
      {
        OnlyValueOfA(pieces, v);
        InertValuesLeaveQuiet(Render(pieces), map["A" := v]);
      }
    } else {
      BreakerIsTemplate(v);
      BreakerGivesBroken(v);
      BrokenIsNotQuiet(v);
    }
  }

  /** Exactly for the inert values does expanding twice equal expanding once, for every
      template they go into and every environment of the second time. */
  lemma InertIsIdempotent(v: string)
    ensures Inert(v) <==>
      forall pieces, later :: IsTemplate(pieces) && OnlyA(pieces) ==>
        Expand(Expand(Render(pieces), map["A" := v]), later) == Expand(Render(pieces), map["A" := v])
  {
    if Inert(v) {
      InertIsExact(v);
      forall pieces, later | IsTemplate(pieces) && OnlyA(pieces)
        ensures Expand(Expand(Render(pieces), map["A" := v]), later) == Expand(Render(pieces), map["A" := v])
      {
        QuietIsFixed(Expand(Render(pieces), map["A" := v]), later);
      }
    } else {
      BreakerIsTemplate(v);
      BreakerGivesBroken(v);
      BrokenIsNotQuiet(v);
      FinalIffQuiet(Broken(v));
    }
  }

  lemma EmptyBreakerText()
    ensures Render(Breaker("")) == "$${A}{B}" && Broken("") == "${B}"
  {
  }

  lemma UnsetVariable(env: Env)
    requires "B" !in env
    ensures Expand("${B}", env) == ""
  {
    VariableIsReplaced("B", None, "", env);
    assert VarText("B", None) + "" == "${B}";
  }

  /** An empty value is not inert: the text around it closes up to a new variable, so a second
      expansion under the same environment removes what the first one left. */
  lemma SecondExpansionDiffers()
    ensures var env: Env := map["A" := ""];
      Expand("$${A}{B}", env) == "${B}" && Expand(Expand("$${A}{B}", env), env) == ""
  {
    var env: Env := map["A" := ""];
    BreakerGivesBroken("");
    EmptyBreakerText();
    UnsetVariable(env);
  }
}

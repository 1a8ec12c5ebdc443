/**
 Where resolution does lose meaning: the inputs outside the conditions of
 `Resolution.ResolutionKeepsMeaning`, each with a string that no returned pattern matches.
 */
module LostMeaning {
  import opened Strs
  import opened Segments
  import opened Exprs
  import opened FormatStrings
  import opened Resolver
  import opened Meaning
  import opened Resolution

  const NO_SYMBOLS := Context([], "")

  function Text(t: string): Expr {
    Node(Lit, t, [], "")
  }

  lemma NextPercentS(f: string)
    requires f == "%s"
    ensures Next(f) == Slot(2, Verb(f, -1, ""))
  {
    assert FlagRun(f[1..]) == 0;
    assert f[..2] == f;
  }

  lemma NextBraces(f: string)
    requires f == "{}"
    ensures Next(f) == Slot(2, Verb(f, -1, ""))
  {
    assert f[1..1] == "" && "{" + "" + "}" == f;
    assert IndexByte(f, '}') == 1;
  }

  lemma NextBraceX(f: string)
    requires f == "{x}{}"
    ensures Next(f) == Slot(3, Verb("{x}", -1, "x"))
  {
    assert f[1..2] == "x" && "{" + "x" + "}" == "{x}";
    var i := IndexByte(f, '}');
    assert f[0] == '{' && f[1] == 'x' && f[2] == '}';
    assert forall j :: 0 <= j < i ==> f[..i][j] != '}';
    assert i == 2;
    assert Atoi("x") == None by { assert !IsDigit("x"[0]); }
    assert IndexAny("x", ":!") < 0;
  }

  lemma ParseOne(f: string, verb: Piece)
    requires f != "" && Next(f) == Slot(|f|, verb)
    ensures Parse(f, "") == [verb]
  {
    ParseStep(f, "");
  }

  lemma ParseTwo(f: string, w: nat, x: Piece, y: Piece)
    requires f != "" && Next(f) == Slot(w, x) && w < |f| && Next(f[w..]) == Slot(|f| - w, y)
    ensures Parse(f, "") == [x, y]
  {
    ParseStep(f, "");
    ParseOne(f[w..], y);
  }

  lemma ParsedExamples()
    ensures Parse("%s", "") == [Verb("%s", -1, "")]
    ensures Parse("{x}{}", "") == [Verb("{x}", -1, "x"), Verb("{}", -1, "")]
  {
    NextPercentS("%s");
    ParseOne("%s", Verb("%s", -1, ""));
    NextBraceX("{x}{}");
    assert "{x}{}"[3..] == "{}";
    NextBraces("{}");
    ParseTwo("{x}{}", 3, Verb("{x}", -1, "x"), Verb("{}", -1, ""));
  }

  lemma LiteralPairArgs(s: string, t: string)
    ensures EvaluateArgs(NO_SYMBOLS, [Text(s), Text(t)], 0, {}).args
         == [Some([Literal(s)]), Some([Literal(t)])]
  {
    var es := [Text(s), Text(t)];
    assert es[1..] == [Text(t)] && [Text(t)][1..] == [];
    assert EvaluateArgs(NO_SYMBOLS, [], 0, {}).args == [];
    assert EvaluateArgs(NO_SYMBOLS, [Text(t)], 0, {}).args == [Some([Literal(t)])];
  }

  lemma FormatResolves(c: Context, e: Expr, pieces: seq<Piece>, args: seq<Option<Segs>>, out: Segs)
    requires e.Node? && e.kind == Format && Parse(e.text, "") == pieces
    requires EvaluateArgs(c, e.parts, 0, {}).args == args
    requires Assemble(pieces, args, 0) == out && out != []
    ensures |Resolutions(c, e)| == 1
    ensures forall s :: Matches(Resolutions(c, e)[0].segments, s) <==> Matches(out, s)
  {
    assert Evaluate(c, e, 0, {}).alts == [out];
    forall s ensures Matches(Coalesce(out), s) <==> Matches(out, s) {
      CoalesceKeepsMatches(out, s);
    }
  }

  lemma FormatDenotes(c: Context, e: Expr, pieces: seq<Piece>, vals: seq<string>, s: string, n: nat)
    requires e.Node? && e.kind == Format && Parse(e.text, "") == pieces && n > 0
    requires DenotesEach(c, e.parts, vals, n) && Renders(pieces, vals, 0, s)
    ensures Denotes(c, e, s, n)
  {
  }

  lemma OneSlotRenders(verb: Piece, s: string)
    requires verb.Verb? && verb.argIndex < 0 && verb.name == ""
    ensures Renders([verb], [s], 0, s)
  {
    assert [verb][1..] == [] && s[|s|..] == "";
  }

  lemma LiteralOnly(t: string, s: string)
    ensures Matches([Literal(t)], s) <==> s == t
  {
    assert [Literal(t)][1..] == [];
    if t <= s { assert s[..|t|] + s[|t|..] == s; }
  }

  lemma LastLiteral(h: Segment, t: string, s: string)
    requires h.Hole? && Matches([h, Literal(t)], s)
    ensures HasSuffix(s, t)
  {
    var rest := [Literal(t)];
    assert [h, Literal(t)][1..] == rest;
    var k :| 0 <= k <= |s| && Matches(rest, s[k..]);
    LiteralOnly(t, s[k..]);
  }

  lemma NamedThenSlotRenders(named: Piece, verb: Piece, s: string, t: string)
    requires verb.Verb? && verb.argIndex < 0 && verb.name == ""
    requires named.Verb? && named.argIndex < 0 && named.name != ""
    ensures Renders([named, verb], [s, t], 0, s)
  {
    assert [named, verb][1..] == [verb] && [verb][1..] == [];
    assert s[0..] == s && s[|s|..] == "";
    assert Renders([verb], [s, t], 0, s[0..]);
  }

  /** A verb that names itself still uses up a position, so the next argument is skipped. */
  lemma NamedVerbSkipsAnArgument(e: Expr, s: string, t: string)
    requires e == Node(Format, "{x}{}", [Text(s), Text(t)], "") && !HasSuffix(s, t)
    ensures Denotes(NO_SYMBOLS, e, s, 2)
    ensures |Resolutions(NO_SYMBOLS, e)| == 1 && !Matches(Resolutions(NO_SYMBOLS, e)[0].segments, s)
  {
    var named, plain := Verb("{x}", -1, "x"), Verb("{}", -1, "");
    assert Parse(e.text, "") == [named, plain] by { ParsedExamples(); }
    NamedThenSlotRenders(named, plain, s, t);
    LiteralsDenote(NO_SYMBOLS, [s, t]);
    FormatDenotes(NO_SYMBOLS, e, [named, plain], [s, t], s, 2);
    var args, out := [Some([Literal(s)]), Some([Literal(t)])], [Hole("", "x", "{x}"), Literal(t)];
    assert EvaluateArgs(NO_SYMBOLS, e.parts, 0, {}).args == args by { LiteralPairArgs(s, t); }
    AssembleNamedThenSlot(named, plain, args);
    FormatResolves(NO_SYMBOLS, e, [named, plain], args, out);
    if Matches(out, s) { LastLiteral(out[0], t, s); }
  }

  lemma AssembleNamedThenSlot(named: Piece, verb: Piece, args: seq<Option<Segs>>)
    requires named.Verb? && named.argIndex < 0 && named.name != ""
    requires verb.Verb? && verb.argIndex < 0 && verb.name == ""
    requires |args| == 2 && args[1].Some?
    ensures Assemble([named, verb], args, 0) == [Hole("", named.name, named.text)] + args[1].value
  {
    assert [named, verb][1..] == [verb] && [verb][1..] == [];
    assert Assemble([], args, 2) == [] && Assemble([verb], args, 1) == args[1].value;
  }

  lemma LiteralsDenote(c: Context, vals: seq<string>)
    requires |vals| == 2
    ensures DenotesEach(c, [Text(vals[0]), Text(vals[1])], vals, 2)
  {
    forall i | 0 <= i < 2 ensures Denotes(c, [Text(vals[0]), Text(vals[1])][i], vals[i], 1) {
    }
  }

  function Pair(x: string, y: string): Expr {
    Node(Concat, "", [Text(x), Text(y)], "")
  }

  lemma PairRenders(x: string, y: string)
    ensures Render(Pair(x, y)) == "concat(\"" + x + "\", \"" + y + "\")"
  {
    var es := [Text(x), Text(y)];
    var rs := ["\"" + x + "\"", "\"" + y + "\""];
    assert es[1..] == [Text(y)] && [Text(y)][1..] == [] && rs[1..] == [rs[1]];
    assert RenderAll([Text(y)]) == [rs[1]];
    assert RenderAll(es) == rs;
    assert Strs.Join(rs, ", ") == rs[0] + ", " + rs[1];
  }

  lemma PairDenotes(c: Context, x: string, y: string)
    ensures Denotes(c, Pair(x, y), x + y, 2)
  {
    LiteralsDenote(c, [x, y]);
    assert [x, y][1..] == [y] && Strs.Join([x, y], "") == x + "" + y == x + y;
  }

  /** Two parts with one alternative each are put together. */
  lemma PartsEvaluate(c: Context, a: Expr, b: Expr, depth: nat, visiting: set<string>, x: Segs, y: Segs)
    requires depth <= MAX_DEPTH && |x| + |y| <= MAX_SEGMENTS
    requires Evaluate(c, a, depth + 1, visiting).alts == [x] && Evaluate(c, b, depth + 1, visiting).alts == [y]
    ensures Evaluate(c, Node(Concat, "", [a, b], ""), depth, visiting).alts == [x + y]
  {
    assert [a, b][1..] == [b] && [b][1..] == [] && Separator("", true) == [] && Separator("", false) == [];
    CrossOne([], x);
    CrossOne(x, y);
    assert [] + x == x;
    var none: Alts := [[]];
    assert Evaluate(c, Node(Concat, "", [a, b], ""), depth, visiting).alts
        == EvaluateSeq(c, [a, b], depth, visiting, "", true, none).alts;
    assert EvaluateSeq(c, [], depth, visiting, "", false, [x + y]).alts == [x + y];
    hide Evaluate, Cross, CutAll, Take;
    assert EvaluateSeq(c, [b], depth, visiting, "", false, [x]).alts == [x + y];
  }

  lemma PairEvaluates(c: Context, x: string, y: string, visiting: set<string>)
    ensures Evaluate(c, Pair(x, y), 1, visiting).alts == [[Literal(x), Literal(y)]]
  {
    assert [Literal(x)] + [Literal(y)] == [Literal(x), Literal(y)];
    PartsEvaluate(c, Text(x), Text(y), 1, visiting, [Literal(x)], [Literal(y)]);
  }

  lemma CrossOne(x: Segs, y: Segs)
    requires |x + y| <= MAX_SEGMENTS
    ensures Take(MAX_ALTERNATIVES, CutAll(Cross([x], [y], []))) == [x + y]
  {
    assert [x][1..] == [] && x + [] + y == x + y;
    assert Row(x, [y], []) == [x + y];
    assert Cross([x], [y], []) == [x + y];
  }

  function TwoValues(a: Expr, b: Expr): Context {
    Context([SymbolDef("u", ScopeFile, a, "", false), SymbolDef("u", ScopeFile, b, "", false)], "")
  }

  lemma InScopeTwo(a: SymbolDef, b: SymbolDef, scope: ScopeKind, name: string, fn: string)
    ensures InScope([a, b], scope, name, fn)
         == (if Shows(a, scope, name, fn) then [a.value] else [])
            + (if Shows(b, scope, name, fn) then [b.value] else [])
  {
    assert [a, b][..1] == [a] && [a][..0] == [];
    assert InScope([a], scope, name, fn) == if Shows(a, scope, name, fn) then [a.value] else [];
  }

  /** Of two values that render alike, the resolver knows only the first. */
  lemma SecondRenderingDropped(a: Expr, b: Expr)
    requires a.Node? && b.Node? && Render(a) == Render(b)
    ensures var t := TwoValues(a, b).symbols;
            Bindings(t, "u", "") == [a, b] && Lookup(t, "u", "") == [a]
  {
    TwoBindings(a, b, "u");
    DedupeTwo(a, b);
    hide Bindings, Dedupe, Render;
  }

  lemma DedupeTwo(a: Expr, b: Expr)
    requires Render(a) == Render(b)
    ensures Dedupe([a, b]) == [a]
  {
    hide Render;
    assert [a, b][..1] == [a] && [a][..0] == [];
    assert Renderings([a]) == {Render(a)} && Renderings([]) == {};
    assert Dedupe([]) == [] && Dedupe([a]) == [a];
  }

  lemma TwoBindings(a: Expr, b: Expr, name: string)
    requires a.Node? && b.Node? && name == "u"
    ensures Bindings(TwoValues(a, b).symbols, name, "") == [a, b]
  {
    hide InScope;
    var t := TwoValues(a, b).symbols;
    assert t == [t[0], t[1]];
    InScopeTwo(t[0], t[1], ScopeFunc, name, "");
    InScopeTwo(t[0], t[1], ScopeType, name, "");
    InScopeTwo(t[0], t[1], ScopeFile, name, "");
    NarrowestStep(t, 0, name, "");
    NarrowestStep(t, 1, name, "");
    NarrowestStep(t, 2, name, "");
    assert SCOPES[0..] == SCOPES;
  }

  // ----- a format over a name with two values

  lemma BothKept(a: string, b: string)
    requires a != b
    ensures var t := TwoValues(Text(a), Text(b)).symbols;
            Bindings(t, "u", "") == [Text(a), Text(b)] && Lookup(t, "u", "") == [Text(a), Text(b)]
  {
    var es := [Text(a), Text(b)];
    TwoBindings(Text(a), Text(b), "u");
    assert Render(Text(a)) == "\"" + a + "\"" && Render(Text(b)) == "\"" + b + "\"";
    assert Render(Text(a)) != Render(Text(b)) by {
      assert ("\"" + a + "\"")[1..|a| + 1] == a && ("\"" + b + "\"")[1..|b| + 1] == b;
      assert |a| != |b| ==> |Render(Text(a))| != |Render(Text(b))|;
    }
    assert es[..1] == [Text(a)] && [Text(a)][..0] == [];
    hide Bindings, Render;
    assert Renderings([Text(a)]) == {Render(Text(a))} && Renderings([]) == {};
    assert Dedupe([]) == [] && Dedupe([Text(a)]) == [Text(a)];
    assert Dedupe(es) == es;
  }

  lemma NameEvaluates(a: string, b: string, e: Expr)
    requires a != b && e == Node(Symbol, "u", [], "")
    ensures Evaluate(TwoValues(Text(a), Text(b)), e, 1, {}).alts == [[Literal(a)], [Literal(b)]]
  {
    var c, vals := TwoValues(Text(a), Text(b)), [Text(a), Text(b)];
    BothKept(a, b);
    assert vals[1..] == [Text(b)] && [Text(b)][1..] == [] && {} + {"u"} == {"u"};
    assert EvaluateAny(c, [], 1, {"u"}, [[Literal(a)], [Literal(b)]]).alts == [[Literal(a)], [Literal(b)]];
    assert EvaluateAny(c, [Text(b)], 1, {"u"}, [[Literal(a)]]).alts == [[Literal(a)], [Literal(b)]];
    var none: Alts := [];
    assert none + [[Literal(a)]] == [[Literal(a)]] && [[Literal(a)]] + [[Literal(b)]] == [[Literal(a)], [Literal(b)]];
    assert EvaluateAny(c, vals, 1, {"u"}, none).alts == [[Literal(a)], [Literal(b)]];
    assert RenameAll([[Literal(a)], [Literal(b)]], "u") == [[Literal(a)], [Literal(b)]];
  }

  lemma NameDenotes(a: string, b: string, e: Expr)
    requires a != b && e == Node(Symbol, "u", [], "")
    ensures Denotes(TwoValues(Text(a), Text(b)), e, b, 2)
  {
    var c := TwoValues(Text(a), Text(b));
    BothKept(a, b);
    assert Denotes(c, [Text(a), Text(b)][1], b, 1);
  }

  /** Of a name with two values only the first is used in a format, and the second is lost. */
  lemma FormatArgumentLosesAlternatives(a: string, b: string, e: Expr)
    requires a != b && e == Node(Format, "%s", [Node(Symbol, "u", [], "")], "")
    ensures var c := TwoValues(Text(a), Text(b));
            && Denotes(c, e, b, 3)
            && |Resolutions(c, e)| == 1 && !Matches(Resolutions(c, e)[0].segments, b)
  {
    var c, name, verb := TwoValues(Text(a), Text(b)), e.parts[0], Verb("%s", -1, "");
    assert Parse(e.text, "") == [verb] by { ParsedExamples(); }
    NameDenotes(a, b, name);
    NameEvaluates(a, b, name);
    assert [name][1..] == [] && EvaluateArgs(c, [], 0, {}).args == [];
    assert EvaluateArgs(c, [name], 0, {}).args == [Some([Literal(a)])];
    assert Assemble([verb], [Some([Literal(a)])], 0) == [Literal(a)] by { assert [verb][1..] == []; }
    hide Evaluate, EvaluateArgs, Assemble, Parse, Resolutions, Bindings;
    OneSlotRenders(verb, b);
    assert DenotesEach(c, [name], [b], 3);
    FormatDenotes(c, e, [verb], [b], b, 3);
    FormatResolves(c, e, [verb], [Some([Literal(a)])], [Literal(a)]);
    LiteralOnly(a, b);
  }

  lemma PairSymbolEvaluates(a: Expr, b: Expr, x: string, y: string, e: Expr)
    requires a == Pair(x, y) && b.Node? && Render(a) == Render(b) && e == Node(Symbol, "u", [], "")
    ensures Evaluate(TwoValues(a, b), e, 0, {}).alts == [[Literal(x), Literal(y)]]
  {
    var c, out := TwoValues(a, b), [Literal(x), Literal(y)];
    SecondRenderingDropped(a, b);
    PairEvaluates(c, x, y, {"u"});
    assert [a][1..] == [] && {} + {"u"} == {"u"};
    assert EvaluateAny(c, [], 0, {"u"}, [out]).alts == [out];
    assert EvaluateAny(c, [a], 0, {"u"}, []).alts == [out];
  }

  lemma TwoLiterals(x: string, y: string, s: string)
    ensures Matches([Literal(x), Literal(y)], s) ==> s == x + y
  {
    assert [Literal(x), Literal(y)][1..] == [Literal(y)];
    if x <= s {
      LiteralOnly(y, s[|x|..]);
      assert s[..|x|] + s[|x|..] == s;
    }
  }

  /** Two texts cut differently may render alike; then the second one is lost. */
  lemma RenderingCollisionLosesMeaning(x: string, y: string, u: string, v: string, e: Expr)
    requires Render(Pair(x, y)) == Render(Pair(u, v)) && x + y != u + v
    requires e == Node(Symbol, "u", [], "")
    ensures var c := TwoValues(Pair(x, y), Pair(u, v));
            && Denotes(c, e, u + v, 3)
            && |Resolutions(c, e)| == 1 && !Matches(Resolutions(c, e)[0].segments, u + v)
  {
    var a, b := Pair(x, y), Pair(u, v);
    var c := TwoValues(a, b);
    assert Denotes(c, e, u + v, 3) by {
      SecondRenderingDropped(a, b);
      PairDenotes(c, u, v);
      assert Denotes(c, [a, b][1], u + v, 2);
    }
    PairSymbolEvaluates(a, b, x, y, e);
    var out := [Literal(x), Literal(y)];
    CoalesceKeepsMatches(out, u + v);
    TwoLiterals(x, y, u + v);
  }

  /** Such texts exist: a comma between quotes reads as the gap between two parts. */
  lemma RenderingsCollide(x: string, y: string, u: string, v: string)
    requires x == "a\", \"b" && y == "c" && u == "a" && v == "b\", \"c"
    ensures Render(Pair(x, y)) == Render(Pair(u, v)) && x + y != u + v
  {
    PairRenders(x, y);
    PairRenders(u, v);
    assert (x + y)[1] != (u + v)[1];
  }
}

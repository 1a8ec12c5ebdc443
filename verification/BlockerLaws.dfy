/**
 What a caller sees of what could not be read (internal/resolve/resolve.go): where each hole says it
 comes from, the short name it shows, and which texts count as absolute URLs.
 */
module BlockerLaws {
  import opened Strs
  import opened Segments
  import opened Exprs
  import opened Resolver
  import opened Resolution

  /** One resolution: this hole, listed as what blocked it unless nothing is known of it. */
  predicate IsHole(rs: seq<Resolved>, sym: string, name: string, src: string) {
    && |rs| == 1 && rs[0].segments == [Hole(sym, name, src)] && rs[0].flags == {}
    && rs[0].unresolved == if sym == "" then {} else {sym}
  }

  lemma {:induction false} OneHole(h: Segment)
    requires h.Hole?
    ensures Coalesce([h]) == [h]
  {
    assert [h][..0] == [];
  }

  lemma {:induction false} OneLiteral(t: string)
    ensures Coalesce([Literal(t)]) == if t == "" then [] else [Literal(t)]
  {
    assert [Literal(t)][..0] == [];
  }

  lemma {:induction false} OneAlternative(c: Context, e: Expr, o: Outcome, segs: Segs)
    requires Evaluate(c, e, 0, {}) == o && o.alts == [segs]
    ensures Resolutions(c, e) == [Resolved(Coalesce(segs), o.unresolved, o.flags)]
  {
    hide Evaluate, Coalesce;
    assert o.flags + {} == o.flags;
  }

  /** A literal resolves to its text, and an unreadable value to a hole that says where it came from. */
  lemma {:induction false} LeavesResolve(c: Context, e: Expr)
    requires e.Node?
    ensures e.kind == Lit && e.text != "" ==> Resolutions(c, e) == [Resolved([Literal(e.text)], {}, {})]
    ensures e.kind == Env ==> IsHole(Resolutions(c, e), "env:" + e.text, e.text, e.src)
    ensures e.kind == Call ==> IsHole(Resolutions(c, e), "call:" + e.text, LastIdent(e.text), e.src)
    ensures e.kind == Index ==> IsHole(Resolutions(c, e), "cfg:" + IndexName(e), LastIdent(IndexName(e)), e.src)
    ensures e.kind == Unknown ==> IsHole(Resolutions(c, e), "", "", e.src)
  {
    hide LastIdent, IndexName, Coalesce;
    var o := Evaluate(c, e, 0, {});
    if e.kind == Lit {
      OneLiteral(e.text);
      OneAlternative(c, e, o, [Literal(e.text)]);
    } else if e.kind == Env || e.kind == Call || e.kind == Index || e.kind == Unknown {
      var h := o.alts[0][0];
      OneHole(h);
      OneAlternative(c, e, o, [h]);
    }
  }

  /** Some definition makes the name a parameter of the function. */
  predicate Parameter(t: Table, name: string, fn: string) {
    exists i :: 0 <= i < |t| && t[i].param && t[i].name == name && (fn == "" || t[i].fn == "" || t[i].fn == fn)
  }

  /** A name that is bound to nothing is a hole: what the caller supplies, or what was not found. */
  lemma {:induction false} UnboundResolves(c: Context, e: Expr)
    requires e.Node? && e.kind == Symbol && e.text != "" && Lookup(c.symbols, e.text, c.fn) == []
    ensures var kind := if Parameter(c.symbols, e.text, c.fn) then "arg:" else "sym:";
            IsHole(Resolutions(c, e), kind + e.text, LastIdent(e.text), e.src)
  {
    hide LastIdent, Coalesce, Lookup;
    var o := Evaluate(c, e, 0, {});
    assert IsParam(c.symbols, e.text, c.fn) <==> Parameter(c.symbols, e.text, c.fn);
    assert o == EvaluateSymbol(c, e, 0, {});
    var h := o.alts[0][0];
    OneHole(h);
    OneAlternative(c, e, o, [h]);
  }

  /** The name bound to what cannot be read lends its own to a hole that has none, or that a call left. */
  lemma {:induction false} AliasResolves(c: Context, e: Expr, v: Expr)
    requires e.Node? && e.kind == Symbol && Lookup(c.symbols, e.text, c.fn) == [v] && v.Node?
    ensures v.kind == Env ==>
              IsHole(Resolutions(c, e), "env:" + v.text, if v.text == "" then LastIdent(e.text) else v.text, v.src)
    ensures v.kind == Call ==> IsHole(Resolutions(c, e), "call:" + v.text, LastIdent(e.text), v.src)
    ensures v.kind == Unknown ==> IsHole(Resolutions(c, e), "", LastIdent(e.text), v.src)
    ensures v.kind == Lit && v.text != "" ==> Resolutions(c, e) == [Resolved([Literal(v.text)], {}, {})]
  {
    hide LastIdent, Coalesce, Lookup;
    if v.kind == Env || v.kind == Call || v.kind == Unknown || v.kind == Lit {
      AliasEvaluates(c, e, v);
      var o, leaf := Evaluate(c, e, 0, {}), Evaluate(c, v, 1, {e.text});
      assert leaf.alts == [[leaf.alts[0][0]]];
      hide Evaluate;
      var h := Rename(leaf.alts[0], e.text)[0];
      assert o.alts == [[h]];
      if h.Hole? { OneHole(h); } else { OneLiteral(h.text); }
      OneAlternative(c, e, o, [h]);
      if v.kind == Call { assert HasPrefix("call:" + v.text, "call:"); }
      if v.kind == Env { assert ("env:" + v.text)[0] == 'e'; }
    }
  }

  lemma {:induction false} AliasEvaluates(c: Context, e: Expr, v: Expr)
    requires e.Node? && e.kind == Symbol && Lookup(c.symbols, e.text, c.fn) == [v]
    requires v.Node? && (v.kind == Env || v.kind == Call || v.kind == Unknown || v.kind == Lit)
    ensures var leaf := Evaluate(c, v, 1, {e.text});
            |leaf.alts| == 1 && |leaf.alts[0]| == 1
            && Evaluate(c, e, 0, {}) == Outcome([Rename(leaf.alts[0], e.text)], leaf.unresolved, leaf.flags)
  {
    hide LastIdent, Lookup, Rename;
    assert {} + {e.text} == {e.text};
    var leaf := Evaluate(c, v, 1, {e.text});
    assert [v][1..] == [];
    var any := EvaluateAny(c, [v], 0, {e.text}, []);
    assert [] + leaf.alts == leaf.alts;
    assert EvaluateAny(c, [v][1..], 0, {e.text}, leaf.alts) == Outcome(leaf.alts, {}, {});
    assert any == Outcome(leaf.alts, leaf.unresolved, leaf.flags);
    assert Evaluate(c, e, 0, {}) == EvaluateSymbol(c, e, 0, {});
    assert RenameAll(leaf.alts, e.text) == [Rename(leaf.alts[0], e.text)];
  }

  /** A name that is bound to itself is a hole of that name, and the cycle is noted. */
  lemma {:induction false} CycleResolves(c: Context, e: Expr, v: Expr)
    requires e.Node? && e.kind == Symbol && Lookup(c.symbols, e.text, c.fn) == [v]
    requires v.Node? && v.kind == Symbol && v.text == e.text
    ensures Resolutions(c, e)
         == [Resolved([Hole("sym:" + e.text, LastIdent(e.text), v.src)], {"sym:" + e.text}, {"cycle"})]
  {
    hide LastIdent, Lookup, Coalesce;
    var h := Hole("sym:" + e.text, LastIdent(e.text), v.src);
    assert {} + {e.text} == {e.text};
    var leaf := Evaluate(c, v, 1, {e.text});
    assert leaf == Outcome([[h]], {"sym:" + e.text}, {"cycle"});
    assert [v][1..] == [] && [] + leaf.alts == leaf.alts;
    assert EvaluateAny(c, [v][1..], 0, {e.text}, leaf.alts) == Outcome(leaf.alts, {}, {});
    assert EvaluateAny(c, [v], 0, {e.text}, []) == leaf;
    assert Evaluate(c, e, 0, {}) == EvaluateSymbol(c, e, 0, {});
    assert Rename([h], e.text) == [h];
    assert RenameAll([[h]], e.text) == [[h]];
    OneHole(h);
    OneAlternative(c, e, leaf, [h]);
  }

  // ----- flags

  const KNOWN := {"cycle", "depth_exceeded"}

  lemma {:induction false} FlagsKnown(c: Context, e: Expr, depth: nat, visiting: set<string>)
    ensures Evaluate(c, e, depth, visiting).flags <= KNOWN
    decreases Left(depth), 1, 0
  {
    hide Lookup, Cross, CutAll, Take, Assemble;
    if e.Node? && depth <= MAX_DEPTH {
      match e.kind {
        case Concat => SeqFlags(c, e.parts, depth, visiting, "", true, [[]]);
        case Template => SeqFlags(c, e.parts, depth, visiting, "", true, [[]]);
        case Join => SeqFlags(c, e.parts, depth, visiting, "/", true, [[]]);
        case Cond => AnyFlags(c, e.parts, depth, visiting, []);
        case Symbol => AnyFlags(c, Lookup(c.symbols, e.text, c.fn), depth, visiting + {e.text}, []);
        case Format => ArgsFlags(c, e.parts, depth, visiting);
        case _ =>
      }
    }
  }

  lemma {:induction false} SeqFlags(c: Context, parts: seq<Expr>, depth: nat, visiting: set<string>, sep: string,
                                    first: bool, acc: Alts)
    requires depth <= MAX_DEPTH
    ensures EvaluateSeq(c, parts, depth, visiting, sep, first, acc).flags <= KNOWN
    decreases Left(depth), 0, |parts|
  {
    hide Evaluate, Cross, CutAll, Take;
    if parts != [] {
      FlagsKnown(c, parts[0], depth + 1, visiting);
      var o := Evaluate(c, parts[0], depth + 1, visiting);
      SeqFlags(c, parts[1..], depth, visiting, sep, false,
               Take(MAX_ALTERNATIVES, CutAll(Cross(acc, o.alts, Separator(sep, first)))));
    }
  }

  lemma {:induction false} AnyFlags(c: Context, es: seq<Expr>, depth: nat, visiting: set<string>, out: Alts)
    requires depth <= MAX_DEPTH
    ensures EvaluateAny(c, es, depth, visiting, out).flags <= KNOWN
    decreases Left(depth), 0, |es|
  {
    hide Evaluate;
    if es != [] {
      FlagsKnown(c, es[0], depth + 1, visiting);
      AnyFlags(c, es[1..], depth, visiting, out + Evaluate(c, es[0], depth + 1, visiting).alts);
    }
  }

  lemma {:induction false} ArgsFlags(c: Context, es: seq<Expr>, depth: nat, visiting: set<string>)
    requires depth <= MAX_DEPTH
    ensures EvaluateArgs(c, es, depth, visiting).flags <= KNOWN
    decreases Left(depth), 0, |es|
  {
    hide Evaluate;
    if es != [] {
      FlagsKnown(c, es[0], depth + 1, visiting);
      ArgsFlags(c, es[1..], depth, visiting);
    }
  }

  /** Several resolutions are marked as such, and a single one never is. */
  lemma {:induction false} MultiValuedIff(c: Context, e: Expr, i: nat)
    requires i < |Resolutions(c, e)|
    ensures "multi_valued" in Resolutions(c, e)[i].flags <==> |Resolutions(c, e)| > 1
  {
    FlagsKnown(c, e, 0, {});
    hide Evaluate, Coalesce;
    var multi, cycle, depth := "multi_valued", "cycle", "depth_exceeded";
    assert multi[0] != cycle[0] && multi[0] != depth[0];
    assert multi !in KNOWN;
  }

  // ----- short names

  predicate Separates(ch: char) {
    ch == '.' || ch == ':' || ch == '-' || ch == '>' || ch == '[' || ch == ']'
  }

  /** A name without separators. */
  predicate Ident(x: string) {
    x != "" && (forall i :: 0 <= i < |x| ==> !Separates(x[i])) && !HasSuffix(x, "()")
  }

  lemma {:induction false} LastSeparator(p: string, x: string)
    requires Ident(x) && (p == "" || Separates(p[|p| - 1]))
    ensures LastIndexAny(p + x, ".:->[]") == |p| - 1
  {
    var s := p + x;
    assert forall k :: |p| <= k < |s| ==> s[k] == x[k - |p|];
    if p != "" { assert s[|p| - 1] == p[|p| - 1]; }
  }

  /** The short name of "a.b" is "b", as is that of "a->b" and "a[b", called or not. */
  lemma {:induction false} ShortName(p: string, x: string)
    requires Ident(x) && (p == "" || Separates(p[|p| - 1]))
    ensures LastIdent(p + x) == x && LastIdent(p + x + "()") == x
  {
    var s := p + x;
    LastSeparator(p, x);
    assert s[|p|..] == x;
    if HasSuffix(s, "()") {
      EndsInPair(p, x);
      assert false;
    }
    assert (s + "()")[..|s|] == s && HasSuffix(s + "()", "()");
    hide LastIndexAny;
  }

  lemma {:induction false} EndsInPair(p: string, x: string)
    requires x != "" && (p == "" || Separates(p[|p| - 1])) && HasSuffix(p + x, "()")
    ensures HasSuffix(x, "()")
  {
    var s := p + x;
    assert s[|s| - 2..] == "()";
    assert s[|s| - 1] == ')' && s[|s| - 2] == '(';
    assert |x| > 1;
    assert x[|x| - 2..] == s[|s| - 2..];
  }

  // ----- a client's base

  /** The base is that of the instance, or of the file, in that order; an absolute value takes none. */
  lemma {:induction false} BaseIs(bindings: map<string, Expr>, instance: string)
    ensures instance in bindings ==> BaseFor(bindings, instance) == bindings[instance]
    ensures instance !in bindings && "" in bindings ==> BaseFor(bindings, instance) == bindings[""]
    ensures instance !in bindings && "" !in bindings ==> BaseFor(bindings, instance) == Nil
  {
  }

  /** With a base in front, what blocked either part is listed, so every symbolic hole is, and flags add up. */
  lemma {:induction false} BasedBlockers(c: Context, base: Expr, e: Expr, k: nat)
    requires k < |Resolutions(c, e)|
    ensures var b, one := Resolutions(c, base)[0], Resolutions(c, e)[k];
            var r := Based(b, one);
            && Listed(r.segments, r.unresolved)
            && (r == one || (r.segments == Coalesce(b.segments + one.segments)
                             && r.unresolved == b.unresolved + one.unresolved && r.flags == b.flags + one.flags))
  {
    BlockersComplete(c, base, 0);
    BlockersComplete(c, e, k);
    var b, one := Resolutions(c, base)[0], Resolutions(c, e)[k];
    hide Resolutions, LiteralString, HasScheme, Coalesce;
    var segs, names := b.segments + one.segments, b.unresolved + one.unresolved;
    assert Listed(segs, names);
    CoalesceListed(segs, names);
  }

  // ----- absolute URLs

  predicate SchemeChar(c: char) {
    'a' <= c <= 'z' || 'A' <= c <= 'Z' || '0' <= c <= '9' || c == '+' || c == '-' || c == '.'
  }

  lemma {:induction false} SchemeCharIs(c: char)
    ensures SchemeChar(c) <==> IsLetter(c) || IsDigit(c) || c in "+-."
  {
  }

  /** A text is an absolute URL when a scheme, "://" and something or nothing make it up. */
  lemma {:induction false} HasSchemeIff(s: string)
    ensures HasScheme(s) <==> exists p, r :: s == p + "://" + r && p != "" && forall i :: 0 <= i < |p| ==> SchemeChar(p[i])
  {
    if HasScheme(s) {
      var i := SchemeEnd(s);
      SchemeEndIs(s);
      var p, r := s[..i], s[i + 3..];
      assert s == p + "://" + r;
      forall k | 0 <= k < |p| ensures SchemeChar(p[k]) { SchemeCharIs(s[k]); }
    }
    if p, r :| s == p + "://" + r && p != "" && forall i :: 0 <= i < |p| ==> SchemeChar(p[i]) {
      FirstScheme(p, r);
      forall k | 0 <= k < |p| ensures IsLetter(s[k]) || IsDigit(s[k]) || s[k] in "+-." { SchemeCharIs(p[k]); }
    }
  }

  lemma {:induction false} SchemeEndIs(s: string)
    ensures SchemeEnd(s) >= 0 ==> SchemeEnd(s) + 3 <= |s| && s[SchemeEnd(s)..SchemeEnd(s) + 3] == "://"
  {
    if |s| >= 3 && s[..3] != "://" {
      SchemeEndIs(s[1..]);
    }
  }

  lemma {:induction false} FirstScheme(p: string, r: string)
    requires forall i :: 0 <= i < |p| ==> SchemeChar(p[i])
    ensures SchemeEnd(p + "://" + r) == |p|
    decreases |p|
  {
    var s := p + "://" + r;
    if p == "" {
      assert s[..3] == "://";
    } else {
      assert s[..3] != "://" by { assert s[0] == p[0] && s[..3][0] == p[0]; }
      assert s[1..] == p[1..] + "://" + r;
      FirstScheme(p[1..], r);
    }
  }

  // ----- subscripts

  /** The expression base[k1][k2]... */
  function Subscript(base: string, keys: seq<string>): Expr {
    if keys == [] then Node(Symbol, base, [], "")
    else Node(Index, "", [Subscript(base, keys[..|keys| - 1]), Node(Lit, keys[|keys| - 1], [], "")], "")
  }

  lemma {:induction false} SubscriptParts(base: string, keys: seq<string>)
    ensures IndexParts(Subscript(base, keys)) == [base] + keys
  {
    if keys != [] {
      var n := |keys| - 1;
      SubscriptParts(base, keys[..n]);
      var inner, key := Subscript(base, keys[..n]), Node(Lit, keys[n], [], "");
      assert [inner, key][1..] == [key] && [key][1..] == [];
      assert IndexPartsAll([key]) == [keys[n]] + IndexPartsAll([]);
      assert IndexParts(Subscript(base, keys)) == IndexPartsAll([inner, key]) == [base] + keys[..n] + [keys[n]];
    }
  }

  /** A subscript is one hole, named by its base and all of its keys. */
  lemma {:induction false} SubscriptResolves(c: Context, base: string, keys: seq<string>)
    requires keys != []
    ensures var name := Strs.Join([base] + keys, ".");
            IsHole(Resolutions(c, Subscript(base, keys)), "cfg:" + name, LastIdent(name), "")
  {
    SubscriptParts(base, keys);
    LeavesResolve(c, Subscript(base, keys));
  }
}

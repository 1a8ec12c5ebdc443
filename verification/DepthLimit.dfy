/** What the resolver's depth limit counts (internal/resolve/resolve.go): every level of nesting, not only names. */
module DepthLimit {
  import opened Strs
  import opened Segments
  import opened Exprs
  import opened FormatStrings
  import opened Resolver
  import opened Uncapped
  import LostMeaning

  const EXCEEDED := "depth_exceeded"

  /** No name and no choice is evaluated in `e`: every part of it is. */
  predicate Direct(e: Expr) {
    e.Node? ==>
      && e.kind != Symbol && e.kind != Cond
      && (Descends(e.kind) ==> forall i :: 0 <= i < |e.parts| ==> Direct(e.parts[i]))
  }

  /** How deep the evaluated nodes of `e` are nested in it; -1 if there is none. */
  function Levels(e: Expr): (n: int)
    ensures n >= -1 && (n < 0 <==> e.Nil?)
    decreases e, 1
  {
    if e.Nil? then -1
    else if Descends(e.kind) then 1 + MaxLevels(e.parts)
    else 0
  }

  function MaxLevels(es: seq<Expr>): (n: int)
    ensures n >= -1
    decreases es, 0
  {
    if es == [] then -1
    else if Levels(es[0]) > MaxLevels(es[1..]) then Levels(es[0]) else MaxLevels(es[1..])
  }

  /** Without names and choices, the limit is exceeded exactly when the nesting alone exceeds it. */
  lemma {:induction false} ExceededIff(c: Context, e: Expr, depth: nat, visiting: set<string>)
    requires Direct(e) && depth <= MAX_DEPTH + 1
    ensures EXCEEDED in Evaluate(c, e, depth, visiting).flags <==> depth + Levels(e) > MAX_DEPTH
    decreases e, 1
  {
    if e.Node? && depth <= MAX_DEPTH {
      match e.kind {
        case Concat => SeqExceededIff(c, e.parts, depth, visiting, "", true, [[]]);
        case Template => SeqExceededIff(c, e.parts, depth, visiting, "", true, [[]]);
        case Join => SeqExceededIff(c, e.parts, depth, visiting, "/", true, [[]]);
        case Format => ArgsExceededIff(c, e.parts, depth, visiting);
        case _ =>
      }
    }
  }

  lemma {:induction false} SeqExceededIff(c: Context, es: seq<Expr>, depth: nat, visiting: set<string>,
                                          sep: string, first: bool, acc: Alts)
    requires depth <= MAX_DEPTH && forall i :: 0 <= i < |es| ==> Direct(es[i])
    ensures EXCEEDED in EvaluateSeq(c, es, depth, visiting, sep, first, acc).flags
       <==> depth + 1 + MaxLevels(es) > MAX_DEPTH
    decreases es, 0
  {
    if es != [] {
      ExceededIff(c, es[0], depth + 1, visiting);
      var next := Take(MAX_ALTERNATIVES, CutAll(Cross(acc, Evaluate(c, es[0], depth + 1, visiting).alts,
                                                      Separator(sep, first))));
      SeqExceededIff(c, es[1..], depth, visiting, sep, false, next);
    }
  }

  lemma {:induction false} ArgsExceededIff(c: Context, es: seq<Expr>, depth: nat, visiting: set<string>)
    requires depth <= MAX_DEPTH && forall i :: 0 <= i < |es| ==> Direct(es[i])
    ensures EXCEEDED in EvaluateArgs(c, es, depth, visiting).flags <==> depth + 1 + MaxLevels(es) > MAX_DEPTH
    decreases es, 0
  {
    if es != [] {
      ExceededIff(c, es[0], depth + 1, visiting);
      ArgsExceededIff(c, es[1..], depth, visiting);
    }
  }

  /** `t + u + ... + u` with `n` pluses, as a left-associative operator is read. */
  function Sum(t: string, u: string, n: nat): Expr {
    if n == 0 then LostMeaning.Text(t) else Node(Concat, "", [Sum(t, u, n - 1), LostMeaning.Text(u)], "")
  }

  lemma {:induction false} SumLevels(t: string, u: string, n: nat)
    ensures Direct(Sum(t, u, n)) && Levels(Sum(t, u, n)) == n
  {
    if n > 0 {
      var inner := Sum(t, u, n - 1);
      SumLevels(t, u, n - 1);
      assert [inner, LostMeaning.Text(u)][1..] == [LostMeaning.Text(u)] && [LostMeaning.Text(u)][1..] == [];
      assert MaxLevels([]) == -1 && Levels(LostMeaning.Text(u)) == 0 && MaxLevels([LostMeaning.Text(u)]) == 0;
      assert MaxLevels([inner, LostMeaning.Text(u)]) == if Levels(inner) > 0 then Levels(inner) else 0;
    }
  }

  /** What is made of such a sum whose root is at this depth. */
  function Spelled(t: string, u: string, n: nat, depth: nat): Segs {
    if depth > MAX_DEPTH then [Hole("", "", "")]
    else if n == 0 then [Literal(t)]
    else Spelled(t, u, n - 1, depth + 1) + (if depth == MAX_DEPTH then [Hole("", "", "")] else [Literal(u)])
  }

  lemma {:induction false} SpelledSize(t: string, u: string, n: nat, depth: nat)
    requires depth <= MAX_DEPTH + 1
    ensures 1 <= |Spelled(t, u, n, depth)| <= MAX_DEPTH + 2 - depth
    ensures Spelled(t, u, n, depth)[0] == if depth + n > MAX_DEPTH then Hole("", "", "") else Literal(t)
    ensures depth + n <= MAX_DEPTH ==>
              forall k :: 0 < k < |Spelled(t, u, n, depth)| ==> Spelled(t, u, n, depth)[k] == Literal(u)
    decreases MAX_DEPTH + 1 - depth
  {
    if depth <= MAX_DEPTH && n > 0 {
      SpelledSize(t, u, n - 1, depth + 1);
    }
  }

  lemma {:induction false} SumEvaluates(c: Context, t: string, u: string, n: nat, depth: nat)
    requires depth <= MAX_DEPTH + 1
    ensures Evaluate(c, Sum(t, u, n), depth, {}).alts == [Spelled(t, u, n, depth)]
    decreases MAX_DEPTH + 1 - depth
  {
    if depth <= MAX_DEPTH && n > 0 {
      SumEvaluates(c, t, u, n - 1, depth + 1);
      SpelledSize(t, u, n - 1, depth + 1);
      var last := if depth == MAX_DEPTH then [Hole("", "", "")] else [Literal(u)];
      assert Evaluate(c, LostMeaning.Text(u), depth + 1, {}).alts == [last];
      hide Evaluate;
      LostMeaning.PartsEvaluate(c, Sum(t, u, n - 1), LostMeaning.Text(u), depth, {},
                                Spelled(t, u, n - 1, depth + 1), last);
    }
  }

  /**
   A sum of literals that no name leads to keeps its first text, and all the others, up to six
   pluses. With more of them the flag is set, and the only pattern returned begins with a hole.
   */
  lemma LongSumIff(c: Context, t: string, u: string, n: nat)
    ensures EXCEEDED in Evaluate(c, Sum(t, u, n), 0, {}).flags <==> n > 6
    ensures var alts := Evaluate(c, Sum(t, u, n), 0, {}).alts;
            && |alts| == 1 && alts[0] != []
            && (alts[0][0] == Literal(t) <==> n <= 6)
            && (alts[0][0].Hole? <==> n > 6)
            && (t != u ==> (Literal(t) in alts[0] <==> n <= 6))
  {
    SumLevels(t, u, n);
    ExceededIff(c, Sum(t, u, n), 0, {});
    SumEvaluates(c, t, u, n, 0);
    SpelledSize(t, u, n, 0);
    hide Evaluate, Sum;
    if n > 6 && t != u { TextGone(t, u, n, 0); }
  }

  lemma {:induction false} TextGone(t: string, u: string, n: nat, depth: nat)
    requires depth <= MAX_DEPTH + 1 && depth + n > MAX_DEPTH && t != u
    ensures Literal(t) !in Spelled(t, u, n, depth)
    decreases MAX_DEPTH + 1 - depth
  {
    if depth <= MAX_DEPTH && n > 0 {
      TextGone(t, u, n - 1, depth + 1);
    }
  }
}

/**
 The resolver without its caps: same depth bound and cycle guard, but every alternative in
 full. The capped evaluator returns the first alternatives of this one, cut to length.
 */
module Uncapped {
  import opened Strs
  import opened Segments
  import opened Exprs
  import opened FormatStrings
  import opened Resolver

  function All(c: Context, e: Expr, depth: nat, visiting: set<string>): Alts
    decreases Left(depth), 1, 0
  {
    if e.Nil? then [[Hole("", "", "")]]
    else if depth > MAX_DEPTH then [[Hole("", "", e.src)]]
    else match e.kind
      case Lit => [[Literal(e.text)]]
      case Concat => AllSeq(c, e.parts, depth, visiting, "", true, [[]])
      case Template => AllSeq(c, e.parts, depth, visiting, "", true, [[]])
      case Join => AllSeq(c, e.parts, depth, visiting, "/", true, [[]])
      case Cond => AllAny(c, e.parts, depth, visiting)
      case Env => [[Hole("env:" + e.text, e.text, e.src)]]
      case Index => [[Hole("cfg:" + IndexName(e), LastIdent(IndexName(e)), e.src)]]
      case Call => [[Hole("call:" + e.text, LastIdent(e.text), e.src)]]
      case Symbol =>
        var vals := Lookup(c.symbols, e.text, c.fn);
        if e.text in visiting then [[Hole("sym:" + e.text, LastIdent(e.text), e.src)]]
        else if vals == [] then
          var kind := if IsParam(c.symbols, e.text, c.fn) then "arg:" else "sym:";
          [[Hole(kind + e.text, LastIdent(e.text), e.src)]]
        else RenameAll(AllAny(c, vals, depth, visiting + {e.text}), e.text)
      case Format => [OrOpaque(Assemble(Parse(e.text, ""), AllArgs(c, e.parts, depth, visiting), 0), e.src)]
      case Unknown => [[Hole("", "", e.src)]]
  }

  function AllAny(c: Context, es: seq<Expr>, depth: nat, visiting: set<string>): Alts
    requires depth <= MAX_DEPTH
    decreases Left(depth), 0, |es|
  {
    if es == [] then [] else All(c, es[0], depth + 1, visiting) + AllAny(c, es[1..], depth, visiting)
  }

  function AllSeq(c: Context, parts: seq<Expr>, depth: nat, visiting: set<string>,
                  sep: string, first: bool, acc: Alts): Alts
    requires depth <= MAX_DEPTH
    decreases Left(depth), 0, |parts|
  {
    if parts == [] then acc
    else AllSeq(c, parts[1..], depth, visiting, sep, false,
                Cross(acc, All(c, parts[0], depth + 1, visiting), Separator(sep, first)))
  }

  function AllArgs(c: Context, es: seq<Expr>, depth: nat, visiting: set<string>): (args: seq<Option<Segs>>)
    requires depth <= MAX_DEPTH
    ensures |args| == |es|
    ensures forall i :: 0 <= i < |es| ==> args[i] == FirstAlt(All(c, es[i], depth + 1, visiting))
    decreases Left(depth), 0, |es|
  {
    if es == [] then []
    else [FirstAlt(All(c, es[0], depth + 1, visiting))] + AllArgs(c, es[1..], depth, visiting)
  }

  /** No positional verb comes after a self-naming one. */
  predicate NamesLast(pieces: seq<Piece>) {
    forall i, j :: 0 <= i < j < |pieces| && pieces[i].Verb? && pieces[i].name != ""
                   ==> pieces[j].Verb? ==> pieces[j].name != "" || pieces[j].argIndex >= 0
  }

  /** What a theorem asks of the format nodes and the names an evaluation reaches. */
  datatype Demand =
    | Short   // the first alternative of every argument is within MAX_SEGMENTS
    | Single  // arguments have at most one alternative, names come last, a name's values are told apart

  predicate Meets(c: Context, f: Expr, depth: nat, visiting: set<string>, demand: Demand)
    requires f.Node? && depth <= MAX_DEPTH
  {
    match demand
    case Short =>
      forall i :: 0 <= i < |f.parts| ==>
        var alts := All(c, f.parts[i], depth + 1, visiting);
        alts != [] ==> |alts[0]| <= MAX_SEGMENTS
    case Single =>
      && NamesLast(Parse(f.text, ""))
      && forall i :: 0 <= i < |f.parts| ==> |All(c, f.parts[i], depth + 1, visiting)| <= 1
  }

  /** The kinds whose parts are evaluated. */
  predicate Descends(k: Kind) {
    k == Concat || k == Template || k == Join || k == Cond || k == Format
  }

  /** Every format node and every name that evaluating `e` reaches meets the demand. */
  predicate Formats(c: Context, e: Expr, depth: nat, visiting: set<string>, demand: Demand)
    decreases Left(depth)
  {
    if e.Nil? || depth > MAX_DEPTH then true
    else if e.kind == Symbol then
      var vals := Lookup(c.symbols, e.text, c.fn);
      e.text in visiting ||
      ((demand.Single? ==> ToldApart(Bindings(c.symbols, e.text, c.fn)))
       && forall i :: 0 <= i < |vals| ==> Formats(c, vals[i], depth + 1, visiting + {e.text}, demand))
    else Descends(e.kind) ==>
      && (e.kind == Format ==> Meets(c, e, depth, visiting, demand))
      && forall i :: 0 <= i < |e.parts| ==> Formats(c, e.parts[i], depth + 1, visiting, demand)
  }

  // ----- taking the first alternatives of a product

  lemma {:induction false} CrossFirsts(n: nat, xs: Alts, ys: Alts, sep: Segs)
    ensures Take(n, Cross(Take(n, xs), ys, sep)) == Take(n, Cross(xs, ys, sep))
    decreases n, |xs|
  {
    if |xs| <= n {
    } else if n == 0 {
    } else if ys == [] {
      EmptyCross(xs, sep);
      EmptyCross(Take(n, xs), sep);
    } else {
      var row, m := Row(xs[0], ys, sep), if |ys| < n then n - |ys| else 0;
      assert Take(n, xs)[1..] == Take(n - 1, xs[1..]);
      CrossFirsts(m, xs[1..], ys, sep);
      CrossFirsts(m, Take(n - 1, xs[1..]), ys, sep);
      assert Take(m, Take(n - 1, xs[1..])) == Take(m, xs[1..]);
      TakeSplit(n, row, Cross(xs[1..], ys, sep));
      TakeSplit(n, row, Cross(Take(n, xs)[1..], ys, sep));
    }
  }

  lemma {:induction false} EmptyCross(xs: Alts, sep: Segs)
    ensures Cross(xs, [], sep) == []
  {
    if xs != [] { EmptyCross(xs[1..], sep); }
  }

  lemma TakeSplit<T>(n: nat, xs: seq<T>, ys: seq<T>)
    ensures Take(n, xs + ys) == Take(n, xs) + Take(if |xs| < n then n - |xs| else 0, ys)
  {
  }

  lemma CrossRowFirsts(n: nat, xs: Alts, ys: Alts, sep: Segs)
    ensures Take(n, Cross(xs, Take(n, ys), sep)) == Take(n, Cross(xs, ys, sep))
  {
    if |ys| > n && xs != [] {
      assert Row(xs[0], Take(n, ys), sep) == Take(n, Row(xs[0], ys, sep));
      TakeSplit(n, Row(xs[0], ys, sep), Cross(xs[1..], ys, sep));
      TakeSplit(n, Row(xs[0], Take(n, ys), sep), Cross(xs[1..], Take(n, ys), sep));
    }
  }

  // ----- the caps only cut

  predicate CutOf(x: Segs, u: Segs) {
    x == u || x == Cut(u)
  }

  /** `capped` is the first alternatives of `full`, each whole or cut to length. */
  predicate Trimmed(capped: Alts, full: Alts) {
    && |capped| == |Take(MAX_ALTERNATIVES, full)|
    && forall i :: 0 <= i < |capped| ==> CutOf(capped[i], full[i])
  }

  /** Cutting before concatenating changes nothing that the cut after it leaves. */
  lemma {:induction false} CrossCuts(xs: Alts, us: Alts, ys: Alts, vs: Alts, sep: Segs)
    requires |xs| == |us| && forall i :: 0 <= i < |xs| ==> CutOf(xs[i], us[i])
    requires |ys| == |vs| && forall i :: 0 <= i < |ys| ==> CutOf(ys[i], vs[i])
    ensures CutAll(Cross(xs, ys, sep)) == CutAll(Cross(us, vs, sep))
    decreases |xs|
  {
    if xs != [] {
      CrossCuts(xs[1..], us[1..], ys, vs, sep);
      var r, q := Row(xs[0], ys, sep), Row(us[0], vs, sep);
      forall i | 0 <= i < |r| ensures Cut(r[i]) == Cut(q[i]) {
        CutConcat(xs[0], us[0], sep, ys[i], vs[i]);
      }
      assert CutAll(Cross(xs, ys, sep)) == CutAll(r) + CutAll(Cross(xs[1..], ys, sep));
      assert CutAll(Cross(us, vs, sep)) == CutAll(q) + CutAll(Cross(us[1..], vs, sep));
    }
  }

  lemma CutConcat(x: Segs, u: Segs, sep: Segs, y: Segs, v: Segs)
    requires CutOf(x, u) && CutOf(y, v)
    ensures Cut(x + sep + y) == Cut(u + sep + v)
  {
    assert Cut(x) == Cut(u) && Cut(y) == Cut(v);
    if |x| >= MAX_SEGMENTS || |u| >= MAX_SEGMENTS {
      assert Cut(x + sep + y) == Cut(x) && Cut(u + sep + v) == Cut(u);
    } else {
      assert x == u;
      TakeSplit(MAX_SEGMENTS, x + sep, y);
      TakeSplit(MAX_SEGMENTS, x + sep, v);
      var m := if |x + sep| < MAX_SEGMENTS then MAX_SEGMENTS - |x + sep| else 0;
      assert Take(m, Cut(y)) == Take(m, y) && Take(m, Cut(v)) == Take(m, v);
    }
  }

  lemma TrimmedProduct(acc: Alts, fullAcc: Alts, alts: Alts, full: Alts, sep: Segs)
    requires Trimmed(acc, fullAcc) && Trimmed(alts, full)
    ensures Trimmed(Take(MAX_ALTERNATIVES, CutAll(Cross(acc, alts, sep))), Cross(fullAcc, full, sep))
  {
    var n := MAX_ALTERNATIVES;
    var firstAcc, first := Take(n, fullAcc), Take(n, full);
    CrossCuts(acc, firstAcc, alts, first, sep);
    CrossFirsts(n, fullAcc, first, sep);
    CrossRowFirsts(n, fullAcc, full, sep);
    assert Take(n, CutAll(Cross(acc, alts, sep))) == CutAll(Take(n, Cross(firstAcc, first, sep)));
  }

  /** The capped evaluator returns the first alternatives of the uncapped one, cut to length. */
  lemma {:induction false} CapsOnlyTrim(c: Context, e: Expr, depth: nat, visiting: set<string>)
    requires Formats(c, e, depth, visiting, Short)
    ensures Trimmed(Evaluate(c, e, depth, visiting).alts, All(c, e, depth, visiting))
    decreases Left(depth), 1, 0
  {
    if e.Node? && depth <= MAX_DEPTH {
      match e.kind {
        case Concat => TrimSeq(c, e.parts, depth, visiting, "", true, [[]], [[]]);
        case Template => TrimSeq(c, e.parts, depth, visiting, "", true, [[]], [[]]);
        case Join => TrimSeq(c, e.parts, depth, visiting, "/", true, [[]], [[]]);
        case Cond =>
          TrimAny(c, e.parts, depth, visiting, [], []);
          assert [] + AllAny(c, e.parts, depth, visiting) == AllAny(c, e.parts, depth, visiting);
        case Symbol =>
          var vals := Lookup(c.symbols, e.text, c.fn);
          if e.text !in visiting && vals != [] {
            TrimAny(c, vals, depth, visiting + {e.text}, [], []);
            var full := AllAny(c, vals, depth, visiting + {e.text});
            assert [] + full == full;
            RenameTrims(EvaluateAny(c, vals, depth, visiting + {e.text}, []).alts, full, e.text);
          }
        case Format =>
          TrimArgs(c, e.parts, depth, visiting);
        case _ =>
      }
    }
  }

  lemma RenameTrims(alts: Alts, full: Alts, name: string)
    requires Trimmed(alts, full)
    ensures Trimmed(RenameAll(alts, name), RenameAll(full, name))
  {
    forall i | 0 <= i < |alts| ensures CutOf(Rename(alts[i], name), Rename(full[i], name)) {
      assert CutOf(alts[i], full[i]);
    }
  }

  lemma {:induction false} TrimSeq(c: Context, parts: seq<Expr>, depth: nat, visiting: set<string>,
                                   sep: string, first: bool, acc: Alts, fullAcc: Alts)
    requires depth <= MAX_DEPTH
    requires forall i :: 0 <= i < |parts| ==> Formats(c, parts[i], depth + 1, visiting, Short)
    requires Trimmed(acc, fullAcc)
    ensures Trimmed(EvaluateSeq(c, parts, depth, visiting, sep, first, acc).alts,
                    AllSeq(c, parts, depth, visiting, sep, first, fullAcc))
    decreases Left(depth), 0, |parts|
  {
    if parts != [] {
      CapsOnlyTrim(c, parts[0], depth + 1, visiting);
      var alts := Evaluate(c, parts[0], depth + 1, visiting).alts;
      var full := All(c, parts[0], depth + 1, visiting);
      var s := Separator(sep, first);
      TrimmedProduct(acc, fullAcc, alts, full, s);
      TrimSeq(c, parts[1..], depth, visiting, sep, false,
              Take(MAX_ALTERNATIVES, CutAll(Cross(acc, alts, s))), Cross(fullAcc, full, s));
    }
  }

  lemma {:induction false} TrimAny(c: Context, es: seq<Expr>, depth: nat, visiting: set<string>,
                                   out: Alts, full: Alts)
    requires depth <= MAX_DEPTH
    requires forall i :: 0 <= i < |es| ==> Formats(c, es[i], depth + 1, visiting, Short)
    requires Trimmed(out, full) && |out| < MAX_ALTERNATIVES
    ensures Trimmed(EvaluateAny(c, es, depth, visiting, out).alts, full + AllAny(c, es, depth, visiting))
    decreases Left(depth), 0, |es|
  {
    if es == [] {
      assert full + AllAny(c, es, depth, visiting) == full;
    } else {
      hide Formats, Cut, All, Evaluate;
      CapsOnlyTrim(c, es[0], depth + 1, visiting);
      var alts := Evaluate(c, es[0], depth + 1, visiting).alts;
      var fullAlts := All(c, es[0], depth + 1, visiting);
      var rest := AllAny(c, es[1..], depth, visiting);
      assert full + AllAny(c, es, depth, visiting) == (full + fullAlts) + rest;
      if |out + alts| < MAX_ALTERNATIVES {
        TrimAny(c, es[1..], depth, visiting, out + alts, full + fullAlts);
      }
    }
  }

  lemma {:induction false} TrimArgs(c: Context, es: seq<Expr>, depth: nat, visiting: set<string>)
    requires depth <= MAX_DEPTH
    requires forall i :: 0 <= i < |es| ==> Formats(c, es[i], depth + 1, visiting, Short)
    requires forall i :: 0 <= i < |es| ==>
               var alts := All(c, es[i], depth + 1, visiting);
               alts != [] ==> |alts[0]| <= MAX_SEGMENTS
    ensures EvaluateArgs(c, es, depth, visiting).args == AllArgs(c, es, depth, visiting)
    decreases Left(depth), 0, |es|
  {
    if es != [] {
      CapsOnlyTrim(c, es[0], depth + 1, visiting);
      TrimArgs(c, es[1..], depth, visiting);
    }
  }

  // ----- without format nodes the description is exact

  predicate NoFormat(e: Expr) {
    e.Nil? || (e.kind != Format && forall i :: 0 <= i < |e.parts| ==> NoFormat(e.parts[i]))
  }

  predicate NoFormatTable(t: Table) {
    forall i :: 0 <= i < |t| ==> NoFormat(t[i].value)
  }

  lemma LookupNoFormat(c: Context, name: string)
    requires NoFormatTable(c.symbols)
    ensures forall e :: e in Lookup(c.symbols, name, c.fn) ==> NoFormat(e)
  {
    DedupeCovers(Bindings(c.symbols, name, c.fn));
    BindingsFromTable(c.symbols, name, c.fn);
  }

  lemma {:induction false} NoFormatMeets(c: Context, e: Expr, depth: nat, visiting: set<string>)
    requires NoFormat(e) && NoFormatTable(c.symbols)
    ensures Formats(c, e, depth, visiting, Short)
    decreases Left(depth)
  {
    if e.Node? && depth <= MAX_DEPTH {
      if e.kind == Symbol {
        var vals := Lookup(c.symbols, e.text, c.fn);
        LookupNoFormat(c, e.text);
        forall i | 0 <= i < |vals| ensures Formats(c, vals[i], depth + 1, visiting + {e.text}, Short) {
          NoFormatMeets(c, vals[i], depth + 1, visiting + {e.text});
        }
      } else if Descends(e.kind) {
        forall i | 0 <= i < |e.parts| ensures Formats(c, e.parts[i], depth + 1, visiting, Short) {
          NoFormatMeets(c, e.parts[i], depth + 1, visiting);
        }
      }
    }
  }

  predicate AllShort(alts: Alts) {
    forall i :: 0 <= i < |alts| ==> |alts[i]| <= MAX_SEGMENTS
  }

  lemma {:induction false} NoFormatShort(c: Context, e: Expr, depth: nat, visiting: set<string>)
    requires NoFormat(e) && NoFormatTable(c.symbols)
    ensures AllShort(Evaluate(c, e, depth, visiting).alts)
    decreases Left(depth), 1, 0
  {
    if e.Node? && depth <= MAX_DEPTH {
      match e.kind {
        case Concat => SeqShort(c, e.parts, depth, visiting, "", true, [[]]);
        case Template => SeqShort(c, e.parts, depth, visiting, "", true, [[]]);
        case Join => SeqShort(c, e.parts, depth, visiting, "/", true, [[]]);
        case Cond => AnyShort(c, e.parts, depth, visiting, []);
        case Symbol =>
          LookupNoFormat(c, e.text);
          AnyShort(c, Lookup(c.symbols, e.text, c.fn), depth, visiting + {e.text}, []);
        case _ =>
      }
    }
  }

  lemma {:induction false} SeqShort(c: Context, parts: seq<Expr>, depth: nat, visiting: set<string>,
                                    sep: string, first: bool, acc: Alts)
    requires depth <= MAX_DEPTH && AllShort(acc)
    ensures AllShort(EvaluateSeq(c, parts, depth, visiting, sep, first, acc).alts)
    decreases Left(depth), 0, |parts|
  {
    if parts != [] {
      var alts := Evaluate(c, parts[0], depth + 1, visiting).alts;
      SeqShort(c, parts[1..], depth, visiting, sep, false,
               Take(MAX_ALTERNATIVES, CutAll(Cross(acc, alts, Separator(sep, first)))));
    }
  }

  lemma {:induction false} AnyShort(c: Context, es: seq<Expr>, depth: nat, visiting: set<string>, out: Alts)
    requires depth <= MAX_DEPTH && AllShort(out) && NoFormatTable(c.symbols)
    requires forall e :: e in es ==> NoFormat(e)
    ensures AllShort(EvaluateAny(c, es, depth, visiting, out).alts)
    decreases Left(depth), 0, |es|
  {
    if es != [] {
      NoFormatShort(c, es[0], depth + 1, visiting);
      AnyShort(c, es[1..], depth, visiting, out + Evaluate(c, es[0], depth + 1, visiting).alts);
    }
  }

  /** Without formats: exactly the first four uncapped alternatives, each cut to 128 segments. */
  lemma CapsOnlyCut(c: Context, e: Expr, depth: nat, visiting: set<string>)
    requires NoFormat(e) && NoFormatTable(c.symbols)
    ensures Evaluate(c, e, depth, visiting).alts
         == CutAll(Take(MAX_ALTERNATIVES, All(c, e, depth, visiting)))
  {
    NoFormatMeets(c, e, depth, visiting);
    CapsOnlyTrim(c, e, depth, visiting);
    NoFormatShort(c, e, depth, visiting);
  }
}

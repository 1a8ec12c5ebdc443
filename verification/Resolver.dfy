/**
 The URL resolver (internal/resolve/resolve.go): a capped, cycle-guarded, depth-bounded
 evaluator from expressions to alternative segment lists. `Evaluate` and its companions say
 what one evaluation returns and records; class `State` is the evaluator itself.
 */
module Resolver {
  import opened Strs
  import opened Segments
  import opened Exprs
  import opened FormatStrings

  const MAX_DEPTH: nat := 6
  const MAX_ALTERNATIVES: nat := 4
  const MAX_SEGMENTS: nat := 128

  type Alts = seq<Segs>

  /** What a call site is resolved against: the symbols in view and the enclosing function. */
  datatype Context = Context(symbols: Table, fn: string)

  /** The alternatives of an expression, the names that blocked it and the notable facts. */
  datatype Outcome = Outcome(alts: Alts, unresolved: set<string>, flags: set<string>)

  function Take<T>(n: nat, xs: seq<T>): seq<T> {
    if |xs| <= n then xs else xs[..n]
  }

  function Cut(segs: Segs): Segs {
    Take(MAX_SEGMENTS, segs)
  }

  function CutAll(alts: Alts): (r: Alts)
    ensures |r| == |alts|
  {
    seq(|alts|, i requires 0 <= i < |alts| => Cut(alts[i]))
  }

  function Row(prefix: Segs, alts: Alts, sep: Segs): (r: Alts)
    ensures |r| == |alts|
  {
    seq(|alts|, i requires 0 <= i < |alts| => prefix + sep + alts[i])
  }

  /** Every prefix followed by every alternative, prefixes varying slowest. */
  function Cross(prefixes: Alts, alts: Alts, sep: Segs): Alts {
    if prefixes == [] then [] else Row(prefixes[0], alts, sep) + Cross(prefixes[1..], alts, sep)
  }

  function LastIdent(name: string): string {
    var base := TrimSuffix(name, "()");
    var i := LastIndexAny(base, ".:->[]");
    if i >= 0 && i + 1 < |base| then base[i + 1..] else base
  }

  /** The texts of the literals and symbols below a subscript, in order. */
  function IndexParts(e: Expr): seq<string>
    decreases e, 1
  {
    if e.Nil? then []
    else match e.kind
      case Index => IndexPartsAll(e.parts)
      case Lit => [e.text]
      case Symbol => [e.text]
      case _ => []
  }

  function IndexPartsAll(es: seq<Expr>): seq<string>
    decreases es, 0
  {
    if es == [] then [] else IndexParts(es[0]) + IndexPartsAll(es[1..])
  }

  function IndexName(e: Expr): string {
    Strs.Join(IndexParts(e), ".")
  }

  /** A hole that names what it could not read. */
  function Blocked(kind: string, name: string, shown: string, src: string): Outcome {
    Outcome([[Hole(kind + name, shown, src)]], {kind + name}, {})
  }

  /** A lone hole that has no better name takes the name of the symbol it was bound to. */
  function Rename(alt: Segs, name: string): Segs {
    if |alt| == 1 && alt[0].Hole? && (alt[0].name == "" || HasPrefix(alt[0].sym, "call:"))
    then [alt[0].(name := LastIdent(name))] else alt
  }

  function RenameAll(alts: Alts, name: string): (r: Alts)
    ensures |r| == |alts|
  {
    seq(|alts|, i requires 0 <= i < |alts| => Rename(alts[i], name))
  }

  /** What one verb contributes, given the arguments and the next positional index. */
  function SlotSegs(verb: Piece, args: seq<Option<Segs>>, next: nat): Segs
    requires verb.Verb?
  {
    var idx := if verb.argIndex < 0 then next else verb.argIndex;
    if verb.name != "" then [Hole("", verb.name, verb.text)]
    else if idx < |args| && args[idx].Some? then args[idx].value
    else [Hole("", verb.text, verb.text)]
  }

  /** The segments of a format string; every verb without an explicit index uses one up. */
  function Assemble(pieces: seq<Piece>, args: seq<Option<Segs>>, next: nat): Segs {
    if pieces == [] then []
    else match pieces[0]
      case Text(t) => [Literal(t)] + Assemble(pieces[1..], args, next)
      case Verb(_, argIndex, _) =>
        SlotSegs(pieces[0], args, next)
        + Assemble(pieces[1..], args, if argIndex < 0 then next + 1 else next)
  }

  /** How many more nesting levels `depth` leaves. */
  function Left(depth: nat): nat {
    if depth > MAX_DEPTH then 0 else MAX_DEPTH + 1 - depth
  }

  function Evaluate(c: Context, e: Expr, depth: nat, visiting: set<string>): Outcome
    decreases Left(depth), 1, 0
  {
    if e.Nil? then Outcome([[Hole("", "", "")]], {}, {})
    else if depth > MAX_DEPTH then Outcome([[Hole("", "", e.src)]], {}, {"depth_exceeded"})
    else match e.kind
      case Lit => Outcome([[Literal(e.text)]], {}, {})
      case Concat => EvaluateSeq(c, e.parts, depth, visiting, "", true, [[]])
      case Template => EvaluateSeq(c, e.parts, depth, visiting, "", true, [[]])
      case Join => EvaluateSeq(c, e.parts, depth, visiting, "/", true, [[]])
      case Cond => EvaluateAny(c, e.parts, depth, visiting, [])
      case Env => Blocked("env:", e.text, e.text, e.src)
      case Index => Blocked("cfg:", IndexName(e), LastIdent(IndexName(e)), e.src)
      case Call => Blocked("call:", e.text, LastIdent(e.text), e.src)
      case Symbol => EvaluateSymbol(c, e, depth, visiting)
      case Format => EvaluateFormat(c, e, depth, visiting)
      case Unknown => Outcome([[Hole("", "", e.src)]], {}, {})
  }

  function EvaluateSymbol(c: Context, e: Expr, depth: nat, visiting: set<string>): Outcome
    requires e.Node? && depth <= MAX_DEPTH
    decreases Left(depth), 0, 1, 0
  {
    var vals := Lookup(c.symbols, e.text, c.fn);
    if e.text in visiting then
      Blocked("sym:", e.text, LastIdent(e.text), e.src).(flags := {"cycle"})
    else if vals == [] then
      Blocked(if IsParam(c.symbols, e.text, c.fn) then "arg:" else "sym:", e.text, LastIdent(e.text), e.src)
    else
      var o := EvaluateAny(c, vals, depth, visiting + {e.text}, []);
      o.(alts := RenameAll(o.alts, e.text))
  }

  /** The alternatives of `es` in turn, stopping as soon as there are enough of them. */
  function EvaluateAny(c: Context, es: seq<Expr>, depth: nat, visiting: set<string>, out: Alts): Outcome
    requires depth <= MAX_DEPTH
    decreases Left(depth), 0, 0, |es|
  {
    if es == [] then Outcome(out, {}, {})
    else
      var o := Evaluate(c, es[0], depth + 1, visiting);
      if |out + o.alts| >= MAX_ALTERNATIVES then
        Outcome(Take(MAX_ALTERNATIVES, out + o.alts), o.unresolved, o.flags)
      else
        var rest := EvaluateAny(c, es[1..], depth, visiting, out + o.alts);
        Outcome(rest.alts, o.unresolved + rest.unresolved, o.flags + rest.flags)
  }

  function Separator(sep: string, first: bool): Segs {
    if first || sep == "" then [] else [Literal(sep)]
  }

  /** The capped product of the alternatives of `parts`, each appended to those in `acc`. */
  function EvaluateSeq(c: Context, parts: seq<Expr>, depth: nat, visiting: set<string>,
                       sep: string, first: bool, acc: Alts): Outcome
    requires depth <= MAX_DEPTH
    decreases Left(depth), 0, 0, |parts|
  {
    if parts == [] then Outcome(acc, {}, {})
    else
      var o := Evaluate(c, parts[0], depth + 1, visiting);
      var next := Take(MAX_ALTERNATIVES, CutAll(Cross(acc, o.alts, Separator(sep, first))));
      var rest := EvaluateSeq(c, parts[1..], depth, visiting, sep, false, next);
      Outcome(rest.alts, o.unresolved + rest.unresolved, o.flags + rest.flags)
  }

  lemma SeqStep(c: Context, parts: seq<Expr>, i: nat, depth: nat, visiting: set<string>, sep: string, acc: Alts)
    requires i < |parts| && depth <= MAX_DEPTH
    ensures var o := Evaluate(c, parts[i], depth + 1, visiting);
            var next := Take(MAX_ALTERNATIVES, CutAll(Cross(acc, o.alts, Separator(sep, i == 0))));
            var rest := EvaluateSeq(c, parts[i + 1..], depth, visiting, sep, false, next);
            EvaluateSeq(c, parts[i..], depth, visiting, sep, i == 0, acc)
            == Outcome(rest.alts, o.unresolved + rest.unresolved, o.flags + rest.flags)
  {
    assert parts[i..][1..] == parts[i + 1..];
  }

  datatype ArgsOutcome = ArgsOutcome(args: seq<Option<Segs>>, unresolved: set<string>, flags: set<string>)

  function FirstAlt(alts: Alts): Option<Segs> {
    if alts == [] then None else Some(alts[0])
  }

  function EvaluateArgs(c: Context, es: seq<Expr>, depth: nat, visiting: set<string>): (r: ArgsOutcome)
    requires depth <= MAX_DEPTH
    ensures |r.args| == |es|
    decreases Left(depth), 0, 0, |es|
  {
    if es == [] then ArgsOutcome([], {}, {})
    else
      var o := Evaluate(c, es[0], depth + 1, visiting);
      var rest := EvaluateArgs(c, es[1..], depth, visiting);
      ArgsOutcome([FirstAlt(o.alts)] + rest.args, o.unresolved + rest.unresolved, o.flags + rest.flags)
  }

  function OrOpaque(segs: Segs, src: string): Segs {
    if segs == [] then [Hole("", "", src)] else segs
  }

  function EvaluateFormat(c: Context, e: Expr, depth: nat, visiting: set<string>): Outcome
    requires e.Node? && depth <= MAX_DEPTH
    decreases Left(depth), 0, 1, 0
  {
    var a := EvaluateArgs(c, e.parts, depth, visiting);
    Outcome([OrOpaque(Assemble(Parse(e.text, ""), a.args, 0), e.src)], a.unresolved, a.flags)
  }

  lemma TakeConcat<T>(n: nat, xs: seq<T>, ys: seq<T>)
    ensures Take(n, Take(n, xs) + ys) == Take(n, xs + ys)
    ensures |xs| >= n ==> Take(n, xs + ys) == Take(n, xs)
  {
  }

  /** The inner loop of `sequence`: one prefix followed by each alternative in turn. */
  method RowCapped(acc: Alts, prefix: Segs, alts: Alts, sep: Segs) returns (next: Alts)
    requires |acc| < MAX_ALTERNATIVES
    ensures next == Take(MAX_ALTERNATIVES, acc + CutAll(Row(prefix, alts, sep)))
  {
    next := acc;
    ghost var row := CutAll(Row(prefix, alts, sep));
    for b := 0 to |alts|
      invariant next == acc + row[..b] && |next| < MAX_ALTERNATIVES
    {
      var combined := prefix + sep + alts[b];
      if |combined| > MAX_SEGMENTS {
        combined := combined[..MAX_SEGMENTS];
      }
      assert row[..b + 1] == row[..b] + [combined];
      next := next + [combined];
      if |next| >= MAX_ALTERNATIVES {
        assert next == (acc + row)[..|next|];
        return;
      }
    }
    assert row[..|alts|] == row;
  }

  lemma CutAllConcat(xs: Alts, ys: Alts)
    ensures CutAll(xs + ys) == CutAll(xs) + CutAll(ys)
  {
  }

  /** The two nested loops of `sequence`, which stop once there are enough alternatives. */
  method CrossCapped(prefixes: Alts, alts: Alts, sep: Segs) returns (next: Alts)
    ensures next == Take(MAX_ALTERNATIVES, CutAll(Cross(prefixes, alts, sep)))
  {
    next := [];
    assert CutAll(Cross([], alts, sep)) == [];
    hide CutAll, Row;
    ghost var all := CutAll(Cross(prefixes, alts, sep));
    for a := 0 to |prefixes|
      invariant |next| < MAX_ALTERNATIVES
      invariant all == next + CutAll(Cross(prefixes[a..], alts, sep))
    {
      ghost var row := CutAll(Row(prefixes[a], alts, sep));
      ghost var tail := CutAll(Cross(prefixes[a + 1..], alts, sep));
      assert prefixes[a..][1..] == prefixes[a + 1..];
      CutAllConcat(Row(prefixes[a], alts, sep), Cross(prefixes[a + 1..], alts, sep));
      assert CutAll(Cross(prefixes[a..], alts, sep)) == row + tail;
      assert all == (next + row) + tail;
      TakeConcat(MAX_ALTERNATIVES, next + row, tail);
      next := RowCapped(next, prefixes[a], alts, sep);
      if |next| >= MAX_ALTERNATIVES {
        return;
      }
    }
  }

  method AssembleLoop(pieces: seq<Piece>, args: seq<Option<Segs>>) returns (out: Segs)
    ensures out == Assemble(pieces, args, 0)
  {
    assert Assemble(pieces[|pieces|..], args, 0) == [] && pieces[0..] == pieces;
    hide SlotSegs, Assemble;
    out := [];
    var next: nat := 0;
    for i := 0 to |pieces|
      invariant Assemble(pieces, args, 0) == out + Assemble(pieces[i..], args, next)
    {
      AssembleStep(pieces, i, args, next, out);
      match pieces[i] {
        case Text(t) => out := out + [Literal(t)];
        case Verb(_, argIndex, _) =>
          out := out + SlotSegs(pieces[i], args, next);
          if argIndex < 0 { next := next + 1; }
      }
    }
    AssembleNone(args, next);
    assert pieces[|pieces|..] == [];
  }

  lemma AssembleNone(args: seq<Option<Segs>>, next: nat)
    ensures Assemble([], args, next) == []
  {
  }

  lemma AssembleStep(pieces: seq<Piece>, i: nat, args: seq<Option<Segs>>, next: nat, out: Segs)
    requires i < |pieces|
    ensures out + Assemble(pieces[i..], args, next)
         == match pieces[i]
            case Text(t) => out + [Literal(t)] + Assemble(pieces[i + 1..], args, next)
            case Verb(_, argIndex, _) =>
              out + SlotSegs(pieces[i], args, next)
              + Assemble(pieces[i + 1..], args, if argIndex < 0 then next + 1 else next)
  {
    assert pieces[i..][1..] == pieces[i + 1..];
    match pieces[i] {
      case Text(t) =>
        assert Assemble(pieces[i..], args, next) == [Literal(t)] + Assemble(pieces[i + 1..], args, next);
        hide Assemble;
        Associative(out, [Literal(t)], Assemble(pieces[i + 1..], args, next));
      case Verb(_, argIndex, _) =>
        var after := if argIndex < 0 then next + 1 else next;
        assert Assemble(pieces[i..], args, next)
            == SlotSegs(pieces[i], args, next) + Assemble(pieces[i + 1..], args, after);
        hide Assemble, SlotSegs;
        Associative(out, SlotSegs(pieces[i], args, next), Assemble(pieces[i + 1..], args, after));
    }
  }

  lemma ArgsStep(c: Context, es: seq<Expr>, i: nat, depth: nat, visiting: set<string>)
    requires i < |es| && depth <= MAX_DEPTH
    ensures var o := Evaluate(c, es[i], depth + 1, visiting);
            var rest := EvaluateArgs(c, es[i + 1..], depth, visiting);
            EvaluateArgs(c, es[i..], depth, visiting)
            == ArgsOutcome([FirstAlt(o.alts)] + rest.args, o.unresolved + rest.unresolved, o.flags + rest.flags)
  {
    assert es[i..][1..] == es[i + 1..];
  }

  lemma ArgsNone(c: Context, es: seq<Expr>, depth: nat, visiting: set<string>)
    requires depth <= MAX_DEPTH
    ensures EvaluateArgs(c, es[|es|..], depth, visiting) == ArgsOutcome([], {}, {})
    ensures es[0..] == es
  {
  }

  /** The per-resolution bookkeeping of the source's `state`, and the evaluator over it. */
  class State {
    const c: Context
    var visiting: set<string>
    var unresolved: set<string>
    var flags: set<string>

    constructor (c: Context)
      ensures this.c == c && visiting == {} && unresolved == {} && flags == {}
    {
      this.c := c;
      visiting, unresolved, flags := {}, {}, {};
    }

    method Unresolve(name: string)
      modifies this`unresolved
      ensures unresolved == old(unresolved) + {name}
    {
      unresolved := unresolved + {name};
    }

    method Flag(f: string)
      modifies this`flags
      ensures flags == old(flags) + {f}
    {
      flags := flags + {f};
    }

    method Eval(e: Expr, depth: nat) returns (alts: Alts)
      modifies this
      ensures var o := Evaluate(c, e, depth, old(visiting));
              && alts == o.alts
              && unresolved == old(unresolved) + o.unresolved
              && flags == old(flags) + o.flags
      ensures visiting == old(visiting)
      decreases Left(depth), 1, 0
    {
      if e.Nil? {
        return [[Hole("", "", "")]];
      }
      if depth > MAX_DEPTH {
        Flag("depth_exceeded");
        return [[Hole("", "", e.src)]];
      }
      match e.kind {
        case Lit => alts := [[Literal(e.text)]];
        case Concat => alts := Sequence(e.parts, depth, "");
        case Template => alts := Sequence(e.parts, depth, "");
        case Join => alts := Sequence(e.parts, depth, "/");
        case Cond => alts := Alternatives(e.parts, depth);
        case Env =>
          Unresolve("env:" + e.text);
          alts := [[Hole("env:" + e.text, e.text, e.src)]];
        case Index =>
          var name := IndexName(e);
          Unresolve("cfg:" + name);
          alts := [[Hole("cfg:" + name, LastIdent(name), e.src)]];
        case Call =>
          Unresolve("call:" + e.text);
          alts := [[Hole("call:" + e.text, LastIdent(e.text), e.src)]];
        case Symbol => alts := EvalSymbol(e, depth);
        case Format => alts := EvalFormat(e, depth);
        case Unknown => alts := [[Hole("", "", e.src)]];
      }
    }

    method EvalSymbol(e: Expr, depth: nat) returns (out: Alts)
      requires e.Node? && depth <= MAX_DEPTH
      modifies this
      ensures var o := EvaluateSymbol(c, e, depth, old(visiting));
              && out == o.alts
              && unresolved == old(unresolved) + o.unresolved
              && flags == old(flags) + o.flags
      ensures visiting == old(visiting)
      decreases Left(depth), 0, 1, 0
    {
      hide EvaluateAny, LastIdent, Lookup, IsParam;
      var name := e.text;
      if name in visiting {
        Flag("cycle");
        Unresolve("sym:" + name);
        return [[Hole("sym:" + name, LastIdent(name), e.src)]];
      }
      var vals := LookupLoop(c.symbols, name, c.fn);
      if vals == [] {
        var kind := if IsParam(c.symbols, name, c.fn) then "arg:" else "sym:";
        Unresolve(kind + name);
        return [[Hole(kind + name, LastIdent(name), e.src)]];
      }
      visiting := visiting + {name};
      out := Alternatives(vals, depth);
      visiting := visiting - {name};
      ghost var evaluated := out;
      for i := 0 to |out|
        invariant |out| == |evaluated|
        invariant forall k :: 0 <= k < i ==> out[k] == Rename(evaluated[k], name)
        invariant forall k :: i <= k < |out| ==> out[k] == evaluated[k]
      {
        if |out[i]| != 1 || out[i][0].Literal? {
          continue;
        }
        var h := out[i][0];
        if h.name == "" || HasPrefix(h.sym, "call:") {
          out := out[i := [h.(name := LastIdent(name))]];
        }
      }
    }

    /** The loop shared by a choice and by a name bound more than once. */
    method Alternatives(es: seq<Expr>, depth: nat) returns (out: Alts)
      requires depth <= MAX_DEPTH
      modifies this
      ensures var o := EvaluateAny(c, es, depth, old(visiting), []);
              && out == o.alts
              && unresolved == old(unresolved) + o.unresolved
              && flags == old(flags) + o.flags
      ensures visiting == old(visiting)
      decreases Left(depth), 0, 0, |es|
    {
      out := [];
      ghost var whole := EvaluateAny(c, es, depth, visiting, []);
      for i := 0 to |es|
        invariant visiting == old(visiting)
        invariant var rest := EvaluateAny(c, es[i..], depth, old(visiting), out);
                  && whole.alts == rest.alts
                  && old(unresolved) + whole.unresolved == unresolved + rest.unresolved
                  && old(flags) + whole.flags == flags + rest.flags
      {
        var alts := Eval(es[i], depth + 1);
        assert es[i..][1..] == es[i + 1..];
        out := out + alts;
        if |out| >= MAX_ALTERNATIVES {
          return out[..MAX_ALTERNATIVES];
        }
      }
    }

    method Sequence(parts: seq<Expr>, depth: nat, sep: string) returns (acc: Alts)
      requires depth <= MAX_DEPTH
      modifies this
      ensures var o := EvaluateSeq(c, parts, depth, old(visiting), sep, true, [[]]);
              && acc == o.alts
              && unresolved == old(unresolved) + o.unresolved
              && flags == old(flags) + o.flags
      ensures visiting == old(visiting)
      decreases Left(depth), 0, 0, |parts|
    {
      hide Evaluate, Cross, CutAll, Take, Separator;
      acc := [[]];
      ghost var whole := EvaluateSeq(c, parts, depth, visiting, sep, true, acc);
      for i := 0 to |parts|
        invariant visiting == old(visiting)
        invariant var rest := EvaluateSeq(c, parts[i..], depth, old(visiting), sep, i == 0, acc);
                  && whole.alts == rest.alts
                  && old(unresolved) + whole.unresolved == unresolved + rest.unresolved
                  && old(flags) + whole.flags == flags + rest.flags
      {
        SeqStep(c, parts, i, depth, visiting, sep, acc);
        var alts := Eval(parts[i], depth + 1);
        acc := CrossCapped(acc, alts, Separator(sep, i == 0));
      }
    }

    /** The first alternative of each format argument. */
    method Arguments(es: seq<Expr>, depth: nat) returns (args: seq<Option<Segs>>)
      requires depth <= MAX_DEPTH
      modifies this
      ensures var a := EvaluateArgs(c, es, depth, old(visiting));
              && args == a.args
              && unresolved == old(unresolved) + a.unresolved
              && flags == old(flags) + a.flags
      ensures visiting == old(visiting)
      decreases Left(depth), 0, 0, |es|
    {
      ArgsNone(c, es, depth, visiting);
      hide EvaluateArgs, Evaluate, FirstAlt;
      args := [];
      ghost var whole := EvaluateArgs(c, es, depth, visiting);
      for i := 0 to |es|
        invariant visiting == old(visiting)
        invariant var rest := EvaluateArgs(c, es[i..], depth, old(visiting));
                  && whole.args == args + rest.args
                  && old(unresolved) + whole.unresolved == unresolved + rest.unresolved
                  && old(flags) + whole.flags == flags + rest.flags
      {
        ArgsStep(c, es, i, depth, visiting);
        var one := Eval(es[i], depth + 1);
        args := args + [FirstAlt(one)];
      }
    }

    method EvalFormat(e: Expr, depth: nat) returns (alts: Alts)
      requires e.Node? && depth <= MAX_DEPTH
      modifies this
      ensures var o := EvaluateFormat(c, e, depth, old(visiting));
              && alts == o.alts
              && unresolved == old(unresolved) + o.unresolved
              && flags == old(flags) + o.flags
      ensures visiting == old(visiting)
      decreases Left(depth), 0, 1, 0
    {
      hide EvaluateArgs, Assemble, Parse;
      var pieces := ParseFormat(e.text);
      var args := Arguments(e.parts, depth);
      var out := AssembleLoop(pieces, args);
      alts := [OrOpaque(out, e.src)];
    }
  }
}

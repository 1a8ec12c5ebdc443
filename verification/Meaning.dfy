/**
 What an expression can denote, defined without the resolver, and the proof that resolution
 loses none of it: every denoted string is an instance of some returned pattern.
 */
module Meaning {
  import opened Strs
  import opened Segments
  import opened Exprs
  import opened FormatStrings
  import opened Resolver
  import opened Uncapped

  /**
   The strings `e` can evaluate to, as derivations of height at most `n`: any choice at a
   conditional or multiply bound name, anything at all for what no tool could read.
   */
  ghost predicate Denotes(c: Context, e: Expr, s: string, n: nat)
    decreases n
  {
    e.Nil? || (n > 0 &&
    match e.kind
    case Lit => s == e.text
    case Concat => DenotesJoined(c, e.parts, "", s, n)
    case Template => DenotesJoined(c, e.parts, "", s, n)
    case Join => DenotesJoined(c, e.parts, "/", s, n)
    case Cond => exists i :: 0 <= i < |e.parts| && Denotes(c, e.parts[i], s, n - 1)
    case Symbol =>
      var vals := Bindings(c.symbols, e.text, c.fn);
      vals == [] || exists i :: 0 <= i < |vals| && Denotes(c, vals[i], s, n - 1)
    case Format =>
      exists vals: seq<string> ::
        && DenotesEach(c, e.parts, vals, n)
        && Renders(Parse(e.text, ""), vals, 0, s)
    case _ => true)
  }

  /** `vals` is one value for each of `es`. */
  ghost predicate DenotesEach(c: Context, es: seq<Expr>, vals: seq<string>, n: nat)
    requires n > 0
    decreases n, 0
  {
    |vals| == |es| && forall i :: 0 <= i < |es| ==> Denotes(c, es[i], vals[i], n - 1)
  }

  ghost predicate DenotesJoined(c: Context, es: seq<Expr>, sep: string, s: string, n: nat)
    requires n > 0
    decreases n, 1
  {
    exists vals: seq<string> :: DenotesEach(c, es, vals, n) && s == Strs.Join(vals, sep)
  }

  /**
   `s` is a rendering of the format: a positional verb takes the next argument, a named one
   stands for any text and takes none, and so does a verb whose argument is missing.
   */
  ghost predicate Renders(pieces: seq<Piece>, vals: seq<string>, next: nat, s: string)
    decreases |pieces|
  {
    if pieces == [] then s == ""
    else match pieces[0]
      case Text(t) => t <= s && Renders(pieces[1..], vals, next, s[|t|..])
      case Verb(_, argIndex, name) =>
        var idx := if argIndex < 0 then next else argIndex;
        var after := if argIndex < 0 && name == "" then next + 1 else next;
        if name == "" && idx < |vals|
        then vals[idx] <= s && Renders(pieces[1..], vals, after, s[|vals[idx]|..])
        else exists k :: 0 <= k <= |s| && Renders(pieces[1..], vals, after, s[k..])
  }

  /** Source snippets carry no meaning. */
  lemma {:induction false} BareDenotes(c: Context, x: Expr, y: Expr, s: string, n: nat)
    requires Bare(x) == Bare(y) && Denotes(c, x, s, n)
    ensures Denotes(c, y, s, n)
    decreases n, 1
  {
    if x.Node? {
      assert x.kind == y.kind && x.text == y.text && BareAll(x.parts) == BareAll(y.parts);
      match x.kind {
        case Concat => BareJoined(c, x.parts, y.parts, "", s, n);
        case Template => BareJoined(c, x.parts, y.parts, "", s, n);
        case Join => BareJoined(c, x.parts, y.parts, "/", s, n);
        case Cond =>
          var i :| 0 <= i < |x.parts| && Denotes(c, x.parts[i], s, n - 1);
          assert BareAll(x.parts)[i] == BareAll(y.parts)[i];
          BareDenotes(c, x.parts[i], y.parts[i], s, n - 1);
        case Format =>
          var vals: seq<string> :| DenotesEach(c, x.parts, vals, n) && Renders(Parse(x.text, ""), vals, 0, s);
          BareEach(c, x.parts, y.parts, vals, n);
        case _ =>
      }
    }
  }

  lemma {:induction false} BareEach(c: Context, xs: seq<Expr>, ys: seq<Expr>, vals: seq<string>, n: nat)
    requires n > 0 && BareAll(xs) == BareAll(ys) && DenotesEach(c, xs, vals, n)
    ensures DenotesEach(c, ys, vals, n)
    decreases n, 0, 0
  {
    assert |xs| == |BareAll(xs)| == |ys|;
    forall i | 0 <= i < |ys| ensures Denotes(c, ys[i], vals[i], n - 1) {
      assert BareAll(xs)[i] == BareAll(ys)[i];
      BareDenotes(c, xs[i], ys[i], vals[i], n - 1);
    }
  }

  lemma {:induction false} BareJoined(c: Context, xs: seq<Expr>, ys: seq<Expr>, sep: string, s: string, n: nat)
    requires n > 0 && BareAll(xs) == BareAll(ys) && DenotesJoined(c, xs, sep, s, n)
    ensures DenotesJoined(c, ys, sep, s, n)
    decreases n, 0, 1
  {
    var vals: seq<string> :| DenotesEach(c, xs, vals, n) && s == Strs.Join(vals, sep);
    BareEach(c, xs, ys, vals, n);
  }

  // ----- where an alternative ends up

  lemma {:induction false} CrossAt(prefixes: Alts, alts: Alts, sep: Segs, a: nat, b: nat) returns (k: nat)
    requires a < |prefixes| && b < |alts|
    ensures k < |Cross(prefixes, alts, sep)| && Cross(prefixes, alts, sep)[k] == prefixes[a] + sep + alts[b]
    decreases a
  {
    if a == 0 {
      k := b;
    } else {
      k := CrossAt(prefixes[1..], alts, sep, a - 1, b);
      k := |alts| + k;
    }
  }

  lemma {:induction false} AnyAt(c: Context, es: seq<Expr>, depth: nat, visiting: set<string>, i: nat, j: nat)
    returns (k: nat)
    requires depth <= MAX_DEPTH && i < |es| && j < |All(c, es[i], depth + 1, visiting)|
    ensures k < |AllAny(c, es, depth, visiting)|
    ensures AllAny(c, es, depth, visiting)[k] == All(c, es[i], depth + 1, visiting)[j]
    decreases i
  {
    if i == 0 {
      k := j;
    } else {
      k := AnyAt(c, es[1..], depth, visiting, i - 1, j);
      k := |All(c, es[0], depth + 1, visiting)| + k;
    }
  }

  lemma RenameMatches(segs: Segs, name: string, s: string)
    requires Matches(segs, s)
    ensures Matches(Rename(segs, name), s)
  {
    if Rename(segs, name) != segs {
      HoleMatches(Rename(segs, name)[0], s);
    }
  }

  // ----- nothing denoted is lost

  /** The text of a joined sequence from some part on. */
  function Suffix(vals: seq<string>, sep: string, first: bool): string {
    if vals == [] then ""
    else (if first then "" else sep) + vals[0] + Suffix(vals[1..], sep, false)
  }

  lemma {:induction false} JoinIsSuffix(vals: seq<string>, sep: string)
    ensures Strs.Join(vals, sep) == Suffix(vals, sep, true)
  {
    if |vals| == 1 {
      assert vals[1..] == [];
    } else if vals != [] {
      JoinIsSuffix(vals[1..], sep);
    }
  }

  lemma {:induction false} Sound(c: Context, e: Expr, depth: nat, visiting: set<string>, s: string, n: nat)
    returns (k: nat)
    requires Formats(c, e, depth, visiting, Single)
    requires Denotes(c, e, s, n)
    ensures k < |All(c, e, depth, visiting)| && Matches(All(c, e, depth, visiting)[k], s)
    decreases Left(depth), 1, 0
  {
    k := 0;
    if e.Nil? || depth > MAX_DEPTH {
      HoleMatches(All(c, e, depth, visiting)[0][0], s);
    } else {
      match e.kind {
        case Lit => LiteralMatches(s);
        case Concat => k := SoundJoined(c, e.parts, depth, visiting, "", s, n);
        case Template => k := SoundJoined(c, e.parts, depth, visiting, "", s, n);
        case Join => k := SoundJoined(c, e.parts, depth, visiting, "/", s, n);
        case Cond =>
          var i :| 0 <= i < |e.parts| && Denotes(c, e.parts[i], s, n - 1);
          var j := Sound(c, e.parts[i], depth + 1, visiting, s, n - 1);
          k := AnyAt(c, e.parts, depth, visiting, i, j);
        case Symbol => k := SoundSymbol(c, e, depth, visiting, s, n);
        case Format => SoundFormat(c, e, depth, visiting, s, n);
        case _ => HoleMatches(All(c, e, depth, visiting)[0][0], s);
      }
    }
  }

  /** What a name denotes, one of the values the lookup returns denotes. */
  lemma LookupDenotes(c: Context, e: Expr, s: string, n: nat) returns (i: nat)
    requires e.Node? && e.kind == Symbol && n > 0 && Denotes(c, e, s, n)
    requires ToldApart(Bindings(c.symbols, e.text, c.fn)) && Lookup(c.symbols, e.text, c.fn) != []
    ensures i < |Lookup(c.symbols, e.text, c.fn)| && Denotes(c, Lookup(c.symbols, e.text, c.fn)[i], s, n - 1)
  {
    var raw, vals := Bindings(c.symbols, e.text, c.fn), Lookup(c.symbols, e.text, c.fn);
    assert raw != [];
    hide Bindings, Dedupe;
    var r :| 0 <= r < |raw| && Denotes(c, raw[r], s, n - 1);
    KeptWhenToldApart(raw, raw[r]);
    i :| 0 <= i < |vals| && Bare(vals[i]) == Bare(raw[r]);
    hide Denotes, Lookup;
    BareDenotes(c, raw[r], vals[i], s, n - 1);
  }

  lemma {:induction false} SoundSymbol(c: Context, e: Expr, depth: nat, visiting: set<string>, s: string, n: nat)
    returns (k: nat)
    requires e.Node? && e.kind == Symbol && depth <= MAX_DEPTH && n > 0
    requires Formats(c, e, depth, visiting, Single)
    requires Denotes(c, e, s, n)
    ensures k < |All(c, e, depth, visiting)| && Matches(All(c, e, depth, visiting)[k], s)
    decreases Left(depth), 0, 1, 0
  {
    var vals := Lookup(c.symbols, e.text, c.fn);
    k := 0;
    if e.text in visiting || vals == [] {
      OpaqueName(c, e, depth, visiting, s);
    } else {
      var inner := visiting + {e.text};
      var i := LookupDenotes(c, e, s, n);
      assert All(c, e, depth, visiting) == RenameAll(AllAny(c, vals, depth, inner), e.text);
      assert Formats(c, vals[i], depth + 1, inner, Single);
      hide Denotes, Bindings, Lookup, All, AllAny, Formats, Matches;
      var j := Sound(c, vals[i], depth + 1, inner, s, n - 1);
      k := AnyAt(c, vals, depth, inner, i, j);
      RenameMatches(AllAny(c, vals, depth, inner)[k], e.text, s);
    }
  }

  /** A name in progress, or one that is bound to nothing, is a hole. */
  lemma OpaqueName(c: Context, e: Expr, depth: nat, visiting: set<string>, s: string)
    requires e.Node? && e.kind == Symbol && depth <= MAX_DEPTH
    requires e.text in visiting || Lookup(c.symbols, e.text, c.fn) == []
    ensures All(c, e, depth, visiting) != [] && Matches(All(c, e, depth, visiting)[0], s)
  {
    hide Matches, Lookup;
    HoleMatches(All(c, e, depth, visiting)[0][0], s);
  }

  lemma {:induction false} SoundJoined(c: Context, es: seq<Expr>, depth: nat, visiting: set<string>,
                                       sep: string, s: string, n: nat)
    returns (k: nat)
    requires depth <= MAX_DEPTH && n > 0
    requires forall i :: 0 <= i < |es| ==> Formats(c, es[i], depth + 1, visiting, Single)
    requires DenotesJoined(c, es, sep, s, n)
    ensures var alts := AllSeq(c, es, depth, visiting, sep, true, [[]]);
            k < |alts| && Matches(alts[k], s)
    decreases Left(depth), 0, 1, 0
  {
    var vals: seq<string> :| DenotesEach(c, es, vals, n) && s == Strs.Join(vals, sep);
    JoinIsSuffix(vals, sep);
    k := SoundSeq(c, es, depth, visiting, sep, true, [[]], 0, "", vals, n);
    assert "" + s == s;
  }

  lemma StepMatches(prefix: Segs, sep: string, first: bool, alt: Segs, done: string, val: string)
    requires Matches(prefix, done) && Matches(alt, val)
    ensures Matches(prefix + Separator(sep, first) + alt, done + (if first then "" else sep) + val)
  {
    var gap, text := Separator(sep, first), if first then "" else sep;
    if gap != [] { LiteralMatches(sep); }
    MatchesConcat(prefix, gap, done, text);
    MatchesConcat(prefix + gap, alt, done + text, val);
  }

  lemma SuffixStep(vals: seq<string>, sep: string, first: bool, done: string)
    requires vals != []
    ensures done + Suffix(vals, sep, first)
         == done + (if first then "" else sep) + vals[0] + Suffix(vals[1..], sep, false)
  {
  }

  lemma EachTail(c: Context, es: seq<Expr>, vals: seq<string>, n: nat)
    requires n > 0 && es != [] && DenotesEach(c, es, vals, n)
    ensures DenotesEach(c, es[1..], vals[1..], n)
  {
    forall i | 0 <= i < |es[1..]| ensures Denotes(c, es[1..][i], vals[1..][i], n - 1) {
      assert Denotes(c, es[i + 1], vals[i + 1], n - 1);
    }
  }

  lemma {:induction false} SoundSeq(c: Context, es: seq<Expr>, depth: nat, visiting: set<string>,
                                    sep: string, first: bool, acc: Alts, a: nat, done: string,
                                    vals: seq<string>, n: nat)
    returns (k: nat)
    requires depth <= MAX_DEPTH && n > 0
    requires forall i :: 0 <= i < |es| ==> Formats(c, es[i], depth + 1, visiting, Single)
    requires DenotesEach(c, es, vals, n)
    requires a < |acc| && Matches(acc[a], done)
    ensures var alts := AllSeq(c, es, depth, visiting, sep, first, acc);
            k < |alts| && Matches(alts[k], done + Suffix(vals, sep, first))
    decreases Left(depth), 0, 0, |es|
  {
    if es == [] {
      assert done + Suffix(vals, sep, first) == done;
      k := a;
    } else {
      var j := Sound(c, es[0], depth + 1, visiting, vals[0], n - 1);
      var alts := All(c, es[0], depth + 1, visiting);
      var next := Cross(acc, alts, Separator(sep, first));
      var b := CrossAt(acc, alts, Separator(sep, first), a, j);
      StepMatches(acc[a], sep, first, alts[j], done, vals[0]);
      EachTail(c, es, vals, n);
      var done' := done + (if first then "" else sep) + vals[0];
      SuffixStep(vals, sep, first, done);
      k := SoundSeq(c, es[1..], depth, visiting, sep, false, next, b, done', vals[1..], n);
    }
  }

  lemma {:induction false} SoundFormat(c: Context, e: Expr, depth: nat, visiting: set<string>, s: string, n: nat)
    requires e.Node? && e.kind == Format && depth <= MAX_DEPTH && n > 0
    requires Formats(c, e, depth, visiting, Single)
    requires Denotes(c, e, s, n)
    ensures Matches(All(c, e, depth, visiting)[0], s)
    decreases Left(depth), 0, 1, 0
  {
    var pieces := Parse(e.text, "");
    var vals: seq<string> :| DenotesEach(c, e.parts, vals, n) && Renders(pieces, vals, 0, s);
    var args := AllArgs(c, e.parts, depth, visiting);
    assert All(c, e, depth, visiting) == [OrOpaque(Assemble(pieces, args, 0), e.src)];
    assert NamesLast(pieces) && Meets(c, e, depth, visiting, Single);
    assert forall i :: 0 <= i < |e.parts| ==> Formats(c, e.parts[i], depth + 1, visiting, Single);
    hide All, AllArgs, Formats, Denotes, DenotesEach, Matches, Renders, Assemble, NamesLast, Parse;
    SoundArgs(c, e.parts, depth, visiting, vals, n);
    AssembleMatches(pieces, args, vals, 0, 0, s);
    if Assemble(pieces, args, 0) == [] {
      HoleMatches(Hole("", "", e.src), s);
    }
  }

  /** The sole alternative of each argument matches the argument's value. */
  lemma {:induction false} SoundArgs(c: Context, es: seq<Expr>, depth: nat, visiting: set<string>,
                                     vals: seq<string>, n: nat)
    requires depth <= MAX_DEPTH && n > 0 && DenotesEach(c, es, vals, n)
    requires forall i :: 0 <= i < |es| ==> Formats(c, es[i], depth + 1, visiting, Single)
    requires forall i :: 0 <= i < |es| ==> |All(c, es[i], depth + 1, visiting)| <= 1
    ensures ArgsMatch(AllArgs(c, es, depth, visiting), vals)
    decreases Left(depth), 0, 0, 0
  {
    var args := AllArgs(c, es, depth, visiting);
    hide All, AllArgs, Formats, Matches;
    forall i | 0 <= i < |args| ensures args[i].Some? && Matches(args[i].value, vals[i]) {
      assert Denotes(c, es[i], vals[i], n - 1);
      var j := Sound(c, es[i], depth + 1, visiting, vals[i], n - 1);
    }
  }

  ghost predicate ArgsMatch(args: seq<Option<Segs>>, vals: seq<string>) {
    |args| == |vals| && forall i :: 0 <= i < |args| ==> args[i].Some? && Matches(args[i].value, vals[i])
  }

  predicate NoPositional(pieces: seq<Piece>) {
    forall i :: 0 <= i < |pieces| && pieces[i].Verb? ==> pieces[i].name != "" || pieces[i].argIndex >= 0
  }

  lemma NamesLastTail(pieces: seq<Piece>)
    requires pieces != [] && NamesLast(pieces)
    ensures NamesLast(pieces[1..])
    ensures pieces[0].Verb? && pieces[0].name != "" ==> NoPositional(pieces[1..])
    ensures NoPositional(pieces) ==> NoPositional(pieces[1..])
  {
  }

  /** A verb's segments match what it renders as, which is `s` up to some `k`. */
  lemma SlotMatches(verb: Piece, rest: seq<Piece>, args: seq<Option<Segs>>, vals: seq<string>,
                    counted: nat, next: nat, s: string)
    returns (k: nat, after: nat)
    requires ArgsMatch(args, vals)
    requires verb.Verb? && (verb.name == "" && verb.argIndex < 0 ==> counted == next)
    requires Renders([verb] + rest, vals, next, s)
    ensures k <= |s| && Renders(rest, vals, after, s[k..])
    ensures after == if verb.argIndex < 0 && verb.name == "" then next + 1 else next
    ensures Matches(SlotSegs(verb, args, counted), s[..k])
  {
    assert ([verb] + rest)[1..] == rest;
    var idx := if verb.argIndex < 0 then next else verb.argIndex;
    after := if verb.argIndex < 0 && verb.name == "" then next + 1 else next;
    if verb.name == "" && idx < |vals| {
      k := |vals[idx]|;
      assert s[..k] == vals[idx];
    } else {
      k :| 0 <= k <= |s| && Renders(rest, vals, after, s[k..]);
      HoleMatches(SlotSegs(verb, args, counted)[0], s[..k]);
    }
  }

  lemma NoPieces(args: seq<Option<Segs>>, vals: seq<string>, counted: nat, next: nat, s: string)
    requires Renders([], vals, next, s)
    ensures Matches(Assemble([], args, counted), s)
  {
  }

  lemma TextStep(t: string, rest: seq<Piece>, args: seq<Option<Segs>>, vals: seq<string>,
                 counted: nat, next: nat, s: string)
    requires Renders([Text(t)] + rest, vals, next, s)
    ensures t <= s && Renders(rest, vals, next, s[|t|..]) && Matches([Literal(t)], s[..|t|])
    ensures Assemble([Text(t)] + rest, args, counted) == [Literal(t)] + Assemble(rest, args, counted)
  {
    assert ([Text(t)] + rest)[1..] == rest;
    assert s[..|t|] == t;
    hide Assemble, Matches;
    LiteralMatches(t);
  }

  lemma VerbStep(verb: Piece, rest: seq<Piece>, args: seq<Option<Segs>>, counted: nat)
    requires verb.Verb?
    ensures Assemble([verb] + rest, args, counted)
         == SlotSegs(verb, args, counted) + Assemble(rest, args, if verb.argIndex < 0 then counted + 1 else counted)
  {
    hide SlotSegs;
    assert ([verb] + rest)[1..] == rest;
  }

  /** The resolver's positional count may run ahead only once no positional verb is left. */
  lemma {:induction false} AssembleMatches(pieces: seq<Piece>, args: seq<Option<Segs>>, vals: seq<string>,
                                           counted: nat, next: nat, s: string)
    requires ArgsMatch(args, vals)
    requires NamesLast(pieces) && (counted == next || NoPositional(pieces))
    requires Renders(pieces, vals, next, s)
    ensures Matches(Assemble(pieces, args, counted), s)
    decreases |pieces|
  {
    hide Assemble, Renders, Matches, NamesLast, ArgsMatch, SlotSegs;
    if pieces == [] {
      NoPieces(args, vals, counted, next, s);
    } else {
      var head, rest := pieces[0], pieces[1..];
      assert pieces == [head] + rest;
      NamesLastTail(pieces);
      if head.Text? {
        TextStep(head.text, rest, args, vals, counted, next, s);
        var k := |head.text|;
        AssembleMatches(rest, args, vals, counted, next, s[k..]);
        PrefixMatches([Literal(head.text)], Assemble(rest, args, counted), s, k);
      } else {
        var counted' := if head.argIndex < 0 then counted + 1 else counted;
        VerbStep(head, rest, args, counted);
        var k, after := SlotMatches(head, rest, args, vals, counted, next, s);
        assert counted' == after || NoPositional(rest);
        AssembleMatches(rest, args, vals, counted', after, s[k..]);
        PrefixMatches(SlotSegs(head, args, counted), Assemble(rest, args, counted'), s, k);
      }
    }
  }

  lemma PrefixMatches(a: Segs, b: Segs, s: string, k: nat)
    requires k <= |s| && Matches(a, s[..k]) && Matches(b, s[k..])
    ensures Matches(a + b, s)
  {
    MatchesConcat(a, b, s[..k], s[k..]);
    assert s[..k] + s[k..] == s;
  }

  /**
   Resolution keeps meaning: where no cap is reached, every string the expression can denote
   is an instance of an alternative that the evaluator returns.
   */
  lemma EvaluationKeepsMeaning(c: Context, e: Expr, s: string, n: nat) returns (k: nat)
    requires Formats(c, e, 0, {}, Short) && Formats(c, e, 0, {}, Single)
    requires |All(c, e, 0, {})| <= MAX_ALTERNATIVES && AllShort(All(c, e, 0, {}))
    requires Denotes(c, e, s, n)
    ensures k < |Evaluate(c, e, 0, {}).alts| && Matches(Evaluate(c, e, 0, {}).alts[k], s)
  {
    k := Sound(c, e, 0, {}, s, n);
    CapsOnlyTrim(c, e, 0, {});
    assert CutOf(Evaluate(c, e, 0, {}).alts[k], All(c, e, 0, {})[k]);
  }
}

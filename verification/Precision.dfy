/**
 The converse of soundness (internal/resolve/resolve.go): where nothing was cut short, the resolver
 returns no pattern that fits a text the expression cannot denote. With soundness, resolution is exact.
 */
module Precision {
  import opened Strs
  import opened Segments
  import opened Exprs
  import opened FormatStrings
  import opened Resolver
  import opened Uncapped
  import opened Meaning
  import opened Resolution
  import VerbLaws

  // ----- taking patterns apart

  lemma {:induction false} MatchesSplit(a: Segs, b: Segs, s: string) returns (k: nat)
    requires Matches(a + b, s)
    ensures k <= |s| && Matches(a, s[..k]) && Matches(b, s[k..])
    decreases |a|
  {
    if a == [] {
      assert a + b == b && s[0..] == s && s[..0] == "";
      k := 0;
    } else {
      assert (a + b)[0] == a[0] && (a + b)[1..] == a[1..] + b;
      var w: nat;
      match a[0] {
        case Literal(t) => w := |t|;
        case Hole(_, _, _) => w :| w <= |s| && Matches(a[1..] + b, s[w..]);
      }
      var j := MatchesSplit(a[1..], b, s[w..]);
      k := w + j;
      assert s[w..][..j] == s[..k][w..] && s[w..][j..] == s[k..];
      if a[0].Literal? { assert s[..k][..w] == s[..w]; }
    }
  }

  lemma LiteralOnly(t: string, s: string)
    requires Matches([Literal(t)], s)
    ensures s == t
  {
    assert [Literal(t)][1..] == [];
  }

  /** Every pattern fits some text. */
  lemma {:induction false} SomeInstance(segs: Segs) returns (s: string)
    ensures Matches(segs, s)
  {
    if segs == [] {
      s := "";
    } else {
      var rest := SomeInstance(segs[1..]);
      if segs[0].Literal? {
        LiteralMatches(segs[0].text);
        MatchesConcat([segs[0]], segs[1..], segs[0].text, rest);
        s := segs[0].text + rest;
      } else {
        HoleMatches(segs[0], "");
        MatchesConcat([segs[0]], segs[1..], "", rest);
        s := "" + rest;
      }
      assert [segs[0]] + segs[1..] == segs;
    }
  }

  lemma {:induction false} CrossFrom(prefixes: Alts, alts: Alts, sep: Segs, k: nat) returns (a: nat, b: nat)
    requires k < |Cross(prefixes, alts, sep)|
    ensures a < |prefixes| && b < |alts| && Cross(prefixes, alts, sep)[k] == prefixes[a] + sep + alts[b]
    decreases |prefixes|
  {
    if k < |alts| {
      a, b := 0, k;
    } else {
      a, b := CrossFrom(prefixes[1..], alts, sep, k - |alts|);
      a := a + 1;
    }
  }

  lemma {:induction false} CrossShift(prefixes: Alts, alts: Alts, sep: Segs)
    requires prefixes != []
    ensures var p, n := Cross(prefixes, alts, sep), |alts|;
            && |p| == n + |Cross(prefixes[1..], alts, sep)|
            && (forall b :: 0 <= b < n ==> p[b] == prefixes[0] + sep + alts[b])
            && forall k :: 0 <= k < |p| - n ==> p[n + k] == Cross(prefixes[1..], alts, sep)[k]
  {
  }

  lemma {:induction false} Times(a: nat, n: nat)
    requires a > 0
    ensures a * n == (a - 1) * n + n
  {
  }

  /** A product lists the alternatives of the last part for the first prefix, then for the next, and so on. */
  lemma {:induction false} ProductOrder(prefixes: Alts, alts: Alts, sep: Segs, a: nat, b: nat)
    requires a < |prefixes| && b < |alts|
    ensures a * |alts| + b < |Cross(prefixes, alts, sep)|
    ensures Cross(prefixes, alts, sep)[a * |alts| + b] == prefixes[a] + sep + alts[b]
    decreases |prefixes|
  {
    CrossShift(prefixes, alts, sep);
    hide Cross;
    if a > 0 {
      ProductOrder(prefixes[1..], alts, sep, a - 1, b);
      Times(a, |alts|);
      assert a * |alts| + b == |alts| + ((a - 1) * |alts| + b);
    } else {
      assert a * |alts| == 0;
    }
  }

  lemma {:induction false} ProductSize(prefixes: Alts, alts: Alts, sep: Segs)
    ensures |Cross(prefixes, alts, sep)| == |prefixes| * |alts|
  {
    if prefixes != [] {
      ProductSize(prefixes[1..], alts, sep);
      assert |prefixes| * |alts| == |alts| + (|prefixes| - 1) * |alts|;
    }
  }

  /** How many alternatives come from the first `i` of the choices. */
  function Earlier(c: Context, es: seq<Expr>, depth: nat, visiting: set<string>, i: nat): nat
    requires depth <= MAX_DEPTH && i <= |es|
  {
    if i == 0 then 0 else Earlier(c, es, depth, visiting, i - 1) + |All(c, es[i - 1], depth + 1, visiting)|
  }

  lemma {:induction false} EarlierTail(c: Context, es: seq<Expr>, depth: nat, visiting: set<string>, i: nat)
    requires depth <= MAX_DEPTH && 0 < i <= |es|
    ensures Earlier(c, es, depth, visiting, i)
         == |All(c, es[0], depth + 1, visiting)| + Earlier(c, es[1..], depth, visiting, i - 1)
  {
    if i > 1 { EarlierTail(c, es, depth, visiting, i - 1); }
  }

  /** The alternatives of a choice, or of a name bound more than once, come in the order of its values. */
  lemma {:induction false} ChoiceOrder(c: Context, es: seq<Expr>, depth: nat, visiting: set<string>, i: nat, j: nat)
    requires depth <= MAX_DEPTH && i < |es| && j < |All(c, es[i], depth + 1, visiting)|
    ensures var k := Earlier(c, es, depth, visiting, i) + j;
            k < |AllAny(c, es, depth, visiting)|
            && AllAny(c, es, depth, visiting)[k] == All(c, es[i], depth + 1, visiting)[j]
    decreases |es|
  {
    hide All;
    if i > 0 {
      ChoiceOrder(c, es[1..], depth, visiting, i - 1, j);
      EarlierTail(c, es, depth, visiting, i);
    }
  }

  /** Without formats, what is returned is the first four alternatives, each cut to 128 segments. */
  lemma {:induction false} FirstFour(c: Context, e: Expr, i: nat)
    requires NoFormat(e) && NoFormatTable(c.symbols)
    ensures var alts, full := Evaluate(c, e, 0, {}).alts, All(c, e, 0, {});
            && |alts| == (if |full| < 4 then |full| else 4)
            && (i < |alts| ==> alts[i] == if |full[i]| <= 128 then full[i] else full[i][..128])
  {
    CapsOnlyCut(c, e, 0, {});
    hide Evaluate, All;
  }

  lemma {:induction false} AnyFrom(c: Context, es: seq<Expr>, depth: nat, visiting: set<string>, k: nat)
    returns (i: nat, j: nat)
    requires depth <= MAX_DEPTH && k < |AllAny(c, es, depth, visiting)|
    ensures i < |es| && j < |All(c, es[i], depth + 1, visiting)|
    ensures AllAny(c, es, depth, visiting)[k] == All(c, es[i], depth + 1, visiting)[j]
    decreases |es|
  {
    var n := |All(c, es[0], depth + 1, visiting)|;
    if k < n {
      i, j := 0, k;
    } else {
      i, j := AnyFrom(c, es[1..], depth, visiting, k - n);
      i := i + 1;
    }
  }

  lemma RenameFrom(segs: Segs, name: string, s: string)
    requires Matches(Rename(segs, name), s)
    ensures Matches(segs, s)
  {
    if Rename(segs, name) != segs {
      assert segs == [segs[0]];
      HoleMatches(segs[0], s);
    }
  }

  // ----- denotations grow with their height

  lemma {:induction false} DenotesMore(c: Context, e: Expr, s: string, m: nat, n: nat)
    requires m <= n && Denotes(c, e, s, m)
    ensures Denotes(c, e, s, n)
    decreases m, 1
  {
    if e.Node? {
      match e.kind {
        case Concat => JoinedMore(c, e.parts, "", s, m, n);
        case Template => JoinedMore(c, e.parts, "", s, m, n);
        case Join => JoinedMore(c, e.parts, "/", s, m, n);
        case Cond =>
          var i :| 0 <= i < |e.parts| && Denotes(c, e.parts[i], s, m - 1);
          DenotesMore(c, e.parts[i], s, m - 1, n - 1);
        case Symbol =>
          var vals := Bindings(c.symbols, e.text, c.fn);
          if vals != [] {
            var i :| 0 <= i < |vals| && Denotes(c, vals[i], s, m - 1);
            DenotesMore(c, vals[i], s, m - 1, n - 1);
          }
        case Format =>
          var vals: seq<string> :| DenotesEach(c, e.parts, vals, m) && Renders(Parse(e.text, ""), vals, 0, s);
          EachMore(c, e.parts, vals, m, n);
        case _ =>
      }
    }
  }

  lemma {:induction false} EachMore(c: Context, es: seq<Expr>, vals: seq<string>, m: nat, n: nat)
    requires 0 < m <= n && DenotesEach(c, es, vals, m)
    ensures DenotesEach(c, es, vals, n)
    decreases m, 0, 0
  {
    forall i | 0 <= i < |es| ensures Denotes(c, es[i], vals[i], n - 1) {
      DenotesMore(c, es[i], vals[i], m - 1, n - 1);
    }
  }

  lemma {:induction false} JoinedMore(c: Context, es: seq<Expr>, sep: string, s: string, m: nat, n: nat)
    requires 0 < m <= n && DenotesJoined(c, es, sep, s, m)
    ensures DenotesJoined(c, es, sep, s, n)
    decreases m, 0, 1
  {
    var vals: seq<string> :| DenotesEach(c, es, vals, m) && s == Strs.Join(vals, sep);
    EachMore(c, es, vals, m, n);
  }

  // ----- formats

  /** Some verb of the format takes argument `idx`, when the next positional one is `next`. */
  predicate Takes(pieces: seq<Piece>, next: nat, idx: nat) {
    pieces != []
    && match pieces[0]
       case Text(_) => Takes(pieces[1..], next, idx)
       case Verb(_, argIndex, name) =>
         || (name == "" && idx == if argIndex < 0 then next else argIndex)
         || Takes(pieces[1..], if argIndex < 0 then next + 1 else next, idx)
  }

  /** No argument is taken twice. */
  predicate EachOnce(pieces: seq<Piece>, next: nat) {
    pieces == []
    || match pieces[0]
       case Text(_) => EachOnce(pieces[1..], next)
       case Verb(_, argIndex, name) =>
         var after := if argIndex < 0 then next + 1 else next;
         && EachOnce(pieces[1..], after)
         && (name == "" ==> !Takes(pieces[1..], after, if argIndex < 0 then next else argIndex))
  }

  /** Arguments that no verb takes do not show. */
  lemma {:induction false} RendersAlike(pieces: seq<Piece>, vals: seq<string>, vals': seq<string>, counted: nat,
                                        next: nat, s: string)
    requires |vals| == |vals'| && forall i :: 0 <= i < |vals| && Takes(pieces, counted, i) ==> vals[i] == vals'[i]
    requires NamesLast(pieces) && (counted == next || NoPositional(pieces))
    requires Renders(pieces, vals, next, s)
    ensures Renders(pieces, vals', next, s)
    decreases |pieces|
  {
    if pieces != [] {
      NamesLastTail(pieces);
      match pieces[0] {
        case Text(t) => RendersAlike(pieces[1..], vals, vals', counted, next, s[|t|..]);
        case Verb(_, argIndex, name) =>
          var idx := if argIndex < 0 then next else argIndex;
          var after := if argIndex < 0 && name == "" then next + 1 else next;
          var counted' := if argIndex < 0 then counted + 1 else counted;
          if name == "" && idx < |vals| {
            assert Takes(pieces, counted, idx);
            RendersAlike(pieces[1..], vals, vals', counted', after, s[|vals[idx]|..]);
          } else {
            var k: nat :| k <= |s| && Renders(pieces[1..], vals, after, s[k..]);
            RendersAlike(pieces[1..], vals, vals', counted', after, s[k..]);
          }
      }
    }
  }

  /** A text that fits the assembled pattern is a rendering, of arguments that fit theirs. */
  lemma {:induction false} AssembledRenders(pieces: seq<Piece>, args: seq<Option<Segs>>, counted: nat, next: nat,
                                            s: string, some: seq<string>) returns (vals: seq<string>)
    requires ArgsMatch(args, some) && NamesLast(pieces) && (counted == next || NoPositional(pieces))
    requires EachOnce(pieces, counted) && Matches(Assemble(pieces, args, counted), s)
    ensures ArgsMatch(args, vals) && Renders(pieces, vals, next, s)
    ensures forall i :: 0 <= i < |vals| && !Takes(pieces, counted, i) ==> vals[i] == some[i]
    decreases |pieces|
  {
    if pieces == [] {
      vals := some;
    } else {
      NamesLastTail(pieces);
      match pieces[0] {
        case Text(t) =>
          var k := MatchesSplit([Literal(t)], Assemble(pieces[1..], args, counted), s);
          LiteralOnly(t, s[..k]);
          vals := AssembledRenders(pieces[1..], args, counted, next, s[k..], some);
          assert t <= s && s[|t|..] == s[k..];
        case Verb(_, argIndex, name) =>
          vals := VerbRenders(pieces, args, counted, next, s, some);
      }
    }
  }

  /** A verb before a rendering: the value it takes, or any text at all. */
  lemma {:induction false} VerbRendered(pieces: seq<Piece>, vals: seq<string>, next: nat, s: string, k: nat)
    requires pieces != [] && pieces[0].Verb? && k <= |s|
    requires var verb := pieces[0];
             var idx := if verb.argIndex < 0 then next else verb.argIndex;
             var after := if verb.argIndex < 0 && verb.name == "" then next + 1 else next;
             && Renders(pieces[1..], vals, after, s[k..])
             && (verb.name == "" && idx < |vals| ==> s[..k] == vals[idx])
    ensures Renders(pieces, vals, next, s)
  {
  }

  lemma {:induction false} VerbAssembled(pieces: seq<Piece>, args: seq<Option<Segs>>, counted: nat, s: string)
    returns (k: nat)
    requires pieces != [] && pieces[0].Verb? && Matches(Assemble(pieces, args, counted), s)
    ensures var counted' := if pieces[0].argIndex < 0 then counted + 1 else counted;
            var idx := if pieces[0].argIndex < 0 then counted else pieces[0].argIndex;
            && k <= |s| && Matches(Assemble(pieces[1..], args, counted'), s[k..])
            && (pieces[0].name == "" && idx < |args| && args[idx].Some? ==> Matches(args[idx].value, s[..k]))
  {
    hide Matches;
    k := MatchesSplit(SlotSegs(pieces[0], args, counted),
                      Assemble(pieces[1..], args, if pieces[0].argIndex < 0 then counted + 1 else counted), s);
  }

  lemma {:induction false} VerbUses(pieces: seq<Piece>, counted: nat)
    requires pieces != [] && pieces[0].Verb? && EachOnce(pieces, counted)
    ensures var counted' := if pieces[0].argIndex < 0 then counted + 1 else counted;
            var idx := if pieces[0].argIndex < 0 then counted else pieces[0].argIndex;
            && EachOnce(pieces[1..], counted')
            && (pieces[0].name == "" ==> Takes(pieces, counted, idx) && !Takes(pieces[1..], counted', idx))
            && forall i :: Takes(pieces[1..], counted', i) ==> Takes(pieces, counted, i)
  {
  }

  lemma {:induction false} VerbRenders(pieces: seq<Piece>, args: seq<Option<Segs>>, counted: nat, next: nat,
                                       s: string, some: seq<string>) returns (vals: seq<string>)
    requires ArgsMatch(args, some) && NamesLast(pieces) && (counted == next || NoPositional(pieces))
    requires EachOnce(pieces, counted) && Matches(Assemble(pieces, args, counted), s)
    requires pieces != [] && pieces[0].Verb?
    ensures ArgsMatch(args, vals) && Renders(pieces, vals, next, s)
    ensures forall i :: 0 <= i < |vals| && !Takes(pieces, counted, i) ==> vals[i] == some[i]
    decreases |pieces|, 0
  {
    var verb, rest := pieces[0], pieces[1..];
    var idx := if verb.argIndex < 0 then counted else verb.argIndex;
    var counted' := if verb.argIndex < 0 then counted + 1 else counted;
    var after := if verb.argIndex < 0 && verb.name == "" then next + 1 else next;
    assert verb.name == "" ==> idx == if verb.argIndex < 0 then next else verb.argIndex;
    NamesLastTail(pieces);
    VerbUses(pieces, counted);
    hide Matches, Renders, Assemble, Takes, EachOnce, NamesLast, NoPositional;
    var k := VerbAssembled(pieces, args, counted, s);
    vals := AssembledRenders(rest, args, counted', after, s[k..], some);
    if verb.name == "" && idx < |args| {
      var later := vals;
      vals := later[idx := s[..k]];
      RendersAlike(rest, later, vals, counted', after, s[k..]);
    }
    VerbRendered(pieces, vals, next, s, k);
  }

  // ----- nothing returned goes beyond what is denoted

  /** What no tool can read may be any text. */
  predicate Opaque(k: Kind) {
    k == Unknown || k == Env || k == Index || k == Call
  }

  /** Every argument has an alternative, none is taken twice, and no counted verb follows a named one. */
  predicate ReadsOnce(pieces: seq<Piece>, args: seq<Option<Segs>>) {
    && NamesLast(pieces) && EachOnce(pieces, 0)
    && (forall i :: 0 <= i < |args| ==> args[i].Some?)
    && Assemble(pieces, args, 0) != []
  }

  /** The evaluation of `e` is nowhere cut short: not by the depth, not by a name in progress, not by a format. */
  predicate Whole(c: Context, e: Expr, depth: nat, visiting: set<string>)
    decreases Left(depth)
  {
    if e.Nil? || Opaque(e.kind) then true
    else if depth > MAX_DEPTH then false
    else if e.kind == Symbol then
      var vals := Lookup(c.symbols, e.text, c.fn);
      e.text !in visiting && forall i :: 0 <= i < |vals| ==> Whole(c, vals[i], depth + 1, visiting + {e.text})
    else e.kind == Lit
         || ((e.kind == Format ==> ReadsOnce(Parse(e.text, ""), AllArgs(c, e.parts, depth, visiting)))
             && forall i :: 0 <= i < |e.parts| ==> Whole(c, e.parts[i], depth + 1, visiting))
  }

  lemma {:induction false} PartsWhole(c: Context, e: Expr, depth: nat, visiting: set<string>)
    requires Whole(c, e, depth, visiting) && e.Node? && !Opaque(e.kind)
    ensures depth <= MAX_DEPTH
    ensures e.kind != Symbol && e.kind != Lit ==>
              forall i :: 0 <= i < |e.parts| ==> Whole(c, e.parts[i], depth + 1, visiting)
  {
    hide ReadsOnce, Lookup;
  }

  lemma {:induction false} JoinedDenotes(c: Context, e: Expr, sep: string, s: string, n: nat)
    requires e.Node? && n > 0 && DenotesJoined(c, e.parts, sep, s, n)
    requires if sep == "" then e.kind == Concat || e.kind == Template else sep == "/" && e.kind == Join
    ensures Denotes(c, e, s, n)
  {
    hide DenotesJoined;
  }

  lemma {:induction false} ChoiceDenotes(c: Context, e: Expr, i: nat, s: string, n: nat)
    requires e.Node? && e.kind == Cond && i < |e.parts| && Denotes(c, e.parts[i], s, n)
    ensures Denotes(c, e, s, n + 1)
  {
  }

  lemma {:induction false} LeafDenotes(c: Context, e: Expr, depth: nat, visiting: set<string>, k: nat, s: string)
    requires Whole(c, e, depth, visiting) && (e.Node? ==> Opaque(e.kind) || e.kind == Lit)
    requires k < |All(c, e, depth, visiting)| && Matches(All(c, e, depth, visiting)[k], s)
    ensures Denotes(c, e, s, 1)
  {
    if e.Node? && e.kind == Lit {
      assert All(c, e, depth, visiting)[k] == [Literal(e.text)];
      LiteralOnly(e.text, s);
    }
  }

  /** What the alternatives of a composite expression are made of. */
  lemma {:induction false} CompositeAlts(c: Context, e: Expr, depth: nat, visiting: set<string>)
    requires e.Node? && depth <= MAX_DEPTH
    ensures e.kind == Concat || e.kind == Template ==>
              All(c, e, depth, visiting) == AllSeq(c, e.parts, depth, visiting, "", true, [[]])
    ensures e.kind == Join ==> All(c, e, depth, visiting) == AllSeq(c, e.parts, depth, visiting, "/", true, [[]])
    ensures e.kind == Cond ==> All(c, e, depth, visiting) == AllAny(c, e.parts, depth, visiting)
    ensures e.kind == Format ==> |All(c, e, depth, visiting)| == 1
  {
    hide AllSeq, AllAny;
  }

  /** Every text that fits an alternative is one the expression can denote. */
  lemma {:induction false} Precise(c: Context, e: Expr, depth: nat, visiting: set<string>, k: nat, s: string)
    returns (n: nat)
    requires Whole(c, e, depth, visiting)
    requires k < |All(c, e, depth, visiting)| && Matches(All(c, e, depth, visiting)[k], s)
    ensures Denotes(c, e, s, n)
    decreases Left(depth), 1, 0
  {
    hide Denotes, Matches, All, AllSeq, AllAny, Whole;
    n := 1;
    if e.Nil? || Opaque(e.kind) || e.kind == Lit {
      LeafDenotes(c, e, depth, visiting, k, s);
      return;
    }
    PartsWhole(c, e, depth, visiting);
    CompositeAlts(c, e, depth, visiting);
    if e.kind == Symbol {
      n := PreciseSymbol(c, e, depth, visiting, k, s);
    } else if e.kind == Format {
      n := PreciseFormat(c, e, depth, visiting, s);
    } else if e.kind == Cond {
      var i, j := AnyFrom(c, e.parts, depth, visiting, k);
      n := Precise(c, e.parts[i], depth + 1, visiting, j, s);
      ChoiceDenotes(c, e, i, s, n);
      n := n + 1;
    } else {
      var sep := if e.kind == Join then "/" else "";
      n := PreciseJoined(c, e.parts, depth, visiting, sep, k, s);
      JoinedDenotes(c, e, sep, s, n);
    }
  }

  /** A value of a name is one of those it is bound to. */
  lemma {:induction false} BoundTo(c: Context, e: Expr, s: string, i: nat, n: nat)
    requires e.Node? && e.kind == Symbol && i < |Lookup(c.symbols, e.text, c.fn)|
    requires Denotes(c, Lookup(c.symbols, e.text, c.fn)[i], s, n)
    ensures Denotes(c, e, s, n + 1)
  {
    var raw, vals := Bindings(c.symbols, e.text, c.fn), Lookup(c.symbols, e.text, c.fn);
    DedupeCovers(raw);
    hide Bindings, Dedupe;
    assert vals[i] in vals;
    var r :| 0 <= r < |raw| && raw[r] == vals[i];
    assert Denotes(c, raw[r], s, n);
  }

  lemma {:induction false} BoundToNothing(c: Context, e: Expr, s: string)
    requires e.Node? && e.kind == Symbol && Lookup(c.symbols, e.text, c.fn) == []
    ensures Denotes(c, e, s, 1)
  {
    assert Bindings(c.symbols, e.text, c.fn) == [];
    hide Bindings, Dedupe;
  }

  /** A name's alternatives are those of its values, renamed. */
  lemma {:induction false} SymbolAlts(c: Context, e: Expr, depth: nat, visiting: set<string>)
    requires e.Node? && e.kind == Symbol && depth <= MAX_DEPTH && Whole(c, e, depth, visiting)
    requires Lookup(c.symbols, e.text, c.fn) != []
    ensures var vals, inner := Lookup(c.symbols, e.text, c.fn), visiting + {e.text};
            && All(c, e, depth, visiting) == RenameAll(AllAny(c, vals, depth, inner), e.text)
            && forall i :: 0 <= i < |vals| ==> Whole(c, vals[i], depth + 1, inner)
  {
    hide AllAny, RenameAll, Lookup;
  }

  lemma {:induction false} PreciseSymbol(c: Context, e: Expr, depth: nat, visiting: set<string>, k: nat, s: string)
    returns (n: nat)
    requires e.Node? && e.kind == Symbol && depth <= MAX_DEPTH && Whole(c, e, depth, visiting)
    requires k < |All(c, e, depth, visiting)| && Matches(All(c, e, depth, visiting)[k], s)
    ensures Denotes(c, e, s, n)
    decreases Left(depth), 0, 1, 0
  {
    hide All, AllAny, Whole, Matches, Rename, Denotes, Lookup;
    var vals, inner := Lookup(c.symbols, e.text, c.fn), visiting + {e.text};
    if vals == [] {
      BoundToNothing(c, e, s);
      n := 1;
    } else {
      SymbolAlts(c, e, depth, visiting);
      var full := AllAny(c, vals, depth, inner);
      RenameFrom(full[k], e.text, s);
      var i, j := AnyFrom(c, vals, depth, inner, k);
      n := Precise(c, vals[i], depth + 1, inner, j, s);
      BoundTo(c, e, s, i, n);
      n := n + 1;
    }
  }

  lemma {:induction false} PreciseJoined(c: Context, es: seq<Expr>, depth: nat, visiting: set<string>, sep: string,
                                         k: nat, s: string) returns (n: nat)
    requires depth <= MAX_DEPTH && forall i :: 0 <= i < |es| ==> Whole(c, es[i], depth + 1, visiting)
    requires var alts := AllSeq(c, es, depth, visiting, sep, true, [[]]); k < |alts| && Matches(alts[k], s)
    ensures n > 0 && DenotesJoined(c, es, sep, s, n)
    decreases Left(depth), 0, 1, 0
  {
    var a, cut, vals, m := PreciseSeq(c, es, depth, visiting, sep, true, [[]], k, s);
    n := m;
    assert s[..cut] == "";
    assert s == Suffix(vals, sep, true) by { assert s[cut..] == s; }
    JoinIsSuffix(vals, sep);
  }

  /** Each value is denoted from some height on; the greatest of the heights does for all. */
  lemma {:induction false} EachCons(c: Context, es: seq<Expr>, val: string, m: nat, vals: seq<string>, n: nat)
    returns (h: nat)
    requires es != [] && n > 0 && Denotes(c, es[0], val, m) && DenotesEach(c, es[1..], vals, n)
    ensures h > 0 && DenotesEach(c, es, [val] + vals, h)
  {
    h := if m + 1 > n then m + 1 else n;
    DenotesMore(c, es[0], val, m, h - 1);
    EachMore(c, es[1..], vals, n, h);
    forall i | 0 <= i < |es| ensures Denotes(c, es[i], ([val] + vals)[i], h - 1) {
      if i > 0 { assert es[1..][i - 1] == es[i]; }
    }
  }

  lemma {:induction false} GapFrom(sep: string, first: bool, gap: string)
    requires Matches(Separator(sep, first), gap)
    ensures gap == if first then "" else sep
  {
    if Separator(sep, first) != [] { LiteralOnly(sep, gap); }
  }

  lemma {:induction false} StepFrom(prefix: Segs, sep: string, first: bool, alt: Segs, done: string)
    returns (cut: nat, val: string)
    requires Matches(prefix + Separator(sep, first) + alt, done)
    ensures cut <= |done| && Matches(prefix, done[..cut]) && Matches(alt, val)
    ensures done == done[..cut] + (if first then "" else sep) + val
  {
    hide Matches, Separator;
    var j := MatchesSplit(prefix + Separator(sep, first), alt, done);
    var front := done[..j];
    cut := MatchesSplit(prefix, Separator(sep, first), front);
    val := done[j..];
    GapFrom(sep, first, front[cut..]);
    assert front[..cut] == done[..cut];
    assert front == front[..cut] + front[cut..] && done == front + val;
  }

  /** Putting the next part between what is before and behind it. */
  lemma {:induction false} Between(s: string, sep: string, first: bool, vals: seq<string>, val: string,
                                   cut: nat, cut': nat)
    requires cut' <= |s| && cut <= |s[..cut']| && s[cut'..] == Suffix(vals, sep, false)
    requires s[..cut'] == s[..cut'][..cut] + (if first then "" else sep) + val
    ensures cut <= |s| && s[..cut] == s[..cut'][..cut] && s[cut..] == Suffix([val] + vals, sep, first)
  {
    assert ([val] + vals)[1..] == vals;
    var front := s[..cut'];
    assert s == front + s[cut'..];
    assert s[cut..] == front[cut..] + s[cut'..];
    assert front[cut..] == (if first then "" else sep) + val;
  }

  lemma {:induction false} SeqUnrolled(c: Context, es: seq<Expr>, depth: nat, visiting: set<string>, sep: string,
                                       first: bool, acc: Alts)
    requires depth <= MAX_DEPTH && es != []
    ensures AllSeq(c, es, depth, visiting, sep, first, acc)
         == AllSeq(c, es[1..], depth, visiting, sep, false,
                   Cross(acc, All(c, es[0], depth + 1, visiting), Separator(sep, first)))
  {
    hide All, Cross, Separator;
  }

  lemma {:induction false} PreciseSeq(c: Context, es: seq<Expr>, depth: nat, visiting: set<string>, sep: string,
                                      first: bool, acc: Alts, k: nat, s: string)
    returns (a: nat, cut: nat, vals: seq<string>, n: nat)
    requires depth <= MAX_DEPTH && forall i :: 0 <= i < |es| ==> Whole(c, es[i], depth + 1, visiting)
    requires var alts := AllSeq(c, es, depth, visiting, sep, first, acc); k < |alts| && Matches(alts[k], s)
    ensures n > 0 && DenotesEach(c, es, vals, n)
    ensures a < |acc| && cut <= |s| && Matches(acc[a], s[..cut]) && s[cut..] == Suffix(vals, sep, first)
    decreases Left(depth), 0, 0, |es|
  {
    if es == [] {
      a, cut, vals, n := k, |s|, [], 1;
      assert s[..cut] == s;
    } else {
      hide Cross, Matches, AllSeq, All, Suffix, Separator, DenotesEach, Denotes, Whole;
      var alts, rest := All(c, es[0], depth + 1, visiting), es[1..];
      var next := Cross(acc, alts, Separator(sep, first));
      SeqUnrolled(c, es, depth, visiting, sep, first, acc);
      forall i | 0 <= i < |rest| ensures Whole(c, rest[i], depth + 1, visiting) { assert rest[i] == es[i + 1]; }
      var a': nat, cut': nat, vals', n' := PreciseSeq(c, rest, depth, visiting, sep, false, next, k, s);
      var b: nat, val: string;
      a, b := CrossFrom(acc, alts, Separator(sep, first), a');
      cut, val := StepFrom(acc[a], sep, first, alts[b], s[..cut']);
      var m := Precise(c, es[0], depth + 1, visiting, b, val);
      n := EachCons(c, es, val, m, vals', n');
      vals := [val] + vals';
      Between(s, sep, first, vals', val, cut, cut');
    }
  }

  /** A value for each argument that fits the argument's first alternative. */
  lemma {:induction false} SomeValues(args: seq<Option<Segs>>) returns (some: seq<string>)
    requires forall i :: 0 <= i < |args| ==> args[i].Some?
    ensures ArgsMatch(args, some)
  {
    if args == [] {
      some := [];
    } else {
      var first := SomeInstance(args[0].value);
      var rest := SomeValues(args[1..]);
      some := [first] + rest;
    }
  }

  lemma {:induction false} FormatAlts(c: Context, e: Expr, depth: nat, visiting: set<string>)
    requires e.Node? && e.kind == Format && depth <= MAX_DEPTH
    ensures All(c, e, depth, visiting)
         == [OrOpaque(Assemble(Parse(e.text, ""), AllArgs(c, e.parts, depth, visiting), 0), e.src)]
  {
    hide Parse, Assemble, AllArgs, OrOpaque;
  }

  lemma {:induction false} FormatWhole(c: Context, e: Expr, depth: nat, visiting: set<string>)
    requires e.Node? && e.kind == Format && Whole(c, e, depth, visiting)
    ensures depth <= MAX_DEPTH && ReadsOnce(Parse(e.text, ""), AllArgs(c, e.parts, depth, visiting))
  {
    hide Parse, ReadsOnce, AllArgs;
  }

  lemma {:induction false} FormatDenotes(c: Context, e: Expr, vals: seq<string>, s: string, n: nat)
    requires e.Node? && e.kind == Format && n > 0 && DenotesEach(c, e.parts, vals, n)
    requires Renders(Parse(e.text, ""), vals, 0, s)
    ensures Denotes(c, e, s, n)
  {
    hide Parse, Renders, DenotesEach;
  }

  lemma {:induction false} PreciseFormat(c: Context, e: Expr, depth: nat, visiting: set<string>, s: string)
    returns (n: nat)
    requires e.Node? && e.kind == Format && depth <= MAX_DEPTH && Whole(c, e, depth, visiting)
    requires |All(c, e, depth, visiting)| == 1 && Matches(All(c, e, depth, visiting)[0], s)
    ensures Denotes(c, e, s, n)
    decreases Left(depth), 0, 1, 0
  {
    var pieces, args := Parse(e.text, ""), AllArgs(c, e.parts, depth, visiting);
    FormatAlts(c, e, depth, visiting);
    FormatWhole(c, e, depth, visiting);
    PartsWhole(c, e, depth, visiting);
    hide Parse, Assemble, Matches, Denotes, Renders, Whole, All, AllArgs;
    var some := SomeValues(args);
    var vals := AssembledRenders(pieces, args, 0, 0, s, some);
    assert FirstsFit(c, e.parts, depth, visiting, vals);
    n := PreciseArgs(c, e.parts, depth, visiting, vals);
    FormatDenotes(c, e, vals, s, n);
  }

  /** Each value fits the first alternative of its argument. */
  ghost predicate FirstsFit(c: Context, es: seq<Expr>, depth: nat, visiting: set<string>, vals: seq<string>) {
    && |es| == |vals|
    && forall i :: 0 <= i < |es| ==> var alts := All(c, es[i], depth + 1, visiting); alts != [] && Matches(alts[0], vals[i])
  }

  lemma {:induction false} FirstsTail(c: Context, es: seq<Expr>, depth: nat, visiting: set<string>, vals: seq<string>)
    requires es != [] && FirstsFit(c, es, depth, visiting, vals)
    ensures FirstsFit(c, es[1..], depth, visiting, vals[1..])
  {
    hide All, Matches;
  }

  lemma {:induction false} PreciseArgs(c: Context, es: seq<Expr>, depth: nat, visiting: set<string>,
                                       vals: seq<string>) returns (n: nat)
    requires depth <= MAX_DEPTH && FirstsFit(c, es, depth, visiting, vals)
    requires forall i :: 0 <= i < |es| ==> Whole(c, es[i], depth + 1, visiting)
    ensures n > 0 && DenotesEach(c, es, vals, n)
    decreases Left(depth), 0, 0, |es|
  {
    if es == [] {
      n := 1;
    } else {
      FirstsTail(c, es, depth, visiting, vals);
      assert Matches(All(c, es[0], depth + 1, visiting)[0], vals[0]);
      hide Denotes, DenotesEach, Whole, Matches, All, FirstsFit;
      var m := Precise(c, es[0], depth + 1, visiting, 0, vals[0]);
      var rest := PreciseArgs(c, es[1..], depth, visiting, vals[1..]);
      n := EachCons(c, es, vals[0], m, vals[1..], rest);
      assert vals == [vals[0]] + vals[1..];
    }
  }

  ghost predicate Fits(alts: Alts, s: string) {
    exists k :: 0 <= k < |alts| && Matches(alts[k], s)
  }

  /** The expression can denote the text. */
  ghost predicate CanBe(c: Context, e: Expr, s: string) {
    exists n: nat :: Denotes(c, e, s, n)
  }

  /** Resolution is exact: an uncut evaluation that keeps meaning fits just the texts that can be denoted. */
  lemma {:induction false} ExactIff(c: Context, e: Expr, s: string)
    requires Whole(c, e, 0, {}) && Formats(c, e, 0, {}, Single)
    ensures Fits(All(c, e, 0, {}), s) <==> CanBe(c, e, s)
  {
    hide Whole, Formats, Matches, All, Denotes;
    if Fits(All(c, e, 0, {}), s) {
      var k :| 0 <= k < |All(c, e, 0, {})| && Matches(All(c, e, 0, {})[k], s);
      var n := Precise(c, e, 0, {}, k, s);
    }
    if CanBe(c, e, s) {
      var n: nat :| Denotes(c, e, s, n);
      var k := Sound(c, e, 0, {}, s, n);
    }
  }

  ghost predicate SomeFits(rs: seq<Resolved>, s: string) {
    exists k :: 0 <= k < |rs| && Matches(rs[k].segments, s)
  }

  /** A coalesced resolution is an uncut alternative, if no cap was reached and there is one at all. */
  lemma {:induction false} UncutResolutions(c: Context, e: Expr, s: string)
    requires Formats(c, e, 0, {}, Short)
    requires 0 < |All(c, e, 0, {})| <= MAX_ALTERNATIVES && AllShort(All(c, e, 0, {}))
    ensures SomeFits(Resolutions(c, e), s) <==> Fits(All(c, e, 0, {}), s)
  {
    CapsOnlyTrim(c, e, 0, {});
    var alts, full, rs := Evaluate(c, e, 0, {}).alts, All(c, e, 0, {}), Resolutions(c, e);
    hide Evaluate, All, Formats, Matches, Coalesce;
    assert |alts| == |full|;
    assert alts == full by {
      assert forall k :: 0 <= k < |alts| ==> CutOf(alts[k], full[k]) && |full[k]| <= MAX_SEGMENTS;
    }
    forall k | 0 <= k < |rs| ensures Matches(rs[k].segments, s) <==> Matches(full[k], s) {
      CoalesceKeepsMatches(full[k], s);
    }
  }

  /**
   What a caller gets is exact: under the conditions of soundness, and where the evaluation is
   nowhere cut short, the resolutions fit a text if and only if the expression can denote it.
   */
  lemma {:induction false} ResolutionExactIff(c: Context, e: Expr, s: string)
    requires Whole(c, e, 0, {}) && Formats(c, e, 0, {}, Single) && Formats(c, e, 0, {}, Short)
    requires 0 < |All(c, e, 0, {})| <= MAX_ALTERNATIVES && AllShort(All(c, e, 0, {}))
    ensures SomeFits(Resolutions(c, e), s) <==> CanBe(c, e, s)
  {
    UncutResolutions(c, e, s);
    hide *;
    ExactIff(c, e, s);
  }

  // ----- an argument taken twice

  const READ := Node(Env, "E", [], "")

  /** The format "{0}{0}" with what the environment holds. */
  function Twice(f: string): Expr {
    Node(Format, f, [READ], "")
  }

  lemma {:induction false} ZeroReads(rest: string)
    ensures VerbLaws.ReadAs("{0}", rest, Verb("{0}", 0, ""))
  {
    var zero := "0";
    assert AllDigits(zero) && zero[..0] == "" && Number(zero) == 0;
    hide Number, Parse;
    VerbLaws.NumberedBraces(zero, "", rest);
    assert "{" + zero + "" + "}" == "{0}";
  }

  lemma {:induction false} ParsedTwice(f: string)
    requires f == "{0}{0}"
    ensures Parse(f, "") == [Verb("{0}", 0, ""), Verb("{0}", 0, "")]
  {
    assert Parse("", "") == [] && Flush("") == [];
    hide Parse, Flush;
    ZeroReads("{0}");
    ZeroReads("");
    assert f == "{0}" + "{0}" && "{0}" + "" == "{0}";
    var verb := Verb("{0}", 0, "");
    assert Parse("{0}", "") == Flush("") + [verb] + Parse("", "");
    assert Parse(f, "") == Flush("") + [verb] + Parse("{0}", "");
  }

  lemma {:induction false} SameTwice(c: Context, n: nat, s: string, f: string)
    requires f == "{0}{0}" && Denotes(c, Twice(f), s, n)
    ensures exists v: string :: s == v + v
  {
    ParsedTwice(f);
    var verb := Verb("{0}", 0, "");
    var pieces := [verb, verb];
    var vals: seq<string> :| DenotesEach(c, [READ], vals, n) && Renders(pieces, vals, 0, s);
    hide Parse;
    assert pieces[1..] == [verb] && [verb][1..] == [];
    var v := vals[0];
    assert v <= s && Renders([verb], vals, 0, s[|v|..]);
    assert v <= s[|v|..] && s[|v|..][|v|..] == "";
    assert s == v + s[|v|..] && s[|v|..] == v;
  }

  lemma {:induction false} ReadAlts(c: Context)
    ensures All(c, READ, 1, {}) == [[Hole("env:E", "E", "")]]
  {
    assert "env:" + "E" == "env:E";
  }

  lemma {:induction false} TwoSlots(pieces: seq<Piece>, hole: Segment)
    requires pieces == [Verb("{0}", 0, ""), Verb("{0}", 0, "")]
    ensures Assemble(pieces, [Some([hole])], 0) == [hole, hole]
  {
    var verb, args := Verb("{0}", 0, ""), [Some([hole])];
    assert pieces[1..] == [verb] && [verb][1..] == [];
    assert SlotSegs(verb, args, 0) == [hole] && Assemble([], args, 0) == [];
    hide SlotSegs;
    assert Assemble([verb], args, 0) == [hole] + [];
    assert Assemble(pieces, args, 0) == [hole] + [hole];
  }

  lemma {:induction false} TwiceAlts(c: Context, f: string)
    requires f == "{0}{0}"
    ensures var hole := Hole("env:E", "E", ""); All(c, Twice(f), 0, {}) == [[hole, hole]]
  {
    ParsedTwice(f);
    var hole := Hole("env:E", "E", "");
    ReadAlts(c);
    hide Parse, Assemble;
    var args := AllArgs(c, [READ], 0, {});
    hide AllArgs;
    assert args[0] == FirstAlt(All(c, [READ][0], 0 + 1, {}));
    assert args == [Some([hole])];
    FormatAlts(c, Twice(f), 0, {});
    TwoSlots(Parse(f, ""), hole);
    hide All;
  }

  lemma {:induction false} NoDouble(s: string)
    requires s == "ab"
    ensures forall v: string :: s != v + v
  {
    forall v: string | |v| == 1 ensures s != v + v { assert (v + v)[0] == (v + v)[1]; }
  }

  /** An argument that two verbs take is two independent holes: the pattern fits "ab", which no value gives. */
  lemma {:induction false} TakenTwice(c: Context, s: string, f: string)
    requires f == "{0}{0}" && s == "ab"
    ensures Fits(All(c, Twice(f), 0, {}), s) && !CanBe(c, Twice(f), s)
  {
    TwiceAlts(c, f);
    var hole := Hole("env:E", "E", "");
    hide Matches, Denotes, All;
    HoleMatches(hole, "a");
    HoleMatches(hole, "b");
    MatchesConcat([hole], [hole], "a", "b");
    assert [hole] + [hole] == [hole, hole] == All(c, Twice(f), 0, {})[0] && s == "a" + "b";
    forall n: nat ensures !Denotes(c, Twice(f), s, n) {
      NoDouble(s);
      if Denotes(c, Twice(f), s, n) {
        SameTwice(c, n, s, f);
        assert false;
      }
    }
  }
}

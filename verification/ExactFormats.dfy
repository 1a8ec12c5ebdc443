/**
 Which formats are read exactly (sprintf, internal/resolve/resolve.go): the assembled pattern fits
 the renderings, all of them and nothing else, whatever the arguments.
 */
module ExactFormats {
  import opened Strs
  import opened Segments
  import opened FormatStrings
  import opened Resolver
  import opened Uncapped
  import opened Meaning
  import opened FormatLaws
  import opened Precision

  /** Some values that fit the arguments render as `s`. */
  ghost predicate CanRender(pieces: seq<Piece>, args: seq<Option<Segs>>, s: string) {
    exists vals :: ArgsMatch(args, vals) && Renders(pieces, vals, 0, s)
  }

  /** Every argument is given. */
  predicate Given(args: seq<Option<Segs>>) {
    forall i :: 0 <= i < |args| ==> args[i].Some?
  }

  /** Whatever fits the pattern is a rendering. */
  ghost predicate ReadPrecisely(pieces: seq<Piece>) {
    forall args, s :: Given(args) && Matches(Assemble(pieces, args, 0), s) ==> CanRender(pieces, args, s)
  }

  /** The pattern fits exactly the renderings. */
  ghost predicate ReadExactly(pieces: seq<Piece>) {
    forall args, s :: Given(args) ==> (Matches(Assemble(pieces, args, 0), s) <==> CanRender(pieces, args, s))
  }

  // ----- a text that a format with a repeated argument does not render

  /** The argument a verb takes, when the next positional one is `next`; a named one takes none. */
  function Index(p: Piece, next: nat): int
    requires p.Verb?
  {
    if p.name != "" then -1 else if p.argIndex < 0 then next else p.argIndex
  }

  function After(p: Piece, next: nat): nat {
    if p.Verb? && p.argIndex < 0 then next + 1 else next
  }

  function TextLength(pieces: seq<Piece>): nat {
    if pieces == [] then 0 else (if pieces[0].Text? then |pieces[0].text| else 0) + TextLength(pieces[1..])
  }

  /** How many verbs take argument `i`. */
  function UseCount(pieces: seq<Piece>, next: nat, i: nat): nat {
    if pieces == [] then 0
    else (if pieces[0].Verb? && Index(pieces[0], next) == i then 1 else 0) + UseCount(pieces[1..], After(pieces[0], next), i)
  }

  /** No argument index reaches `n`. */
  predicate Below(pieces: seq<Piece>, next: nat, n: nat) {
    pieces == []
    || ((pieces[0].Verb? ==> Index(pieces[0], next) < n) && Below(pieces[1..], After(pieces[0], next), n))
  }

  lemma {:induction false} BelowMore(pieces: seq<Piece>, next: nat, m: nat, n: nat)
    requires m <= n && Below(pieces, next, m)
    ensures Below(pieces, next, n)
  {
    if pieces != [] { BelowMore(pieces[1..], After(pieces[0], next), m, n); }
  }

  lemma {:induction false} SomeBound(pieces: seq<Piece>, next: nat) returns (n: nat)
    ensures Below(pieces, next, n)
  {
    if pieces == [] {
      n := 0;
    } else {
      var m := SomeBound(pieces[1..], After(pieces[0], next));
      var x := if pieces[0].Verb? then Index(pieces[0], next) + 1 else 0;
      n := if x > m then x else m;
      BelowMore(pieces[1..], After(pieces[0], next), m, n);
    }
  }

  lemma {:induction false} UsesCounted(pieces: seq<Piece>, next: nat, i: nat)
    ensures Takes(pieces, next, i) <==> UseCount(pieces, next, i) > 0
  {
    if pieces != [] { UsesCounted(pieces[1..], After(pieces[0], next), i); }
  }

  lemma {:induction false} TakenTwiceSomewhere(pieces: seq<Piece>, next: nat) returns (i: nat)
    requires !EachOnce(pieces, next)
    ensures UseCount(pieces, next, i) >= 2
  {
    var rest, after := pieces[1..], After(pieces[0], next);
    if !EachOnce(rest, after) {
      i := TakenTwiceSomewhere(rest, after);
    } else {
      i := Index(pieces[0], next);
      UsesCounted(rest, after, i);
    }
  }

  const OPEN := [Literal("a"), Hole("", "", ""), Literal("b")]

  /** Argument `i` of `n` is "a", anything, "b"; the others are empty. */
  function Args(n: nat, i: nat): (args: seq<Option<Segs>>)
    ensures |args| == n && Given(args)
  {
    seq(n, j requires 0 <= j < n => Some(if j == i then OPEN else []))
  }

  /** The text with this value at the first verb that takes `i`, "ab" at the others, and nothing elsewhere. */
  function Fill(pieces: seq<Piece>, next: nat, i: nat, first: string): string {
    if pieces == [] then ""
    else
      var rest, after := pieces[1..], After(pieces[0], next);
      if pieces[0].Text? then pieces[0].text + Fill(rest, after, i, first)
      else if Index(pieces[0], next) == i then first + Fill(rest, after, i, "ab")
      else Fill(rest, after, i, first)
  }

  lemma {:induction false} FitsOpen(x: string)
    ensures Matches(OPEN, "a" + x + "b")
  {
    LiteralMatches("a");
    HoleMatches(Hole("", "", ""), x);
    LiteralMatches("b");
    MatchesConcat([Literal("a")], [Hole("", "", "")], "a", x);
    MatchesConcat([Literal("a")] + [Hole("", "", "")], [Literal("b")], "a" + x, "b");
    assert [Literal("a")] + [Hole("", "", "")] + [Literal("b")] == OPEN;
  }

  /** What fits it is at least "ab", and "ab" itself if no longer. */
  lemma {:induction false} OpenIs(v: string)
    requires Matches(OPEN, v)
    ensures |v| >= 2 && (|v| == 2 ==> v[0] == 'a' && v[1] == 'b')
  {
    var k := MatchesSplit([Literal("a")], [Hole("", "", ""), Literal("b")], v);
    assert [Literal("a")] + [Hole("", "", ""), Literal("b")] == OPEN;
    LiteralOnly("a", v[..k]);
    var m := MatchesSplit([Hole("", "", "")], [Literal("b")], v[k..]);
    assert [Hole("", "", "")] + [Literal("b")] == [Hole("", "", ""), Literal("b")];
    LiteralOnly("b", v[k..][m..]);
    assert v == v[..k] + v[k..] && v[k..] == v[k..][..m] + v[k..][m..];
  }

  lemma {:induction false} SlotFits(p: Piece, n: nat, i: nat, next: nat, first: string)
    requires p.Verb? && i < n && Index(p, next) < n && Matches(OPEN, first)
    ensures Matches(SlotSegs(p, Args(n, i), next), if Index(p, next) == i then first else "")
  {
    if p.name != "" { HoleMatches(Hole("", p.name, p.text), ""); }
  }

  /** The pattern fits that text. */
  lemma {:induction false} FillFits(pieces: seq<Piece>, n: nat, i: nat, next: nat, first: string)
    requires i < n && Below(pieces, next, n) && Matches(OPEN, first)
    ensures Matches(Assemble(pieces, Args(n, i), next), Fill(pieces, next, i, first))
  {
    if pieces != [] {
      var rest, after := pieces[1..], After(pieces[0], next);
      FitsOpen("");
      assert "a" + "" + "b" == "ab";
      var later := if pieces[0].Verb? && Index(pieces[0], next) == i then "ab" else first;
      FillFits(rest, n, i, after, later);
      hide Matches, SlotSegs, Args;
      if pieces[0].Text? {
        LiteralMatches(pieces[0].text);
        MatchesConcat([Literal(pieces[0].text)], Assemble(rest, Args(n, i), after),
                      pieces[0].text, Fill(rest, after, i, later));
      } else {
        var x := if Index(pieces[0], next) == i then first else "";
        SlotFits(pieces[0], n, i, next, first);
        MatchesConcat(SlotSegs(pieces[0], Args(n, i), next), Assemble(rest, Args(n, i), after),
                      x, Fill(rest, after, i, later));
        assert "" + Fill(rest, after, i, later) == Fill(rest, after, i, later);
      }
    }
  }

  /** How much text stands before the first verb that takes `i`. */
  function TextBefore(pieces: seq<Piece>, next: nat, i: nat): nat {
    if pieces == [] || (pieces[0].Verb? && Index(pieces[0], next) == i) then 0
    else (if pieces[0].Text? then |pieces[0].text| else 0) + TextBefore(pieces[1..], After(pieces[0], next), i)
  }

  lemma {:induction false} FillShape(pieces: seq<Piece>, next: nat, i: nat, first: string)
    ensures var s, m := Fill(pieces, next, i, first), UseCount(pieces, next, i);
            && |s| == TextLength(pieces) + (if m == 0 then 0 else |first| + 2 * (m - 1))
            && (m > 0 ==> var p := TextBefore(pieces, next, i); p + |first| <= |s| && s[p..p + |first|] == first)
  {
    if pieces != [] {
      var rest, after := pieces[1..], After(pieces[0], next);
      if pieces[0].Verb? && Index(pieces[0], next) == i {
        FillShape(rest, after, i, "ab");
        assert Fill(pieces, next, i, first) == first + Fill(rest, after, i, "ab");
      } else {
        FillShape(rest, after, i, first);
        var s, t := Fill(pieces, next, i, first), Fill(rest, after, i, first);
        var w := if pieces[0].Text? then |pieces[0].text| else 0;
        assert s[w..] == t;
        if UseCount(pieces, next, i) > 0 {
          var p := TextBefore(rest, after, i);
          assert s[w + p..w + p + |first|] == s[w..][p..p + |first|];
        }
      }
    }
  }

  /** All values but one are empty. */
  predicate OnlyAt(vals: seq<string>, i: nat, v: string) {
    i < |vals| && vals[i] == v && forall j :: 0 <= j < |vals| && j != i ==> vals[j] == ""
  }

  /** What is left of a rendering behind its first piece, and how much that piece takes. */
  lemma {:induction false} RenderStep(pieces: seq<Piece>, vals: seq<string>, counted: nat, next: nat, s: string)
    returns (k: nat, after: nat)
    requires pieces != [] && NamesLast(pieces) && (counted == next || NoPositional(pieces))
    requires Renders(pieces, vals, next, s)
    ensures k <= |s| && Renders(pieces[1..], vals, after, s[k..])
    ensures NamesLast(pieces[1..]) && (After(pieces[0], counted) == after || NoPositional(pieces[1..]))
    ensures pieces[0].Text? ==> k == |pieces[0].text|
    ensures pieces[0].Verb? && 0 <= Index(pieces[0], counted) < |vals| ==>
              vals[Index(pieces[0], counted)] == s[..k]
  {
    NamesLastTail(pieces);
    match pieces[0] {
      case Text(t) => k, after := |t|, next;
      case Verb(_, argIndex, name) =>
        var idx := if argIndex < 0 then next else argIndex;
        after := if argIndex < 0 && name == "" then next + 1 else next;
        if name == "" && idx < |vals| {
          k := |vals[idx]|;
        } else {
          k :| k <= |s| && Renders(pieces[1..], vals, after, s[k..]);
        }
    }
  }

  lemma {:induction false} RenderedLength(pieces: seq<Piece>, vals: seq<string>, counted: nat, next: nat, s: string,
                                          i: nat, v: string)
    requires OnlyAt(vals, i, v) && NamesLast(pieces) && (counted == next || NoPositional(pieces))
    requires Renders(pieces, vals, next, s)
    ensures |s| >= TextLength(pieces) + UseCount(pieces, counted, i) * |v|
    decreases |pieces|
  {
    if pieces != [] {
      var k, after := RenderStep(pieces, vals, counted, next, s);
      RenderedLength(pieces[1..], vals, After(pieces[0], counted), after, s[k..], i, v);
      hide Renders, NamesLast, NoPositional;
      OneMore(UseCount(pieces[1..], After(pieces[0], counted), i), |v|);
    }
  }

  lemma {:induction false} OneMore(m: nat, n: nat)
    ensures (m + 1) * n == m * n + n
  {
  }

  lemma {:induction false} HasIndex(vals: seq<string>, i: nat, v: string)
    requires OnlyAt(vals, i, v)
    ensures i < |vals| && vals[i] == v
  {
  }

  /** The least that a rendering takes from the first verb that takes `i` on, with a value of this length. */
  function Room(pieces: seq<Piece>, next: nat, i: nat, len: nat): int {
    TextLength(pieces) - TextBefore(pieces, next, i) + UseCount(pieces, next, i) * len
  }

  lemma {:induction false} RoomStep(pieces: seq<Piece>, next: nat, i: nat, len: nat)
    requires pieces != []
    ensures var rest, after := pieces[1..], After(pieces[0], next);
            Room(pieces, next, i, len)
            == if pieces[0].Verb? && Index(pieces[0], next) == i
               then TextLength(rest) + UseCount(rest, after, i) * len + len else Room(rest, after, i, len)
  {
    OneMore(UseCount(pieces[1..], After(pieces[0], next), i), len);
  }

  lemma {:induction false} BeforeStep(pieces: seq<Piece>, next: nat, i: nat)
    requires pieces != [] && UseCount(pieces, next, i) > 0
    ensures var rest, after := pieces[1..], After(pieces[0], next);
            if pieces[0].Verb? && Index(pieces[0], next) == i then TextBefore(pieces, next, i) == 0
            else UseCount(rest, after, i) > 0
                 && TextBefore(pieces, next, i)
                    == (if pieces[0].Text? then |pieces[0].text| else 0) + TextBefore(rest, after, i)
  {
  }

  lemma {:induction false} WithinTail(s: string, k: nat, at: nat, v: string)
    requires k <= |s| && at + |v| <= |s[k..]| && s[k..][at..at + |v|] == v
    ensures k + at + |v| <= |s| && s[k + at..k + at + |v|] == v
  {
    assert s[k + at..k + at + |v|] == s[k..][at..at + |v|];
  }

  /** The value stands somewhere in the rendering, behind the text before it and in front of all the rest. */
  lemma {:induction false} RenderedFirst(pieces: seq<Piece>, vals: seq<string>, counted: nat, next: nat, s: string,
                                         i: nat, v: string) returns (at: nat)
    requires OnlyAt(vals, i, v) && NamesLast(pieces) && (counted == next || NoPositional(pieces))
    requires Renders(pieces, vals, next, s) && UseCount(pieces, counted, i) > 0
    ensures TextBefore(pieces, counted, i) <= at <= at + |v| <= |s| && s[at..at + |v|] == v
    ensures |s| >= at + Room(pieces, counted, i, |v|)
    decreases |pieces|
  {
    assert pieces != [];
    hide Renders, NamesLast, NoPositional, OnlyAt, Room, TextLength, TextBefore, UseCount;
    var k, after := RenderStep(pieces, vals, counted, next, s);
    HasIndex(vals, i, v);
    RoomStep(pieces, counted, i, |v|);
    BeforeStep(pieces, counted, i);
    var rest, counted' := pieces[1..], After(pieces[0], counted);
    if pieces[0].Verb? && Index(pieces[0], counted) == i {
      RenderedLength(rest, vals, counted', after, s[k..], i, v);
      at := 0;
    } else {
      var inner := RenderedFirst(rest, vals, counted', after, s[k..], i, v);
      WithinTail(s, k, inner, v);
      at := k + inner;
    }
  }

  lemma {:induction false} ValuesOnlyAt(n: nat, i: nat, vals: seq<string>)
    requires i < n && ArgsMatch(Args(n, i), vals)
    ensures OnlyAt(vals, i, vals[i]) && Matches(OPEN, vals[i])
  {
  }

  lemma {:induction false} TwoLetters(m: nat, n: nat)
    requires m >= 2 && n >= 2 && m * n <= 2 * m + 1
    ensures n == 2
  {
    assert m * n == 2 * m + m * (n - 2);
    assert n >= 3 ==> m * (n - 2) >= m;
  }

  /** "acb" at `p`, and "ab" there or one place on. */
  lemma {:induction false} NotBoth(s: string, p: nat, at: nat, v: string)
    requires p + 3 <= |s| && s[p..p + 3] == "acb" && (at == p || at == p + 1) && |v| == 2 && v[0] == 'a' && v[1] == 'b'
    ensures s[at..at + 2] != v
  {
    assert s[p + 1] == s[p..p + 3][1];
    var w := s[at..at + 2];
    assert w[0] == s[at] && w[1] == s[at + 1];
  }

  /** A repeated value cannot have a letter in its first place that it has not in the others. */
  lemma {:induction false} RepeatsAlike(pieces: seq<Piece>, n: nat, i: nat, vals: seq<string>)
    requires i < n && NamesLast(pieces) && UseCount(pieces, 0, i) >= 2
    requires ArgsMatch(Args(n, i), vals)
    ensures !Renders(pieces, vals, 0, Fill(pieces, 0, i, "acb"))
  {
    hide Renders, Fill, Matches, NamesLast, OnlyAt, TextBefore, TextLength, UseCount;
    var s, m, p := Fill(pieces, 0, i, "acb"), UseCount(pieces, 0, i), TextBefore(pieces, 0, i);
    ValuesOnlyAt(n, i, vals);
    var v := vals[i];
    hide ArgsMatch;
    OpenIs(v);
    FillShape(pieces, 0, i, "acb");
    if Renders(pieces, vals, 0, s) {
      RenderedLength(pieces, vals, 0, 0, s, i, v);
      TwoLetters(m, |v|);
      var at := RenderedFirst(pieces, vals, 0, 0, s, i, v);
      NotBoth(s, p, at, v);
      assert false;
    }
  }

  /** Where counted verbs come before named ones, a format is read precisely if and only if it takes no argument twice. */
  lemma {:induction false} ReadPreciselyIff(pieces: seq<Piece>)
    requires NamesLast(pieces)
    ensures ReadPrecisely(pieces) <==> EachOnce(pieces, 0)
  {
    if EachOnce(pieces, 0) {
      forall args, s | Given(args) && Matches(Assemble(pieces, args, 0), s) ensures CanRender(pieces, args, s) {
        var some := SomeValues(args);
        var vals := AssembledRenders(pieces, args, 0, 0, s, some);
      }
    } else {
      var i := TakenTwiceSomewhere(pieces, 0);
      var b := SomeBound(pieces, 0);
      var n := if b > i then b else i + 1;
      BelowMore(pieces, 0, b, n);
      FitsOpen("c");
      assert "a" + "c" + "b" == "acb";
      FillFits(pieces, n, i, 0, "acb");
      var args, s := Args(n, i), Fill(pieces, 0, i, "acb");
      forall vals | ArgsMatch(args, vals) ensures !Renders(pieces, vals, 0, s) {
        RepeatsAlike(pieces, n, i, vals);
      }
      assert Given(args) && Matches(Assemble(pieces, args, 0), s) && !CanRender(pieces, args, s);
    }
  }

  /**
   The pattern assembled from a format fits exactly its renderings, whatever the arguments, if and
   only if no counted verb comes after a named one and no argument is taken twice.
   */
  lemma {:induction false} ReadExactlyIff(f: string)
    ensures ReadExactly(Parse(f, "")) <==> NamesLast(Parse(f, "")) && EachOnce(Parse(f, ""), 0)
  {
    var pieces := Parse(f, "");
    ReadFaithfullyIff(f);
    hide Parse, Matches, Renders, Assemble, NamesLast, EachOnce;
    if ReadExactly(pieces) {
      forall args, vals, s | ArgsMatch(args, vals) && Renders(pieces, vals, 0, s)
        ensures Matches(Assemble(pieces, args, 0), s)
      {
        assert Given(args) && CanRender(pieces, args, s);
      }
      assert ReadFaithfully(pieces) && ReadPrecisely(pieces);
      ReadPreciselyIff(pieces);
    }
    if NamesLast(pieces) && EachOnce(pieces, 0) {
      ReadPreciselyIff(pieces);
      assert ReadFaithfully(pieces) && ReadPrecisely(pieces);
    }
  }
}

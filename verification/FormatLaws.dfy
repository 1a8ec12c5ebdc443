/** Which formats the resolver reads faithfully (sprintf, internal/resolve/resolve.go), whatever the arguments. */
module FormatLaws {
  import opened Strs
  import opened Segments
  import opened FormatStrings
  import opened Resolver
  import opened Uncapped
  import opened Meaning

  /** The assembled pattern matches every rendering, for all arguments that match their values. */
  ghost predicate ReadFaithfully(pieces: seq<Piece>) {
    forall args, vals, s :: ArgsMatch(args, vals) && Renders(pieces, vals, 0, s) ==> Matches(Assemble(pieces, args, 0), s)
  }

  predicate Positional(p: Piece) {
    p.Verb? && p.name == "" && p.argIndex < 0
  }

  /** A verb that names itself has no index of its own. */
  predicate NamesUnindexed(pieces: seq<Piece>) {
    forall i :: 0 <= i < |pieces| && pieces[i].Verb? && pieces[i].name != "" ==> pieces[i].argIndex < 0
  }

  lemma {:induction false} ParsedNames(f: string, lit: string)
    ensures NamesUnindexed(Parse(f, lit))
    decreases |f|
  {
    if f != "" {
      ParseStep(f, lit);
      var t := Next(f);
      NextNames(f);
      ParsedNames(f[t.width..], if t.Plain? then lit + t.text else "");
    }
  }

  lemma NextNames(f: string)
    requires f != ""
    ensures Next(f).Slot? && Next(f).verb.name != "" ==> Next(f).verb.argIndex < 0
  {
  }

  // ----- how long a pattern and a rendering are

  function LiteralLength(segs: Segs): nat {
    if segs == [] then 0 else (if segs[0].Literal? then |segs[0].text| else 0) + LiteralLength(segs[1..])
  }

  lemma {:induction false} LengthConcat(a: Segs, b: Segs)
    ensures LiteralLength(a + b) == LiteralLength(a) + LiteralLength(b)
  {
    if a == [] {
      assert a + b == b;
    } else {
      assert (a + b)[1..] == a[1..] + b;
      LengthConcat(a[1..], b);
    }
  }

  /** No instance of a pattern is shorter than its literal text. */
  lemma {:induction false} InstanceLength(segs: Segs, s: string)
    requires Matches(segs, s)
    ensures LiteralLength(segs) <= |s|
    decreases |segs|
  {
    if segs != [] {
      if segs[0].Literal? {
        InstanceLength(segs[1..], s[|segs[0].text|..]);
      } else {
        var k :| 0 <= k <= |s| && Matches(segs[1..], s[k..]);
        InstanceLength(segs[1..], s[k..]);
      }
    }
  }

  /** The rendering in which every wildcard stands for nothing. */
  function Plainest(pieces: seq<Piece>, vals: seq<string>, next: nat): string {
    if pieces == [] then ""
    else match pieces[0]
      case Text(t) => t + Plainest(pieces[1..], vals, next)
      case Verb(_, argIndex, name) =>
        var idx := if argIndex < 0 then next else argIndex;
        (if name == "" && idx < |vals| then vals[idx] else "")
        + Plainest(pieces[1..], vals, if argIndex < 0 && name == "" then next + 1 else next)
  }

  lemma {:induction false} PlainestRenders(pieces: seq<Piece>, vals: seq<string>, next: nat)
    ensures Renders(pieces, vals, next, Plainest(pieces, vals, next))
  {
    if pieces != [] {
      var s := Plainest(pieces, vals, next);
      match pieces[0] {
        case Text(t) =>
          PlainestRenders(pieces[1..], vals, next);
          assert s[|t|..] == Plainest(pieces[1..], vals, next);
        case Verb(_, argIndex, name) =>
          var idx := if argIndex < 0 then next else argIndex;
          var after := if argIndex < 0 && name == "" then next + 1 else next;
          PlainestRenders(pieces[1..], vals, after);
          var k := if name == "" && idx < |vals| then |vals[idx]| else 0;
          assert s[k..] == Plainest(pieces[1..], vals, after);
      }
    }
  }

  // ----- arguments that give a wrong count away

  /** The position the resolver counts for the last positional verb, or -1. */
  function LastCounted(pieces: seq<Piece>, counted: nat): int {
    if pieces == [] then -1
    else
      var after := if pieces[0].Verb? && pieces[0].argIndex < 0 then counted + 1 else counted;
      var last := LastCounted(pieces[1..], after);
      if last < 0 && Positional(pieces[0]) then counted else last
  }

  lemma {:induction false} LastCountedFrom(pieces: seq<Piece>, counted: nat)
    ensures LastCounted(pieces, counted) < 0 || LastCounted(pieces, counted) >= counted
    ensures LastCounted(pieces, counted) < 0 <==> forall i :: 0 <= i < |pieces| ==> !Positional(pieces[i])
  {
    if pieces != [] {
      var after := if pieces[0].Verb? && pieces[0].argIndex < 0 then counted + 1 else counted;
      LastCountedFrom(pieces[1..], after);
      assert forall i :: 0 < i < |pieces| ==> pieces[i] == pieces[1..][i - 1];
      if forall i :: 0 <= i < |pieces| ==> !Positional(pieces[i]) {
        assert forall i :: 0 <= i < |pieces[1..]| ==> pieces[1..][i] == pieces[i + 1];
      }
    }
  }

  /** Empty values but for a last one of one character. */
  function Telltale(n: nat): (vals: seq<string>)
    ensures |vals| == n + 1 && vals[n] == "x" && forall i :: 0 <= i < n ==> vals[i] == ""
  {
    seq(n, i => "") + ["x"]
  }

  function TelltaleArgs(n: nat): (args: seq<Option<Segs>>)
    ensures |args| == n + 1 && forall i :: 0 <= i <= n ==> args[i] == Some([Literal(Telltale(n)[i])])
  {
    seq(n + 1, i requires 0 <= i <= n => Some([Literal(Telltale(n)[i])]))
  }

  lemma TelltaleMatches(n: nat)
    ensures ArgsMatch(TelltaleArgs(n), Telltale(n))
  {
    forall i | 0 <= i <= n ensures Matches(TelltaleArgs(n)[i].value, Telltale(n)[i]) {
      LiteralMatches(Telltale(n)[i]);
    }
  }

  lemma SlotLength(verb: Piece, n: nat, counted: nat)
    requires verb.Verb?
    ensures var idx := if verb.argIndex < 0 then counted else verb.argIndex;
            LiteralLength(SlotSegs(verb, TelltaleArgs(n), counted)) == if verb.name == "" && idx == n then 1 else 0
  {
    var segs := SlotSegs(verb, TelltaleArgs(n), counted);
    assert segs[1..] == [];
    assert LiteralLength([]) == 0;
  }

  /** Behind the last positional verb the counts no longer matter. */
  lemma {:induction false} SameLength(pieces: seq<Piece>, n: nat, counted: nat, next: nat)
    requires LastCounted(pieces, counted) < 0 && NamesUnindexed(pieces)
    ensures LiteralLength(Assemble(pieces, TelltaleArgs(n), counted)) == |Plainest(pieces, Telltale(n), next)|
    decreases |pieces|
  {
    if pieces != [] {
      var after := if pieces[0].Verb? && pieces[0].argIndex < 0 then counted + 1 else counted;
      SameLength(pieces[1..], n, after, next);
      HeadLength(pieces, n, counted);
    }
  }

  lemma HeadLength(pieces: seq<Piece>, n: nat, counted: nat)
    requires pieces != []
    ensures var head := pieces[0];
            var after := if head.Verb? && head.argIndex < 0 then counted + 1 else counted;
            LiteralLength(Assemble(pieces, TelltaleArgs(n), counted))
            == (if head.Text? then |head.text|
                else if head.name == "" && (if head.argIndex < 0 then counted else head.argIndex) == n then 1 else 0)
               + LiteralLength(Assemble(pieces[1..], TelltaleArgs(n), after))
  {
    var head, rest := pieces[0], pieces[1..];
    if head.Text? {
      LengthConcat([Literal(head.text)], Assemble(rest, TelltaleArgs(n), counted));
      assert [Literal(head.text)][1..] == [] && LiteralLength([]) == 0;
    } else {
      var after := if head.argIndex < 0 then counted + 1 else counted;
      SlotLength(head, n, counted);
      LengthConcat(SlotSegs(head, TelltaleArgs(n), counted), Assemble(rest, TelltaleArgs(n), after));
    }
  }

  /** A positional verb behind a self-naming one is counted wrong, and the pattern comes out too long. */
  lemma {:induction false} OneTooLong(pieces: seq<Piece>, n: nat, counted: nat, next: nat)
    requires NamesUnindexed(pieces) && LastCounted(pieces, counted) == n
    requires counted >= next && (counted > next || !NamesLast(pieces))
    ensures LiteralLength(Assemble(pieces, TelltaleArgs(n), counted)) == |Plainest(pieces, Telltale(n), next)| + 1
    decreases |pieces|
  {
    var head, rest := pieces[0], pieces[1..];
    var counted' := if head.Verb? && head.argIndex < 0 then counted + 1 else counted;
    var next' := if Positional(head) then next + 1 else next;
    HeadLength(pieces, n, counted);
    LastCountedFrom(pieces, counted);
    LastCountedFrom(rest, counted');
    RestSkewed(pieces);
    if LastCounted(rest, counted') < 0 {
      SameLength(rest, n, counted', next');
    } else {
      OneTooLong(rest, n, counted', next');
    }
  }

  /** What stays of a misplaced name once the first piece is gone. */
  lemma RestSkewed(pieces: seq<Piece>)
    requires pieces != []
    ensures !NamesLast(pieces) && !(pieces[0].Verb? && pieces[0].name != "") ==> !NamesLast(pieces[1..])
    ensures !NamesLast(pieces[1..]) ==> exists i :: 0 <= i < |pieces[1..]| && Positional(pieces[1..][i])
    ensures !NamesLast(pieces) ==> exists i :: 0 <= i < |pieces[1..]| && Positional(pieces[1..][i])
  {
    if !NamesLast(pieces) {
      var i, j :| 0 <= i < j < |pieces| && pieces[i].Verb? && pieces[i].name != "" && Positional(pieces[j]);
      assert pieces[1..][j - 1] == pieces[j];
      if i > 0 { assert pieces[1..][i - 1] == pieces[i]; }
    }
  }

  lemma MisreadWhenNamesFirst(pieces: seq<Piece>)
    requires NamesUnindexed(pieces) && !NamesLast(pieces)
    ensures !ReadFaithfully(pieces)
  {
    LastCountedFrom(pieces, 0);
    RestSkewed(pieces);
    var n := LastCounted(pieces, 0);
    assert n >= 0 by {
      var i :| 0 <= i < |pieces[1..]| && Positional(pieces[1..][i]);
      assert pieces[1..][i] == pieces[i + 1];
    }
    var args, vals := TelltaleArgs(n), Telltale(n);
    var s := Plainest(pieces, vals, 0);
    TelltaleMatches(n);
    PlainestRenders(pieces, vals, 0);
    OneTooLong(pieces, n, 0, 0);
    if Matches(Assemble(pieces, args, 0), s) {
      InstanceLength(Assemble(pieces, args, 0), s);
    }
  }

  /**
   A format is read faithfully, for all arguments and values, if and only if no positional verb in
   it comes after one that names itself.
   */
  lemma ReadFaithfullyIff(f: string)
    ensures ReadFaithfully(Parse(f, "")) <==> NamesLast(Parse(f, ""))
  {
    var pieces := Parse(f, "");
    if NamesLast(pieces) {
      forall args, vals, s | ArgsMatch(args, vals) && Renders(pieces, vals, 0, s)
        ensures Matches(Assemble(pieces, args, 0), s)
      {
        AssembleMatches(pieces, args, vals, 0, 0, s);
      }
    } else {
      ParsedNames(f, "");
      MisreadWhenNamesFirst(pieces);
    }
  }

  // ----- arguments with several values

  /** Every verb has an argument, by the resolver's count, and none names itself. */
  predicate Filled(pieces: seq<Piece>, n: nat, next: nat) {
    pieces == [] ||
    if pieces[0].Text? then Filled(pieces[1..], n, next)
    else
      && pieces[0].name == "" && Slot(pieces[0], next) < n
      && Filled(pieces[1..], n, After(pieces[0], next))
  }

  /** Which argument a verb takes, and the count after it. */
  function Slot(verb: Piece, next: nat): nat
    requires verb.Verb?
  {
    if verb.argIndex < 0 then next else verb.argIndex
  }

  function After(verb: Piece, next: nat): nat
    requires verb.Verb?
  {
    if verb.argIndex < 0 then next + 1 else next
  }

  predicate Uses(pieces: seq<Piece>, next: nat, i: nat) {
    pieces != [] &&
    if pieces[0].Text? then Uses(pieces[1..], next, i)
    else Slot(pieces[0], next) == i || Uses(pieces[1..], After(pieces[0], next), i)
  }

  /** The format with a text for each argument. */
  function Filling(pieces: seq<Piece>, vals: seq<string>, next: nat): string
    requires Filled(pieces, |vals|, next)
  {
    if pieces == [] then ""
    else if pieces[0].Text? then pieces[0].text + Filling(pieces[1..], vals, next)
    else vals[Slot(pieces[0], next)] + Filling(pieces[1..], vals, After(pieces[0], next))
  }

  function LiteralArgs(vals: seq<string>): (args: seq<Option<Segs>>)
    ensures |args| == |vals|
  {
    seq(|vals|, i requires 0 <= i < |vals| => Some([Literal(vals[i])]))
  }

  lemma LiteralPrefix(t: string, rest: Segs, s: string)
    ensures Matches([Literal(t)] + rest, s) <==> t <= s && Matches(rest, s[|t|..])
  {
    assert ([Literal(t)] + rest)[1..] == rest;
  }

  lemma PrefixThen(t: string, rest: string, s: string)
    ensures s == t + rest <==> t <= s && s[|t|..] == rest
  {
    if t <= s && s[|t|..] == rest { assert s == s[..|t|] + s[|t|..]; }
  }

  /** The pattern made of literal arguments has one instance, the filling. */
  lemma {:induction false} FillingIsAssembled(pieces: seq<Piece>, vals: seq<string>, next: nat, s: string)
    requires Filled(pieces, |vals|, next)
    ensures Matches(Assemble(pieces, LiteralArgs(vals), next), s) <==> s == Filling(pieces, vals, next)
  {
    if pieces != [] {
      var t := if pieces[0].Text? then pieces[0].text else vals[Slot(pieces[0], next)];
      var after := if pieces[0].Text? then next else After(pieces[0], next);
      var rest := Assemble(pieces[1..], LiteralArgs(vals), after);
      assert Assemble(pieces, LiteralArgs(vals), next) == [Literal(t)] + rest;
      assert Filling(pieces, vals, next) == t + Filling(pieces[1..], vals, after);
      hide Assemble, Filling, Matches;
      LiteralPrefix(t, rest, s);
      PrefixThen(t, Filling(pieces[1..], vals, after), s);
      if t <= s { FillingIsAssembled(pieces[1..], vals, after, s[|t|..]); }
    }
  }

  lemma {:induction false} UsedOnly(pieces: seq<Piece>, x: seq<string>, y: seq<string>, next: nat)
    requires |x| == |y| && Filled(pieces, |x|, next)
    requires forall i: nat :: i < |x| && Uses(pieces, next, i) ==> x[i] == y[i]
    ensures Filling(pieces, x, next) == Filling(pieces, y, next)
  {
    if pieces != [] {
      var after := if pieces[0].Text? then next else After(pieces[0], next);
      if pieces[0].Verb? { assert Uses(pieces, next, Slot(pieces[0], next)); }
      assert forall i: nat :: Uses(pieces[1..], after, i) ==> Uses(pieces, next, i);
      UsedOnly(pieces[1..], x, y, after);
    }
  }

  /** A longer text in one place makes the filling longer, if the place is used. */
  lemma {:induction false} LongerFilling(pieces: seq<Piece>, vals: seq<string>, i: nat, t: string, next: nat)
    requires i < |vals| && Filled(pieces, |vals|, next) && |t| > |vals[i]|
    ensures |Filling(pieces, vals[i := t], next)| >= |Filling(pieces, vals, next)| + (if Uses(pieces, next, i) then 1 else 0)
  {
    if pieces != [] {
      LongerFilling(pieces[1..], vals, i, t, if pieces[0].Text? then next else After(pieces[0], next));
    }
  }

  lemma DifferentTails(x: string, y: string, a: string, b: string)
    requires |x| == |y| && (x != y || a != b)
    ensures x + a != y + b
  {
    assert (x + a)[..|x|] == x && (x + a)[|x|..] == a;
    assert (y + b)[..|y|] == y && (y + b)[|y|..] == b;
  }

  lemma {:induction false} SameLengthFilling(pieces: seq<Piece>, vals: seq<string>, i: nat, t: string, next: nat)
    requires i < |vals| && Filled(pieces, |vals|, next) && Uses(pieces, next, i)
    requires |t| == |vals[i]| && t != vals[i]
    ensures Filling(pieces, vals[i := t], next) != Filling(pieces, vals, next)
  {
    var other := vals[i := t];
    var after := if pieces[0].Text? then next else After(pieces[0], next);
    var x := if pieces[0].Text? then pieces[0].text else vals[Slot(pieces[0], next)];
    var y := if pieces[0].Text? then pieces[0].text else other[Slot(pieces[0], next)];
    if x == y { SameLengthFilling(pieces[1..], vals, i, t, after); }
    DifferentTails(y, x, Filling(pieces[1..], other, after), Filling(pieces[1..], vals, after));
  }

  /** Another text in a place that is used makes another filling. */
  lemma OtherFilling(pieces: seq<Piece>, vals: seq<string>, i: nat, t: string, next: nat)
    requires i < |vals| && Filled(pieces, |vals|, next) && Uses(pieces, next, i) && t != vals[i]
    ensures Filling(pieces, vals[i := t], next) != Filling(pieces, vals, next)
  {
    if |t| > |vals[i]| {
      LongerFilling(pieces, vals, i, t, next);
    } else if |t| < |vals[i]| {
      assert vals[i := t][i := vals[i]] == vals;
      LongerFilling(pieces, vals[i := t], i, vals[i], next);
    } else {
      SameLengthFilling(pieces, vals, i, t, next);
    }
  }

  /** Every argument has an alternative; all of them are texts. */
  predicate HaveTexts(texts: seq<seq<string>>) {
    forall i :: 0 <= i < |texts| ==> texts[i] != []
  }

  /** The first alternative of each argument, which is the one the resolver uses. */
  function Firsts(texts: seq<seq<string>>): (vals: seq<string>)
    requires HaveTexts(texts)
    ensures |vals| == |texts| && forall i :: 0 <= i < |vals| ==> vals[i] == texts[i][0]
  {
    seq(|texts|, i requires 0 <= i < |texts| => texts[i][0])
  }

  predicate Chosen(vals: seq<string>, texts: seq<seq<string>>) {
    |vals| == |texts| && forall i :: 0 <= i < |vals| ==> vals[i] in texts[i]
  }

  /** Whichever alternatives are meant, the resolver's pattern matches the result. */
  ghost predicate KeepsEveryChoice(pieces: seq<Piece>, texts: seq<seq<string>>)
    requires HaveTexts(texts) && Filled(pieces, |texts|, 0)
  {
    forall vals :: Chosen(vals, texts) ==>
      Matches(Assemble(pieces, LiteralArgs(Firsts(texts)), 0), Filling(pieces, vals, 0))
  }

  /**
   Of arguments with several texts only the first one is used, and that loses nothing if and only
   if every argument that the format uses has one text only.
   */
  lemma KeepsEveryChoiceIff(pieces: seq<Piece>, texts: seq<seq<string>>)
    requires HaveTexts(texts) && Filled(pieces, |texts|, 0)
    ensures KeepsEveryChoice(pieces, texts)
       <==> forall i: nat, t :: i < |texts| && Uses(pieces, 0, i) && t in texts[i] ==> t == texts[i][0]
  {
    hide Assemble, Filling, Matches, Uses, Filled;
    var first := Firsts(texts);
    if forall i: nat, t :: i < |texts| && Uses(pieces, 0, i) && t in texts[i] ==> t == texts[i][0] {
      forall vals | Chosen(vals, texts)
        ensures Matches(Assemble(pieces, LiteralArgs(first), 0), Filling(pieces, vals, 0))
      {
        UsedOnly(pieces, vals, first, 0);
        FillingIsAssembled(pieces, first, 0, Filling(pieces, vals, 0));
      }
    } else {
      var i: nat, t :| i < |texts| && Uses(pieces, 0, i) && t in texts[i] && t != texts[i][0];
      var vals := first[i := t];
      assert Chosen(vals, texts);
      OtherFilling(pieces, first, i, t, 0);
      FillingIsAssembled(pieces, first, 0, Filling(pieces, vals, 0));
    }
  }
}

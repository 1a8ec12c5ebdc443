/** String literals (internal/detect/lineengine/slice.go): where they end and what they are made of. */
module Literals {
  import opened Strs

  /** An interpolation's markers. */
  datatype Interp = Interp(open: string, close: string)

  datatype Syntax = Syntax(open: string, close: string, prefix: string, noEscapes: bool, docString: bool,
                           interps: seq<Interp>, sigils: string)

  /** A comment's markers. */
  datatype Block = Block(open: string, close: string)

  datatype Spec = Spec(strings: seq<Syntax>, lineComments: seq<string>, blockComments: seq<Block>,
                       podBlocks: bool, skipAfter: seq<string>, fatComma: bool)

  predicate ValidSyntax(syn: Syntax) {
    && syn.open != "" && syn.close != ""
    && forall k :: 0 <= k < |syn.interps| ==> syn.interps[k].open != "" && syn.interps[k].close != ""
  }

  /** What every loop below needs in order to end: no empty marker, and no line comment that starts with a newline. */
  predicate ValidSpec(spec: Spec) {
    && (forall k :: 0 <= k < |spec.strings| ==> ValidSyntax(spec.strings[k]))
    && (forall k :: 0 <= k < |spec.lineComments| ==> spec.lineComments[k] != "" && spec.lineComments[k][0] != '\n')
    && (forall k :: 0 <= k < |spec.blockComments| ==> spec.blockComments[k].open != "")
  }

  predicate StartsAt(s: string, i: int, marker: string) {
    0 <= i && i + |marker| <= |s| && s[i..i + |marker|] == marker
  }

  function ByteAt(s: string, i: int): char {
    if 0 <= i < |s| then s[i] else '\0'
  }

  predicate IsWord(c: char) {
    IsLetter(c) || IsDigit(c) || c == '_'
  }

  /** The first `c` from `i` on, or -1. */
  function Find(s: string, i: nat, c: char): (k: int)
    requires i <= |s|
    ensures k == -1 || (i <= k < |s| && s[k] == c)
    decreases |s| - i
  {
    if i == |s| then -1 else if s[i] == c then i else Find(s, i + 1, c)
  }

  // ----- interpolation

  /** The close marker that matches an open marker read already, nesting counted. */
  function InterpClose(s: string, j: nat, depth: nat, in': Interp): (at: Option<nat>)
    requires j <= |s| && in'.open != "" && in'.close != ""
    ensures at.Some? ==> j <= at.value && at.value + |in'.close| <= |s|
    decreases |s| - j
  {
    if j == |s| then None
    else if StartsAt(s, j, in'.open) && in'.open != in'.close then InterpClose(s, j + |in'.open|, depth + 1, in')
    else if StartsAt(s, j, in'.close) then
      if depth == 0 then Some(j) else InterpClose(s, j + |in'.close|, depth - 1, in')
    else InterpClose(s, j + 1, depth, in')
  }

  /** An interpolation: where it ends, and the source of the expression in it. */
  datatype Match = Match(end: nat, src: string)

  /** The interpolation whose inside begins at `j`; without a close marker it runs to the end of the text. */
  function InterpAt(s: string, j: nat, in': Interp): (m: Match)
    requires j <= |s| && in'.open != "" && in'.close != ""
    ensures j <= m.end <= |s|
  {
    match InterpClose(s, j, 0, in')
    case Some(at) => Match(at + |in'.close|, s[j..at])
    case None => Match(|s|, s[j..])
  }

  function WordEnd(s: string, i: nat): (end: nat)
    requires i <= |s|
    ensures i <= end <= |s|
    decreases |s| - i
  {
    if i < |s| && IsWord(s[i]) then WordEnd(s, i + 1) else i
  }

  /** Past one arrow or dot, and the member it selects; `j` itself where there is none. */
  function MemberEnd(s: string, j: nat): (end: nat)
    requires j <= |s|
    ensures j <= end <= |s|
  {
    if j < |s| && ((s[j] == '-' && ByteAt(s, j + 1) == '>') || s[j] == '.') then
      var k := if s[j] == '-' then j + 2 else j + 1;
      if k < |s| && s[k] == '{' && Find(s, k, '}') >= 0 then Find(s, k, '}') + 1
      else if WordEnd(s, k) == k then j else WordEnd(s, k)
    else j
  }

  function MembersEnd(s: string, j: nat): (end: nat)
    requires j <= |s|
    ensures j <= end <= |s|
    decreases |s| - j
  {
    if MemberEnd(s, j) > j then MembersEnd(s, MemberEnd(s, j)) else j
  }

  /** A variable behind a sigil at `i`. */
  function SigilAt(s: string, i: nat): (m: Option<Match>)
    requires i < |s|
    ensures m.Some? ==> i < m.value.end <= |s|
  {
    if i + 1 < |s| && s[i + 1] == '{' && Find(s, i + 1, '}') >= 0 then
      Some(Match(Find(s, i + 1, '}') + 1, s[i + 2..Find(s, i + 1, '}')]))
    else
      var j := MembersEnd(s, WordEnd(s, i + 1));
      if j > i + 1 then Some(Match(j, s[i..j])) else None
  }

  function FirstInterp(s: string, i: nat, interps: seq<Interp>): Option<Interp> {
    if interps == [] then None
    else if StartsAt(s, i, interps[0].open) then Some(interps[0]) else FirstInterp(s, i, interps[1..])
  }

  lemma {:induction false} FirstInterpIs(s: string, i: nat, interps: seq<Interp>)
    ensures var r := FirstInterp(s, i, interps); r.Some? ==> r.value in interps && StartsAt(s, i, r.value.open)
  {
    if interps != [] { FirstInterpIs(s, i, interps[1..]); }
  }

  /** The interpolation at `i`, if there is one. */
  function MatchInterp(s: string, i: nat, syn: Syntax): (m: Option<Match>)
    requires i < |s| && ValidSyntax(syn)
    ensures m.Some? ==> i < m.value.end <= |s|
  {
    FirstInterpIs(s, i, syn.interps);
    var r := FirstInterp(s, i, syn.interps);
    if r.Some? then Some(InterpAt(s, i + |r.value.open|, r.value))
    else if s[i] in syn.sigils then SigilAt(s, i) else None
  }

  /** The nesting loop. */
  method CloseLoop(s: string, start: nat, one: Interp) returns (at: Option<nat>)
    requires start <= |s| && one.open != "" && one.close != ""
    ensures at == InterpClose(s, start, 0, one)
  {
    hide InterpClose, StartsAt;
    var depth: nat, j: nat := 0, start;
    while j < |s|
      invariant start <= j <= |s| && InterpClose(s, j, depth, one) == InterpClose(s, start, 0, one)
      decreases |s| - j
    {
      CloseStep(s, j, depth, one);
      if StartsAt(s, j, one.open) && one.open != one.close {
        depth, j := depth + 1, j + |one.open|;
      } else if StartsAt(s, j, one.close) {
        if depth == 0 {
          return Some(j);
        }
        depth, j := depth - 1, j + |one.close|;
      } else {
        j := j + 1;
      }
    }
    CloseAnyDepth(s, depth, one);
    at := None;
  }

  method InterpLoop(s: string, start: nat, one: Interp) returns (m: Match)
    requires start <= |s| && one.open != "" && one.close != ""
    ensures m == InterpAt(s, start, one)
  {
    hide InterpClose;
    var at := CloseLoop(s, start, one);
    m := if at.Some? then Match(at.value + |one.close|, s[start..at.value]) else Match(|s|, s[start..]);
  }

  lemma CloseAnyDepth(s: string, depth: nat, one: Interp)
    requires one.open != "" && one.close != ""
    ensures InterpClose(s, |s|, depth, one) == None
  {
  }

  lemma CloseStep(s: string, j: nat, depth: nat, one: Interp)
    requires j < |s| && one.open != "" && one.close != ""
    ensures StartsAt(s, j, one.open) ==> j + |one.open| <= |s|
    ensures StartsAt(s, j, one.close) ==> j + |one.close| <= |s|
    ensures InterpClose(s, j, depth, one)
         == if StartsAt(s, j, one.open) && one.open != one.close then InterpClose(s, j + |one.open|, depth + 1, one)
            else if StartsAt(s, j, one.close) then
              if depth == 0 then Some(j) else InterpClose(s, j + |one.close|, depth - 1, one)
            else InterpClose(s, j + 1, depth, one)
  {
  }

  method MatchInterpLoop(s: string, i: nat, syn: Syntax) returns (m: Option<Match>)
    requires i < |s| && ValidSyntax(syn)
    ensures m == MatchInterp(s, i, syn)
  {
    hide SigilAt, InterpAt;
    for n := 0 to |syn.interps|
      invariant FirstInterp(s, i, syn.interps) == FirstInterp(s, i, syn.interps[n..])
    {
      var one := syn.interps[n];
      assert syn.interps[n..][1..] == syn.interps[n + 1..];
      if StartsAt(s, i, one.open) {
        var inside := InterpLoop(s, i + |one.open|, one);
        return Some(inside);
      }
    }
    if s[i] in syn.sigils {
      m := SigilLoop(s, i);
    } else {
      m := None;
    }
  }

  method SigilLoop(s: string, i: nat) returns (m: Option<Match>)
    requires i < |s|
    ensures m == SigilAt(s, i)
  {
    var j := i + 1;
    if j < |s| && s[j] == '{' && Find(s, j, '}') >= 0 {
      return Some(Match(Find(s, j, '}') + 1, s[j + 1..Find(s, j, '}')]));
    }
    while j < |s| && IsWord(s[j])
      invariant i < j <= |s| && WordEnd(s, j) == WordEnd(s, i + 1)
    {
      j := j + 1;
    }
    ghost var word := j;
    while MemberEnd(s, j) > j
      invariant i < j <= |s| && MembersEnd(s, j) == MembersEnd(s, word)
      decreases |s| - j
    {
      j := MemberEnd(s, j);
    }
    m := if j > i + 1 then Some(Match(j, s[i..j])) else None;
  }

  // ----- literals

  /**
   Past the closing delimiter of a literal whose body is read up to `i`; `some` says whether the
   body has any part. An unterminated literal runs to the end of the text.
   */
  function BodyEnd(s: string, i: nat, syn: Syntax, some: bool): (end: Option<nat>)
    requires i <= |s| && ValidSyntax(syn)
    ensures end.Some? ==> i <= end.value <= |s|
    decreases |s| - i
  {
    if i == |s| then if some then Some(|s|) else None
    else if !syn.noEscapes && s[i] == '\\' && i + 1 < |s| then BodyEnd(s, i + 2, syn, true)
    else if StartsAt(s, i, syn.close) then
      if syn.noEscapes && StartsAt(s, i, syn.close + syn.close) then BodyEnd(s, i + 2 * |syn.close|, syn, true)
      else Some(i + |syn.close|)
    else
      var m := MatchInterp(s, i, syn);
      if m.Some? then BodyEnd(s, m.value.end, syn, true) else BodyEnd(s, i + 1, syn, true)
  }

  /** A piece of a literal: text, or the source of an interpolated expression. */
  datatype Part = Chars(text: string) | Inter(src: string)

  function Flush(lit: string): seq<Part> {
    if lit == "" then [] else [Chars(lit)]
  }

  /** What a backslash and this character stand for. */
  function Unescape(c: char): char {
    if c == 'n' then '\n' else if c == 't' then '\t' else if c == 'r' then '\r' else if c == '0' then '\0' else c
  }

  /** The parts of a body from `i` on, when the text `lit` is waiting to be flushed. */
  function BodyParts(s: string, i: nat, syn: Syntax, lit: string): seq<Part>
    requires i <= |s| && ValidSyntax(syn)
    decreases |s| - i
  {
    if i == |s| then Flush(lit)
    else if !syn.noEscapes && s[i] == '\\' && i + 1 < |s| then BodyParts(s, i + 2, syn, lit + [Unescape(s[i + 1])])
    else if StartsAt(s, i, syn.close) then
      if syn.noEscapes && StartsAt(s, i, syn.close + syn.close)
      then BodyParts(s, i + 2 * |syn.close|, syn, lit + syn.close)
      else Flush(lit)
    else
      var m := MatchInterp(s, i, syn);
      if m.Some? then Flush(lit) + [Inter(m.value.src)] + BodyParts(s, m.value.end, syn, "")
      else BodyParts(s, i + 1, syn, lit + [s[i]])
  }

  /** One turn of the body's loop: the literal closes, or the loop goes on with other text waiting. */
  datatype Turn = Closed(end: nat) | Onward(next: nat, lit: string, flushed: seq<Part>)

  function TurnAt(s: string, i: nat, syn: Syntax, lit: string): (t: Turn)
    requires i < |s| && ValidSyntax(syn)
    ensures t.Onward? ==> i < t.next <= |s|
  {
    if !syn.noEscapes && s[i] == '\\' && i + 1 < |s| then Onward(i + 2, lit + [Unescape(s[i + 1])], [])
    else if StartsAt(s, i, syn.close) then
      if syn.noEscapes && StartsAt(s, i, syn.close + syn.close) then Onward(i + 2 * |syn.close|, lit + syn.close, [])
      else Closed(i + |syn.close|)
    else
      var m := MatchInterp(s, i, syn);
      if m.Some? then Onward(m.value.end, "", Flush(lit) + [Inter(m.value.src)])
      else Onward(i + 1, lit + [s[i]], [])
  }

  lemma TurnTaken(s: string, i: nat, syn: Syntax, lit: string, some: bool)
    requires i < |s| && ValidSyntax(syn)
    ensures match TurnAt(s, i, syn, lit)
            case Closed(end) => BodyEnd(s, i, syn, some) == Some(end) && BodyParts(s, i, syn, lit) == Flush(lit)
            case Onward(next, lit', flushed) =>
              && BodyEnd(s, i, syn, some) == BodyEnd(s, next, syn, true)
              && BodyParts(s, i, syn, lit) == flushed + BodyParts(s, next, syn, lit')
  {
    hide MatchInterp, Flush;
  }

  lemma BodyDone(s: string, syn: Syntax, lit: string, some: bool)
    requires ValidSyntax(syn)
    ensures BodyEnd(s, |s|, syn, some) == (if some then Some(|s|) else None) && BodyParts(s, |s|, syn, lit) == Flush(lit)
  {
  }

  method TakeTurn(s: string, i: nat, syn: Syntax, lit: string) returns (t: Turn)
    requires i < |s| && ValidSyntax(syn)
    ensures t == TurnAt(s, i, syn, lit)
  {
    hide MatchInterp, Flush, Unescape;
    if !syn.noEscapes && s[i] == '\\' && i + 1 < |s| {
      return Onward(i + 2, lit + [Unescape(s[i + 1])], []);
    }
    if StartsAt(s, i, syn.close) {
      if syn.noEscapes && StartsAt(s, i, syn.close + syn.close) {
        return Onward(i + 2 * |syn.close|, lit + syn.close, []);
      }
      return Closed(i + |syn.close|);
    }
    var m := MatchInterpLoop(s, i, syn);
    t := if m.Some? then Onward(m.value.end, "", Flush(lit) + [Inter(m.value.src)]) else Onward(i + 1, lit + [s[i]], []);
  }

  lemma PartsAssociate(a: seq<Part>, b: seq<Part>, c: seq<Part>)
    ensures a + (b + c) == a + b + c
  {
  }

  /** scanStringBody: where a literal whose body begins at `start` ends, and its parts. */
  method ScanStringBody(s: string, start: nat, syn: Syntax) returns (end: Option<nat>, parts: seq<Part>)
    requires start <= |s| && ValidSyntax(syn)
    ensures end == BodyEnd(s, start, syn, false) && parts == BodyParts(s, start, syn, "")
  {
    hide *;
    var i: nat, some: bool, lit: string := start, false, "";
    parts := [];
    while i < |s|
      invariant start <= i <= |s| && BodyEnd(s, i, syn, some) == BodyEnd(s, start, syn, false)
      invariant parts + BodyParts(s, i, syn, lit) == BodyParts(s, start, syn, "")
      decreases |s| - i
    {
      TurnTaken(s, i, syn, lit, some);
      var turn := TakeTurn(s, i, syn, lit);
      if turn.Closed? {
        return Some(turn.end), parts + Flush(lit);
      }
      PartsAssociate(parts, turn.flushed, BodyParts(s, turn.next, syn, turn.lit));
      parts := parts + turn.flushed;
      i, some, lit := turn.next, true, turn.lit;
    }
    BodyDone(s, syn, lit, some);
    parts := parts + Flush(lit);
    end := if some then Some(|s|) else None;
  }

  lemma MarkerEnds(s: string, i: int, marker: string)
    ensures StartsAt(s, i, marker) ==> i + |marker| <= |s|
  {
  }

  /** A one-letter prefix of some syntax stands before `i` and is not the end of a longer word. */
  predicate PrefixBefore(s: string, i: nat, syns: seq<Syntax>)
    requires i <= |s|
  {
    && i > 0 && (exists k :: 0 <= k < |syns| && syns[k].prefix == [s[i - 1]])
    && !(i >= 2 && IsWord(s[i - 2]))
  }

  /** A literal: where it ends, whether it may be documentation, and its parts. */
  datatype Literal = Literal(end: nat, doc: bool, parts: seq<Part>)

  /** Where the body of this syntax begins, if it opens at `i`. */
  function BodyStart(s: string, i: nat, syn: Syntax, all: seq<Syntax>): (start: Option<nat>)
    requires i <= |s| && ValidSyntax(syn)
    ensures start.Some? ==> i < start.value <= |s|
  {
    if syn.prefix != "" then
      if StartsAt(s, i, syn.prefix + syn.open) then Some(i + |syn.prefix| + |syn.open|) else None
    else if StartsAt(s, i, syn.open) && !PrefixBefore(s, i, all) then Some(i + |syn.open|)
    else None
  }

  /** One syntax at `i`. */
  function ScanOne(s: string, i: nat, syn: Syntax, all: seq<Syntax>): (lit: Option<Literal>)
    requires i <= |s| && ValidSyntax(syn)
    ensures lit.Some? ==> i < lit.value.end <= |s|
  {
    match BodyStart(s, i, syn, all)
    case None => None
    case Some(start) =>
      var end := BodyEnd(s, start, syn, false);
      if end.None? then None else Some(Literal(end.value, syn.docString, BodyParts(s, start, syn, "")))
  }

  function ScanFirst(s: string, i: nat, syns: seq<Syntax>, all: seq<Syntax>): (lit: Option<Literal>)
    requires i <= |s| && forall k :: 0 <= k < |syns| ==> ValidSyntax(syns[k])
    ensures lit.Some? ==> i < lit.value.end <= |s|
  {
    if syns == [] then None
    else
      var lit := ScanOne(s, i, syns[0], all);
      if lit.Some? then lit else ScanFirst(s, i, syns[1..], all)
  }

  function ScanString(s: string, i: nat, spec: Spec): (lit: Option<Literal>)
    requires i <= |s| && ValidSpec(spec)
    ensures lit.Some? ==> i < lit.value.end <= |s|
  {
    ScanFirst(s, i, spec.strings, spec.strings)
  }

  method ScanOneLoop(s: string, i: nat, syn: Syntax, all: seq<Syntax>) returns (lit: Option<Literal>)
    requires i <= |s| && ValidSyntax(syn)
    ensures lit == ScanOne(s, i, syn, all)
  {
    hide BodyEnd, BodyParts, StartsAt, PrefixBefore;
    var start := i;
    MarkerEnds(s, i, syn.prefix + syn.open);
    MarkerEnds(s, i, syn.open);
    if syn.prefix != "" {
      if !StartsAt(s, i, syn.prefix + syn.open) {
        return None;
      }
      start := i + |syn.prefix|;
    } else if !StartsAt(s, i, syn.open) || PrefixBefore(s, i, all) {
      return None;
    }
    var end, parts := ScanStringBody(s, start + |syn.open|, syn);
    lit := if end.None? then None else Some(Literal(end.value, syn.docString, parts));
  }

  method ScanStringLoop(s: string, i: nat, spec: Spec) returns (lit: Option<Literal>)
    requires i <= |s| && ValidSpec(spec)
    ensures lit == ScanString(s, i, spec)
  {
    hide ScanOne;
    var all := spec.strings;
    for n := 0 to |all|
      invariant ScanFirst(s, i, all, all) == ScanFirst(s, i, all[n..], all)
    {
      assert all[n..][1..] == all[n + 1..];
      lit := ScanOneLoop(s, i, all[n], all);
      if lit.Some? {
        return;
      }
    }
    lit := None;
  }

  /** A literal ends behind its closing delimiter, or with the text. */
  lemma {:induction false} BodyEndsAtClose(s: string, i: nat, syn: Syntax, some: bool)
    requires i <= |s| && ValidSyntax(syn)
    ensures var end := BodyEnd(s, i, syn, some);
            end.Some? ==>
              end.value == |s| || (i + |syn.close| <= end.value && StartsAt(s, end.value - |syn.close|, syn.close))
    decreases |s| - i
  {
    hide MatchInterp, StartsAt;
    MarkerEnds(s, i, syn.close);
    MarkerEnds(s, i, syn.close + syn.close);
    if i < |s| {
      if !syn.noEscapes && s[i] == '\\' && i + 1 < |s| {
        BodyEndsAtClose(s, i + 2, syn, true);
      } else if StartsAt(s, i, syn.close) {
        if syn.noEscapes && StartsAt(s, i, syn.close + syn.close) {
          BodyEndsAtClose(s, i + 2 * |syn.close|, syn, true);
        }
      } else {
        var m := MatchInterp(s, i, syn);
        BodyEndsAtClose(s, if m.Some? then m.value.end else i + 1, syn, true);
      }
    }
  }

  /** Inside an escaping literal no unescaped delimiter is passed over: without interpolation it ends at the first one. */
  lemma {:induction false} BodyEndsAtFirstClose(s: string, i: nat, syn: Syntax, some: bool, p: nat)
    requires i <= p < |s| && ValidSyntax(syn) && !syn.noEscapes && syn.interps == [] && syn.sigils == ""
    requires StartsAt(s, p, syn.close) && forall k :: i <= k < p ==> s[k] != '\\' && !StartsAt(s, k, syn.close)
    requires s[p] != '\\'
    ensures BodyEnd(s, i, syn, some) == Some(p + |syn.close|)
    decreases p - i
  {
    if i < p {
      BodyEndsAtFirstClose(s, i + 1, syn, true, p);
    }
  }

  // ----- quoting

  /** A syntax of one-letter delimiters and no interpolation. */
  predicate Simple(syn: Syntax) {
    && ValidSyntax(syn) && |syn.close| == 1 && syn.interps == [] && syn.sigils == ""
    && (!syn.noEscapes ==> syn.close[0] !in "\\ntr0")
  }

  /** A character as it is written in a literal: a delimiter doubled where there are no escapes, else escaped. */
  function QuotedChar(c: char, syn: Syntax): (q: string)
    requires Simple(syn)
    ensures q != ""
  {
    if syn.noEscapes then if [c] == syn.close then [c, c] else [c]
    else if [c] == syn.close || c == '\\' then ['\\', c] else [c]
  }

  function Quoted(t: string, syn: Syntax): string
    requires Simple(syn)
  {
    if t == "" then "" else QuotedChar(t[0], syn) + Quoted(t[1..], syn)
  }

  /** What stands at `i`, told from the rest of the text. */
  lemma AtRest(s: string, i: nat, a: string, b: string)
    requires i <= |s| && s[i..] == a + b
    ensures i + |a| <= |s| && s[i..i + |a|] == a && s[i + |a|..] == b
    ensures forall k :: 0 <= k < |a| ==> s[i + k] == a[k]
  {
    assert forall k :: 0 <= k < |a| ==> s[i..][k] == a[k];
    assert |s[i..]| == |s| - i;
    forall k | 0 <= k < |b| ensures s[i + |a|..][k] == b[k] {
      assert s[i..][|a| + k] == b[k];
    }
  }

  lemma ClosesHere(s: string, i: nat, close: string, b: string)
    requires i <= |s| && |close| == 1 && s[i..] == close + b
    ensures StartsAt(s, i, close) && i < |s| && s[i] == close[0]
    ensures StartsAt(s, i, close + close) ==> b != "" && b[0] == close[0]
  {
    AtRest(s, i, close, b);
    if StartsAt(s, i, close + close) {
      assert s[i..i + 2][1] == close[0];
      assert s[i..][1] == b[0];
    }
  }

  /** A quoted text is read back as it was, and the literal ends behind its delimiter. */
  lemma {:induction false} QuotedRoundTrip(s: string, i: nat, syn: Syntax, t: string, rest: string, lit: string,
                                           some: bool)
    requires Simple(syn) && i <= |s| && s[i..] == Quoted(t, syn) + (syn.close + rest)
    requires syn.noEscapes ==> rest == "" || [rest[0]] != syn.close
    ensures BodyEnd(s, i, syn, some) == Some(i + |Quoted(t, syn)| + 1)
    ensures BodyParts(s, i, syn, lit) == Flush(lit + t)
    decreases |t|
  {
    hide BodyEnd, BodyParts, Flush, QuotedChar, Simple;
    if t == "" {
      assert lit + t == lit && "" + (syn.close + rest) == syn.close + rest;
      QuotedEnd(s, i, syn, rest, lit, some);
    } else {
      var one, inner := QuotedChar(t[0], syn), Quoted(t[1..], syn);
      assert Quoted(t, syn) == one + inner;
      hide Quoted;
      TextsAssociate(one, inner, syn.close + rest);
      AtRest(s, i, one, inner + (syn.close + rest));
      TextsAssociate(lit, [t[0]], t[1..]);
      assert [t[0]] + t[1..] == t;
      QuotedStep(s, i, syn, t[0], inner + (syn.close + rest), lit, some);
      QuotedRoundTrip(s, i + |one|, syn, t[1..], rest, lit + [t[0]], true);
    }
  }

  lemma TextsAssociate(a: string, b: string, c: string)
    ensures a + (b + c) == a + b + c
  {
  }

  lemma QuotedEscape(s: string, i: nat, syn: Syntax, c: char, tail: string, lit: string, some: bool)
    requires Simple(syn) && !syn.noEscapes && ([c] == syn.close || c == '\\')
    requires i <= |s| && s[i..] == ['\\', c] + tail
    ensures i + 2 <= |s| && BodyEnd(s, i, syn, some) == BodyEnd(s, i + 2, syn, true)
    ensures BodyParts(s, i, syn, lit) == BodyParts(s, i + 2, syn, lit + [c])
  {
    AtRest(s, i, ['\\', c], tail);
    assert s[i] == '\\' && s[i + 1] == c && Unescape(c) == c;
  }

  lemma QuotedDouble(s: string, i: nat, syn: Syntax, c: char, tail: string, lit: string, some: bool)
    requires Simple(syn) && syn.noEscapes && [c] == syn.close && i <= |s| && s[i..] == [c, c] + tail
    ensures i + 2 <= |s| && BodyEnd(s, i, syn, some) == BodyEnd(s, i + 2, syn, true)
    ensures BodyParts(s, i, syn, lit) == BodyParts(s, i + 2, syn, lit + [c])
  {
    AtRest(s, i, [c, c], tail);
    assert syn.close + syn.close == [c, c];
    assert s[i..i + 1] == [c];
  }

  lemma QuotedPlain(s: string, i: nat, syn: Syntax, c: char, tail: string, lit: string, some: bool)
    requires Simple(syn) && [c] != syn.close && (!syn.noEscapes ==> c != '\\') && i <= |s| && s[i..] == [c] + tail
    ensures i + 1 <= |s| && BodyEnd(s, i, syn, some) == BodyEnd(s, i + 1, syn, true)
    ensures BodyParts(s, i, syn, lit) == BodyParts(s, i + 1, syn, lit + [c])
  {
    AtRest(s, i, [c], tail);
    assert s[i] == c && s[i..i + 1] == [c];
  }

  /** One quoted character is read as itself. */
  lemma QuotedStep(s: string, i: nat, syn: Syntax, c: char, tail: string, lit: string, some: bool)
    requires Simple(syn) && i <= |s| && s[i..] == QuotedChar(c, syn) + tail
    ensures i + |QuotedChar(c, syn)| <= |s|
    ensures BodyEnd(s, i, syn, some) == BodyEnd(s, i + |QuotedChar(c, syn)|, syn, true)
    ensures BodyParts(s, i, syn, lit) == BodyParts(s, i + |QuotedChar(c, syn)|, syn, lit + [c])
  {
    hide BodyEnd, BodyParts, Simple;
    if syn.noEscapes && [c] == syn.close {
      QuotedDouble(s, i, syn, c, tail, lit, some);
    } else if !syn.noEscapes && ([c] == syn.close || c == '\\') {
      QuotedEscape(s, i, syn, c, tail, lit, some);
    } else {
      QuotedPlain(s, i, syn, c, tail, lit, some);
    }
  }

  lemma QuotedEnd(s: string, i: nat, syn: Syntax, rest: string, lit: string, some: bool)
    requires Simple(syn) && i <= |s| && s[i..] == syn.close + rest
    requires syn.noEscapes ==> rest == "" || [rest[0]] != syn.close
    ensures BodyEnd(s, i, syn, some) == Some(i + 1) && BodyParts(s, i, syn, lit) == Flush(lit)
  {
    ClosesHere(s, i, syn.close, rest);
    TurnTaken(s, i, syn, lit, some);
    hide BodyEnd, BodyParts, StartsAt, Flush;
  }
}

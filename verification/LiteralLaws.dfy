/**
 What a string literal is read as (internal/detect/lineengine/slice.go): its escapes, its
 interpolated expressions and variables, and where a bare literal may begin.
 */
module LiteralLaws {
  import opened Strs
  import opened Literals

  // ----- escapes

  /** A backslash and a character write this one. */
  predicate Writes(c: char, r: char) {
    match c
    case 'n' => r == '\n'
    case 't' => r == '\t'
    case 'r' => r == '\r'
    case '0' => r == '\0'
    case _ => r == c
  }

  /** In an escaping literal a backslash and the next character are read as the one they write. */
  lemma {:induction false} EscapeReads(s: string, i: nat, syn: Syntax, lit: string, some: bool) returns (r: char)
    requires ValidSyntax(syn) && !syn.noEscapes && i + 1 < |s| && s[i] == '\\'
    ensures Writes(s[i + 1], r)
    ensures BodyParts(s, i, syn, lit) == BodyParts(s, i + 2, syn, lit + [r])
    ensures BodyEnd(s, i, syn, some) == BodyEnd(s, i + 2, syn, true)
  {
    r := Unescape(s[i + 1]);
  }

  /** Text that is neither escape, delimiter nor interpolation is read as it stands. */
  predicate PlainAt(s: string, i: nat, syn: Syntax)
    requires i < |s|
  {
    && (syn.noEscapes || s[i] != '\\') && !StartsAt(s, i, syn.close) && s[i] !in syn.sigils
    && forall k :: 0 <= k < |syn.interps| ==> !StartsAt(s, i, syn.interps[k].open)
  }

  lemma {:induction false} NoInterp(s: string, i: nat, interps: seq<Interp>)
    ensures FirstInterp(s, i, interps).None? <==> forall k :: 0 <= k < |interps| ==> !StartsAt(s, i, interps[k].open)
  {
    if interps != [] {
      NoInterp(s, i, interps[1..]);
      if !StartsAt(s, i, interps[0].open) {
        assert forall k :: 1 <= k < |interps| ==> interps[k] == interps[1..][k - 1];
      }
    }
  }

  /** The first interpolation of the list that opens at `i` is the one that counts. */
  lemma {:induction false} FirstInterpIff(s: string, i: nat, interps: seq<Interp>, x: Interp)
    ensures FirstInterp(s, i, interps) == Some(x)
       <==> exists k :: 0 <= k < |interps| && interps[k] == x && StartsAt(s, i, x.open)
                        && forall j :: 0 <= j < k ==> !StartsAt(s, i, interps[j].open)
  {
    if interps != [] {
      var rest := interps[1..];
      FirstInterpIff(s, i, rest, x);
      hide StartsAt;
      if k :| 0 <= k < |rest| && rest[k] == x && StartsAt(s, i, x.open)
              && forall j :: 0 <= j < k ==> !StartsAt(s, i, rest[j].open) {
        if !StartsAt(s, i, interps[0].open) {
          assert interps[k + 1] == x;
          forall j | 0 <= j < k + 1 ensures !StartsAt(s, i, interps[j].open) { assert j > 0 ==> interps[j] == rest[j - 1]; }
        }
      }
      if k :| 0 < k < |interps| && interps[k] == x && StartsAt(s, i, x.open)
              && forall j :: 0 <= j < k ==> !StartsAt(s, i, interps[j].open) {
        assert rest[k - 1] == x && !StartsAt(s, i, interps[0].open);
        forall j | 0 <= j < k - 1 ensures !StartsAt(s, i, rest[j].open) { assert rest[j] == interps[j + 1]; }
      }
    }
  }

  lemma {:induction false} PlainStep(s: string, i: nat, syn: Syntax, lit: string, some: bool)
    requires ValidSyntax(syn) && i < |s| && PlainAt(s, i, syn)
    ensures BodyParts(s, i, syn, lit) == BodyParts(s, i + 1, syn, lit + [s[i]])
    ensures BodyEnd(s, i, syn, some) == BodyEnd(s, i + 1, syn, true)
  {
    NoInterp(s, i, syn.interps);
  }

  lemma {:induction false} PlainReads(s: string, i: nat, j: nat, syn: Syntax, lit: string, some: bool)
    requires ValidSyntax(syn) && i <= j <= |s| && forall k :: i <= k < j ==> PlainAt(s, k, syn)
    ensures BodyParts(s, i, syn, lit) == BodyParts(s, j, syn, lit + s[i..j])
    ensures BodyEnd(s, i, syn, some) == BodyEnd(s, j, syn, some || i < j)
    decreases j - i
  {
    if i == j {
      assert s[i..j] == "" && lit + "" == lit;
    } else {
      PlainStep(s, i, syn, lit, some);
      PlainReads(s, i + 1, j, syn, lit + [s[i]], true);
      assert s[i..j] == [s[i]] + s[i + 1..j];
      assert lit + [s[i]] + s[i + 1..j] == lit + s[i..j];
    }
  }

  // ----- interpolation

  /** An expression text with further interpolations in it, properly nested. */
  datatype Nested = Plain(text: string) | Nest(text: string, inside: Nested, rest: Nested)

  function Spell(n: Nested, in': Interp): string {
    match n
    case Plain(t) => t
    case Nest(t, inside, rest) => t + in'.open + Spell(inside, in') + in'.close + Spell(rest, in')
  }

  /** No text in it holds a character of a marker. */
  predicate Clear(t: string, in': Interp) {
    forall k :: 0 <= k < |t| ==> t[k] !in in'.open && t[k] !in in'.close
  }

  predicate ClearAll(n: Nested, in': Interp) {
    match n
    case Plain(t) => Clear(t, in')
    case Nest(t, inside, rest) => Clear(t, in') && ClearAll(inside, in') && ClearAll(rest, in')
  }

  /** Two different markers, neither of which starts with the other. */
  predicate Markers(in': Interp) {
    in'.open != "" && in'.close != "" && !(in'.open <= in'.close) && !(in'.close <= in'.open)
  }

  lemma {:induction false} StartsWith(s: string, j: nat, a: string, b: string)
    requires j <= |s| && s[j..] == a + b
    ensures StartsAt(s, j, a) && j + |a| <= |s| && s[j + |a|..] == b && s[j..j + |a|] == a
  {
    AtRest(s, j, a, b);
  }

  lemma {:induction false} ShorterFirst(s: string, j: nat, a: string, b: string)
    requires StartsAt(s, j, a) && StartsAt(s, j, b) && |a| <= |b|
    ensures a <= b
  {
    assert a == s[j..j + |b|][..|a|];
  }

  lemma {:induction false} OnlyOne(s: string, j: nat, in': Interp)
    requires Markers(in')
    ensures !(StartsAt(s, j, in'.open) && StartsAt(s, j, in'.close))
  {
    var a, b := in'.open, in'.close;
    if StartsAt(s, j, a) && StartsAt(s, j, b) {
      if |a| <= |b| { ShorterFirst(s, j, a, b); } else { ShorterFirst(s, j, b, a); }
      assert false;
    }
  }

  lemma {:induction false} NotMarker(s: string, j: nat, marker: string)
    requires j < |s| && marker != "" && s[j] !in marker
    ensures !StartsAt(s, j, marker)
  {
  }

  lemma {:induction false} AtHead(s: string, j: nat, t: string, rest: string)
    requires j <= |s| && t != "" && s[j..] == t + rest
    ensures j < |s| && s[j] == t[0] && s[j + 1..] == t[1..] + rest
  {
    assert s[j] == s[j..][0];
    assert s[j + 1..] == s[j..][1..];
  }

  lemma {:induction false} ClearStep(s: string, j: nat, depth: nat, in': Interp)
    requires Markers(in') && j < |s| && s[j] !in in'.open && s[j] !in in'.close
    ensures InterpClose(s, j, depth, in') == InterpClose(s, j + 1, depth, in')
  {
    NotMarker(s, j, in'.open);
    NotMarker(s, j, in'.close);
    hide StartsAt, InterpClose;
    CloseStep(s, j, depth, in');
  }

  lemma {:induction false} ClearRun(s: string, j: nat, t: string, rest: string, depth: nat, in': Interp)
    requires Markers(in') && Clear(t, in') && j <= |s| && s[j..] == t + rest
    ensures j + |t| <= |s| && InterpClose(s, j, depth, in') == InterpClose(s, j + |t|, depth, in')
    decreases |t|
  {
    hide InterpClose, Markers;
    if t != "" {
      AtHead(s, j, t, rest);
      ClearStep(s, j, depth, in');
      ClearRun(s, j + 1, t[1..], rest, depth, in');
    }
  }

  lemma {:induction false} OpenRun(s: string, j: nat, rest: string, depth: nat, in': Interp)
    requires Markers(in') && j <= |s| && s[j..] == in'.open + rest
    ensures j + |in'.open| <= |s| && s[j + |in'.open|..] == rest
    ensures InterpClose(s, j, depth, in') == InterpClose(s, j + |in'.open|, depth + 1, in')
  {
    StartsWith(s, j, in'.open, rest);
    hide StartsAt, InterpClose;
    CloseStep(s, j, depth, in');
  }

  lemma {:induction false} CloseRun(s: string, j: nat, rest: string, depth: nat, in': Interp)
    requires Markers(in') && j <= |s| && s[j..] == in'.close + rest
    ensures j + |in'.close| <= |s| && s[j + |in'.close|..] == rest
    ensures InterpClose(s, j, depth, in')
         == if depth == 0 then Some(j) else InterpClose(s, j + |in'.close|, depth - 1, in')
  {
    StartsWith(s, j, in'.close, rest);
    OnlyOne(s, j, in');
    hide StartsAt, InterpClose;
    CloseStep(s, j, depth, in');
  }

  lemma {:induction false} SpellNest(n: Nested, in': Interp, rest: string)
    requires n.Nest?
    ensures Spell(n, in') + rest
         == n.text + (in'.open + (Spell(n.inside, in') + (in'.close + (Spell(n.rest, in') + rest))))
    ensures |Spell(n, in')| == |n.text| + |in'.open| + |Spell(n.inside, in')| + |in'.close| + |Spell(n.rest, in')|
  {
    TextsAssociate(n.text + in'.open + Spell(n.inside, in') + in'.close, Spell(n.rest, in'), rest);
    TextsAssociate(n.text + in'.open + Spell(n.inside, in'), in'.close, Spell(n.rest, in') + rest);
    TextsAssociate(n.text + in'.open, Spell(n.inside, in'), in'.close + (Spell(n.rest, in') + rest));
    TextsAssociate(n.text, in'.open, Spell(n.inside, in') + (in'.close + (Spell(n.rest, in') + rest)));
  }

  /** A nested expression is passed over as a whole. */
  lemma {:induction false} NestedRun(s: string, j: nat, n: Nested, rest: string, depth: nat, in': Interp)
    requires Markers(in') && ClearAll(n, in') && j <= |s| && s[j..] == Spell(n, in') + rest
    ensures j + |Spell(n, in')| <= |s| && s[j + |Spell(n, in')|..] == rest
    ensures InterpClose(s, j, depth, in') == InterpClose(s, j + |Spell(n, in')|, depth, in')
    decreases n
  {
    hide InterpClose;
    if n.Plain? {
      ClearRun(s, j, n.text, rest, depth, in');
      AtRest(s, j, n.text, rest);
    } else {
      SpellNest(n, in', rest);
      var after := Spell(n.rest, in') + rest;
      var inside := Spell(n.inside, in') + (in'.close + after);
      ClearRun(s, j, n.text, in'.open + inside, depth, in');
      AtRest(s, j, n.text, in'.open + inside);
      var j1 := j + |n.text|;
      OpenRun(s, j1, inside, depth, in');
      var j2 := j1 + |in'.open|;
      NestedRun(s, j2, n.inside, in'.close + after, depth + 1, in');
      var j3 := j2 + |Spell(n.inside, in')|;
      CloseRun(s, j3, after, depth + 1, in');
      NestedRun(s, j3 + |in'.close|, n.rest, rest, depth, in');
    }
  }

  /** An interpolation ends at its own closing marker, however deep others are nested in it. */
  lemma {:induction false} InterpolationReads(s: string, i: nat, syn: Syntax, in': Interp, n: Nested, rest: string)
    requires ValidSyntax(syn) && Markers(in') && ClearAll(n, in') && i < |s|
    requires FirstInterp(s, i, syn.interps) == Some(in')
    requires s[i..] == in'.open + (Spell(n, in') + (in'.close + rest))
    ensures MatchInterp(s, i, syn)
         == Some(Match(i + |in'.open| + |Spell(n, in')| + |in'.close|, Spell(n, in')))
  {
    hide InterpClose, Spell, ClearAll, Markers;
    var inside := Spell(n, in') + (in'.close + rest);
    StartsWith(s, i, in'.open, inside);
    var j := i + |in'.open|;
    NestedRun(s, j, n, in'.close + rest, 0, in');
    AtRest(s, j, Spell(n, in'), in'.close + rest);
    CloseRun(s, j + |Spell(n, in')|, rest, 0, in');
  }

  /** What the interpolated literal is made of: text up to it, the expression, and the rest of the body. */
  lemma {:induction false} InterpolationSplits(s: string, i: nat, j: nat, syn: Syntax, m: Match, lit: string, some: bool)
    requires ValidSyntax(syn) && i <= j < |s| && (forall k :: i <= k < j ==> PlainAt(s, k, syn))
    requires (syn.noEscapes || s[j] != '\\') && !StartsAt(s, j, syn.close) && MatchInterp(s, j, syn) == Some(m)
    ensures BodyParts(s, i, syn, "")
         == (if i == j then [] else [Chars(s[i..j])]) + [Inter(m.src)] + BodyParts(s, m.end, syn, "")
    ensures BodyEnd(s, i, syn, some) == BodyEnd(s, m.end, syn, true)
  {
    PlainReads(s, i, j, syn, "", some);
    assert "" + s[i..j] == s[i..j];
    hide MatchInterp, PlainAt, StartsAt;
  }

  // ----- variables behind a sigil

  predicate Word(c: char) {
    'a' <= c <= 'z' || 'A' <= c <= 'Z' || '0' <= c <= '9' || c == '_'
  }

  predicate AllWord(x: string) {
    forall k :: 0 <= k < |x| ==> Word(x[k])
  }

  lemma {:induction false} WordRun(s: string, i: nat, x: string, rest: string)
    requires i <= |s| && s[i..] == x + rest && AllWord(x) && (rest == "" || !Word(rest[0]))
    ensures WordEnd(s, i) == i + |x|
    decreases |x|
  {
    if x == "" {
      assert s[i..] == rest;
      assert i < |s| ==> s[i] == rest[0];
    } else {
      assert s[i] == x[0] && s[i + 1..] == x[1..] + rest;
      WordRun(s, i + 1, x[1..], rest);
    }
  }

  /** What a variable may be followed by: a member, selected by a dot or an arrow, or one in braces. */
  datatype Member = Member(arrow: bool, braced: bool, name: string)

  predicate Proper(m: Member) {
    if m.braced then '}' !in m.name else m.name != "" && AllWord(m.name)
  }

  function Link(m: Member): string {
    if m.arrow then "->" else "."
  }

  function MemberText(m: Member): string {
    Link(m) + (if m.braced then "{" + m.name + "}" else m.name)
  }

  function MembersText(ms: seq<Member>): string {
    if ms == [] then "" else MemberText(ms[0]) + MembersText(ms[1..])
  }

  /** Nothing here goes on with the variable. */
  predicate Over(rest: string) {
    rest == "" || (!Word(rest[0]) && rest[0] != '.' && !(rest[0] == '-' && |rest| > 1 && rest[1] == '>'))
  }

  lemma {:induction false} FirstClose(s: string, i: nat, x: string, rest: string)
    requires i <= |s| && s[i..] == x + "}" + rest && '}' !in x
    ensures Find(s, i, '}') == i + |x|
    decreases |x|
  {
    if x == "" {
      assert s[i..][0] == '}';
    } else {
      assert s[i] == x[0] && s[i + 1..] == x[1..] + "}" + rest;
      FirstClose(s, i + 1, x[1..], rest);
    }
  }

  lemma {:induction false} LinkAt(s: string, j: nat, m: Member, rest: string)
    requires j <= |s| && s[j..] == Link(m) + rest
    ensures var k := j + |Link(m)|; k <= |s| && s[k..] == rest && j < |s|
    ensures s[j] == if m.arrow then '-' else '.'
    ensures m.arrow ==> s[j] == '-' && ByteAt(s, j + 1) == '>'
  {
    AtRest(s, j, Link(m), rest);
    if m.arrow { assert s[j + 1] == Link(m)[1]; }
    assert s[j] == Link(m)[0];
  }

  lemma {:induction false} BracedRun(s: string, j: nat, m: Member, rest: string)
    requires j <= |s| && Proper(m) && m.braced && s[j..] == Link(m) + ("{" + (m.name + "}" + rest))
    ensures MemberEnd(s, j) == j + |Link(m)| + |m.name| + 2
  {
    var k, tail := j + |Link(m)|, m.name + "}" + rest;
    LinkAt(s, j, m, "{" + tail);
    AtHead(s, k, "{", tail);
    assert s[k + 1..] == tail;
    FirstClose(s, k + 1, m.name, rest);
    assert Find(s, k, '}') == Find(s, k + 1, '}');
    hide Find, WordEnd;
  }

  lemma {:induction false} NamedRun(s: string, j: nat, m: Member, rest: string)
    requires j <= |s| && Proper(m) && !m.braced && s[j..] == Link(m) + (m.name + rest)
    requires rest == "" || !Word(rest[0])
    ensures MemberEnd(s, j) == j + |Link(m)| + |m.name|
  {
    var k := j + |Link(m)|;
    LinkAt(s, j, m, m.name + rest);
    AtHead(s, k, m.name, rest);
    assert Word(m.name[0]) && s[k] != '{';
    WordRun(s, k, m.name, rest);
    hide Find, WordEnd;
  }

  lemma {:induction false} MemberRun(s: string, j: nat, m: Member, rest: string)
    requires j <= |s| && Proper(m) && s[j..] == MemberText(m) + rest
    requires !m.braced ==> rest == "" || !Word(rest[0])
    ensures MemberEnd(s, j) == j + |MemberText(m)| && j + |MemberText(m)| <= |s| && s[j + |MemberText(m)|..] == rest
  {
    AtRest(s, j, MemberText(m), rest);
    hide MemberEnd, Proper;
    if m.braced {
      assert MemberText(m) + rest == Link(m) + ("{" + (m.name + "}" + rest));
      BracedRun(s, j, m, rest);
    } else {
      assert MemberText(m) + rest == Link(m) + (m.name + rest);
      NamedRun(s, j, m, rest);
    }
  }

  lemma {:induction false} NoMember(s: string, j: nat)
    requires j <= |s| && Over(s[j..])
    ensures MembersEnd(s, j) == j
  {
    if j < |s| {
      assert s[j..][0] == s[j];
      if j + 1 < |s| { assert s[j..][1] == s[j + 1]; }
    }
  }

  lemma {:induction false} TextHead(ms: seq<Member>, rest: string)
    requires Over(rest) && ms != []
    ensures var t := MembersText(ms) + rest; t != "" && !Word(t[0]) && t[0] != '{'
  {
    assert (MembersText(ms) + rest)[0] == Link(ms[0])[0];
  }

  lemma {:induction false} MembersStep(s: string, j: nat)
    requires j <= |s| && MemberEnd(s, j) > j
    ensures MembersEnd(s, j) == MembersEnd(s, MemberEnd(s, j))
  {
    hide MemberEnd;
  }

  lemma {:induction false} MembersCons(ms: seq<Member>, rest: string)
    requires ms != [] && Over(rest)
    ensures var tail := MembersText(ms[1..]) + rest;
            MembersText(ms) + rest == MemberText(ms[0]) + tail && (tail == "" || !Word(tail[0]))
    ensures |MembersText(ms)| == |MemberText(ms[0])| + |MembersText(ms[1..])|
  {
    hide MemberText;
    if ms[1..] == [] { assert MembersText(ms[1..]) + rest == rest; } else { TextHead(ms[1..], rest); }
  }

  predicate AllProper(ms: seq<Member>) {
    forall k :: 0 <= k < |ms| ==> Proper(ms[k])
  }

  lemma {:induction false} ProperTail(ms: seq<Member>)
    requires AllProper(ms) && ms != []
    ensures Proper(ms[0]) && AllProper(ms[1..])
  {
    hide Proper;
  }

  /** From `j` on, this is the text. */
  predicate Reads(s: string, j: nat, t: string) {
    j <= |s| && s[j..] == t
  }

  lemma {:induction false} NoMembers(s: string, j: nat, rest: string)
    requires Reads(s, j, MembersText([]) + rest) && Over(rest)
    ensures MembersEnd(s, j) == j && MembersText([]) == ""
  {
    assert MembersText([]) == "" && "" + rest == rest;
    hide MembersText;
    NoMember(s, j);
  }

  lemma {:induction false} MemberReads(s: string, j: nat, m: Member, rest: string)
    requires Reads(s, j, MemberText(m) + rest) && Proper(m) && (rest == "" || !Word(rest[0]))
    ensures MemberEnd(s, j) == j + |MemberText(m)| > j && Reads(s, j + |MemberText(m)|, rest)
  {
    hide MemberText, MemberEnd, Proper, Word;
    TextLonger(m);
    MemberRun(s, j, m, rest);
  }

  lemma {:induction false} FirstMember(s: string, j: nat, ms: seq<Member>, rest: string)
    requires Reads(s, j, MembersText(ms) + rest) && Over(rest) && AllProper(ms) && ms != []
    ensures var k := j + |MemberText(ms[0])|;
            j < k && Reads(s, k, MembersText(ms[1..]) + rest) && MembersEnd(s, j) == MembersEnd(s, k)
            && j + |MembersText(ms)| == k + |MembersText(ms[1..])|
  {
    hide MemberText, MembersText, MemberEnd, MembersEnd, Over, Proper, AllProper, Reads, Word;
    ProperTail(ms);
    MembersCons(ms, rest);
    MemberReads(s, j, ms[0], MembersText(ms[1..]) + rest);
    assert j <= |s| by { InRange(s, j, MembersText(ms) + rest); }
    MembersStep(s, j);
  }

  lemma {:induction false} InRange(s: string, j: nat, t: string)
    requires Reads(s, j, t)
    ensures j <= |s|
  {
  }

  lemma {:induction false} MembersRun(s: string, j: nat, ms: seq<Member>, rest: string)
    requires Reads(s, j, MembersText(ms) + rest) && Over(rest) && AllProper(ms)
    ensures MembersEnd(s, j) == j + |MembersText(ms)|
    decreases |ms|
  {
    hide MemberText, MembersText, MembersEnd, Over, AllProper, Reads;
    InRange(s, j, MembersText(ms) + rest);
    if ms == [] {
      NoMembers(s, j, rest);
    } else {
      ProperTail(ms);
      FirstMember(s, j, ms, rest);
      MembersRun(s, j + |MemberText(ms[0])|, ms[1..], rest);
    }
  }

  lemma {:induction false} TextLonger(m: Member)
    ensures |MemberText(m)| > 0
  {
  }

  lemma {:induction false} SigilFrom(s: string, i: nat, end: nat)
    requires i + 1 < |s| && s[i + 1] != '{' && MembersEnd(s, WordEnd(s, i + 1)) == end && i + 1 < end
    ensures end <= |s| && SigilAt(s, i) == Some(Match(end, s[i..end]))
  {
    hide MembersEnd, WordEnd, Find;
  }

  lemma {:induction false} VariableText(s: string, i: nat, x: string, t: string, rest: string)
    requires i < |s| && s[i + 1..] == x + (t + rest)
    ensures i + 1 + |x| + |t| <= |s| && s[i + 1 + |x|..] == t + rest
    ensures s[i..i + 1 + |x| + |t|] == [s[i]] + x + t
  {
    AtRest(s, i + 1, x, t + rest);
    AtRest(s, i + 1 + |x|, t, rest);
    var end := i + 1 + |x| + |t|;
    assert s[i..end] == [s[i]] + s[i + 1..i + 1 + |x|] + s[i + 1 + |x|..end];
  }

  /** How what follows a sigil begins, and that its first word ends where members begin. */
  lemma {:induction false} VariableHead(x: string, ms: seq<Member>, rest: string)
    requires AllWord(x) && (x != "" || ms != []) && Over(rest)
    ensures var t := MembersText(ms);
            && (x + (t + rest)) != "" && (x + (t + rest))[0] != '{' && |x| + |t| > 0
            && (t + rest == "" || !Word((t + rest)[0]))
  {
    if ms == [] {
      assert MembersText(ms) + rest == rest;
    } else {
      TextHead(ms, rest);
      TextLonger(ms[0]);
    }
    if x != "" { assert Word(x[0]); }
  }

  /** A variable behind a sigil is read with all the members it selects, and no further. */
  lemma {:induction false} VariableReads(s: string, i: nat, x: string, ms: seq<Member>, rest: string)
    requires i < |s| && s[i + 1..] == x + (MembersText(ms) + rest) && AllWord(x) && (x != "" || ms != []) && Over(rest)
    requires AllProper(ms)
    ensures var end := i + 1 + |x| + |MembersText(ms)|;
            end <= |s| && SigilAt(s, i) == Some(Match(end, s[i..end])) && s[i..end] == [s[i]] + x + MembersText(ms)
  {
    hide MembersText, MembersEnd, WordEnd, Find, SigilAt, Over, AllWord, Word, AllProper;
    var t := MembersText(ms);
    VariableHead(x, ms, rest);
    AtHead(s, i + 1, x + (t + rest), "");
    WordRun(s, i + 1, x, t + rest);
    VariableText(s, i, x, t, rest);
    MembersRun(s, i + 1 + |x|, ms, rest);
    SigilFrom(s, i, i + 1 + |x| + |t|);
  }

  /** A braced variable is read as what stands in the braces. */
  lemma {:induction false} BracedVariableReads(s: string, i: nat, x: string, rest: string)
    requires i < |s| && s[i + 1..] == "{" + x + "}" + rest && '}' !in x
    ensures SigilAt(s, i) == Some(Match(i + |x| + 3, x))
  {
    assert s[i + 1..] == "{" + (x + "}" + rest);
    AtRest(s, i + 1, "{", x + "}" + rest);
    FirstClose(s, i + 2, x, rest);
    assert Find(s, i + 1, '}') == Find(s, i + 2, '}');
    assert s[i + 2..] == x + ("}" + rest);
    AtRest(s, i + 2, x, "}" + rest);
  }

  // ----- where literals begin and end

  /** The letter before the quote is a prefix of some syntax, and not the end of a word. */
  predicate Prefixed(s: string, i: nat, syns: seq<Syntax>)
    requires i <= |s|
  {
    && i >= 1 && (i == 1 || !Word(s[i - 2]))
    && exists k :: 0 <= k < |syns| && syns[k].prefix == [s[i - 1]]
  }

  /** A literal opens with its prefix and delimiter; a bare one not behind another's prefix, which claims it. */
  lemma {:induction false} OpensIff(s: string, i: nat, syn: Syntax, all: seq<Syntax>)
    requires i <= |s| && ValidSyntax(syn)
    ensures BodyStart(s, i, syn, all).Some?
       <==> StartsAt(s, i, syn.prefix + syn.open) && (syn.prefix == "" ==> !Prefixed(s, i, all))
    ensures BodyStart(s, i, syn, all).Some? ==> BodyStart(s, i, syn, all).value == i + |syn.prefix| + |syn.open|
  {
    assert syn.prefix == "" ==> syn.prefix + syn.open == syn.open;
    hide StartsAt;
  }

  /** Only a literal that opens at the very end of the text is none: an unclosed one runs to the end. */
  lemma {:induction false} UnclosedIsRead(s: string, i: nat, syn: Syntax)
    requires i <= |s| && ValidSyntax(syn)
    ensures BodyEnd(s, i, syn, false).None? <==> i == |s|
  {
    if i < |s| { SomeEnds(s, i, syn, false); }
  }

  lemma {:induction false} SomeEnds(s: string, i: nat, syn: Syntax, some: bool)
    requires i <= |s| && ValidSyntax(syn) && (some || i < |s|)
    ensures BodyEnd(s, i, syn, some).Some?
    decreases |s| - i
  {
    if i < |s| {
      TurnTaken(s, i, syn, "", some);
      hide BodyEnd, BodyParts;
      var t := TurnAt(s, i, syn, "");
      if t.Onward? { SomeEnds(s, t.next, syn, true); }
    }
  }
}

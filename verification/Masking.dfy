/** Holes on their way through a URL parser (internal/normalize/url.go): mask and unmaskToSegments. */
module Masking {
  import opened Strs
  import opened Segments

  const SENTINEL := "aitxhole"
  /** The length of SENTINEL. */
  const WIDTH: nat := 8

  /** What a hole becomes while the URL is parsed. */
  function Mark(k: nat): (mark: string)
    ensures |mark| == WIDTH + |Itoa(k)| && mark[WIDTH..] == Itoa(k)
  {
    SENTINEL + Itoa(k)
  }

  predicate AllHoles(holes: Segs) {
    forall i :: 0 <= i < |holes| ==> holes[i].Hole?
  }

  function HoleOf(s: Segment): (holes: Segs)
    ensures AllHoles(holes) && |holes| <= 1
  {
    if s.Hole? then [s] else []
  }

  function Holes(segs: Segs): (holes: Segs)
    ensures AllHoles(holes)
  {
    if segs == [] then [] else HoleOf(segs[0]) + Holes(segs[1..])
  }

  /** What one segment writes when the next hole gets number `k`. */
  function Written(s: Segment, k: nat): string {
    if s.Literal? then s.text else Mark(k)
  }

  /** The masked text of a list whose first hole gets number `k`. */
  function MaskFrom(segs: Segs, k: nat): string {
    if segs == [] then ""
    else Written(segs[0], k) + MaskFrom(segs[1..], k + |HoleOf(segs[0])|)
  }

  lemma {:induction false} MaskCons(s: Segment, rest: Segs, k: nat)
    ensures MaskFrom([s] + rest, k) == Written(s, k) + MaskFrom(rest, k + |HoleOf(s)|)
    ensures Holes([s] + rest) == HoleOf(s) + Holes(rest)
  {
    hide Written, HoleOf;
    assert ([s] + rest)[1..] == rest;
  }

  lemma {:induction false} MaskSnoc(segs: Segs, s: Segment, k: nat)
    ensures MaskFrom(segs + [s], k) == MaskFrom(segs, k) + Written(s, k + |Holes(segs)|)
    ensures Holes(segs + [s]) == Holes(segs) + HoleOf(s)
  {
    if segs == [] {
      hide Written, HoleOf;
      MaskCons(s, [], k);
      assert segs + [s] == [s] + [] == [s];
    } else {
      hide Written, HoleOf, MaskFrom, Holes;
      var head, rest := segs[0], segs[1..];
      var next := k + |HoleOf(head)|;
      MaskSnoc(rest, s, next);
      assert segs == [head] + rest;
      Associative([head], rest, [s]);
      MaskCons(head, rest, k);
      MaskCons(head, rest + [s], k);
      Associative(Written(head, k), MaskFrom(rest, next), Written(s, next + |Holes(rest)|));
      Associative(HoleOf(head), Holes(rest), HoleOf(s));
    }
  }

  lemma {:induction false} WrittenOf(s: Segment, k: nat)
    ensures Written(s, k) == if s.Literal? then s.text else Mark(k)
    ensures HoleOf(s) == if s.Literal? then [] else [s]
  {
  }

  lemma {:induction false} MaskNone(segs: Segs)
    ensures segs[..0] == [] && MaskFrom(segs[..0], 0) == "" && Holes(segs[..0]) == []
  {
  }

  method Mask(segs: Segs) returns (masked: string, holes: Segs)
    ensures masked == MaskFrom(segs, 0) && holes == Holes(segs)
  {
    hide *;
    MaskNone(segs);
    masked, holes := "", [];
    for i := 0 to |segs|
      invariant masked == MaskFrom(segs[..i], 0)
      invariant holes == Holes(segs[..i])
    {
      var s := segs[i];
      assert segs[..i + 1] == segs[..i] + [s];
      MaskSnoc(segs[..i], s, 0);
      WrittenOf(s, |holes|);
      assert s.Literal? ==> holes + [] == holes;
      if s.Literal? {
        masked := masked + s.text;
        continue;
      }
      masked := masked + Mark(|holes|);
      holes := holes + [s];
    }
    assert segs[..|segs|] == segs;
  }

  /** A sentinel with at least one digit stands here. */
  predicate SentinelAt(s: string) {
    |s| > WIDTH && s[..WIDTH] == SENTINEL && IsDigit(s[WIDTH])
  }

  /** The leftmost sentinel, or -1. */
  function FirstSentinel(s: string): (i: int)
    ensures -1 <= i < |s|
    ensures i >= 0 ==> i + WIDTH < |s|
  {
    if s == "" then -1
    else if SentinelAt(s) then 0
    else
      var i := FirstSentinel(s[1..]);
      if i < 0 then -1 else i + 1
  }

  /** What stands in a text for a hole: the word "aitxhole" and a digit. */
  predicate HoldsSentinel(s: string, i: nat) {
    i + 8 < |s| && s[i..i + 8] == "aitxhole" && '0' <= s[i + 8] <= '9'
  }

  lemma {:induction false} FirstSentinelIs(s: string)
    ensures var i := FirstSentinel(s);
            && (i >= 0 ==> HoldsSentinel(s, i))
            && forall k: nat :: (i < 0 || k < i) ==> !HoldsSentinel(s, k)
  {
    if s != "" {
      FirstSentinelIs(s[1..]);
      assert SentinelAt(s) <==> HoldsSentinel(s, 0) by { if |s| > 8 { assert s[..8] == s[0..8]; } }
      forall k: nat | 0 < k ensures HoldsSentinel(s, k) <==> HoldsSentinel(s[1..], k - 1) {
        if k + 8 < |s| { assert s[1..][k - 1..k + 7] == s[k..k + 8]; }
      }
    }
  }

  /** The length of the digits at the front. */
  function DigitRun(s: string): (n: nat)
    ensures n <= |s|
  {
    if s == "" || !IsDigit(s[0]) then 0 else DigitRun(s[1..]) + 1
  }

  /** What a sentinel's digits stand for; a number that no hole has gives a nameless hole. */
  function HoleFor(digits: string, holes: Segs): (h: Segment)
    ensures AllHoles(holes) ==> h.Hole?
  {
    match Atoi(digits)
    case Some(n) => if 0 <= n < |holes| then holes[n] else Hole("", "", "")
    case None => Hole("", "", "")
  }

  function Text(s: string): Segs {
    if s == "" then [] else [Literal(s)]
  }

  function Unmask(masked: string, holes: Segs): Segs
    decreases |masked|
  {
    var i := FirstSentinel(masked);
    if i < 0 then Text(masked)
    else
      var tail := masked[i + WIDTH..];
      var d := DigitRun(tail);
      Text(masked[..i]) + [HoleFor(tail[..d], holes)] + Unmask(tail[d..], holes)
  }

  /** One match, seen from the text still to be read. */
  lemma UnmaskStep(masked: string, last: nat, start: nat, end: nat, holes: Segs)
    requires last <= |masked| && FirstSentinel(masked[last..]) >= 0
    requires start == last + FirstSentinel(masked[last..])
    requires end == start + WIDTH + DigitRun(masked[start + WIDTH..])
    ensures Unmask(masked[last..], holes)
            == Text(masked[last..start]) + [HoleFor(masked[start + WIDTH..end], holes)] + Unmask(masked[end..], holes)
  {
    hide HoleFor, Text, FirstSentinel, DigitRun;
    var rest := masked[last..];
    assert rest[..start - last] == masked[last..start];
    var tail := masked[start + WIDTH..];
    assert rest[start - last + WIDTH..] == tail;
    var d := DigitRun(tail);
    assert tail[..d] == masked[start + WIDTH..end] && tail[d..] == masked[end..];
  }

  lemma UnmaskEnd(s: string, holes: Segs)
    requires FirstSentinel(s) < 0
    ensures Unmask(s, holes) == Text(s)
  {
  }

  lemma Regroup(out: Segs, x: Segs, y: Segs, z: Segs)
    ensures out + (x + y + z) == out + x + y + z
  {
  }

  /** unmaskToSegments: one pass over the matches, keeping the end of the last one. */
  method UnmaskLoop(masked: string, holes: Segs) returns (out: Segs)
    ensures out == Unmask(masked, holes)
  {
    hide HoleFor, FirstSentinel, DigitRun, Unmask;
    out := [];
    var last := 0;
    var next := FirstSentinel(masked);
    assert masked[0..] == masked;
    while next >= 0
      invariant 0 <= last <= |masked| && next == FirstSentinel(masked[last..])
      invariant out + Unmask(masked[last..], holes) == Unmask(masked, holes)
      decreases |masked| - last
    {
      var start := last + next;
      var end := start + WIDTH + DigitRun(masked[start + WIDTH..]);
      UnmaskStep(masked, last, start, end, holes);
      var hole := HoleFor(masked[start + WIDTH..end], holes);
      Regroup(out, Text(masked[last..start]), [hole], Unmask(masked[end..], holes));
      if start > last {
        out := out + [Literal(masked[last..start])];
      }
      out := out + [hole];
      last := end;
      next := FirstSentinel(masked[last..]);
    }
    UnmaskEnd(masked[last..], holes);
    if last < |masked| {
      out := out + [Literal(masked[last..])];
    }
  }

  // ----- the round trip

  /** The text around the holes cannot be taken for a sentinel: none of its own, no digit right after a hole. */
  predicate Clean(segs: Segs) {
    && (forall i :: 0 <= i < |segs| && segs[i].Literal? ==> FirstSentinel(segs[i].text) < 0)
    && (forall i :: 0 <= i < |segs| - 1 && segs[i].Hole? ==> !StartsWithDigit(segs[i + 1]))
  }

  predicate StartsWithDigit(s: Segment) {
    s.Literal? && s.text != "" && IsDigit(s.text[0])
  }

  /** The sentinel's first letter is nowhere else in it. */
  lemma SentinelHead()
    ensures |SENTINEL| == WIDTH && SENTINEL[0] == 'a' && !IsDigit('a')
    ensures forall j :: 1 <= j < WIDTH ==> SENTINEL[j] != 'a'
  {
    assert SENTINEL == ['a', 'i', 't', 'x', 'h', 'o', 'l', 'e'];
  }

  /** No match runs from a literal into the sentinel behind it. */
  lemma CrossingContradicts(text: string, rest: string)
    requires text != "" && (rest == "" || SentinelAt(rest)) && SentinelAt(text + rest)
    ensures SentinelAt(text)
  {
    SentinelHead();
    var u, j := text + rest, |text|;
    if WIDTH < j {
      assert text[..WIDTH] == u[..WIDTH];
    }
    assert rest != "" ==> u[j] == rest[0] == rest[..WIDTH][0] == 'a';
    assert forall i :: 0 <= i < WIDTH ==> u[i] == u[..WIDTH][i];
  }

  lemma {:induction false} NoCrossing(text: string, rest: string)
    requires FirstSentinel(text) < 0 && (rest == "" || SentinelAt(rest))
    ensures FirstSentinel(text + rest) == if rest == "" then -1 else |text|
    decreases |text|
  {
    if text == "" {
      assert text + rest == rest;
    } else {
      NoCrossing(text[1..], rest);
      assert (text + rest)[1..] == text[1..] + rest;
      if SentinelAt(text + rest) {
        CrossingContradicts(text, rest);
      }
    }
  }

  /** A match inside a literal stays the first one, whatever follows. */
  lemma {:induction false} EarlyMatch(t: string, m: string)
    requires FirstSentinel(t) >= 0
    ensures 0 <= FirstSentinel(t + m) < |t|
    decreases |t|
  {
    assert (t + m)[..|t|] == t;
    if SentinelAt(t) {
      assert (t + m)[..WIDTH] == t[..WIDTH];
    } else {
      EarlyMatch(t[1..], m);
      assert (t + m)[1..] == t[1..] + m;
    }
  }

  lemma MarkIsSentinel(k: nat, rest: string)
    ensures SentinelAt(Mark(k) + rest)
    ensures (Mark(k) + rest)[WIDTH..] == Itoa(k) + rest
  {
    hide Itoa;
    assert Mark(k)[WIDTH] == Itoa(k)[0];
    assert (Mark(k) + rest)[..WIDTH] == SENTINEL;
  }

  lemma MaskStarts(segs: Segs, k: nat)
    requires segs == [] || segs[0].Hole?
    ensures if segs == [] then MaskFrom(segs, k) == "" else SentinelAt(MaskFrom(segs, k))
  {
    if segs != [] {
      MarkIsSentinel(k, MaskFrom(segs[1..], k + 1));
    }
  }

  lemma {:induction false} DigitRunOf(digits: string, rest: string)
    requires AllDigits(digits) && (rest == "" || !IsDigit(rest[0]))
    ensures DigitRun(digits + rest) == |digits|
  {
    if digits == "" {
      assert digits + rest == rest;
    } else {
      DigitRunOf(digits[1..], rest);
      assert (digits + rest)[1..] == digits[1..] + rest;
    }
  }

  /** What follows a whole run of digits is no digit. */
  lemma {:induction false} DigitRunEnds(s: string)
    ensures DigitRun(s) < |s| ==> !IsDigit(s[DigitRun(s)])
  {
    if s != "" && IsDigit(s[0]) {
      DigitRunEnds(s[1..]);
    }
  }

  lemma AtoiItoa(k: nat)
    requires k <= MAX_INT
    ensures Atoi(Itoa(k)) == Some(k)
  {
    assert IsDigit(Itoa(k)[0]);
  }

  /** The holes from number `k` on are those of `segs`. */
  ghost predicate Numbered(segs: Segs, k: nat, holes: Segs) {
    AllHoles(holes) && k + |Holes(segs)| == |holes| <= MAX_INT && holes[k..] == Holes(segs)
  }

  lemma NumberedTail(segs: Segs, k: nat, holes: Segs)
    requires segs != [] && Numbered(segs, k, holes)
    ensures Numbered(segs[1..], k + |HoleOf(segs[0])|, holes) && AllHoles(holes)
    ensures segs[0].Hole? ==> k < |holes| <= MAX_INT && holes[k] == segs[0]
  {
    if segs[0].Hole? {
      assert Holes(segs)[1..] == Holes(segs[1..]);
      assert holes[k..][1..] == holes[k + 1..];
    }
  }

  lemma NormalTail(segs: Segs)
    requires segs != [] && Normal(segs)
    ensures Normal(segs[1..])
  {
  }

  /** Unmasking gives a normal list back exactly when its text is clean. */
  lemma {:induction false} NormalRoundTrip(segs: Segs, k: nat, holes: Segs)
    requires Normal(segs) && Numbered(segs, k, holes)
    ensures Unmask(MaskFrom(segs, k), holes) == segs <==> Clean(segs)
    decreases |segs|
  {
    hide *;
    if segs == [] {
      NothingMasked(k, holes);
    } else {
      NormalTail(segs);
      NumberedTail(segs, k, holes);
      NormalRoundTrip(segs[1..], k + |HoleOf(segs[0])|, holes);
      HeadPeels(segs, k, holes);
      PeelsDecide(segs, k, holes);
    }
  }

  lemma NothingMasked(k: nat, holes: Segs)
    ensures Unmask(MaskFrom([], k), holes) == [] && Clean([])
  {
  }

  lemma HeadPeels(segs: Segs, k: nat, holes: Segs)
    requires segs != [] && Normal(segs) && Numbered(segs, k, holes)
    ensures Peels(segs, k, holes)
  {
    NumberedTail(segs, k, holes);
    hide Normal, Numbered, Peels;
    if segs[0].Literal? {
      LiteralPeels(segs, k, holes);
    } else {
      HolePeels(segs, k, holes);
    }
  }

  /** The list comes back exactly if its head peels off cleanly and its tail comes back. */
  lemma PeelsDecide(segs: Segs, k: nat, holes: Segs)
    requires segs != [] && AllHoles(holes) && Peels(segs, k, holes)
    requires Unmask(MaskFrom(segs[1..], k + |HoleOf(segs[0])|), holes) == segs[1..] <==> Clean(segs[1..])
    ensures Unmask(MaskFrom(segs, k), holes) == segs <==> Clean(segs)
  {
    hide Clean, Unmask, MaskFrom, CleanHead, HoleOf;
    CleanTail(segs);
    SameTail(segs, Unmask(MaskFrom(segs[1..], k + |HoleOf(segs[0])|), holes));
  }

  lemma SameTail(segs: Segs, rest: Segs)
    requires segs != []
    ensures [segs[0]] + rest == segs <==> rest == segs[1..]
  {
    assert ([segs[0]] + rest)[1..] == rest;
  }

  lemma CleanTail(segs: Segs)
    requires segs != []
    ensures Clean(segs) <==> Clean(segs[1..]) && CleanHead(segs)
  {
    hide FirstSentinel, StartsWithDigit;
    var rest := segs[1..];
    if Clean(rest) {
      assert forall i :: 1 <= i < |segs| ==> segs[i] == rest[i - 1];
    }
    if Clean(segs) {
      assert forall i :: 0 <= i < |rest| ==> rest[i] == segs[i + 1];
    }
  }

  predicate CleanHead(segs: Segs)
    requires segs != []
  {
    && (segs[0].Literal? ==> FirstSentinel(segs[0].text) < 0)
    && (segs[0].Hole? && |segs| > 1 ==> !StartsWithDigit(segs[1]))
  }

  /** The first segment comes back, and the rest as it would alone, exactly if the first one is clean. */
  ghost predicate Peels(segs: Segs, k: nat, holes: Segs)
    requires segs != []
  {
    var out := Unmask(MaskFrom(segs, k), holes);
    var rest := Unmask(MaskFrom(segs[1..], k + |HoleOf(segs[0])|), holes);
    if CleanHead(segs) then out == [segs[0]] + rest else out != segs
  }

  lemma LiteralPeels(segs: Segs, k: nat, holes: Segs)
    requires Normal(segs) && segs != [] && segs[0].Literal? && AllHoles(holes)
    ensures Peels(segs, k, holes)
  {
    hide Unmask, SentinelAt, FirstSentinel;
    var m := MaskFrom(segs[1..], k);
    MaskStarts(segs[1..], k);
    assert MaskFrom(segs, k) == segs[0].text + m;
    LiteralTail(segs[0].text, m, holes);
    assert HoleOf(segs[0]) == [];
  }

  lemma HoleMask(segs: Segs, k: nat)
    requires segs != [] && segs[0].Hole?
    ensures MaskFrom(segs, k) == Mark(k) + MaskFrom(segs[1..], k + 1) && |HoleOf(segs[0])| == 1
  {
  }

  /** A list that goes on with a digit behind its first hole is none that has none there. */
  lemma DigitBehind(segs: Segs, out: Segs)
    requires |segs| > 1 && StartsWithDigit(segs[1])
    requires |out| > 1 && out[1].Literal? && out[1].text != "" ==> !IsDigit(out[1].text[0])
    ensures out != segs
  {
  }

  lemma HolePeels(segs: Segs, k: nat, holes: Segs)
    requires Normal(segs) && segs != [] && segs[0].Hole?
    requires AllHoles(holes) && k < |holes| <= MAX_INT && holes[k] == segs[0]
    ensures Peels(segs, k, holes)
  {
    var m := MaskFrom(segs[1..], k + 1);
    assert CleanHead(segs) <==> !(|segs| > 1 && StartsWithDigit(segs[1]));
    hide Unmask, Mark, Atoi, Itoa, MaskFrom, CleanHead, IsDigit, StartsWithDigit, Normal, AllHoles, HoleOf;
    HoleMask(segs, k);
    MaskAfterHole(segs, k, m);
    AtoiItoa(k);
    if m == "" || !IsDigit(m[0]) {
      HoleBack(k, m, holes);
    } else {
      HoleLost(k, m, holes);
      DigitBehind(segs, Unmask(Mark(k) + m, holes));
    }
  }

  lemma LiteralTail(t: string, m: string, holes: Segs)
    requires t != "" && (m == "" || SentinelAt(m)) && AllHoles(holes)
    ensures var out := Unmask(t + m, holes);
            if FirstSentinel(t) < 0 then out == [Literal(t)] + Unmask(m, holes) else out != [] && out[0] != Literal(t)
  {
    hide Unmask, SentinelAt;
    if FirstSentinel(t) < 0 {
      NoCrossing(t, m);
      LiteralBack(t, m, holes);
    } else {
      EarlyMatch(t, m);
      LiteralLost(t, m, holes);
    }
  }

  lemma LiteralBack(t: string, m: string, holes: Segs)
    requires t != "" && (m == "" || SentinelAt(m)) && FirstSentinel(t + m) == if m == "" then -1 else |t|
    ensures Unmask(t + m, holes) == [Literal(t)] + Unmask(m, holes)
  {
    if m == "" {
      assert t + m == t;
    } else {
      AtSentinel(m, holes);
      AtMatch(t, m, holes);
      hide *;
      var tail := m[WIDTH..];
      var d := DigitRun(tail);
      Associative([Literal(t)], [HoleFor(tail[..d], holes)], Unmask(tail[d..], holes));
    }
  }

  lemma AtMatch(t: string, m: string, holes: Segs)
    requires t != "" && FirstSentinel(t + m) == |t|
    ensures |m| > WIDTH
    ensures var tail := m[WIDTH..];
            var d := DigitRun(tail);
            Unmask(t + m, holes) == [Literal(t)] + [HoleFor(tail[..d], holes)] + Unmask(tail[d..], holes)
  {
    hide HoleFor, SentinelAt, DigitRun, FirstSentinel;
    assert (t + m)[|t| + WIDTH..] == m[WIDTH..];
    assert (t + m)[..|t|] == t;
  }

  lemma LiteralLost(t: string, m: string, holes: Segs)
    requires AllHoles(holes) && 0 <= FirstSentinel(t + m) < |t|
    ensures Unmask(t + m, holes) != [] && Unmask(t + m, holes)[0] != Literal(t)
  {
    hide HoleFor, SentinelAt, DigitRun;
    var j := FirstSentinel(t + m);
    if j > 0 {
      assert Unmask(t + m, holes)[0] == Literal((t + m)[..j]);
      assert |(t + m)[..j]| != |t|;
    } else {
      assert Unmask(t + m, holes)[0].Hole?;
    }
  }

  /** The digit behind a hole belongs to a literal, as a sentinel starts with a letter. */
  lemma MaskAfterHole(segs: Segs, k: nat, m: string)
    requires Normal(segs) && segs != [] && segs[0].Hole? && m == MaskFrom(segs[1..], k + 1)
    ensures m != "" && IsDigit(m[0]) <==> |segs| > 1 && StartsWithDigit(segs[1])
    ensures |segs| > 1 && segs[1].Literal? ==> m != "" && m[0] == segs[1].text[0]
  {
    if |segs| > 1 {
      assert segs[1..][0] == segs[1];
      if segs[1].Hole? {
        MaskStarts(segs[1..], k + 1);
        SentinelHead();
        assert m[..WIDTH][0] == 'a';
      }
    }
  }

  lemma HoleUnmask(k: nat, m: string, holes: Segs, d: nat)
    requires d == DigitRun(Itoa(k) + m)
    ensures Unmask(Mark(k) + m, holes) == [HoleFor((Itoa(k) + m)[..d], holes)] + Unmask((Itoa(k) + m)[d..], holes)
  {
    MarkIsSentinel(k, m);
    AtSentinel(Mark(k) + m, holes);
  }

  lemma AtSentinel(s: string, holes: Segs)
    requires SentinelAt(s)
    ensures var tail := s[WIDTH..];
            var d := DigitRun(tail);
            Unmask(s, holes) == [HoleFor(tail[..d], holes)] + Unmask(tail[d..], holes)
  {
    assert FirstSentinel(s) == 0 && Text("") == [];
    hide HoleFor, SentinelAt, DigitRun, FirstSentinel, Text;
    assert s[..0] == "";
    assert 0 + WIDTH == WIDTH;
  }

  lemma HoleBack(k: nat, m: string, holes: Segs)
    requires k < |holes| && Atoi(Itoa(k)) == Some(k) && (m == "" || !IsDigit(m[0]))
    ensures Unmask(Mark(k) + m, holes) == [holes[k]] + Unmask(m, holes)
  {
    hide Atoi, Itoa, Mark;
    DigitRunOf(Itoa(k), m);
    HoleUnmask(k, m, holes, |Itoa(k)|);
    assert (Itoa(k) + m)[..|Itoa(k)|] == Itoa(k);
    assert (Itoa(k) + m)[|Itoa(k)|..] == m;
  }

  /** A digit swallowed by the hole does not come back: what follows starts with none. */
  lemma HoleLost(k: nat, m: string, holes: Segs)
    requires AllHoles(holes) && m != "" && IsDigit(m[0])
    ensures var out := Unmask(Mark(k) + m, holes);
            |out| > 1 && out[1].Literal? && out[1].text != "" ==> !IsDigit(out[1].text[0])
  {
    hide Atoi, Itoa, Mark, HoleFor;
    var u, d := Itoa(k) + m, DigitRun(Itoa(k) + m);
    HoleUnmask(k, m, holes, d);
    DigitRunEnds(u);
    var rest := Unmask(u[d..], holes);
    assert Unmask(Mark(k) + m, holes)[1..] == rest;
    UnmaskHead(u[d..], holes);
  }

  /** A literal that comes out first is the front of the text. */
  lemma UnmaskHead(s: string, holes: Segs)
    requires AllHoles(holes)
    ensures var out := Unmask(s, holes); out != [] && out[0].Literal? ==> out[0].text <= s
  {
    hide HoleFor, SentinelAt, DigitRun;
    var i := FirstSentinel(s);
    if i > 0 {
      assert Unmask(s, holes)[0] == Literal(s[..i]);
    } else if i == 0 {
      assert Unmask(s, holes)[0].Hole?;
    }
  }

  // ----- coalescing first changes nothing

  /** Writing two literals is writing their text in one. */
  lemma MaskJoin(init: Segs, last: Segment, s: Segment)
    requires last.Literal? && s.Literal?
    ensures MaskFrom(init + [Literal(last.text + s.text)], 0) == MaskFrom(init + [last], 0) + s.text
    ensures Holes(init + [Literal(last.text + s.text)]) == Holes(init + [last])
  {
    hide MaskFrom, Holes, Mark;
    MaskSnoc(init, last, 0);
    MaskSnoc(init, Literal(last.text + s.text), 0);
  }

  lemma MaskPush(out: Segs, s: Segment)
    ensures MaskFrom(Push(out, s), 0) == MaskFrom(out, 0) + Written(s, |Holes(out)|)
    ensures Holes(Push(out, s)) == Holes(out) + HoleOf(s)
  {
    hide Mark, MaskFrom, Holes;
    var n := |out| - 1;
    if s.Literal? && s.text != "" && n >= 0 && out[n].Literal? {
      MaskJoin(out[..n], out[n], s);
      assert out == out[..n] + [out[n]];
      assert Push(out, s) == out[..n] + [Literal(out[n].text + s.text)];
    } else {
      MaskSnoc(out, s, 0);
    }
  }

  lemma {:induction false} MaskCoalesce(segs: Segs)
    ensures MaskFrom(Coalesce(segs), 0) == MaskFrom(segs, 0)
    ensures Holes(Coalesce(segs)) == Holes(segs)
  {
    hide Written, Push, MaskFrom, Holes;
    if segs != [] {
      var n := |segs| - 1;
      MaskCoalesce(segs[..n]);
      MaskPush(Coalesce(segs[..n]), segs[n]);
      MaskSnoc(segs[..n], segs[n], 0);
      assert segs == segs[..n] + [segs[n]];
    }
  }

  /** Masking and unmasking gives back the coalesced list exactly when the coalesced text is clean. */
  lemma UnmaskMask(segs: Segs)
    requires |Holes(segs)| <= MAX_INT
    ensures Unmask(MaskFrom(segs, 0), Holes(segs)) == Coalesce(segs) <==> Clean(Coalesce(segs))
  {
    MaskCoalesce(segs);
    CoalesceNormal(segs);
    var holes := Holes(segs);
    assert holes[0..] == holes;
    NormalRoundTrip(Coalesce(segs), 0, holes);
  }
}

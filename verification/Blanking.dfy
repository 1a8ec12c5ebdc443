/**
 Blanking of comments and documentation (internal/detect/lineengine/slice.go) and the positions it
 must not move (internal/detect/lineengine/engine.go).
 */
module Blanking {
  import opened Strs
  import opened Sorting
  import opened Literals

  /** The first place of `needle` from `i` on, or -1. */
  function Index(s: string, i: nat, needle: string): (k: int)
    requires i <= |s|
    ensures k == -1 || (i <= k && StartsAt(s, k, needle))
    decreases |s| - i
  {
    if StartsAt(s, i, needle) then i else if i == |s| then -1 else Index(s, i + 1, needle)
  }

  function LineEnd(s: string, i: nat): (end: nat)
    requires i <= |s|
    ensures i <= end <= |s|
  {
    if Find(s, i, '\n') < 0 then |s| else Find(s, i, '\n')
  }

  /** Past the line that starts with "=cut", from the start of a line on. */
  function PodEnd(s: string, off: nat): (end: nat)
    requires off <= |s|
    ensures off <= end <= |s| && (off < |s| ==> off < end)
    decreases |s| - off
  {
    var nl := Find(s, off, '\n');
    var next := if nl < 0 then |s| else nl + 1;
    if StartsAt(s, off, "=cut") || nl < 0 then next else PodEnd(s, next)
  }

  predicate AtLineStart(s: string, i: nat)
    requires i <= |s|
  {
    i == 0 || s[i - 1] == '\n'
  }

  /** Nothing but white space stands before `i` on its line. */
  predicate OnlySpaceBefore(s: string, i: nat)
    requires i <= |s|
  {
    i == 0 || s[i - 1] == '\n' || ((s[i - 1] == ' ' || s[i - 1] == '\t' || s[i - 1] == '\r') && OnlySpaceBefore(s, i - 1))
  }

  predicate FirstLineComment(s: string, i: nat, markers: seq<string>) {
    markers != [] && (StartsAt(s, i, markers[0]) || FirstLineComment(s, i, markers[1..]))
  }

  function FirstBlock(s: string, i: nat, blocks: seq<Block>): Option<Block> {
    if blocks == [] then None
    else if StartsAt(s, i, blocks[0].open) then Some(blocks[0]) else FirstBlock(s, i, blocks[1..])
  }

  lemma {:induction false} CommentMarkers(s: string, i: nat, spec: Spec)
    requires ValidSpec(spec) && i < |s|
    ensures FirstLineComment(s, i, spec.lineComments) ==> s[i] != '\n'
    ensures var b := FirstBlock(s, i, spec.blockComments); b.Some? ==> b.value.open != "" && StartsAt(s, i, b.value.open)
  {
    LineMarker(s, i, spec.lineComments);
    BlockMarker(s, i, spec.blockComments);
  }

  lemma {:induction false} LineMarker(s: string, i: nat, markers: seq<string>)
    requires i < |s| && forall k :: 0 <= k < |markers| ==> markers[k] != "" && markers[k][0] != '\n'
    ensures FirstLineComment(s, i, markers) ==> s[i] != '\n'
  {
    if markers != [] {
      if StartsAt(s, i, markers[0]) {
        assert s[i..i + |markers[0]|][0] == s[i];
      }
      LineMarker(s, i, markers[1..]);
    }
  }

  lemma {:induction false} BlockMarker(s: string, i: nat, blocks: seq<Block>)
    ensures var b := FirstBlock(s, i, blocks); b.Some? ==> b.value in blocks && StartsAt(s, i, b.value.open)
  {
    if blocks != [] { BlockMarker(s, i, blocks[1..]); }
  }

  function BlockEnd(s: string, i: nat, b: Block): (end: nat)
    requires i < |s| && b.open != "" && StartsAt(s, i, b.open)
    ensures i < end <= |s|
  {
    var rest := Index(s, i + |b.open|, b.close);
    if rest < 0 then |s| else rest + |b.close|
  }

  /** Where the marker starts a line, or the end of the text. */
  function MarkerAt(s: string, marker: string): (i: nat)
    ensures i <= |s|
  {
    if StartsAt(s, 0, marker) then 0
    else if Index(s, 0, "\n" + marker) >= 0 then Index(s, 0, "\n" + marker) + 1 else |s|
  }

  function CutOff(s: string, markers: seq<string>): (i: nat)
    ensures i <= |s|
  {
    if markers == [] then |s|
    else
      var i := CutOff(s, markers[..|markers| - 1]);
      if MarkerAt(s, markers[|markers| - 1]) < i then MarkerAt(s, markers[|markers| - 1]) else i
  }

  /** One step of the scan: how far it goes, and whether what it passes is prose. */
  datatype Token = Token(end: nat, prose: bool)

  /** A documentation block starts at a "=" that the end marker has not blanked. */
  predicate PodStart(s: string, i: nat, spec: Spec)
    requires i < |s|
  {
    && spec.podBlocks && AtLineStart(s, i) && s[i] == '=' && i < CutOff(s, spec.skipAfter)
    && IsLetter(ByteAt(s, i + 1))
  }

  function NextToken(s: string, i: nat, spec: Spec): (t: Token)
    requires i < |s| && ValidSpec(spec)
    ensures i < t.end <= |s|
  {
    CommentMarkers(s, i, spec);
    var lit := ScanString(s, i, spec);
    var b := FirstBlock(s, i, spec.blockComments);
    if lit.Some? then Token(lit.value.end, lit.value.doc && OnlySpaceBefore(s, i))
    else if PodStart(s, i, spec) then Token(PodEnd(s, i), true)
    else if FirstLineComment(s, i, spec.lineComments) then Token(LineEnd(s, i), true)
    else if b.Some? then Token(BlockEnd(s, i, b.value), true)
    else Token(i + 1, false)
  }

  /** Position `k` lies in prose, for a scan that has reached `i`. */
  predicate InProse(s: string, i: nat, spec: Spec, k: nat)
    requires i <= |s| && ValidSpec(spec)
    decreases |s| - i
  {
    i < |s| && (var t := NextToken(s, i, spec); if k < t.end then i <= k && t.prose else InProse(s, t.end, spec, k))
  }

  /** The scan that starts at `i` reaches `p` between two tokens. */
  predicate Reaches(s: string, i: nat, spec: Spec, p: nat)
    requires i <= |s| && ValidSpec(spec)
    decreases |s| - i
  {
    p == i || (i < |s| && Reaches(s, NextToken(s, i, spec).end, spec, p))
  }

  predicate Blank(s: string, spec: Spec, k: nat)
    requires k < |s| && ValidSpec(spec)
  {
    s[k] != '\n' && (k >= CutOff(s, spec.skipAfter) || InProse(s, 0, spec, k))
  }

  function Blanked(s: string, spec: Spec): (r: string)
    requires ValidSpec(spec)
    ensures |r| == |s|
  {
    seq(|s|, k requires 0 <= k < |s| => if Blank(s, spec, k) then ' ' else s[k])
  }

  // ----- the scan, in place

  method BlankRange(b: array<char>, from: nat, to: nat)
    requires from <= to <= b.Length
    modifies b
    ensures forall k :: 0 <= k < b.Length ==> b[k] == if from <= k < to && old(b[k]) != '\n' then ' ' else old(b[k])
  {
    for i := from to to
      invariant forall k :: 0 <= k < b.Length ==> b[k] == if from <= k < i && old(b[k]) != '\n' then ' ' else old(b[k])
    {
      if b[i] != '\n' {
        b[i] := ' ';
      }
    }
  }

  /** The first token at `i`, found as the source tries the kinds in turn; `here` is the buffer's byte at `i`. */
  method TokenAt(s: string, i: nat, spec: Spec, here: char) returns (t: Token)
    requires i < |s| && ValidSpec(spec) && (here == '=' <==> s[i] == '=' && i < CutOff(s, spec.skipAfter))
    ensures t == NextToken(s, i, spec)
  {
    hide ScanString, PodEnd, Index, LineEnd, OnlySpaceBefore, StartsAt, CutOff;
    CommentMarkers(s, i, spec);
    var lit := ScanStringLoop(s, i, spec);
    if lit.Some? {
      return Token(lit.value.end, lit.value.doc && OnlySpaceBefore(s, i));
    }
    if spec.podBlocks && AtLineStart(s, i) && here == '=' && IsLetter(ByteAt(s, i + 1)) {
      return Token(PodEnd(s, i), true);
    }
    for n := 0 to |spec.lineComments|
      invariant FirstLineComment(s, i, spec.lineComments) == FirstLineComment(s, i, spec.lineComments[n..])
    {
      assert spec.lineComments[n..][1..] == spec.lineComments[n + 1..];
      if StartsAt(s, i, spec.lineComments[n]) {
        return Token(LineEnd(s, i), true);
      }
    }
    for n := 0 to |spec.blockComments|
      invariant FirstBlock(s, i, spec.blockComments) == FirstBlock(s, i, spec.blockComments[n..])
    {
      assert spec.blockComments[n..][1..] == spec.blockComments[n + 1..];
      if StartsAt(s, i, spec.blockComments[n].open) {
        return Token(BlockEnd(s, i, spec.blockComments[n]), true);
      }
    }
    t := Token(i + 1, false);
  }

  /** What holds of the buffer when the scan has reached `i`. */
  ghost predicate Progress(s: string, spec: Spec, b: seq<char>, i: nat)
    requires ValidSpec(spec)
  {
    && i <= |s| == |b|
    && (forall k: nat :: i <= k ==> InProse(s, 0, spec, k) == InProse(s, i, spec, k))
    && forall k :: 0 <= k < |s| ==>
         b[k] == if s[k] != '\n' && (k >= CutOff(s, spec.skipAfter) || (k < i && InProse(s, 0, spec, k))) then ' ' else s[k]
  }

  lemma TokenProgress(s: string, spec: Spec, b: seq<char>, i: nat, b': seq<char>)
    requires ValidSpec(spec) && i < |s| && Progress(s, spec, b, i) && |b'| == |b|
    requires var t := NextToken(s, i, spec);
             forall k :: 0 <= k < |b| ==> b'[k] == if t.prose && i <= k < t.end && b[k] != '\n' then ' ' else b[k]
    ensures Progress(s, spec, b', NextToken(s, i, spec).end)
  {
    hide NextToken, CutOff;
    var t := NextToken(s, i, spec);
    forall k: nat | t.end <= k ensures InProse(s, 0, spec, k) == InProse(s, t.end, spec, k) {
      assert InProse(s, i, spec, k) == InProse(s, t.end, spec, k);
    }
    forall k | i <= k < t.end ensures InProse(s, 0, spec, k) == t.prose {
      assert InProse(s, i, spec, k) == t.prose;
    }
  }

  lemma BufferHere(s: string, spec: Spec, b: seq<char>, i: nat)
    requires ValidSpec(spec) && i < |s| && Progress(s, spec, b, i)
    ensures |b| == |s| && (b[i] == '=' <==> s[i] == '=' && i < CutOff(s, spec.skipAfter))
  {
  }

  method BlankNonCode(s: string, spec: Spec) returns (out: string)
    requires ValidSpec(spec)
    ensures out == Blanked(s, spec)
  {
    var b := new char[|s|](k requires 0 <= k < |s| => s[k]);
    for n := 0 to |spec.skipAfter|
      invariant forall k :: 0 <= k < |s| ==>
                  b[k] == if s[k] != '\n' && k >= CutOff(s, spec.skipAfter[..n]) then ' ' else s[k]
    {
      hide MarkerAt;
      assert spec.skipAfter[..n + 1][..n] == spec.skipAfter[..n];
      BlankRange(b, MarkerAt(s, spec.skipAfter[n]), |s|);
    }
    assert spec.skipAfter[..|spec.skipAfter|] == spec.skipAfter;
    var i := 0;
    assert Progress(s, spec, b[..], 0);
    while i < |s|
      invariant i <= |s| && Progress(s, spec, b[..], i)
      decreases |s| - i
    {
      BufferHere(s, spec, b[..], i);
      hide Progress, NextToken;
      var t := TokenAt(s, i, spec, b[i]);
      ghost var was := b[..];
      if t.prose {
        BlankRange(b, i, t.end);
      }
      TokenProgress(s, spec, was, i, b[..]);
      i := t.end;
    }
    out := b[..];
  }

  // ----- what blanking keeps

  /** The same length, the same newlines, and otherwise the same byte or a space. */
  predicate SameLayout(s: string, r: string) {
    |r| == |s| && forall k :: 0 <= k < |s| ==> (r[k] == '\n' <==> s[k] == '\n') && (r[k] == s[k] || r[k] == ' ')
  }

  lemma BlankingKeepsLayout(s: string, spec: Spec)
    requires ValidSpec(spec)
    ensures SameLayout(s, Blanked(s, spec))
  {
  }

  lemma {:induction false} TokenStays(s: string, i: nat, spec: Spec, p: nat, k: nat)
    requires i <= |s| && ValidSpec(spec) && Reaches(s, i, spec, p) && p < |s|
    requires p <= k < NextToken(s, p, spec).end
    ensures InProse(s, i, spec, k) == NextToken(s, p, spec).prose && i <= p
    decreases |s| - i
  {
    hide NextToken;
    if p != i {
      TokenStays(s, NextToken(s, i, spec).end, spec, p, k);
    }
  }

  /** Code stays: a string literal that the scan meets is kept byte by byte, whatever it contains, up to the end marker. */
  lemma LiteralsSurvive(s: string, spec: Spec, p: nat, end: nat)
    requires ValidSpec(spec) && p < |s| && Reaches(s, 0, spec, p)
    requires var lit := ScanString(s, p, spec); lit.Some? && lit.value.end == end && !lit.value.doc
    requires end <= CutOff(s, spec.skipAfter)
    ensures Blanked(s, spec)[p..end] == s[p..end]
  {
    forall k | p <= k < end ensures Blanked(s, spec)[k] == s[k] {
      TokenStays(s, 0, spec, p, k);
    }
  }

  // ----- positions

  /** A position as reported: line and column, both from 1. */
  datatype Pos = Pos(line: int, col: int)

  function Newlines(s: string): nat {
    CountIf(c => c == '\n', s)
  }

  function PosAt(s: string, offset: nat): Pos {
    var off := if offset > |s| then |s| else offset;
    Pos(1 + Newlines(s[..off]), off - (LastIndexAny(s[..off], "\n") + 1) + 1)
  }

  lemma {:induction false} SameNewlines(s: string, r: string)
    requires |s| == |r| && forall k :: 0 <= k < |s| ==> (s[k] == '\n' <==> r[k] == '\n')
    ensures Newlines(s) == Newlines(r) && LastIndexAny(s, "\n") == LastIndexAny(r, "\n")
  {
    if s != "" {
      SameNewlines(s[..|s| - 1], r[..|r| - 1]);
    }
  }

  /** Every offset of the blanked text is at the line and column it has in the original. */
  lemma BlankingKeepsPositions(s: string, spec: Spec, offset: nat)
    requires ValidSpec(spec)
    ensures PosAt(Blanked(s, spec), offset) == PosAt(s, offset)
  {
    hide Blanked, Newlines, LastIndexAny;
    BlankingKeepsLayout(s, spec);
    var off := if offset > |s| then |s| else offset;
    SameNewlines(s[..off], Blanked(s, spec)[..off]);
  }

  lemma {:induction false} NewlinesGrow(s: string, i: nat, j: nat)
    requires i <= j <= |s|
    ensures Newlines(s[..i]) <= Newlines(s[..j])
    ensures Newlines(s[..i]) == Newlines(s[..j]) ==> LastIndexAny(s[..i], "\n") == LastIndexAny(s[..j], "\n")
    decreases j
  {
    if i < j {
      NewlinesGrow(s, i, j - 1);
      assert s[..j][..j - 1] == s[..j - 1];
    }
  }

  /** Different offsets have different positions, in the order of the offsets. */
  lemma PositionsInOrder(s: string, i: nat, j: nat)
    requires i < j <= |s|
    ensures var p, q := PosAt(s, i), PosAt(s, j); p.line < q.line || (p.line == q.line && p.col < q.col)
  {
    NewlinesGrow(s, i, j);
  }
}

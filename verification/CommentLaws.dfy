/**
 What blanking takes out (internal/detect/lineengine/slice.go): comments to the end of their line or
 to their end marker, documentation blocks and strings, everything behind an end-of-source marker,
 and nothing else.
 */
module CommentLaws {
  import opened Strs
  import opened Literals
  import opened Blanking
  import opened Sorting

  // ----- what the small searches find

  lemma {:induction false} FindIs(s: string, i: nat, c: char, e: nat)
    requires i <= e <= |s| && c !in s[i..e] && (e == |s| || s[e] == c)
    ensures Find(s, i, c) == if e < |s| then e else -1
    decreases e - i
  {
    if i < e {
      assert s[i..e] == [s[i]] + s[i + 1..e];
      FindIs(s, i + 1, c, e);
    }
  }

  lemma {:induction false} LineMarkersAre(s: string, i: nat, markers: seq<string>)
    ensures FirstLineComment(s, i, markers) <==> exists k :: 0 <= k < |markers| && StartsAt(s, i, markers[k])
  {
    if markers != [] {
      LineMarkersAre(s, i, markers[1..]);
      assert forall k :: 1 <= k < |markers| ==> markers[k] == markers[1..][k - 1];
      if k :| 0 <= k < |markers[1..]| && StartsAt(s, i, markers[1..][k]) { assert StartsAt(s, i, markers[k + 1]); }
    }
  }

  /** The block comment at `i` is the first that opens there. */
  predicate Opening(s: string, i: nat, blocks: seq<Block>, k: nat) {
    k < |blocks| && StartsAt(s, i, blocks[k].open) && forall j :: 0 <= j < k ==> !StartsAt(s, i, blocks[j].open)
  }

  lemma {:induction false} BlockIs(s: string, i: nat, blocks: seq<Block>, k: nat)
    requires Opening(s, i, blocks, k)
    ensures FirstBlock(s, i, blocks) == Some(blocks[k])
    decreases k
  {
    if k > 0 {
      assert forall j :: 0 <= j < k - 1 ==> blocks[1..][j] == blocks[j + 1];
      BlockIs(s, i, blocks[1..], k - 1);
    }
  }

  lemma {:induction false} NoBlockIs(s: string, i: nat, blocks: seq<Block>)
    requires forall k :: 0 <= k < |blocks| ==> !StartsAt(s, i, blocks[k].open)
    ensures FirstBlock(s, i, blocks) == None
  {
    if blocks != [] { NoBlockIs(s, i, blocks[1..]); }
  }

  lemma {:induction false} IndexIs(s: string, i: nat, needle: string, e: nat)
    requires i <= e <= |s| && (forall k :: i <= k < e ==> !StartsAt(s, k, needle))
    requires StartsAt(s, e, needle) || (e == |s| && !StartsAt(s, e, needle))
    ensures Index(s, i, needle) == if StartsAt(s, e, needle) then e else -1
    decreases e - i
  {
    if i < e { IndexIs(s, i + 1, needle, e); }
  }

  // ----- what becomes of a token

  /** The scan comes to `p`, where no string literal starts and no documentation block. */
  predicate Arrives(s: string, spec: Spec, p: nat)
    requires ValidSpec(spec)
  {
    p < |s| && Reaches(s, 0, spec, p) && ScanString(s, p, spec).None? && !PodStart(s, p, spec)
  }

  /** Everything from `p` to `end` is a space or a newline that was there, and the scan goes on behind it. */
  predicate TakenOut(s: string, spec: Spec, p: nat, end: nat)
    requires ValidSpec(spec)
  {
    && p < end <= |s| && Reaches(s, 0, spec, end)
    && forall k :: p <= k < end ==> Blanked(s, spec)[k] == if s[k] == '\n' then '\n' else ' '
  }

  lemma {:induction false} ReachesOn(s: string, i: nat, spec: Spec, p: nat)
    requires i <= |s| && ValidSpec(spec) && Reaches(s, i, spec, p) && p < |s|
    ensures Reaches(s, i, spec, NextToken(s, p, spec).end)
    decreases |s| - i
  {
    hide NextToken;
    if p != i { ReachesOn(s, NextToken(s, i, spec).end, spec, p); }
  }

  lemma {:induction false} ProseIsTakenOut(s: string, spec: Spec, p: nat)
    requires ValidSpec(spec) && p < |s| && Reaches(s, 0, spec, p) && NextToken(s, p, spec).prose
    ensures TakenOut(s, spec, p, NextToken(s, p, spec).end)
  {
    ReachesOn(s, 0, spec, p);
    forall k | p <= k < NextToken(s, p, spec).end ensures Blanked(s, spec)[k] == if s[k] == '\n' then '\n' else ' ' {
      TokenStays(s, 0, spec, p, k);
    }
  }

  /** A line comment is taken out up to the end of its line. */
  lemma {:induction false} LineCommentTakenOut(s: string, spec: Spec, p: nat, marker: nat, end: nat)
    requires ValidSpec(spec) && Arrives(s, spec, p)
    requires marker < |spec.lineComments| && StartsAt(s, p, spec.lineComments[marker])
    requires p <= end <= |s| && '\n' !in s[p..end] && (end == |s| || s[end] == '\n')
    ensures TakenOut(s, spec, p, end)
  {
    LineMarkersAre(s, p, spec.lineComments);
    FindIs(s, p, '\n', end);
    hide ScanString, PodStart, TakenOut, Find, StartsAt;
    assert NextToken(s, p, spec) == Token(end, true);
    ProseIsTakenOut(s, spec, p);
  }

  predicate NoLineComment(s: string, spec: Spec, p: nat) {
    forall k :: 0 <= k < |spec.lineComments| ==> !StartsAt(s, p, spec.lineComments[k])
  }

  /** The body of the block comment at `p` runs to `e`, where its end marker or the end of the text is. */
  predicate BodyTo(s: string, p: nat, b: Block, e: nat) {
    && p + |b.open| <= e <= |s| && (forall j :: p + |b.open| <= j < e ==> !StartsAt(s, j, b.close))
    && (e == |s| || StartsAt(s, e, b.close))
  }

  lemma {:induction false} BlockEndIs(s: string, p: nat, b: Block, e: nat)
    requires p < |s| && b.open != "" && StartsAt(s, p, b.open) && BodyTo(s, p, b, e)
    ensures BlockEnd(s, p, b) == if StartsAt(s, e, b.close) then e + |b.close| else |s|
  {
    IndexIs(s, p + |b.open|, b.close, e);
    hide Index;
  }

  /** A block comment is taken out up to its first end marker, or to the end of the text. */
  lemma {:induction false} BlockCommentTakenOut(s: string, spec: Spec, p: nat, k: nat, e: nat)
    requires ValidSpec(spec) && Arrives(s, spec, p) && NoLineComment(s, spec, p) && Opening(s, p, spec.blockComments, k)
    requires BodyTo(s, p, spec.blockComments[k], e)
    ensures TakenOut(s, spec, p, if StartsAt(s, e, spec.blockComments[k].close)
                                 then e + |spec.blockComments[k].close| else |s|)
  {
    var b := spec.blockComments[k];
    LineMarkersAre(s, p, spec.lineComments);
    BlockIs(s, p, spec.blockComments, k);
    BlockEndIs(s, p, b, e);
    hide ScanString, PodStart, TakenOut, BlockEnd, StartsAt, BodyTo, Reaches;
    assert NextToken(s, p, spec) == Token(BlockEnd(s, p, b), true);
    ProseIsTakenOut(s, spec, p);
  }

  /** What starts no literal, block or comment is code: it stays, up to the end marker. */
  lemma {:induction false} CodeStays(s: string, spec: Spec, p: nat)
    requires ValidSpec(spec) && Arrives(s, spec, p) && NoLineComment(s, spec, p)
    requires forall k :: 0 <= k < |spec.blockComments| ==> !StartsAt(s, p, spec.blockComments[k].open)
    ensures Reaches(s, 0, spec, p + 1) && (p < CutOff(s, spec.skipAfter) ==> Blanked(s, spec)[p] == s[p])
  {
    LineMarkersAre(s, p, spec.lineComments);
    NoBlockIs(s, p, spec.blockComments);
    assert NextToken(s, p, spec) == Token(p + 1, false);
    hide NextToken;
    ReachesOn(s, 0, spec, p);
    TokenStays(s, 0, spec, p, p);
  }

  // ----- documentation

  predicate LineStart(s: string, q: nat)
    requires q <= |s|
  {
    q == 0 || s[q - 1] == '\n'
  }

  predicate SpaceFrom(s: string, l: nat, p: nat)
    requires l <= p <= |s|
  {
    LineStart(s, l) && forall k :: l <= k < p ==> s[k] == ' ' || s[k] == '\t' || s[k] == '\r'
  }

  /** From the start of its line to `p` there is only space. */
  ghost predicate StandsAlone(s: string, p: nat)
    requires p <= |s|
  {
    exists l: nat :: l <= p && SpaceFrom(s, l, p)
  }

  lemma {:induction false} AloneIs(s: string, p: nat)
    requires p <= |s|
    ensures OnlySpaceBefore(s, p) <==> StandsAlone(s, p)
    decreases p
  {
    if LineStart(s, p) {
      assert SpaceFrom(s, p, p);
    } else {
      AloneIs(s, p - 1);
      if StandsAlone(s, p) {
        var l: nat :| l <= p && SpaceFrom(s, l, p);
        assert l < p && SpaceFrom(s, l, p - 1);
      }
      if OnlySpaceBefore(s, p) {
        var l: nat :| l <= p - 1 && SpaceFrom(s, l, p - 1);
        assert SpaceFrom(s, l, p);
      }
    }
  }

  /** A documentation string that stands alone is taken out; any other string stays, whatever is in it. */
  lemma {:induction false} StringTakenOutIff(s: string, spec: Spec, p: nat)
    requires ValidSpec(spec) && p < |s| && Reaches(s, 0, spec, p) && ScanString(s, p, spec).Some?
    ensures var lit := ScanString(s, p, spec).value;
            if lit.doc && StandsAlone(s, p) then TakenOut(s, spec, p, lit.end)
            else Reaches(s, 0, spec, lit.end)
                 && forall k :: p <= k < lit.end && k < CutOff(s, spec.skipAfter) ==> Blanked(s, spec)[k] == s[k]
  {
    AloneIs(s, p);
    hide ScanString, TakenOut, StandsAlone, OnlySpaceBefore;
    var lit := ScanString(s, p, spec).value;
    if lit.doc && OnlySpaceBefore(s, p) {
      ProseIsTakenOut(s, spec, p);
    } else {
      ReachesOn(s, 0, spec, p);
      forall k | p <= k < lit.end && k < CutOff(s, spec.skipAfter) ensures Blanked(s, spec)[k] == s[k] {
        TokenStays(s, 0, spec, p, k);
      }
    }
  }

  /** A line from `p` on starts at `q` and reads "=cut". */
  predicate CutLine(s: string, p: nat, q: nat) {
    p <= q <= |s| && (q == p || LineStart(s, q)) && StartsAt(s, q, "=cut")
  }

  lemma {:induction false} NextLine(s: string, off: nat) returns (e: nat)
    requires off <= |s|
    ensures off <= e <= |s| && '\n' !in s[off..e] && (e == |s| || s[e] == '\n')
    ensures Find(s, off, '\n') == if e < |s| then e else -1
    decreases |s| - off
  {
    if off == |s| || s[off] == '\n' {
      e := off;
    } else {
      e := NextLine(s, off + 1);
      assert s[off..e] == [s[off]] + s[off + 1..e];
    }
  }

  /** Lines behind the first one start behind its newline. */
  lemma {:induction false} LaterLines(s: string, off: nat, e: nat, q: nat)
    requires off <= e <= |s| && '\n' !in s[off..e] && off < q <= |s| && LineStart(s, q)
    ensures e < q
  {
    forall k | off <= k < e ensures s[k] != '\n' { assert s[k] == s[off..e][k - off]; }
  }

  /** A documentation block goes through the first line that reads "=cut". */
  lemma {:induction false} PodEndsAtCut(s: string, off: nat, q: nat, e: nat)
    requires off <= |s| && CutLine(s, off, q) && forall r :: off <= r < q ==> !CutLine(s, off, r)
    requires q <= e <= |s| && '\n' !in s[q..e] && (e == |s| || s[e] == '\n')
    ensures PodEnd(s, off) == if e < |s| then e + 1 else |s|
    decreases |s| - off
  {
    if q == off {
      FindIs(s, off, '\n', e);
    } else {
      assert !CutLine(s, off, off);
      var e0 := NextLine(s, off);
      LaterLines(s, off, e0, q);
      var next := e0 + 1;
      assert CutLine(s, next, q);
      forall r | next <= r < q ensures !CutLine(s, next, r) { assert !CutLine(s, off, r); }
      PodEndsAtCut(s, next, q, e);
    }
  }

  /** Without such a line it goes to the end of the text. */
  lemma {:induction false} PodEndsWithText(s: string, off: nat)
    requires off <= |s| && forall q :: off <= q <= |s| ==> !CutLine(s, off, q)
    ensures PodEnd(s, off) == |s|
    decreases |s| - off
  {
    assert !CutLine(s, off, off);
    var e0 := NextLine(s, off);
    if e0 < |s| {
      var next := e0 + 1;
      forall r | next <= r <= |s| ensures !CutLine(s, next, r) { assert !CutLine(s, off, r); }
      PodEndsWithText(s, next);
    }
  }

  /** A documentation block starts at the start of a line, with "=" and a letter. */
  lemma {:induction false} PodTakenOut(s: string, spec: Spec, p: nat)
    requires ValidSpec(spec) && p + 1 < |s| && Reaches(s, 0, spec, p) && ScanString(s, p, spec).None?
    requires spec.podBlocks && LineStart(s, p) && s[p] == '=' && IsLetter(s[p + 1]) && p < CutOff(s, spec.skipAfter)
    ensures TakenOut(s, spec, p, PodEnd(s, p))
  {
    hide ScanString, TakenOut, PodEnd;
    assert PodStart(s, p, spec);
    assert NextToken(s, p, spec) == Token(PodEnd(s, p), true);
    ProseIsTakenOut(s, spec, p);
  }

  // ----- behind the end of the source

  /** A line at or before `k` starts with the marker. */
  ghost predicate MarkedBy(s: string, marker: string, k: nat)
    requires k < |s|
  {
    exists j: nat :: j <= k && LineStart(s, j) && StartsAt(s, j, marker)
  }

  lemma {:induction false} IndexMeans(s: string, i: nat, needle: string)
    requires i <= |s|
    ensures var r := Index(s, i, needle);
            forall k :: i <= k && (r < 0 || k < r) ==> !StartsAt(s, k, needle)
    decreases |s| - i
  {
    if !StartsAt(s, i, needle) && i < |s| { IndexMeans(s, i + 1, needle); }
  }

  lemma {:induction false} BehindNewline(s: string, j: nat, marker: string)
    requires 0 < j <= |s|
    ensures StartsAt(s, j - 1, "\n" + marker) <==> s[j - 1] == '\n' && StartsAt(s, j, marker)
  {
    var needle := "\n" + marker;
    if j + |marker| <= |s| {
      assert s[j - 1..j - 1 + |needle|] == [s[j - 1]] + s[j..j + |marker|];
      assert needle[1..] == marker;
    }
  }

  lemma {:induction false} MarkerIff(s: string, marker: string, k: nat)
    requires k < |s|
    ensures MarkerAt(s, marker) <= k <==> MarkedBy(s, marker, k)
  {
    var r := Index(s, 0, "\n" + marker);
    IndexMeans(s, 0, "\n" + marker);
    hide Index, StartsAt;
    forall j | 0 < j <= k ensures StartsAt(s, j - 1, "\n" + marker) <==> LineStart(s, j) && StartsAt(s, j, marker) {
      BehindNewline(s, j, marker);
    }
    if MarkerAt(s, marker) <= k {
      if StartsAt(s, 0, marker) {
        assert LineStart(s, 0);
      } else {
        assert LineStart(s, r + 1) && StartsAt(s, r + 1, marker);
      }
    }
  }

  /** From the first line on that starts with an end marker, everything is taken out. */
  lemma {:induction false} EndedIff(s: string, markers: seq<string>, k: nat)
    requires k < |s|
    ensures CutOff(s, markers) <= k <==> exists m :: m in markers && MarkedBy(s, m, k)
  {
    if markers != [] {
      var n := |markers| - 1;
      EndedIff(s, markers[..n], k);
      MarkerIff(s, markers[n], k);
      assert markers == markers[..n] + [markers[n]];
      hide MarkerAt, MarkedBy;
    }
  }

  lemma {:induction false} EndIsTakenOut(s: string, spec: Spec, k: nat, m: string)
    requires ValidSpec(spec) && k < |s| && m in spec.skipAfter && MarkedBy(s, m, k)
    ensures Blanked(s, spec)[k] == if s[k] == '\n' then '\n' else ' '
  {
    EndedIff(s, spec.skipAfter, k);
    hide MarkedBy, CutOff, InProse;
  }

  // ----- positions

  /** The newlines before an offset. */
  function NewlinesBefore(s: string, n: nat): set<nat>
    requires n <= |s|
  {
    set k: nat | k < n && s[k] == '\n'
  }

  lemma {:induction false} NewlinesAre(s: string, n: nat)
    requires n <= |s|
    ensures Newlines(s[..n]) == |NewlinesBefore(s, n)|
    decreases n
  {
    if n == 0 {
      assert NewlinesBefore(s, n) == {} && s[..n] == "";
    } else {
      NewlinesAre(s, n - 1);
      assert s[..n][..n - 1] == s[..n - 1];
      assert NewlinesBefore(s, n) == NewlinesBefore(s, n - 1) + (if s[n - 1] == '\n' then {n - 1} else {});
    }
  }

  /** An offset is on the line after as many newlines as come before it, in the column counted from its line's start. */
  lemma {:induction false} PositionIs(s: string, offset: nat, start: nat)
    requires start <= offset <= |s| && LineStart(s, start) && '\n' !in s[start..offset]
    ensures PosAt(s, offset).line == 1 + |NewlinesBefore(s, offset)|
    ensures PosAt(s, offset).col == 1 + offset - start
  {
    var t := s[..offset];
    NewlinesAre(s, offset);
    var i := LastIndexAny(t, "\n");
    forall k | start <= k < offset ensures t[k] != '\n' { assert t[k] == s[start..offset][k - start]; }
    assert start > 0 ==> t[start - 1] == '\n';
    hide Newlines;
    assert i == start - 1;
  }
}

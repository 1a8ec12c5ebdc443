/**
 Bracket- and quote-aware splitting (internal/detect/lineengine/slice.go, parse.go): splitTopLevel,
 splitTopLevelOp, balanced and sliceArgs walk a text in the same way and differ in where they cut.
 */
module Splitting {
  import opened Strs
  import opened Literals
  import opened Blanking

  predicate Opens(c: char) {
    c == '(' || c == '[' || c == '{'
  }

  predicate Closes(c: char) {
    c == ')' || c == ']' || c == '}'
  }

  /** Where to cut: the depth at which separators count, and how wide one is at each place, 0 for none. */
  datatype Cutter = Cutter(level: int, width: nat -> nat)

  /** One step of the walk: the next place, the depth there, and whether a separator was passed. */
  datatype Move = Move(next: nat, depth: int, cut: bool)

  function Step(s: string, spec: Spec, c: Cutter, i: nat, depth: int): (m: Move)
    requires i < |s| && ValidSpec(spec)
    ensures i < m.next <= |s| && depth - 1 <= m.depth <= depth + 1
    ensures m.cut ==> m.depth == depth == c.level && m.next == i + c.width(i) && !Opens(s[i]) && !Closes(s[i])
  {
    var lit := ScanString(s, i, spec);
    if lit.Some? then Move(lit.value.end, depth, false)
    else if Opens(s[i]) then Move(i + 1, depth + 1, false)
    else if Closes(s[i]) then Move(i + 1, depth - 1, false)
    else if depth == c.level && 0 < c.width(i) <= |s| - i then Move(i + c.width(i), depth, true)
    else Move(i + 1, depth, false)
  }

  /** The bracket depth at `p`, if the walk from `i` stops there: not inside a literal or a separator. */
  function DepthAt(s: string, spec: Spec, c: Cutter, i: nat, depth: int, p: nat): Option<int>
    requires i <= |s| && ValidSpec(spec)
    decreases |s| - i
  {
    if p == i then Some(depth)
    else if i < p && i < |s| then
      var m := Step(s, spec, c, i, depth);
      DepthAt(s, spec, c, m.next, m.depth, p)
    else None
  }

  /** A separator stands at `p`, at the depth that counts and outside every literal. */
  predicate CutAt(s: string, spec: Spec, c: Cutter, i: nat, depth: int, p: nat)
    requires i <= |s| && ValidSpec(spec)
  {
    var d := DepthAt(s, spec, c, i, depth, p);
    p < |s| && d.Some? && Step(s, spec, c, p, d.value).cut
  }

  /** The pieces between separators, for a walk at `i` whose piece began at `start`. */
  function Pieces(s: string, spec: Spec, c: Cutter, i: nat, depth: int, start: nat): (out: seq<string>)
    requires start <= i <= |s| && ValidSpec(spec)
    ensures |out| >= 1
    decreases |s| - i
  {
    if i == |s| then [s[start..]]
    else
      var m := Step(s, spec, c, i, depth);
      if m.cut then [s[start..i]] + Pieces(s, spec, c, m.next, m.depth, m.next)
      else Pieces(s, spec, c, m.next, m.depth, start)
  }

  /** Every separator the cutter finds is the text `op`. */
  ghost predicate CutsAre(s: string, c: Cutter, op: string) {
    op != "" && forall p: nat :: p < |s| && c.width(p) > 0 ==> c.width(p) == |op| && StartsAt(s, p, op)
  }

  lemma PiecesFrom(s: string, from: nat, i: nat)
    requires from <= i <= |s|
    ensures s[from..] == s[from..i] + s[i..]
  {
  }

  /** The pieces joined by the separator are the text. */
  lemma {:induction false} PiecesRejoin(s: string, spec: Spec, c: Cutter, op: string, i: nat, depth: int, start: nat)
    requires start <= i <= |s| && ValidSpec(spec) && CutsAre(s, c, op)
    ensures Strs.Join(Pieces(s, spec, c, i, depth, start), op) == s[start..]
    decreases |s| - i
  {
    if i < |s| {
      hide Step;
      var m := Step(s, spec, c, i, depth);
      if m.cut {
        PiecesRejoin(s, spec, c, op, m.next, m.depth, m.next);
        var rest := Pieces(s, spec, c, m.next, m.depth, m.next);
        assert ([s[start..i]] + rest)[1..] == rest;
        PiecesFrom(s, start, i);
        PiecesFrom(s, i, m.next);
        assert s[i..m.next] == op;
      } else {
        PiecesRejoin(s, spec, c, op, m.next, m.depth, start);
      }
    }
  }

  /** Where piece `k` ends, counted from where the first one starts. */
  function EndOf(out: seq<string>, gap: nat, k: nat): nat
    requires k < |out|
  {
    if k == 0 then |out[0]| else |out[0]| + gap + EndOf(out[1..], gap, k - 1)
  }

  /** One of the pieces but the last ends at `p`. */
  ghost predicate Boundary(out: seq<string>, gap: nat, start: nat, p: nat) {
    exists k :: 0 <= k < |out| - 1 && p == start + EndOf(out, gap, k)
  }

  lemma BoundaryCons(out: seq<string>, rest: seq<string>, gap: nat, start: nat, i: nat, p: nat)
    requires rest != [] && out != [] && out == [out[0]] + rest && start + |out[0]| == i
    ensures Boundary(out, gap, start, p) <==> p == i || Boundary(rest, gap, i + gap, p)
  {
    assert out[1..] == rest;
    if Boundary(out, gap, start, p) {
      var k :| 0 <= k < |out| - 1 && p == start + EndOf(out, gap, k);
      if k > 0 {
        assert p == i + gap + EndOf(rest, gap, k - 1);
      }
    }
    if Boundary(rest, gap, i + gap, p) {
      var k :| 0 <= k < |rest| - 1 && p == i + gap + EndOf(rest, gap, k);
      assert p == start + EndOf(out, gap, k + 1);
    }
    assert i == start + EndOf(out, gap, 0);
  }

  /** No piece ends before the walk has come. */
  lemma {:induction false} PiecesReach(s: string, spec: Spec, c: Cutter, gap: nat, i: nat, depth: int, start: nat, p: nat)
    requires start <= i <= |s| && ValidSpec(spec) && Boundary(Pieces(s, spec, c, i, depth, start), gap, start, p)
    requires forall q :: c.width(q) == 0 || c.width(q) == gap
    ensures p >= i
    decreases |s| - i
  {
    hide Step;
    if i < |s| {
      var m := Step(s, spec, c, i, depth);
      if m.cut {
        var rest := Pieces(s, spec, c, m.next, m.depth, m.next);
        var out := [s[start..i]] + rest;
        var k :| 0 <= k < |out| - 1 && p == start + EndOf(out, gap, k);
        assert |out[0]| == i - start;
      } else {
        PiecesReach(s, spec, c, gap, m.next, m.depth, start, p);
      }
    }
  }

  /** The text is cut exactly at the separators at the right depth outside literals. */
  lemma {:induction false} CutsExactly(s: string, spec: Spec, c: Cutter, gap: nat, i: nat, depth: int, start: nat, p: nat)
    requires start <= i <= |s| && ValidSpec(spec) && forall q :: c.width(q) == 0 || c.width(q) == gap
    ensures CutAt(s, spec, c, i, depth, p) <==> Boundary(Pieces(s, spec, c, i, depth, start), gap, start, p)
    decreases |s| - i
  {
    if i < |s| {
      var m := Step(s, spec, c, i, depth);
      CutStep(s, spec, c, i, depth, p);
      hide Step, CutAt, Boundary;
      if m.cut {
        var rest := Pieces(s, spec, c, m.next, m.depth, m.next);
        CutsExactly(s, spec, c, gap, m.next, m.depth, m.next, p);
        BoundaryCons([s[start..i]] + rest, rest, gap, start, i, p);
      } else {
        CutsExactly(s, spec, c, gap, m.next, m.depth, start, p);
        if Boundary(Pieces(s, spec, c, m.next, m.depth, start), gap, start, p) {
          PiecesReach(s, spec, c, gap, m.next, m.depth, start, p);
        }
      }
    }
  }

  /** A cut is here, or where the rest of the walk finds it. */
  lemma CutStep(s: string, spec: Spec, c: Cutter, i: nat, depth: int, p: nat)
    requires i < |s| && ValidSpec(spec)
    ensures var m := Step(s, spec, c, i, depth);
            CutAt(s, spec, c, i, depth, p) <==> (p == i && m.cut) || (p >= m.next && CutAt(s, spec, c, m.next, m.depth, p))
    ensures var m := Step(s, spec, c, i, depth); CutAt(s, spec, c, m.next, m.depth, p) ==> p >= m.next
  {
    hide Step;
    var m := Step(s, spec, c, i, depth);
    assert p < m.next ==> DepthAt(s, spec, c, m.next, m.depth, p) == None;
    if p > i {
      assert DepthAt(s, spec, c, i, depth, p) == DepthAt(s, spec, c, m.next, m.depth, p);
    } else if p < i {
      assert DepthAt(s, spec, c, i, depth, p) == None;
    } else {
      assert DepthAt(s, spec, c, i, depth, p) == Some(depth);
    }
  }

  lemma PiecesEnd(s: string, spec: Spec, c: Cutter, depth: int, start: nat)
    requires start <= |s| && ValidSpec(spec)
    ensures Pieces(s, spec, c, |s|, depth, start) == [s[start..]]
  {
  }

  lemma PiecesStep(s: string, spec: Spec, c: Cutter, i: nat, depth: int, start: nat, out: seq<string>)
    requires start <= i < |s| && ValidSpec(spec)
    ensures var m := Step(s, spec, c, i, depth);
            out + Pieces(s, spec, c, i, depth, start)
            == if m.cut then out + [s[start..i]] + Pieces(s, spec, c, m.next, m.depth, m.next)
               else out + Pieces(s, spec, c, m.next, m.depth, start)
  {
    hide Step;
  }

  // ----- splitTopLevel and splitTopLevelOp

  function SepCutter(s: string, sep: char): Cutter {
    Cutter(0, (p: nat) => if p < |s| && s[p] == sep then 1 else 0)
  }

  method SplitTopLevel(s: string, sep: char, spec: Spec) returns (out: seq<string>)
    requires ValidSpec(spec)
    ensures out == Pieces(s, spec, SepCutter(s, sep), 0, 0, 0)
  {
    hide ScanString, Pieces;
    ghost var c := SepCutter(s, sep);
    out := [];
    var depth: int, start: nat, i: nat := 0, 0, 0;
    while i < |s|
      invariant 0 <= start <= i <= |s|
      invariant out + Pieces(s, spec, c, i, depth, start) == Pieces(s, spec, c, 0, 0, 0)
      decreases |s| - i
    {
      var lit := ScanStringLoop(s, i, spec);
      PiecesStep(s, spec, c, i, depth, start, out);
      if lit.Some? {
        i := lit.value.end;
        continue;
      }
      if Opens(s[i]) {
        depth := depth + 1;
      } else if Closes(s[i]) {
        depth := depth - 1;
      } else if s[i] == sep && depth == 0 {
        out := out + [s[start..i]];
        start := i + 1;
      }
      i := i + 1;
    }
    PiecesEnd(s, spec, c, depth, start);
    out := out + [s[start..]];
  }

  /** "+=" and "++" are no concatenation, nor is a dot inside a member access or a number. */
  predicate PartOfLonger(t: string, i: nat, op: string)
    requires op != ""
  {
    var next, prev := ByteAt(t, i + |op|), ByteAt(t, i - 1);
    || next == '=' || next == op[0]
    || (op == "." && ((IsWord(prev) || prev == '}' || prev == ')') && IsWord(next)))
  }

  function OpCutter(t: string, op: string): Cutter
    requires op != ""
  {
    Cutter(0, (p: nat) => if IsOp(t, p, op) then |op| else 0)
  }

  predicate IsOp(t: string, i: nat, op: string)
    requires op != ""
  {
    StartsAt(t, i, op) && !PartOfLonger(t, i, op)
  }

  lemma OpStep(t: string, op: string, spec: Spec, i: nat, depth: int)
    requires i < |t| && ValidSpec(spec) && op != ""
    ensures var lit := ScanString(t, i, spec);
            Step(t, spec, OpCutter(t, op), i, depth)
            == if lit.Some? then Move(lit.value.end, depth, false)
               else if Opens(t[i]) then Move(i + 1, depth + 1, false)
               else if Closes(t[i]) then Move(i + 1, depth - 1, false)
               else if depth == 0 && IsOp(t, i, op) then Move(i + |op|, depth, true)
               else Move(i + 1, depth, false)
    ensures IsOp(t, i, op) ==> i + |op| <= |t|
  {
    hide ScanString;
  }

  method SplitTopLevelOp(t: string, op: string, spec: Spec) returns (out: seq<string>)
    requires ValidSpec(spec) && op != ""
    ensures out == Pieces(t, spec, OpCutter(t, op), 0, 0, 0)
  {
    hide ScanString, IsOp, Pieces, Step, OpCutter;
    ghost var c := OpCutter(t, op);
    out := [];
    var depth: int, start: nat, i: nat := 0, 0, 0;
    while i < |t|
      invariant 0 <= start <= i <= |t| && (out == [] ==> start == 0)
      invariant out + Pieces(t, spec, c, i, depth, start) == Pieces(t, spec, c, 0, 0, 0)
      decreases |t| - i
    {
      var lit := ScanStringLoop(t, i, spec);
      OpStep(t, op, spec, i, depth);
      PiecesStep(t, spec, c, i, depth, start, out);
      if lit.Some? {
        i := lit.value.end;
      } else if Opens(t[i]) {
        depth, i := depth + 1, i + 1;
      } else if Closes(t[i]) {
        depth, i := depth - 1, i + 1;
      } else if depth == 0 && IsOp(t, i, op) {
        out := out + [t[start..i]];
        i := i + |op|;
        start := i;
      } else {
        i := i + 1;
      }
    }
    PiecesEnd(t, spec, c, depth, start);
    if out == [] {
      assert t[0..] == t;
      out := [t];
    } else {
      out := out + [t[start..]];
    }
  }

  /** Splitting at a separator loses nothing and cuts exactly at depth 0 outside literals. */
  lemma SplitTopLevelExact(s: string, sep: char, spec: Spec)
    requires ValidSpec(spec)
    ensures var out := Pieces(s, spec, SepCutter(s, sep), 0, 0, 0);
            && Strs.Join(out, [sep]) == s
            && forall p: nat :: CutAt(s, spec, SepCutter(s, sep), 0, 0, p) <==> Boundary(out, 1, 0, p)
  {
    var c := SepCutter(s, sep);
    assert CutsAre(s, c, [sep]);
    PiecesRejoin(s, spec, c, [sep], 0, 0, 0);
    assert s[0..] == s;
    hide CutAt, Pieces, Boundary;
    forall p: nat ensures CutAt(s, spec, c, 0, 0, p) <==> Boundary(Pieces(s, spec, c, 0, 0, 0), 1, 0, p) {
      CutsExactly(s, spec, c, 1, 0, 0, 0, p);
    }
  }

  /** The same for an operator, which is not cut where it is part of a longer one. */
  lemma SplitTopLevelOpExact(t: string, op: string, spec: Spec)
    requires ValidSpec(spec) && op != ""
    ensures var out := Pieces(t, spec, OpCutter(t, op), 0, 0, 0);
            && Strs.Join(out, op) == t
            && forall p: nat :: CutAt(t, spec, OpCutter(t, op), 0, 0, p) <==> Boundary(out, |op|, 0, p)
  {
    var c := OpCutter(t, op);
    assert CutsAre(t, c, op);
    PiecesRejoin(t, spec, c, op, 0, 0, 0);
    assert t[0..] == t;
    hide CutAt, Pieces, Boundary;
    forall p: nat ensures CutAt(t, spec, c, 0, 0, p) <==> Boundary(Pieces(t, spec, c, 0, 0, 0), |op|, 0, p) {
      CutsExactly(t, spec, c, |op|, 0, 0, 0, p);
    }
  }

  // ----- depth is a count of brackets

  /** The text from `i` on with every literal written over by spaces. */
  function Unquoted(s: string, spec: Spec, i: nat): (r: string)
    requires i <= |s| && ValidSpec(spec)
    ensures |r| == |s| - i
    decreases |s| - i
  {
    if i == |s| then ""
    else
      var lit := ScanString(s, i, spec);
      if lit.Some? then seq(lit.value.end - i, k => ' ') + Unquoted(s, spec, lit.value.end)
      else [s[i]] + Unquoted(s, spec, i + 1)
  }

  /** Opening brackets less closing ones. */
  function Net(s: string): int {
    if s == "" then 0
    else (if s[0] in "([{" then 1 else if s[0] in ")]}" then -1 else 0) + Net(s[1..])
  }

  lemma {:induction false} NetConcat(x: string, y: string)
    ensures Net(x + y) == Net(x) + Net(y)
  {
    if x == "" {
      assert x + y == y;
    } else {
      NetConcat(x[1..], y);
      assert (x + y)[1..] == x[1..] + y;
    }
  }

  lemma {:induction false} NetSpaces(s: string)
    requires forall k :: 0 <= k < |s| ==> s[k] == ' '
    ensures Net(s) == 0
  {
    if s != "" { NetSpaces(s[1..]); }
  }

  /** What one step passes over counts for as many brackets as it changes the depth by. */
  lemma {:induction false} StepNet(s: string, spec: Spec, c: Cutter, i: nat, depth: int)
    requires i < |s| && ValidSpec(spec) && forall q :: c.width(q) <= 1
    ensures var m := Step(s, spec, c, i, depth);
            var here := Unquoted(s, spec, i);
            && here[m.next - i..] == Unquoted(s, spec, m.next)
            && m.depth == depth + Net(here[..m.next - i])
  {
    hide ScanString;
    var m, here := Step(s, spec, c, i, depth), Unquoted(s, spec, i);
    if ScanString(s, i, spec).Some? {
      NetSpaces(here[..m.next - i]);
    } else {
      assert here[..1] == [s[i]] && Net([s[i]][1..]) == 0;
    }
  }

  /** The depth at which the walk tests for a separator is the number of brackets open there, literals apart. */
  lemma {:induction false} DepthIsNet(s: string, sep: char, spec: Spec, i: nat, depth: int, p: nat)
    requires i <= |s| && ValidSpec(spec) && DepthAt(s, spec, SepCutter(s, sep), i, depth, p).Some?
    ensures i <= p <= |s|
    ensures DepthAt(s, spec, SepCutter(s, sep), i, depth, p).value == depth + Net(Unquoted(s, spec, i)[..p - i])
    decreases |s| - i
  {
    var c := SepCutter(s, sep);
    if i < p {
      StepNet(s, spec, c, i, depth);
      hide ScanString, Step, Unquoted;
      var m := Step(s, spec, c, i, depth);
      DepthIsNet(s, sep, spec, m.next, m.depth, p);
      var here, n := Unquoted(s, spec, i), m.next - i;
      assert here == here[..n] + here[n..];
      assert here[..p - i] == here[..n] + here[n..][..p - m.next];
      NetConcat(here[..n], here[n..][..p - m.next]);
    }
  }
}

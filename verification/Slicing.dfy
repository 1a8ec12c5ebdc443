/** Argument lists (internal/detect/lineengine/slice.go, parse.go): sliceArgs and balanced. */
module Slicing {
  import opened Strs
  import opened Literals
  import opened Splitting

  /** Arguments end at commas directly inside the call's brackets, in Perl also at fat commas. */
  function ArgCutter(s: string, fat: bool): Cutter {
    Cutter(1, (p: nat) =>
             if ByteAt(s, p) == ',' then 1 else if fat && ByteAt(s, p) == '=' && ByteAt(s, p + 1) == '>' then 2 else 0)
  }

  /** A bracket closes here, outside every literal. */
  predicate ClosesAt(s: string, spec: Spec, i: nat)
    requires i < |s| && ValidSpec(spec)
  {
    ScanString(s, i, spec).None? && Closes(s[i])
  }

  /** The bracket with which the walk from `i` first comes back to depth 0. */
  function CloseOf(s: string, spec: Spec, c: Cutter, i: nat, depth: int): (e: Option<nat>)
    requires i <= |s| && ValidSpec(spec)
    ensures e.Some? ==> i <= e.value < |s|
    decreases |s| - i
  {
    if i == |s| then None
    else
      var m := Step(s, spec, c, i, depth);
      if ClosesAt(s, spec, i) && m.depth == 0 then Some(i) else CloseOf(s, spec, c, m.next, m.depth)
  }

  predicate StartOk(s: string, i: nat, start: nat) {
    start <= i <= |s| || (i < |s| && start == i + 1 && Opens(s[i]))
  }

  /** The raw arguments up to that bracket, or to the end of the text. */
  function Slices(s: string, spec: Spec, c: Cutter, i: nat, depth: int, start: nat): seq<string>
    requires i <= |s| && ValidSpec(spec) && StartOk(s, i, start)
    decreases |s| - i
  {
    if i == |s| then if start < |s| then [s[start..]] else []
    else
      var m := Step(s, spec, c, i, depth);
      if ClosesAt(s, spec, i) && m.depth == 0 then [s[start..i]]
      else if m.cut then [s[start..i]] + Slices(s, spec, c, m.next, m.depth, m.next)
      else Slices(s, spec, c, m.next, m.depth, start)
  }

  /** appendArg: an argument is trimmed, and an empty first one is dropped. */
  function AppendArg(args: seq<string>, s: string): seq<string> {
    if TrimSpace(s) == "" && args == [] then args else args + [TrimSpace(s)]
  }

  function Collect(args: seq<string>, raw: seq<string>): seq<string>
    decreases |raw|
  {
    if raw == [] then args else Collect(AppendArg(args, raw[0]), raw[1..])
  }

  lemma CollectCons(args: seq<string>, x: string, raw: seq<string>)
    ensures Collect(args, [x] + raw) == Collect(AppendArg(args, x), raw)
  {
    assert ([x] + raw)[1..] == raw;
  }

  lemma SlicesStep(s: string, spec: Spec, c: Cutter, i: nat, depth: int, start: nat, args: seq<string>)
    requires i < |s| && ValidSpec(spec) && StartOk(s, i, start)
    ensures var m := Step(s, spec, c, i, depth);
            && (ClosesAt(s, spec, i) && m.depth == 0 ==>
                  start <= i && Collect(args, Slices(s, spec, c, i, depth, start)) == AppendArg(args, s[start..i]))
            && (m.cut ==> start <= i && Collect(args, Slices(s, spec, c, i, depth, start))
                                       == Collect(AppendArg(args, s[start..i]), Slices(s, spec, c, m.next, m.depth, m.next)))
            && (!(ClosesAt(s, spec, i) && m.depth == 0) && !m.cut ==>
                  StartOk(s, m.next, start) && Slices(s, spec, c, i, depth, start) == Slices(s, spec, c, m.next, m.depth, start))
            && CloseOf(s, spec, c, i, depth)
               == if ClosesAt(s, spec, i) && m.depth == 0 then Some(i) else CloseOf(s, spec, c, m.next, m.depth)
  {
    hide AppendArg, ScanString;
    var m := Step(s, spec, c, i, depth);
    if ClosesAt(s, spec, i) && m.depth == 0 {
      CollectCons(args, s[start..i], []);
      assert [s[start..i]] + [] == [s[start..i]];
    } else if m.cut {
      CollectCons(args, s[start..i], Slices(s, spec, c, m.next, m.depth, m.next));
    }
  }

  /** An unbalanced list gives back what was read. */
  lemma SlicesEnd(s: string, spec: Spec, c: Cutter, depth: int, start: nat, args: seq<string>)
    requires ValidSpec(spec) && StartOk(s, |s|, start)
    ensures Collect(args, Slices(s, spec, c, |s|, depth, start))
         == if start < |s| then AppendArg(args, s[start..]) else args
    ensures CloseOf(s, spec, c, |s|, depth) == None
  {
    hide AppendArg;
    if start < |s| {
      CollectCons(args, s[start..], []);
      assert [s[start..]] + [] == [s[start..]];
    }
  }

  /** The walk's step, as the source's switch takes it. */
  lemma ArgStep(s: string, spec: Spec, i: nat, depth: int)
    requires i < |s| && ValidSpec(spec)
    ensures var lit := ScanString(s, i, spec);
            Step(s, spec, ArgCutter(s, spec.fatComma), i, depth)
            == if lit.Some? then Move(lit.value.end, depth, false)
               else if Opens(s[i]) then Move(i + 1, depth + 1, false)
               else if Closes(s[i]) then Move(i + 1, depth - 1, false)
               else if depth == 1 && s[i] == ',' then Move(i + 1, depth, true)
               else if depth == 1 && s[i] == '=' && spec.fatComma && ByteAt(s, i + 1) == '>' then Move(i + 2, depth, true)
               else Move(i + 1, depth, false)
    ensures ClosesAt(s, spec, i) <==> ScanString(s, i, spec).None? && Closes(s[i])
    ensures ByteAt(s, i + 1) == '>' ==> i + 2 <= |s|
  {
    hide ScanString;
  }

  /** The walk over an argument list, from its opening bracket. */
  method SliceFrom(s: string, open: nat, spec: Spec) returns (args: seq<string>, close: Option<nat>)
    requires ValidSpec(spec) && open < |s| && StartOk(s, open, open + 1)
    ensures var c := ArgCutter(s, spec.fatComma);
            close == CloseOf(s, spec, c, open, 0) && args == Collect([], Slices(s, spec, c, open, 0, open + 1))
  {
    hide ScanString, Slices, CloseOf, Collect, AppendArg, ArgCutter, Step, ClosesAt, ByteAt;
    ghost var c := ArgCutter(s, spec.fatComma);
    args := [];
    var depth: int, start: nat, i: nat := 0, open + 1, open;
    while i < |s|
      invariant i <= |s| && StartOk(s, i, start)
      invariant Collect(args, Slices(s, spec, c, i, depth, start)) == Collect([], Slices(s, spec, c, open, 0, open + 1))
      invariant CloseOf(s, spec, c, i, depth) == CloseOf(s, spec, c, open, 0)
      decreases |s| - i
    {
      var lit := ScanStringLoop(s, i, spec);
      SlicesStep(s, spec, c, i, depth, start, args);
      ArgStep(s, spec, i, depth);
      if lit.Some? {
        i := lit.value.end;
      } else if Opens(s[i]) {
        depth, i := depth + 1, i + 1;
      } else if Closes(s[i]) {
        depth := depth - 1;
        if depth == 0 {
          return AppendArg(args, s[start..i]), Some(i);
        }
        i := i + 1;
      } else if depth == 1 && s[i] == ',' {
        args := AppendArg(args, s[start..i]);
        start, i := i + 1, i + 1;
      } else if depth == 1 && s[i] == '=' && spec.fatComma && ByteAt(s, i + 1) == '>' {
        args := AppendArg(args, s[start..i]);
        start, i := i + 2, i + 2;
      } else {
        i := i + 1;
      }
    }
    SlicesEnd(s, spec, c, depth, start, args);
    if start < |s| {
      args := AppendArg(args, s[start..]);
    }
    close := None;
  }

  /** sliceArgs: the arguments of the call whose bracket opens at `open`, and where the call ends. */
  method SliceArgs(s: string, open: nat, spec: Spec) returns (args: seq<string>, end: nat, ok: bool)
    requires ValidSpec(spec)
    ensures !(open < |s| && s[open] == '(') ==> !ok && args == [] && end == open
    ensures open < |s| && s[open] == '(' ==>
              var c := ArgCutter(s, spec.fatComma);
              var close := CloseOf(s, spec, c, open, 0);
              && args == Collect([], Slices(s, spec, c, open, 0, open + 1))
              && (if close.Some? then ok && end == close.value + 1 else end == |s| && ok == (|args| > 0))
  {
    if open >= |s| || s[open] != '(' {
      return [], open, false;
    }
    var close: Option<nat>;
    args, close := SliceFrom(s, open, spec);
    if close.Some? {
      end, ok := close.value + 1, true;
    } else {
      end, ok := |s|, |args| > 0;
    }
  }

  // ----- the first return to depth 0

  /** The depth stays positive wherever the walk stops up to `e`. */
  ghost predicate StaysInside(s: string, spec: Spec, c: Cutter, i: nat, depth: int, e: nat)
    requires i <= |s| && ValidSpec(spec)
  {
    forall p: nat :: p <= e ==> var d := DepthAt(s, spec, c, i, depth, p); d.Some? ==> d.value >= 1
  }

  lemma InsideStep(s: string, spec: Spec, c: Cutter, i: nat, depth: int, e: nat)
    requires i < |s| && ValidSpec(spec) && depth >= 1
    requires var m := Step(s, spec, c, i, depth); StaysInside(s, spec, c, m.next, m.depth, e)
    ensures StaysInside(s, spec, c, i, depth, e)
  {
    hide Step;
    var m := Step(s, spec, c, i, depth);
    forall p: nat | p <= e && DepthAt(s, spec, c, i, depth, p).Some?
      ensures DepthAt(s, spec, c, i, depth, p).value >= 1
    {
      if p != i {
        assert DepthAt(s, spec, c, i, depth, p) == DepthAt(s, spec, c, m.next, m.depth, p);
      }
    }
  }

  lemma {:induction false} CloseIsFirst(s: string, spec: Spec, c: Cutter, i: nat, depth: int)
    requires i <= |s| && ValidSpec(spec) && depth >= 1
    ensures var e := CloseOf(s, spec, c, i, depth);
            if e.None? then StaysInside(s, spec, c, i, depth, |s|)
            else ClosesAt(s, spec, e.value) && DepthAt(s, spec, c, i, depth, e.value) == Some(1)
                 && StaysInside(s, spec, c, i, depth, e.value)
    decreases |s| - i
  {
    hide Step, ClosesAt;
    if i < |s| {
      var m := Step(s, spec, c, i, depth);
      StepCloses(s, spec, c, i, depth);
      var e := CloseOf(s, spec, c, i, depth);
      if ClosesAt(s, spec, i) && m.depth == 0 {
        assert forall p: nat :: p < i ==> DepthAt(s, spec, c, i, depth, p) == None;
      } else {
        CloseIsFirst(s, spec, c, m.next, m.depth);
        InsideStep(s, spec, c, i, depth, if e.None? then |s| else e.value);
        if e.Some? {
          assert DepthAt(s, spec, c, i, depth, e.value) == DepthAt(s, spec, c, m.next, m.depth, e.value);
        }
      }
    }
  }

  /** Only a closing bracket lowers the depth, by one. */
  lemma StepCloses(s: string, spec: Spec, c: Cutter, i: nat, depth: int)
    requires i < |s| && ValidSpec(spec)
    ensures var m := Step(s, spec, c, i, depth); if ClosesAt(s, spec, i) then m.depth == depth - 1 else m.depth >= depth
  {
  }

  /** The call ends just after the first return to depth 0, and nowhere when there is none. */
  lemma SliceEndsAtFirstReturn(s: string, open: nat, spec: Spec)
    requires ValidSpec(spec) && open < |s| && s[open] == '(' && ScanString(s, open, spec).None?
    ensures var c := ArgCutter(s, spec.fatComma);
            var e := CloseOf(s, spec, c, open, 0);
            if e.None? then StaysInside(s, spec, c, open + 1, 1, |s|)
            else e.value > open && ClosesAt(s, spec, e.value) && DepthAt(s, spec, c, open, 0, e.value) == Some(1)
                 && StaysInside(s, spec, c, open + 1, 1, e.value)
  {
    var c := ArgCutter(s, spec.fatComma);
    assert Step(s, spec, c, open, 0) == Move(open + 1, 1, false);
    CloseIsFirst(s, spec, c, open + 1, 1);
  }

  // ----- where arguments are cut

  /** An argument by the positions where it begins and ends. */
  datatype Span = Span(start: nat, end: nat)

  predicate IsText(s: string, span: Span, t: string) {
    span.start <= span.end <= |s| && t == s[span.start..span.end]
  }

  /** The same walk, keeping positions. */
  function Spans(s: string, spec: Spec, c: Cutter, i: nat, depth: int, start: nat): seq<Span>
    requires i <= |s| && ValidSpec(spec) && StartOk(s, i, start)
    decreases |s| - i
  {
    if i == |s| then if start < |s| then [Span(start, |s|)] else []
    else
      var m := Step(s, spec, c, i, depth);
      if ClosesAt(s, spec, i) && m.depth == 0 then [Span(start, i)]
      else if m.cut then [Span(start, i)] + Spans(s, spec, c, m.next, m.depth, m.next)
      else Spans(s, spec, c, m.next, m.depth, start)
  }

  ghost predicate EndsAt(spans: seq<Span>, p: nat) {
    exists k :: 0 <= k < |spans| && spans[k].end == p
  }

  lemma EndsCons(x: Span, rest: seq<Span>, p: nat)
    ensures EndsAt([x] + rest, p) <==> x.end == p || EndsAt(rest, p)
  {
    var all := [x] + rest;
    if EndsAt(rest, p) {
      var k :| 0 <= k < |rest| && rest[k].end == p;
      assert all[k + 1].end == p;
    }
    if x.end == p { assert all[0].end == p; }
  }

  /** Where the walk ends: at the call's closing bracket, or with the text. */
  function Limit(s: string, spec: Spec, c: Cutter, i: nat, depth: int): (e: nat)
    requires i <= |s| && ValidSpec(spec)
    ensures i <= e <= |s|
  {
    var e := CloseOf(s, spec, c, i, depth);
    if e.Some? then e.value else |s|
  }

  /** An argument ends where there is a separator at the right depth outside literals, and there only. */
  lemma {:induction false} SpansExact(s: string, spec: Spec, c: Cutter, i: nat, depth: int, start: nat, p: nat)
    requires i <= |s| && ValidSpec(spec) && StartOk(s, i, start)
    ensures EndsAt(Spans(s, spec, c, i, depth, start), p) ==> i <= p <= Limit(s, spec, c, i, depth)
    ensures p < Limit(s, spec, c, i, depth) ==>
              (EndsAt(Spans(s, spec, c, i, depth, start), p) <==> CutAt(s, spec, c, i, depth, p))
    decreases |s| - i
  {
    if i < |s| {
      var m := Step(s, spec, c, i, depth);
      CutStep(s, spec, c, i, depth, p);
      hide Step, CutAt, EndsAt;
      EndsCons(Span(start, i), [], p);
      assert [Span(start, i)] + [] == [Span(start, i)];
      assert !EndsAt([], p) by { NoEnds(p); }
      if ClosesAt(s, spec, i) && m.depth == 0 {
      } else if m.cut {
        SpansExact(s, spec, c, m.next, m.depth, m.next, p);
        EndsCons(Span(start, i), Spans(s, spec, c, m.next, m.depth, m.next), p);
      } else {
        SpansExact(s, spec, c, m.next, m.depth, start, p);
      }
    }
  }

  lemma NoEnds(p: nat)
    ensures !EndsAt([], p)
  {
  }

  /** The arguments follow each other with one separator between two of them, from `start` to where the walk ends. */
  ghost predicate Chained(s: string, c: Cutter, spans: seq<Span>, start: nat, limit: nat) {
    if spans == [] then start >= limit
    else
      && spans[0].start == start && start <= spans[0].end <= limit
      && if spans[0].end == limit then |spans| == 1
         else c.width(spans[0].end) > 0 && Chained(s, c, spans[1..], spans[0].end + c.width(spans[0].end), limit)
  }

  lemma {:induction false} SpansChained(s: string, spec: Spec, c: Cutter, i: nat, depth: int, start: nat)
    requires i <= |s| && ValidSpec(spec) && StartOk(s, i, start)
    ensures Chained(s, c, Spans(s, spec, c, i, depth, start), start, Limit(s, spec, c, i, depth))
    decreases |s| - i
  {
    if i < |s| {
      var m := Step(s, spec, c, i, depth);
      assert ClosesAt(s, spec, i) ==> !Opens(s[i]);
      hide Step, ClosesAt;
      if ClosesAt(s, spec, i) && m.depth == 0 {
      } else if m.cut {
        SpansChained(s, spec, c, m.next, m.depth, m.next);
        var rest := Spans(s, spec, c, m.next, m.depth, m.next);
        assert ([Span(start, i)] + rest)[1..] == rest;
      } else {
        SpansChained(s, spec, c, m.next, m.depth, start);
      }
    }
  }

  /** The raw arguments are the texts at these positions. */
  lemma {:induction false} SlicesAreSpans(s: string, spec: Spec, c: Cutter, i: nat, depth: int, start: nat)
    requires i <= |s| && ValidSpec(spec) && StartOk(s, i, start)
    ensures var spans, out := Spans(s, spec, c, i, depth, start), Slices(s, spec, c, i, depth, start);
            |out| == |spans|
            && forall k :: 0 <= k < |out| ==> IsText(s, spans[k], out[k])
    decreases |s| - i
  {
    if i < |s| {
      var m := Step(s, spec, c, i, depth);
      assert ClosesAt(s, spec, i) ==> !Opens(s[i]);
      hide Step, ClosesAt;
      if ClosesAt(s, spec, i) && m.depth == 0 {
      } else if m.cut {
        SlicesAreSpans(s, spec, c, m.next, m.depth, m.next);
      } else {
        SlicesAreSpans(s, spec, c, m.next, m.depth, start);
      }
    }
  }

  /**
   The arguments of a call, before trimming, are the texts between its bracket and its end, cut
   exactly at the separators that stand at depth 1 outside literals.
   */
  lemma ArgumentsCutExactly(s: string, open: nat, spec: Spec)
    requires ValidSpec(spec) && open < |s| && s[open] == '('
    ensures var c := ArgCutter(s, spec.fatComma);
            var spans, out := Spans(s, spec, c, open, 0, open + 1), Slices(s, spec, c, open, 0, open + 1);
            var limit := Limit(s, spec, c, open, 0);
            && |out| == |spans|
            && (forall k :: 0 <= k < |out| ==> IsText(s, spans[k], out[k]))
            && Chained(s, c, spans, open + 1, limit)
            && forall p: nat :: p < limit ==> (EndsAt(spans, p) <==> CutAt(s, spec, c, open, 0, p))
  {
    var c := ArgCutter(s, spec.fatComma);
    hide Spans, Slices, EndsAt, CutAt, Chained, Limit, ArgCutter;
    SlicesAreSpans(s, spec, c, open, 0, open + 1);
    SpansChained(s, spec, c, open, 0, open + 1);
    forall p: nat | p < Limit(s, spec, c, open, 0)
      ensures EndsAt(Spans(s, spec, c, open, 0, open + 1), p) <==> CutAt(s, spec, c, open, 0, p)
    {
      SpansExact(s, spec, c, open, 0, open + 1, p);
    }
  }

  // ----- balanced

  const NO_CUTS: Cutter := Cutter(0, (p: nat) => 0)

  ghost predicate NeverNegative(s: string, spec: Spec, i: nat, depth: int)
    requires i <= |s| && ValidSpec(spec)
  {
    forall p: nat :: var d := DepthAt(s, spec, NO_CUTS, i, depth, p); d.Some? ==> d.value >= 0
  }

  lemma NegativeStep(s: string, spec: Spec, i: nat, depth: int)
    requires i < |s| && ValidSpec(spec)
    ensures var m := Step(s, spec, NO_CUTS, i, depth);
            && (NeverNegative(s, spec, i, depth) <==> depth >= 0 && NeverNegative(s, spec, m.next, m.depth))
            && DepthAt(s, spec, NO_CUTS, i, depth, |s|) == DepthAt(s, spec, NO_CUTS, m.next, m.depth, |s|)
  {
    hide Step;
    var m := Step(s, spec, NO_CUTS, i, depth);
    assert DepthAt(s, spec, NO_CUTS, i, depth, i) == Some(depth);
    forall p: nat | p != i
      ensures DepthAt(s, spec, NO_CUTS, i, depth, p) == DepthAt(s, spec, NO_CUTS, m.next, m.depth, p)
    {
      if p < i {
        assert DepthAt(s, spec, NO_CUTS, m.next, m.depth, p) == None;
      }
    }
    assert DepthAt(s, spec, NO_CUTS, m.next, m.depth, i) == None;
  }

  /** Brackets outside literals are balanced: the depth is never negative and ends at 0. */
  method Balanced(s: string, spec: Spec) returns (ok: bool)
    requires ValidSpec(spec)
    ensures ok <==> NeverNegative(s, spec, 0, 0) && DepthAt(s, spec, NO_CUTS, 0, 0, |s|) == Some(0)
  {
    hide ScanString, NeverNegative, DepthAt, Step;
    var depth: int, i: nat := 0, 0;
    while i < |s|
      invariant i <= |s| && depth >= 0
      invariant NeverNegative(s, spec, 0, 0) <==> NeverNegative(s, spec, i, depth)
      invariant DepthAt(s, spec, NO_CUTS, 0, 0, |s|) == DepthAt(s, spec, NO_CUTS, i, depth, |s|)
      decreases |s| - i
    {
      var lit := ScanStringLoop(s, i, spec);
      NegativeStep(s, spec, i, depth);
      UncutStep(s, spec, i, depth);
      if lit.Some? {
        i := lit.value.end;
        continue;
      }
      if Opens(s[i]) {
        depth := depth + 1;
      } else if Closes(s[i]) {
        depth := depth - 1;
        if depth < 0 {
          NegativeNow(s, spec, i + 1, depth);
          return false;
        }
      }
      i := i + 1;
    }
    AtTheEnd(s, spec, depth);
    ok := depth == 0;
  }

  lemma UncutStep(s: string, spec: Spec, i: nat, depth: int)
    requires i < |s| && ValidSpec(spec)
    ensures var lit := ScanString(s, i, spec);
            Step(s, spec, NO_CUTS, i, depth)
            == if lit.Some? then Move(lit.value.end, depth, false)
               else Move(i + 1, if Opens(s[i]) then depth + 1 else if Closes(s[i]) then depth - 1 else depth, false)
  {
    hide ScanString;
  }

  lemma AtTheEnd(s: string, spec: Spec, depth: int)
    requires ValidSpec(spec)
    ensures NeverNegative(s, spec, |s|, depth) <==> depth >= 0
    ensures DepthAt(s, spec, NO_CUTS, |s|, depth, |s|) == Some(depth)
  {
    assert DepthAt(s, spec, NO_CUTS, |s|, depth, |s|) == Some(depth);
    assert forall p: nat :: DepthAt(s, spec, NO_CUTS, |s|, depth, p).Some? ==> p == |s|;
  }

  lemma NegativeNow(s: string, spec: Spec, i: nat, depth: int)
    requires i <= |s| && ValidSpec(spec) && depth < 0
    ensures !NeverNegative(s, spec, i, depth)
  {
    assert DepthAt(s, spec, NO_CUTS, i, depth, i) == Some(depth);
  }
}

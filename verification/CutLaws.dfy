/**
 Where a text is cut (internal/detect/lineengine/slice.go, parse.go), spelled out for each of the
 walks: separators, operators, and the arguments of a call.
 */
module CutLaws {
  import opened Strs
  import opened Literals
  import opened Splitting
  import opened Slicing

  predicate Bracket(c: char) {
    c in "([{" || c in ")]}"
  }

  /** The walk stops at `p`, at this depth, and no string literal starts there. */
  predicate StandsAt(s: string, spec: Spec, c: Cutter, i: nat, depth: int, p: nat, level: int)
    requires i <= |s| && ValidSpec(spec)
  {
    p < |s| && DepthAt(s, spec, c, i, depth, p) == Some(level) && ScanString(s, p, spec).None?
  }

  lemma {:induction false} CutMeans(s: string, spec: Spec, c: Cutter, i: nat, depth: int, p: nat)
    requires i <= |s| && ValidSpec(spec)
    ensures CutAt(s, spec, c, i, depth, p)
       <==> StandsAt(s, spec, c, i, depth, p, c.level) && !Bracket(s[p]) && 0 < c.width(p) <= |s| - p
  {
    hide DepthAt, ScanString;
  }

  /** A text is cut at the separator outside brackets and literals. */
  lemma {:induction false} SeparatorCuts(s: string, sep: char, spec: Spec, p: nat)
    requires ValidSpec(spec) && !Bracket(sep)
    ensures CutAt(s, spec, SepCutter(s, sep), 0, 0, p)
       <==> StandsAt(s, spec, SepCutter(s, sep), 0, 0, p, 0) && s[p] == sep
  {
    CutMeans(s, spec, SepCutter(s, sep), 0, 0, p);
    hide StandsAt, CutAt;
  }

  predicate WordChar(c: char) {
    'a' <= c <= 'z' || 'A' <= c <= 'Z' || '0' <= c <= '9' || c == '_'
  }

  predicate Behind(t: string, i: int, c: char) { 0 <= i < |t| && t[i] == c }

  predicate WordBehind(t: string, i: int) { 0 <= i < |t| && WordChar(t[i]) }
  predicate OperandBefore(t: string, i: int) {
    0 < i <= |t| && (WordChar(t[i - 1]) || t[i - 1] == '}' || t[i - 1] == ')')
  }

  /** "+" joins texts unless it is part of "++" or "+=". */
  lemma {:induction false} PlusCuts(t: string, spec: Spec, p: nat)
    requires ValidSpec(spec)
    ensures CutAt(t, spec, OpCutter(t, "+"), 0, 0, p)
       <==> StandsAt(t, spec, OpCutter(t, "+"), 0, 0, p, 0) && t[p] == '+'
            && !Behind(t, p + 1, '+') && !Behind(t, p + 1, '=')
  {
    CutMeans(t, spec, OpCutter(t, "+"), 0, 0, p);
    OneCharOp(t, p, "+");
    hide StandsAt, CutAt, StartsAt;
  }

  /** A dot joins texts unless it selects a member or stands in a number. */
  lemma {:induction false} DotCuts(t: string, spec: Spec, p: nat)
    requires ValidSpec(spec)
    ensures CutAt(t, spec, OpCutter(t, "."), 0, 0, p)
       <==> StandsAt(t, spec, OpCutter(t, "."), 0, 0, p, 0) && t[p] == '.'
            && !Behind(t, p + 1, '.') && !Behind(t, p + 1, '=') && !(OperandBefore(t, p) && WordBehind(t, p + 1))
  {
    CutMeans(t, spec, OpCutter(t, "."), 0, 0, p);
    OneCharOp(t, p, ".");
    hide StandsAt, CutAt, StartsAt;
  }

  lemma {:induction false} OneCharOp(t: string, p: nat, op: string)
    requires |op| == 1
    ensures StartsAt(t, p, op) <==> p < |t| && t[p] == op[0]
  {
    if p < |t| { assert t[p..p + 1] == [t[p]]; }
  }

  /** Arguments are cut at commas directly inside the call, and where the language says so at "=>". */
  lemma {:induction false} ArgumentCuts(s: string, open: nat, spec: Spec, p: nat)
    requires ValidSpec(spec) && open <= |s|
    ensures var c := ArgCutter(s, spec.fatComma);
            CutAt(s, spec, c, open, 0, p)
            <==> StandsAt(s, spec, c, open, 0, p, 1)
                 && (s[p] == ',' || (spec.fatComma && s[p] == '=' && Behind(s, p + 1, '>')))
  {
    var c := ArgCutter(s, spec.fatComma);
    CutMeans(s, spec, c, open, 0, p);
    assert p < |s| ==> ByteAt(s, p) == s[p];
    assert c.level == 1;
    hide StandsAt, CutAt;
  }

  /** A call ends at a closing bracket outside every literal. */
  lemma {:induction false} ClosingIs(s: string, spec: Spec, i: nat)
    requires i < |s| && ValidSpec(spec)
    ensures ClosesAt(s, spec, i) <==> ScanString(s, i, spec).None? && s[i] in ")]}"
  {
    hide ScanString;
  }

  // ----- trimmed arguments

  function Trimmed(raw: seq<string>): (r: seq<string>)
    ensures |r| == |raw| && forall k :: 0 <= k < |raw| ==> r[k] == TrimSpace(raw[k])
  {
    seq(|raw|, k requires 0 <= k < |raw| => TrimSpace(raw[k]))
  }

  /** The first `n` arguments are blank, and the next one, if there is one, is not. */
  predicate BlankUpTo(raw: seq<string>, n: nat) {
    && n <= |raw| && (forall k :: 0 <= k < n ==> TrimSpace(raw[k]) == "")
    && (n < |raw| ==> TrimSpace(raw[n]) != "")
  }

  lemma {:induction false} TrimmedCons(raw: seq<string>, args: seq<string>)
    requires raw != []
    ensures Trimmed(raw) == [TrimSpace(raw[0])] + Trimmed(raw[1..])
    ensures args + Trimmed(raw) == args + [TrimSpace(raw[0])] + Trimmed(raw[1..])
  {
    hide TrimSpace;
  }

  lemma {:induction false} CollectSome(args: seq<string>, raw: seq<string>)
    requires args != []
    ensures Collect(args, raw) == args + Trimmed(raw)
    decreases |raw|
  {
    hide TrimSpace;
    if raw != [] {
      TrimmedCons(raw, args);
      assert AppendArg(args, raw[0]) == args + [TrimSpace(raw[0])];
      CollectSome(args + [TrimSpace(raw[0])], raw[1..]);
    }
  }

  /** Blank arguments in front are dropped; from the first that says something on, each is kept, trimmed. */
  lemma {:induction false} ArgumentsAre(raw: seq<string>, n: nat)
    requires BlankUpTo(raw, n)
    ensures Collect([], raw) == Trimmed(raw[n..])
    decreases |raw|
  {
    hide TrimSpace;
    if n > 0 {
      assert raw[1..][n - 1..] == raw[n..];
      ArgumentsAre(raw[1..], n - 1);
    } else if raw != [] {
      assert raw[0..] == raw && AppendArg([], raw[0]) == [TrimSpace(raw[0])];
      CollectSome([TrimSpace(raw[0])], raw[1..]);
      TrimmedCons(raw, []);
    }
  }
}

/** What cleaning a path promises: a normal form, reached once, that agrees with RFC 3986. */
module PathLaws {
  import opened Strs
  import opened Paths

  // ----- splitting and joining

  predicate Plain(parts: seq<string>) {
    forall k :: 0 <= k < |parts| ==> '/' !in parts[k]
  }

  lemma JoinCons(x: string, rest: seq<string>)
    requires rest != []
    ensures Strs.Join([x] + rest, "/") == x + "/" + Strs.Join(rest, "/")
  {
    assert ([x] + rest)[1..] == rest;
  }

  lemma {:induction false} SplitPlain(s: string)
    ensures Plain(Split(s)) && Strs.Join(Split(s), "/") == s
  {
    var i := IndexByte(s, '/');
    if i >= 0 {
      SplitPlain(s[i + 1..]);
      var rest := Split(s[i + 1..]);
      assert Split(s) == [s[..i]] + rest && rest != [];
      hide Split;
      JoinCons(s[..i], rest);
      assert s == s[..i] + "/" + s[i + 1..];
    }
  }

  lemma SplitCons(x: string, s: string)
    requires '/' !in x
    ensures Split(x + "/" + s) == [x] + Split(s)
  {
    FirstSlash(x, s);
    assert (x + "/" + s)[..|x|] == x && (x + "/" + s)[|x| + 1..] == s;
  }

  lemma {:induction false} JoinSplit(parts: seq<string>)
    requires parts != [] && Plain(parts)
    ensures Split(Strs.Join(parts, "/")) == parts
  {
    if |parts| == 1 {
      assert parts == [parts[0]];
    } else {
      JoinSplit(parts[1..]);
      SplitCons(parts[0], Strs.Join(parts[1..], "/"));
      assert parts == [parts[0]] + parts[1..];
    }
  }

  lemma {:induction false} JoinSnoc(parts: seq<string>, x: string)
    requires parts != []
    ensures Strs.Join(parts + [x], "/") == Strs.Join(parts, "/") + "/" + x
  {
    assert (parts + [x])[1..] == parts[1..] + [x];
    if |parts| == 1 {
      assert parts[1..] + [x] == [x];
    } else {
      JoinSnoc(parts[1..], x);
    }
  }

  lemma SplitTrailing(s: string)
    ensures Split(s + "/") == Split(s) + [""]
  {
    hide Split;
    var parts := Split(s);
    SplitPlain(s);
    JoinSnoc(parts, "");
    JoinSplit(parts + [""]);
    assert s + "/" + "" == s + "/";
  }

  // ----- the segments that are kept

  predicate Solid(part: string) {
    part != "" && part != "." && part != ".." && '/' !in part
  }

  predicate AllSolid(parts: seq<string>) {
    forall k :: 0 <= k < |parts| ==> Solid(parts[k])
  }

  predicate DotFree(parts: seq<string>) {
    forall k :: 0 <= k < |parts| ==> parts[k] != "." && parts[k] != ".."
  }

  lemma {:induction false} KeptMembers(out: seq<string>, parts: seq<string>)
    requires AllSolid(out) && Plain(parts)
    ensures AllSolid(Kept(out, parts))
    ensures forall x :: x in Kept(out, parts) ==> x in out || x in parts
    decreases |parts|
  {
    if parts != [] {
      var x, rest := parts[0], parts[1..];
      if x == "." || x == "" {
        KeptMembers(out, rest);
      } else if x == ".." {
        KeptMembers(Pop(out), rest);
      } else {
        KeptMembers(out + [x], rest);
      }
    }
  }

  lemma {:induction false} KeptSolid(out: seq<string>, parts: seq<string>)
    requires AllSolid(parts)
    ensures Kept(out, parts) == out + parts
    decreases |parts|
  {
    if parts != [] {
      assert Solid(parts[0]);
      KeptSolid(out + [parts[0]], parts[1..]);
      assert out + parts == out + [parts[0]] + parts[1..];
    }
  }

  lemma {:induction false} KeptBlank(out: seq<string>, parts: seq<string>)
    ensures Kept(out, parts + [""]) == Kept(out, parts)
    decreases |parts|
  {
    if parts == [] {
      assert parts + [""] == [""] && [""][1..] == [];
    } else {
      var x := parts[0];
      assert (parts + [""])[1..] == parts[1..] + [""];
      KeptBlank(if x == "." || x == "" then out else if x == ".." then Pop(out) else out + [x], parts[1..]);
    }
  }

  /** The root in front is an empty segment, which counts for nothing. */
  lemma CleanOfRooted(s: string)
    ensures PathClean("/" + s) == Rooted(Kept([], Split(s)))
  {
    SplitCons("", s);
    assert "/" + s == "" + "/" + s;
    assert ([""] + Split(s))[1..] == Split(s);
  }

  // ----- the normal form

  predicate NormalSlashes(q: string) {
    q != "" && q[0] == '/' && !HasDoubleSlash(q) && (|q| > 1 ==> q[|q| - 1] != '/')
  }

  ghost predicate NormalPath(q: string) {
    NormalSlashes(q) && UpperEscapes(q)
  }

  lemma UpperParts(x: string, y: string)
    ensures UpperEscapes(x + "/" + y) <==> UpperEscapes(x) && UpperEscapes(y)
  {
    var s, n := x + "/" + y, |x|;
    assert s[n] == '/' && forall i :: 0 <= i < |y| ==> s[n + 1 + i] == y[i];
    assert forall i :: 0 <= i < n ==> s[i] == x[i];
    forall i ensures EscapeAt(s, i) <==> EscapeAt(x, i) || EscapeAt(y, i - n - 1) {
    }
    if UpperEscapes(s) {
      forall i | EscapeAt(y, i) ensures UpperHex(y[i + 1]) == y[i + 1] && UpperHex(y[i + 2]) == y[i + 2] {
        assert EscapeAt(s, n + 1 + i);
      }
    }
  }

  lemma {:induction false} UpperSplit(s: string)
    requires UpperEscapes(s)
    ensures forall x :: x in Split(s) ==> UpperEscapes(x)
  {
    var i := IndexByte(s, '/');
    if i >= 0 {
      assert s == s[..i] + "/" + s[i + 1..];
      UpperParts(s[..i], s[i + 1..]);
      UpperSplit(s[i + 1..]);
    }
  }

  lemma {:induction false} UpperJoin(parts: seq<string>)
    requires forall k :: 0 <= k < |parts| ==> UpperEscapes(parts[k])
    ensures UpperEscapes(Strs.Join(parts, "/"))
  {
    if |parts| > 1 {
      UpperJoin(parts[1..]);
      UpperParts(parts[0], Strs.Join(parts[1..], "/"));
    }
  }

  lemma {:induction false} SolidJoin(parts: seq<string>)
    requires parts != [] && AllSolid(parts)
    ensures var s := Strs.Join(parts, "/"); s != "" && s[0] != '/' && s[|s| - 1] != '/' && !HasDoubleSlash(s)
  {
    assert Solid(parts[0]);
    assert parts[0][0] in parts[0] && parts[0][|parts[0]| - 1] in parts[0];
    PlainHasNoDouble(parts[0]);
    if |parts| > 1 {
      SolidJoin(parts[1..]);
      DoubleAcross(parts[0], Strs.Join(parts[1..], "/"));
    }
  }

  /** A double slash lies in one of two joined parts or at their joint. */
  lemma DoubleAcross(x: string, y: string)
    ensures HasDoubleSlash(x + "/" + y) ==>
              HasDoubleSlash(x) || HasDoubleSlash(y) || (x != "" && x[|x| - 1] == '/') || (y != "" && y[0] == '/')
  {
    var s, n := x + "/" + y, |x|;
    assert forall i :: 0 <= i < n ==> s[i] == x[i];
    assert forall i :: 0 <= i < |y| ==> s[n + 1 + i] == y[i];
    if i :| 0 <= i < |s| - 1 && s[i] == '/' && s[i + 1] == '/' {
      if i > n {
        assert y[i - n - 1] == '/' && y[i - n] == '/';
      }
    }
  }

  /** Part of a path has no double slash unless the path does. */
  lemma DoubleWithin(s: string, i: nat, j: nat)
    requires i <= j <= |s|
    ensures HasDoubleSlash(s[i..j]) ==> HasDoubleSlash(s)
  {
    if HasDoubleSlash(s[i..j]) {
      var k :| 0 <= k < j - i - 1 && s[i..j][k] == '/' && s[i..j][k + 1] == '/';
      assert s[i + k] == '/' && s[i + k + 1] == '/';
    }
  }

  lemma PlainHasNoDouble(x: string)
    requires '/' !in x
    ensures !HasDoubleSlash(x)
  {
    assert forall i :: 0 <= i < |x| ==> x[i] in x;
  }

  /** A path rebuilt from solid segments is in normal form. */
  lemma RootedNormal(out: seq<string>)
    requires AllSolid(out)
    ensures NormalSlashes(Rooted(out))
    ensures DotFree(Split(Rooted(out)))
  {
    var s := Strs.Join(out, "/");
    assert "/" + s == "" + "/" + s;
    SplitCons("", s);
    DoubleAcross("", s);
    PlainHasNoDouble("");
    if out == [] {
      assert Split("") == [""];
    } else {
      SolidJoin(out);
      JoinSplit(out);
      PrependDotFree("", out);
    }
  }

  lemma {:induction false} SqueezedUpper(s: string)
    requires UpperEscapes(s)
    ensures UpperEscapes(Squeezed(s))
  {
    if |s| >= 2 {
      var t := s[1..];
      assert UpperEscapes(t) by {
        forall i | EscapeAt(t, i) ensures UpperHex(t[i + 1]) == t[i + 1] && UpperHex(t[i + 2]) == t[i + 2] {
          assert EscapeAt(s, i + 1);
        }
      }
      SqueezedUpper(t);
      var r, u := Squeezed(s), Squeezed(t);
      SqueezedHead(t);
      if r == [s[0]] + u {
        forall i | EscapeAt(r, i) ensures UpperHex(r[i + 1]) == r[i + 1] && UpperHex(r[i + 2]) == r[i + 2] {
          if i == 0 {
            SecondChar(t);
            assert EscapeAt(s, 0);
          } else {
            assert EscapeAt(u, i - 1);
          }
        }
      }
    }
  }

  lemma SecondChar(t: string)
    ensures t != "" && t[0] != '/' && |Squeezed(t)| > 1 ==> |t| > 1 && Squeezed(t)[1] == t[1]
  {
    if |t| > 1 {
      SqueezedHead(t[1..]);
    }
  }

  lemma LeadNormal(s: string)
    requires !HasDoubleSlash(s) && UpperEscapes(s)
    ensures var r := Lead(s); r != "" && r[0] == '/' && !HasDoubleSlash(r) && UpperEscapes(r)
  {
    assert "/" + s == "" + "/" + s;
    UpperParts("", s);
    DoubleAcross("", s);
    PlainHasNoDouble("");
  }

  lemma TrimNormal(r: string)
    requires r != "" && r[0] == '/' && !HasDoubleSlash(r) && UpperEscapes(r)
    ensures NormalPath(Trim(r))
  {
    var q := Trim(r);
    assert q == r[0..|q|];
    DoubleWithin(r, 0, |q|);
    forall i | EscapeAt(q, i) ensures EscapeAt(r, i) {
    }
    EndsWithSlash(r);
    if |q| > 1 && q != r {
      assert q[|q| - 1] == r[|r| - 2] && r[|r| - 1] == '/';
    }
  }

  lemma EndsWithSlash(r: string)
    ensures HasSuffix(r, "/") <==> r != "" && r[|r| - 1] == '/'
  {
    if r != "" {
      assert r[|r| - 1..] == [r[|r| - 1]];
    }
  }

  // ----- dot segments

  lemma ContainsLater(x: string, s: string, needle: string)
    requires Contains(s, needle)
    ensures Contains(x + s, needle)
  {
    var i :| 0 <= i <= |s| && needle <= s[i..];
    assert (x + s)[|x| + i..] == s[i..];
  }

  lemma DotsLater(x: string, s: string)
    requires HasDots(s)
    ensures HasDots(x + s)
  {
    if Contains(s, "/./") {
      ContainsLater(x, s, "/./");
    } else if Contains(s, "/../") {
      ContainsLater(x, s, "/../");
    } else {
      SuffixLater(x, s, "/.");
      SuffixLater(x, s, "/..");
    }
  }

  lemma SuffixLater(x: string, s: string, end: string)
    ensures HasSuffix(s, end) ==> HasSuffix(x + s, end)
  {
    if HasSuffix(s, end) {
      assert (x + s)[|x + s| - |end|..] == s[|s| - |end|..];
    }
  }

  lemma DotAtFront(x: string, s: string)
    requires x == "." || x == ".."
    ensures HasDots("/" + x) && HasDots("/" + x + "/" + s)
  {
    var r := "/" + x + "/" + s;
    assert r[0..] == r;
    if x == "." {
      assert "/./" <= r[0..];
      assert HasSuffix("/" + x, "/.");
    } else {
      assert "/../" <= r[0..];
      assert HasSuffix("/" + x, "/..");
    }
  }

  /** The search for dot segments misses none. */
  lemma {:induction false} NoDotsMeansDotFree(parts: seq<string>)
    requires parts != [] && Plain(parts) && !HasDots("/" + Strs.Join(parts, "/"))
    ensures DotFree(parts)
  {
    hide HasDots;
    var x := parts[0];
    if |parts| == 1 {
      if x == "." || x == ".." {
        DotAtFront(x, "");
        assert false;
      }
    } else {
      var s := Strs.Join(parts[1..], "/");
      assert "/" + x + "/" + s == "/" + (x + "/" + s) == "/" + x + ("/" + s);
      if x == "." || x == ".." {
        DotAtFront(x, s);
        assert false;
      }
      if HasDots("/" + s) {
        DotsLater("/" + x, "/" + s);
        assert false;
      }
      NoDotsMeansDotFree(parts[1..]);
    }
  }

  lemma NoDotsPath(r: string)
    requires r != "" && r[0] == '/' && !HasDots(r)
    ensures DotFree(Split(r))
  {
    hide HasDots, DotFree;
    var s := r[1..];
    assert r == "/" + s == "" + "/" + s;
    SplitPlain(s);
    NoDotsMeansDotFree(Split(s));
    SplitCons("", s);
    PrependDotFree("", Split(s));
  }

  lemma PrependDotFree(x: string, parts: seq<string>)
    requires x != "." && x != ".." && DotFree(parts)
    ensures DotFree([x] + parts)
  {
  }

  lemma TrimDotFree(r: string)
    requires DotFree(Split(r))
    ensures DotFree(Split(Trim(r)))
  {
    if Trim(r) != r {
      assert r == Trim(r) + "/";
      SplitTrailing(Trim(r));
      assert forall k :: 0 <= k < |Split(Trim(r))| ==> Split(Trim(r))[k] == Split(r)[k];
    }
  }

  // ----- the promises

  /** The path after the steps that do not look at dot segments. */
  lemma ReadyNormal(p: string)
    requires p != ""
    ensures var r := Lead(Squeezed(Upper(p))); r != "" && r[0] == '/' && !HasDoubleSlash(r) && UpperEscapes(r)
  {
    UpperIsNormal(p);
    SqueezedUpper(Upper(p));
    SqueezedIsNormal(Upper(p));
    LeadNormal(Squeezed(Upper(p)));
  }

  lemma PathCleanNormal(r: string)
    requires r != "" && r[0] == '/' && UpperEscapes(r)
    ensures NormalPath(PathClean(r)) && DotFree(Split(PathClean(r)))
  {
    SplitPlain(r);
    var out := Kept([], Split(r));
    KeptMembers([], Split(r));
    UpperSplit(r);
    forall k | 0 <= k < |out| ensures UpperEscapes(out[k]) {
      assert out[k] in Split(r);
    }
    UpperJoin(out);
    UpperParts("", Strs.Join(out, "/"));
    assert Rooted(out) == "" + "/" + Strs.Join(out, "/");
    RootedNormal(out);
  }

  lemma NormalTrim(q: string)
    requires NormalSlashes(q)
    ensures Trim(q) == q && !(|q| > 1 && HasSuffix(q, "/"))
  {
  }

  /** Cleaning reaches the normal form; without holes no dot segment is left. */
  lemma CleanIsNormal(p: string, hadHole: bool)
    ensures NormalPath(CleanPath(p, hadHole).path)
    ensures !hadHole ==> DotFree(Split(CleanPath(p, hadHole).path))
  {
    if p == "" {
      SplitCons("", "");
      assert "" + "/" + "" == "/";
      assert !HasDoubleSlash("/");
    } else {
      ReadyNormal(p);
      TidiedIsNormal(Lead(Squeezed(Upper(p))), hadHole);
    }
  }

  lemma TidiedIsNormal(r: string, hadHole: bool)
    requires r != "" && r[0] == '/' && !HasDoubleSlash(r) && UpperEscapes(r)
    ensures NormalPath(Tidied(r, hadHole).path)
    ensures !hadHole ==> DotFree(Split(Tidied(r, hadHole).path))
  {
    TrimNormal(r);
    PathCleanNormal(r);
    NormalTrim(PathClean(r));
    if !hadHole && !HasDots(r) {
      NoDotsPath(r);
      TrimDotFree(r);
    }
    hide PathClean, HasDots, DotFree, HasDoubleSlash, UpperEscapes;
    TrimIsTidied(r);
  }

  /** Trimming only ever matters behind a trailing slash. */
  lemma TrimIsTidied(r: string)
    ensures (if |r| > 1 && HasSuffix(r, "/") then Trim(r) else r) == Trim(r)
  {
  }

  lemma {:induction false} NoBlankParts(s: string)
    requires s != "" && s[0] != '/' && s[|s| - 1] != '/' && !HasDoubleSlash(s)
    ensures forall k :: 0 <= k < |Split(s)| ==> Split(s)[k] != ""
    decreases |s|
  {
    var i := IndexByte(s, '/');
    if i >= 0 {
      var rest := s[i + 1..];
      assert rest != "" && rest[0] == s[i + 1] && rest[|rest| - 1] == s[|s| - 1];
      assert rest == s[i + 1..|s|];
      DoubleWithin(s, i + 1, |s|);
      NoBlankParts(rest);
    }
  }

  /** Resolving dot segments leaves a normal path without any alone. */
  lemma PathCleanFixed(q: string)
    requires NormalSlashes(q) && DotFree(Split(q))
    ensures PathClean(q) == q
  {
    var s := q[1..];
    assert q == "/" + s == "" + "/" + s && s == q[1..|q|];
    CleanOfRooted(s);
    SplitCons("", s);
    SplitPlain(s);
    if s == "" {
      assert Split(s) == [""] && [""][1..] == [];
    } else {
      assert s[0] == q[1] && s[|s| - 1] == q[|q| - 1];
      DoubleWithin(q, 1, |q|);
      NoBlankParts(s);
      SolidTail(Split(s));
      hide Split;
      KeptSolid([], Split(s));
      assert [] + Split(s) == Split(s);
    }
  }

  lemma SolidTail(parts: seq<string>)
    requires Plain(parts) && DotFree([""] + parts) && forall k :: 0 <= k < |parts| ==> parts[k] != ""
    ensures AllSolid(parts)
  {
    assert forall k :: 0 <= k < |parts| ==> parts[k] == ([""] + parts)[k + 1];
  }

  /** A path in normal form is left as it is. */
  lemma NormalFixed(q: string, hadHole: bool)
    requires NormalPath(q) && (!hadHole ==> DotFree(Split(q)))
    ensures CleanPath(q, hadHole).path == q && !CleanPath(q, hadHole).trailing
  {
    UpperFixed(q);
    SqueezedFixed(q);
    NormalTrim(q);
    if !hadHole {
      PathCleanFixed(q);
    }
    assert Lead(q) == q;
  }

  /** Cleaning a cleaned path changes nothing. */
  lemma CleanIdempotent(p: string, hadHole: bool)
    ensures var q := CleanPath(p, hadHole).path; CleanPath(q, hadHole).path == q
  {
    CleanIsNormal(p, hadHole);
    NormalFixed(CleanPath(p, hadHole).path, hadHole);
  }

  // ----- section 5.2.4 of RFC 3986

  /** The output without its last segment and the slash before it. */
  function DropLast(output: string): string {
    var i := LastIndexAny(output, "/");
    if i < 0 then "" else output[..i]
  }

  /** remove_dot_segments, with its input and output buffers. */
  function RemoveDots(input: string, output: string): string
    decreases |input|
  {
    if input == "" then output
    else if "../" <= input then RemoveDots(input[3..], output)
    else if "./" <= input then RemoveDots(input[2..], output)
    else if "/./" <= input then RemoveDots(input[2..], output)
    else if input == "/." then RemoveDots("/", output)
    else if "/../" <= input then RemoveDots(input[3..], DropLast(output))
    else if input == "/.." then RemoveDots("/", DropLast(output))
    else if input == "." || input == ".." then RemoveDots("", output)
    else
      var k := IndexByte(input[1..], '/');
      if k < 0 then RemoveDots("", output + input) else RemoveDots(input[k + 1..], output + input[..k + 1])
  }

  /** The kept segments as the output buffer holds them. */
  function Stack(out: seq<string>): string {
    if out == [] then "" else Stack(out[..|out| - 1]) + "/" + out[|out| - 1]
  }

  lemma StackPush(out: seq<string>, x: string)
    ensures Stack(out + [x]) == Stack(out) + "/" + x
  {
    assert (out + [x])[..|out|] == out;
  }

  lemma {:induction false} StackIsRooted(out: seq<string>)
    requires out != []
    ensures Stack(out) == Rooted(out)
  {
    var n := |out| - 1;
    if n == 0 {
      assert out[..0] == [];
    } else {
      StackIsRooted(out[..n]);
      JoinSnoc(out[..n], out[n]);
      assert out == out[..n] + [out[n]];
      hide Strs.Join;
      assert "/" + (Strs.Join(out[..n], "/") + "/" + out[n]) == "/" + Strs.Join(out[..n], "/") + "/" + out[n];
    }
  }

  lemma DropLastOf(o: string, x: string)
    requires '/' !in x
    ensures DropLast(o + "/" + x) == o
  {
    var s := o + "/" + x;
    var i := LastIndexAny(s, "/");
    assert s[|o|] == '/' && forall k :: |o| < k < |s| ==> s[k] == x[k - |o| - 1];
    assert s[..|o|] == o;
    assert forall k :: |o| < k < |s| ==> s[k] in x;
  }

  lemma StackPop(out: seq<string>)
    requires AllSolid(out)
    ensures DropLast(Stack(out)) == Stack(Pop(out)) && AllSolid(Pop(out))
  {
    if out != [] {
      assert Solid(out[|out| - 1]);
      DropLastOf(Stack(Pop(out)), out[|out| - 1]);
    }
  }

  lemma DotStep(x: string, tail: string, o: string)
    requires x == "." || x == ".."
    ensures RemoveDots("/" + x + "/" + tail, o) == RemoveDots("/" + tail, if x == "." then o else DropLast(o))
  {
    hide DropLast;
    var input := "/" + x + "/" + tail;
    assert input[0] == '/' && input[1] == '.';
    if x == "." {
      assert "/./" <= input;
      assert input[2..] == "/" + tail;
    } else {
      assert input[2] == '.';
      assert "/../" <= input;
      assert input[3..] == "/" + tail;
    }
  }

  /** The rule that moves a segment, where no other rule applies. */
  lemma MoveStep(input: string, o: string, k: nat)
    requires input != "" && input[0] == '/' && IndexByte(input[1..], '/') == k
    requires !("/./" <= input) && input != "/." && !("/../" <= input) && input != "/.."
    ensures RemoveDots(input, o) == RemoveDots(input[k + 1..], o + input[..k + 1])
  {
  }

  /** Which of the RFC's rules applies to a segment that is followed by another. */
  lemma SegmentStep(x: string, tail: string, o: string)
    requires '/' !in x && x != ""
    ensures RemoveDots("/" + x + "/" + tail, o)
            == RemoveDots("/" + tail, if x == "." then o else if x == ".." then DropLast(o) else o + "/" + x)
  {
    hide DropLast, RemoveDots;
    if x == "." || x == ".." {
      DotStep(x, tail, o);
    } else {
      var input := "/" + x + "/" + tail;
      FirstSlash(x, tail);
      NotDots(x, tail);
      hide IndexByte;
      assert input[0] == '/' && input[1..] == x + "/" + tail;
      MoveStep(input, o, |x|);
      assert input[|x| + 1..] == "/" + tail && input[..|x| + 1] == "/" + x;
      assert o + ("/" + x) == o + "/" + x;
    }
  }

  /** A segment is matched by a rule only if it is the rule's. */
  lemma RuleMatches(x: string, tail: string, seg: string)
    requires '/' !in x && '/' !in seg && "/" + seg + "/" <= "/" + x + "/" + tail
    ensures x == seg
  {
    var n := |seg| + 2;
    var rest := ("/" + x + "/" + tail)[n..];
    assert "/" + x + "/" + tail == "/" + seg + "/" + rest;
    assert x + "/" + tail == ("/" + x + "/" + tail)[1..];
    assert seg + "/" + rest == ("/" + seg + "/" + rest)[1..];
    OneSlash(x, tail, seg, rest);
  }

  lemma NotDots(x: string, tail: string)
    requires Solid(x)
    ensures var input := "/" + x + "/" + tail;
            !("/./" <= input) && input != "/." && !("/../" <= input) && input != "/.."
  {
    var input := "/" + x + "/" + tail;
    if "/./" <= input {
      assert "/./" == "/" + "." + "/";
      RuleMatches(x, tail, ".");
      assert false;
    }
    if "/../" <= input {
      assert "/../" == "/" + ".." + "/";
      RuleMatches(x, tail, "..");
      assert false;
    }
    assert input[|x| + 1] == '/';
  }

  lemma SegmentEnd(x: string, o: string)
    requires '/' !in x
    ensures RemoveDots("/" + x, o)
            == if x == "" || x == "." then o + "/" else if x == ".." then DropLast(o) + "/" else o + "/" + x
  {
    var input := "/" + x;
    assert input[1..] == x && IndexByte(x, '/') < 0;
    assert "/"[1..] == "" && forall q: string :: RemoveDots("", q) == q;
    OneRule(x);
    if x == "." || x == ".." {
      assert RemoveDots("/", o) == o + "/" && RemoveDots("/", DropLast(o)) == DropLast(o) + "/";
    } else {
      assert o + ("/" + x) == o + "/" + x;
    }
  }

  /** No rule for a segment in the middle applies to the last one. */
  lemma OneRule(x: string)
    requires '/' !in x
    ensures !("/./" <= "/" + x) && !("/../" <= "/" + x)
  {
    assert forall k :: 0 <= k < |x| ==> ("/" + x)[k + 1] == x[k] && x[k] in x;
    assert "/./"[2] == '/' && "/../"[3] == '/';
  }

  predicate InnerFull(parts: seq<string>) {
    forall k :: 0 <= k < |parts| - 1 ==> parts[k] != ""
  }

  lemma TrimStack(out: seq<string>)
    requires AllSolid(out)
    ensures Trim(Stack(out) + "/") == Rooted(out)
  {
    if out != [] {
      StackIsRooted(out);
      assert HasSuffix(Stack(out) + "/", "/");
    }
  }

  /** Segment by segment, the stack of the code and the output buffer of the RFC agree. */
  lemma {:induction false} RfcAgrees(out: seq<string>, parts: seq<string>)
    requires AllSolid(out) && parts != [] && Plain(parts) && InnerFull(parts)
    ensures Trim(RemoveDots("/" + Strs.Join(parts, "/"), Stack(out))) == Rooted(Kept(out, parts))
    decreases |parts|
  {
    hide RemoveDots, Trim, Stack, DropLast, Rooted;
    var x := parts[0];
    StackPop(out);
    StackPush(out, x);
    if |parts| == 1 {
      SegmentEnd(x, Stack(out));
      assert parts[1..] == [];
      TrimStack(out);
      TrimStack(Pop(out));
      if Solid(x) {
        StackIsRooted(out + [x]);
        RootedNormal(out + [x]);
        NormalTrim(Rooted(out + [x]));
      }
    } else {
      var s := Strs.Join(parts[1..], "/");
      SegmentStep(x, s, Stack(out));
      assert "/" + Strs.Join(parts, "/") == "/" + x + "/" + s;
      RfcAgrees(if x == "." then out else if x == ".." then Pop(out) else out + [x], parts[1..]);
    }
  }

  lemma {:induction false} InnerSplit(s: string)
    requires (s == "" || s[0] != '/') && !HasDoubleSlash(s)
    ensures InnerFull(Split(s))
    decreases |s|
  {
    var i := IndexByte(s, '/');
    if i >= 0 {
      var rest := s[i + 1..];
      assert rest == s[i + 1..|s|];
      DoubleWithin(s, i + 1, |s|);
      assert rest != "" ==> rest[0] == s[i + 1];
      InnerSplit(rest);
    }
  }

  lemma PathCleanIsRfc(r: string)
    requires r != "" && r[0] == '/' && !HasDoubleSlash(r)
    ensures PathClean(r) == Trim(RemoveDots(r, ""))
  {
    hide RemoveDots, PathClean;
    var s := r[1..];
    assert r == "/" + s;
    assert s == r[1..|r|];
    DoubleWithin(r, 1, |r|);
    assert s != "" ==> s[0] == r[1];
    CleanOfRooted(s);
    InnerSplit(s);
    SplitPlain(s);
    RfcAgrees([], Split(s));
  }

  /** Without dot segments, resolving them only drops a trailing slash. */
  lemma TrimIsPathClean(r: string)
    requires r != "" && r[0] == '/' && !HasDoubleSlash(r) && UpperEscapes(r) && DotFree(Split(r))
    ensures Trim(r) == PathClean(r)
  {
    hide DotFree, HasDoubleSlash, UpperEscapes;
    TrimNormal(r);
    TrimDotFree(r);
    PathCleanFixed(Trim(r));
    if Trim(r) != r {
      assert r == Trim(r) + "/";
      SplitTrailing(Trim(r));
      KeptBlank([], Split(Trim(r)));
    }
  }

  /** On hole-free paths without empty segments, cleaning is remove_dot_segments up to a trailing slash. */
  lemma CleanIsRemoveDots(p: string)
    requires p != "" && !HasDoubleSlash(p)
    ensures CleanPath(p, false).path == Trim(RemoveDots(Lead(Upper(p)), ""))
  {
    UpperIsNormal(p);
    assert !HasDoubleSlash(Upper(p));
    SqueezedFixed(Upper(p));
    ReadyNormal(p);
    var r := Lead(Upper(p));
    hide RemoveDots, Upper, Squeezed, UpperEscapes, HasDoubleSlash, DotFree;
    PathCleanIsRfc(r);
    PathCleanNormal(r);
    NormalTrim(PathClean(r));
    TrimIsTidied(r);
    if !HasDots(r) {
      NoDotsPath(r);
      TrimIsPathClean(r);
    }
    hide PathClean, HasDots, Trim, HasSuffix;
  }
}

/**
 What cleaning a path does to its characters and its segments (internal/normalize/url.go): escapes
 keep their value, segments keep their text, and the reports say what was there.
 */
module EscapeLaws {
  import opened Strs
  import opened Paths
  import opened PathLaws

  // ----- escapes

  /** The value of a hexadecimal digit, in either case. */
  function HexValue(c: char): Option<int> {
    if '0' <= c <= '9' then Some(c as int - '0' as int)
    else if 'a' <= c <= 'f' then Some(c as int - 'a' as int + 10)
    else if 'A' <= c <= 'F' then Some(c as int - 'A' as int + 10)
    else None
  }

  /** A percent sign and two hexadecimal digits. */
  predicate Escape(s: string, i: int) {
    0 <= i && i + 2 < |s| && s[i] == '%' && HexValue(s[i + 1]).Some? && HexValue(s[i + 2]).Some?
  }

  lemma {:induction false} EscapeIs(s: string, i: int)
    ensures EscapeAt(s, i) <==> Escape(s, i)
  {
  }

  lemma {:induction false} UpperHexKeeps(c: char)
    ensures HexValue(UpperHex(c)) == HexValue(c) && (UpperHex(c) == '%' <==> c == '%')
  {
  }

  lemma {:induction false} UpperAt(s: string, j: nat)
    requires j < |s|
    ensures HexValue(Upper(s)[j]) == HexValue(s[j]) && (Upper(s)[j] == '%' <==> s[j] == '%')
    ensures Upper(s)[j] != s[j] ==> Escape(s, j - 1) || Escape(s, j - 2)
  {
    UpperHexKeeps(s[j]);
    EscapeIs(s, j - 1);
    EscapeIs(s, j - 2);
  }

  /** Upper-casing keeps every escape and its value, and changes no character outside of one. */
  lemma {:induction false} UpperKeepsValues(s: string)
    ensures |Upper(s)| == |s| && forall i :: Escape(Upper(s), i) <==> Escape(s, i)
    ensures forall j :: 0 <= j < |s| ==> HexValue(Upper(s)[j]) == HexValue(s[j])
    ensures forall j :: 0 <= j < |s| && Upper(s)[j] != s[j] ==> Escape(s, j - 1) || Escape(s, j - 2)
  {
    forall j: nat | j < |s|
      ensures HexValue(Upper(s)[j]) == HexValue(s[j]) && (Upper(s)[j] == '%' <==> s[j] == '%')
      ensures Upper(s)[j] != s[j] ==> Escape(s, j - 1) || Escape(s, j - 2)
    {
      UpperAt(s, j);
    }
    hide Upper, HexValue;
  }

  /** No digit of an escape is a small letter. */
  ghost predicate NoSmallEscape(s: string) {
    forall i :: Escape(s, i) ==> !('a' <= s[i + 1] <= 'f') && !('a' <= s[i + 2] <= 'f')
  }

  lemma {:induction false} UpperEscapesAre(s: string)
    ensures UpperEscapes(s) <==> NoSmallEscape(s)
  {
    forall i ensures EscapeAt(s, i) <==> Escape(s, i) {
      EscapeIs(s, i);
    }
  }

  /** In a cleaned path every escape is written in capitals. */
  lemma {:induction false} CleanEscapesAreCapital(p: string, hadHole: bool)
    ensures NoSmallEscape(CleanPath(p, hadHole).path)
  {
    CleanIsNormal(p, hadHole);
    UpperEscapesAre(CleanPath(p, hadHole).path);
  }

  // ----- segments

  /** The segments that are not empty. */
  function Filled(parts: seq<string>): seq<string> {
    if parts == [] then []
    else (if parts[0] == "" then [] else [parts[0]]) + Filled(parts[1..])
  }

  lemma {:induction false} SplitNone(x: string)
    requires '/' !in x
    ensures Split(x) == [x]
  {
  }

  lemma {:induction false} SplitInner(c: char, x: string, rest: string)
    requires c != '/' && '/' !in x
    ensures Split([c] + (x + "/" + rest)) == [[c] + x] + Split(rest) && Split(x + "/" + rest) == [x] + Split(rest)
  {
    hide Split;
    SplitCons(x, rest);
    SplitCons([c] + x, rest);
    assert [c] + (x + "/" + rest) == [c] + x + "/" + rest;
  }

  lemma {:induction false} SplitStep(c: char, s: string)
    ensures Split([c] + s) == if c == '/' then [""] + Split(s) else [[c] + Split(s)[0]] + Split(s)[1..]
  {
    hide Split;
    var i := IndexByte(s, '/');
    hide IndexByte;
    if c == '/' {
      SplitCons("", s);
      assert [c] + s == "" + "/" + s;
    } else if i < 0 {
      SplitNone(s);
      SplitNone([c] + s);
    } else {
      var x, rest := s[..i], s[i + 1..];
      SplitInner(c, x, rest);
      assert s == x + "/" + rest;
    }
  }

  lemma {:induction false} HeadAndTail(parts: seq<string>)
    requires parts != []
    ensures Filled(parts) == (if parts[0] == "" then [] else [parts[0]]) + Filled(parts[1..])
  {
  }

  /** Two texts with the same first segment and the same filled ones behind it. */
  predicate AlikeBehind(s: string, t: string) {
    Split(s)[0] == Split(t)[0] && Filled(Split(s)[1..]) == Filled(Split(t)[1..])
  }

  lemma {:induction false} AlikeMeans(s: string, t: string)
    requires AlikeBehind(s, t)
    ensures Filled(Split(s)) == Filled(Split(t))
  {
    HeadAndTail(Split(s));
    HeadAndTail(Split(t));
  }

  lemma {:induction false} AlikeStep(c: char, s: string, t: string)
    requires AlikeBehind(s, t)
    ensures AlikeBehind([c] + s, [c] + t)
  {
    SplitStep(c, s);
    SplitStep(c, t);
    AlikeMeans(s, t);
    hide Split, Filled;
    if c == '/' {
      assert ([""] + Split(s))[1..] == Split(s) && ([""] + Split(t))[1..] == Split(t);
    } else {
      assert ([[c] + Split(s)[0]] + Split(s)[1..])[1..] == Split(s)[1..];
      assert ([[c] + Split(t)[0]] + Split(t)[1..])[1..] == Split(t)[1..];
    }
  }

  /** A slash in front of a slash adds an empty segment only. */
  lemma {:induction false} SlashAlike(s: string, t: string)
    requires AlikeBehind(s, "/" + t)
    ensures AlikeBehind(s, "//" + t)
  {
    SplitStep('/', t);
    SplitStep('/', "/" + t);
    assert "//" + t == "/" + ("/" + t);
    HeadAndTail([""] + Split(t));
    hide Split, Filled;
    assert ([""] + Split(t))[1..] == Split(t);
    assert ([""] + Split("/" + t))[1..] == Split("/" + t);
  }

  /** Squeezing slashes loses only empty segments. */
  lemma {:induction false} SqueezedSegments(s: string)
    ensures AlikeBehind(Squeezed(s), s)
  {
    if |s| >= 2 {
      var t := s[1..];
      assert Squeezed(s) == if s[0] == '/' && s[1] == '/' then Squeezed(t) else [s[0]] + Squeezed(t);
      SqueezedSegments(t);
      hide AlikeBehind, Squeezed;
      assert s == [s[0]] + t;
      if s[0] == '/' && s[1] == '/' {
        assert t == "/" + s[2..] && s == "//" + s[2..];
        SlashAlike(Squeezed(s), s[2..]);
      } else {
        AlikeStep(s[0], Squeezed(t), t);
      }
    }
  }

  /** Where no dot segment is resolved, the cleaned path has the segments of the path, but for empty ones. */
  lemma {:induction false} CleanKeepsSegments(p: string, hadHole: bool)
    requires !CleanPath(p, hadHole).resolved && p != ""
    ensures Filled(Split(CleanPath(p, hadHole).path)) == Filled(Split(Upper(p)))
  {
    var q := Squeezed(Upper(p));
    SqueezedSegments(Upper(p));
    AlikeMeans(q, Upper(p));
    LeadSegments(q);
    TrimSegments(Lead(q));
    hide Split, Filled, PathClean, HasDots, Squeezed, Upper, Trim;
    TrimIsTidied(Lead(q));
  }

  lemma {:induction false} LeadSegments(q: string)
    ensures Filled(Split(Lead(q))) == Filled(Split(q))
  {
    SplitCons("", q);
    assert "/" + q == "" + "/" + q;
    HeadAndTail([""] + Split(q));
    assert ([""] + Split(q))[1..] == Split(q);
  }

  lemma {:induction false} FilledSnoc(parts: seq<string>)
    ensures Filled(parts + [""]) == Filled(parts)
  {
    if parts == [] {
      assert parts + [""] == [""] && [""][1..] == [];
    } else {
      assert (parts + [""])[1..] == parts[1..] + [""];
      FilledSnoc(parts[1..]);
    }
  }

  lemma {:induction false} TrimSegments(r: string)
    ensures Filled(Split(Trim(r))) == Filled(Split(r))
  {
    if Trim(r) != r {
      assert r == Trim(r) + "/";
      SplitTrailing(Trim(r));
      FilledSnoc(Split(Trim(r)));
    }
  }

  // ----- what is reported

  predicate OnlySlashes(s: string) {
    forall i :: 0 <= i < |s| ==> s[i] == '/'
  }

  lemma {:induction false} SqueezedEnds(s: string)
    requires s != ""
    ensures Squeezed(s) != "" && Squeezed(s)[|Squeezed(s)| - 1] == s[|s| - 1]
    ensures Squeezed(s) == "/" <==> OnlySlashes(s)
  {
    if |s| >= 2 {
      var t := s[1..];
      SqueezedEnds(t);
      SqueezedHead(t);
      assert forall i :: 0 <= i < |t| ==> t[i] == s[i + 1];
      assert OnlySlashes(s) <==> s[0] == '/' && OnlySlashes(t);
      assert OnlySlashes(t) ==> t[0] == '/';
    }
  }

  /** A trailing slash is reported exactly when the path ends in one and is not made of slashes only. */
  lemma {:induction false} TrailingIff(p: string, hadHole: bool)
    ensures CleanPath(p, hadHole).trailing <==> p != "" && p[|p| - 1] == '/' && !OnlySlashes(p)
  {
    if p != "" {
      UpperIsNormal(p);
      SqueezedEnds(Upper(p));
      assert OnlySlashes(Upper(p)) <==> OnlySlashes(p);
      hide Upper, Squeezed, OnlySlashes, PathClean, HasDots;
      var q := Squeezed(Upper(p));
      LeadEnds(q);
    }
  }

  lemma {:induction false} LeadEnds(q: string)
    requires q != ""
    ensures |Lead(q)| > 1 && HasSuffix(Lead(q), "/") <==> q[|q| - 1] == '/' && q != "/"
  {
    var r := Lead(q);
    assert r[|r| - 1] == q[|q| - 1] && r[|r| - 1..] == [r[|r| - 1]];
  }

  /** One of the segments is a dot segment. */
  predicate HasDotSegment(p: string) {
    exists k :: 0 <= k < |Split(p)| && (Split(p)[k] == "." || Split(p)[k] == "..")
  }

  lemma {:induction false} SplitConcat(a: string, b: string)
    ensures Split(a + "/" + b) == Split(a) + Split(b)
    decreases |a|
  {
    hide Split;
    var i := IndexByte(a, '/');
    if i < 0 {
      SplitNone(a);
      SplitCons(a, b);
    } else {
      var x, rest := a[..i], a[i + 1..];
      SplitConcat(rest, b);
      SplitCons(x, rest);
      SplitCons(x, rest + "/" + b);
      assert a == x + "/" + rest && a + "/" + b == x + "/" + (rest + "/" + b);
    }
  }

  lemma {:induction false} SegmentBetween(a: string, x: string, b: string)
    requires '/' !in x
    ensures x in Split(a + "/" + x) && x in Split(a + "/" + x + "/" + b)
  {
    hide Split;
    SplitNone(x);
    SplitConcat(a, x);
    SplitConcat(a + "/" + x, b);
  }

  lemma {:induction false} FoundBetween(r: string, i: nat, x: string, needle: string)
    requires '/' !in x && needle == "/" + x + "/" && i <= |r| && needle <= r[i..]
    ensures x in Split(r)
  {
    hide Split;
    var b := r[i + |needle|..];
    assert r == r[..i] + r[i..] && r[i..] == needle + b;
    assert r == r[..i] + "/" + x + "/" + b;
    SegmentBetween(r[..i], x, b);
  }

  lemma {:induction false} FoundAtEnd(r: string, x: string, needle: string)
    requires '/' !in x && needle == "/" + x && HasSuffix(r, needle)
    ensures x in Split(r)
  {
    hide Split;
    var a := r[..|r| - |needle|];
    assert r == a + needle;
    assert r == a + "/" + x;
    SegmentBetween(a, x, "");
  }

  lemma {:induction false} DotsAreSegments(r: string)
    requires HasDots(r)
    ensures "." in Split(r) || ".." in Split(r)
  {
    hide Split, HasSuffix;
    if Contains(r, "/./") {
      var i :| 0 <= i <= |r| && "/./" <= r[i..];
      FoundBetween(r, i, ".", "/./");
    } else if Contains(r, "/../") {
      var i :| 0 <= i <= |r| && "/../" <= r[i..];
      FoundBetween(r, i, "..", "/../");
    } else if HasSuffix(r, "/.") {
      FoundAtEnd(r, ".", "/.");
    } else {
      FoundAtEnd(r, "..", "/..");
    }
  }

  lemma {:induction false} DotSegments(r: string)
    requires r != "" && r[0] == '/'
    ensures HasDots(r) <==> !DotFree(Split(r))
  {
    hide HasDots, Split;
    if HasDots(r) { DotsAreSegments(r); }
    if !HasDots(r) { NoDotsPath(r); }
  }

  lemma {:induction false} FilledMembers(parts: seq<string>)
    ensures forall x :: x in Filled(parts) <==> x in parts && x != ""
  {
    if parts != [] {
      FilledMembers(parts[1..]);
      assert parts == [parts[0]] + parts[1..];
    }
  }

  /** Dot segments are reported as resolved exactly when there are some and the path had no hole. */
  lemma {:induction false} ResolvedIff(p: string, hadHole: bool)
    ensures CleanPath(p, hadHole).resolved <==> !hadHole && HasDotSegment(Upper(p))
  {
    if p == "" {
      assert Upper(p) == "";
      SplitNone("");
    } else {
      var q := Squeezed(Upper(p));
      var r := Lead(q);
      ReadyNormal(p);
      DotSegments(r);
      PathCleanNormal(r);
      SqueezedSegments(Upper(p));
      AlikeMeans(q, Upper(p));
      LeadSegments(q);
      FilledMembers(Split(r));
      FilledMembers(Split(Upper(p)));
      hide Split, PathClean, HasDots, Squeezed, Upper, Filled, Lead;
      assert DotFree(Split(r)) <==> "." !in Split(r) && ".." !in Split(r);
      assert HasDotSegment(Upper(p)) <==> "." in Split(Upper(p)) || ".." in Split(Upper(p));
    }
  }
}

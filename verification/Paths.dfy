/** The normal form of a URL path (internal/normalize/url.go): cleanPath and its parts. */
module Paths {
  import opened Strs

  // ----- percent escapes

  predicate IsHex(c: char) {
    '0' <= c <= '9' || 'a' <= c <= 'f' || 'A' <= c <= 'F'
  }

  function UpperHex(c: char): char {
    if 'a' <= c <= 'f' then c - ('a' - 'A') else c
  }

  /** An escape stands at `i`. */
  predicate EscapeAt(s: string, i: int) {
    0 <= i && i + 2 < |s| && s[i] == '%' && IsHex(s[i + 1]) && IsHex(s[i + 2])
  }

  /** Position `j` is one of the two digits of an escape. */
  predicate InEscape(s: string, j: int) {
    EscapeAt(s, j - 1) || EscapeAt(s, j - 2)
  }

  /** The digits of every escape in upper case, and nothing else changed. */
  function Upper(s: string): (r: string)
    ensures |r| == |s|
  {
    seq(|s|, j requires 0 <= j < |s| => if InEscape(s, j) then UpperHex(s[j]) else s[j])
  }

  /** Every escape is written in upper case. */
  ghost predicate UpperEscapes(s: string) {
    forall i :: EscapeAt(s, i) ==> UpperHex(s[i + 1]) == s[i + 1] && UpperHex(s[i + 2]) == s[i + 2]
  }

  /** upperPercentEscapes: one pass over a buffer that it edits. */
  method UpperPercentEscapes(s: string) returns (r: string)
    ensures r == Upper(s)
  {
    if '%' !in s {
      assert forall i :: !EscapeAt(s, i);
      return s;
    }
    var b := new char[|s|](i requires 0 <= i < |s| => s[i]);
    for i := 0 to if |s| < 2 then 0 else |s| - 2
      invariant forall j :: 0 <= j < |s| ==>
                  b[j] == if (j - 1 < i && EscapeAt(s, j - 1)) || (j - 2 < i && EscapeAt(s, j - 2))
                          then UpperHex(s[j]) else s[j]
    {
      assert b[i] == '%' <==> s[i] == '%';
      assert IsHex(b[i + 1]) <==> IsHex(s[i + 1]);
      assert IsHex(b[i + 2]) <==> IsHex(s[i + 2]);
      if b[i] == '%' && IsHex(b[i + 1]) && IsHex(b[i + 2]) {
        b[i + 1] := UpperHex(b[i + 1]);
        b[i + 2] := UpperHex(b[i + 2]);
      }
    }
    r := b[..];
  }

  /** Upper-casing moves no escape, so it is enough to do it once. */
  lemma UpperIsNormal(s: string)
    ensures UpperEscapes(Upper(s))
    ensures forall j :: 0 <= j < |s| ==> (Upper(s)[j] == '/' <==> s[j] == '/')
  {
    forall i ensures EscapeAt(Upper(s), i) <==> EscapeAt(s, i) {
    }
  }

  lemma UpperFixed(s: string)
    requires UpperEscapes(s)
    ensures Upper(s) == s
  {
  }

  // ----- slashes

  predicate HasDoubleSlash(s: string) {
    exists i :: 0 <= i < |s| - 1 && s[i] == '/' && s[i + 1] == '/'
  }

  /** Every run of slashes as one slash. */
  function Squeezed(s: string): string {
    if |s| < 2 then s
    else if s[0] == '/' && s[1] == '/' then Squeezed(s[1..])
    else [s[0]] + Squeezed(s[1..])
  }

  lemma {:induction false} SqueezedHead(s: string)
    ensures |Squeezed(s)| <= |s|
    ensures s != "" ==> Squeezed(s) != "" && Squeezed(s)[0] == s[0]
  {
    if |s| >= 2 { SqueezedHead(s[1..]); }
  }

  lemma {:induction false} SqueezedIsNormal(s: string)
    ensures !HasDoubleSlash(Squeezed(s))
  {
    if |s| >= 2 {
      SqueezedIsNormal(s[1..]);
      SqueezedHead(s[1..]);
      var r, t := Squeezed(s), Squeezed(s[1..]);
      if r == [s[0]] + t {
        assert forall i :: 1 <= i < |r| ==> r[i] == t[i - 1];
      }
    }
  }

  lemma {:induction false} SqueezedFixed(s: string)
    requires !HasDoubleSlash(s)
    ensures Squeezed(s) == s
  {
    if |s| >= 2 {
      assert forall i :: 0 <= i < |s| - 1 ==> s[1..][i] == s[i + 1];
      SqueezedFixed(s[1..]);
    }
  }

  /** Squeezing one more slash off a run changes nothing in the end. */
  lemma {:induction false} ReplaceKeepsSqueezed(s: string)
    ensures |ReplaceAll(s, "//", "/")| <= |s|
    ensures HasDoubleSlash(s) ==> |ReplaceAll(s, "//", "/")| < |s|
    ensures Squeezed(ReplaceAll(s, "//", "/")) == Squeezed(s)
    ensures s != "" ==> ReplaceAll(s, "//", "/") != "" && ReplaceAll(s, "//", "/")[0] == s[0]
    decreases |s|
  {
    if s == "" {
    } else if "//" <= s {
      var t := ReplaceAll(s[2..], "//", "/");
      ReplaceKeepsSqueezed(s[2..]);
      assert s[1..][1..] == s[2..];
      SlashFirst(t);
      SlashFirst(s[2..]);
      assert s[1..] == "/" + s[2..];
    } else {
      var t := ReplaceAll(s[1..], "//", "/");
      ReplaceKeepsSqueezed(s[1..]);
      assert ([s[0]] + t)[1..] == t;
      NotBoth(s);
      if HasDoubleSlash(s) {
        var i :| 0 <= i < |s| - 1 && s[i] == '/' && s[i + 1] == '/';
        assert s[1..][i - 1] == '/' && s[1..][i] == '/';
      }
    }
  }

  lemma NotBoth(s: string)
    requires s != "" && !("//" <= s)
    ensures |s| >= 2 ==> !(s[0] == '/' && s[1] == '/')
  {
  }

  /** What a slash in front adds depends on whether there is one already. */
  lemma SlashFirst(s: string)
    ensures Squeezed("/" + s) == if s != "" && s[0] == '/' then Squeezed(s) else "/" + Squeezed(s)
  {
    assert ("/" + s)[1..] == s;
  }

  /** The loop that replaces double slashes until there are none. */
  method SqueezeLoop(s: string) returns (r: string)
    ensures r == Squeezed(s)
  {
    r := s;
    while HasDoubleSlash(r)
      invariant Squeezed(r) == Squeezed(s)
      decreases |r|
    {
      ReplaceKeepsSqueezed(r);
      r := ReplaceAll(r, "//", "/");
    }
    SqueezedFixed(r);
  }

  // ----- segments

  /** strings.Split at every slash. */
  function Split(s: string): (parts: seq<string>)
    ensures |parts| >= 1
  {
    var i := IndexByte(s, '/');
    if i < 0 then [s] else [s[..i]] + Split(s[i + 1..])
  }

  function Pop(out: seq<string>): seq<string> {
    if out == [] then [] else out[..|out| - 1]
  }

  /** What the segments still to come do to those kept so far. */
  function Kept(out: seq<string>, parts: seq<string>): seq<string>
    decreases |parts|
  {
    if parts == [] then out
    else if parts[0] == "." || parts[0] == "" then Kept(out, parts[1..])
    else if parts[0] == ".." then Kept(Pop(out), parts[1..])
    else Kept(out + [parts[0]], parts[1..])
  }

  function Rooted(out: seq<string>): string {
    "/" + Strs.Join(out, "/")
  }

  function PathClean(p: string): string {
    Rooted(Kept([], Split(p)))
  }

  /** pathCleanKeepRoot: one pass over the segments with a stack. */
  method PathCleanLoop(p: string) returns (r: string)
    ensures r == PathClean(p)
  {
    var parts := Split(p);
    var out: seq<string> := [];
    assert parts[0..] == parts;
    for i := 0 to |parts|
      invariant Kept(out, parts[i..]) == Kept([], parts)
    {
      assert parts[i..][1..] == parts[i + 1..];
      if parts[i] == "." || parts[i] == "" {
        continue;
      } else if parts[i] == ".." {
        if |out| > 0 {
          out := out[..|out| - 1];
        }
      } else {
        out := out + [parts[i]];
      }
    }
    r := "/" + Strs.Join(out, "/");
  }

  // ----- the whole path

  predicate Contains(s: string, needle: string) {
    exists i :: 0 <= i <= |s| && needle <= s[i..]
  }

  predicate HasDots(p: string) {
    Contains(p, "/./") || Contains(p, "/../") || HasSuffix(p, "/.") || HasSuffix(p, "/..")
  }

  datatype Cleaned = Cleaned(path: string, trailing: bool, resolved: bool)

  function Lead(p: string): string {
    if HasPrefix(p, "/") then p else "/" + p
  }

  function Trim(p: string): string {
    if |p| > 1 then TrimSuffix(p, "/") else p
  }

  /** cleanPath on a path that is not empty, after upper-casing, squeezing and rooting. */
  function Tidied(p: string, hadHole: bool): Cleaned {
    var trailing := |p| > 1 && HasSuffix(p, "/");
    var dots := !hadHole && HasDots(p) && PathClean(p) != p;
    var d := if dots then PathClean(p) else p;
    Cleaned(if trailing then Trim(d) else d, trailing, dots)
  }

  function CleanPath(p: string, hadHole: bool): Cleaned {
    if p == "" then Cleaned("/", false, false) else Tidied(Lead(Squeezed(Upper(p))), hadHole)
  }

  method CleanPathSteps(p: string, hadHole: bool) returns (c: Cleaned)
    ensures c == CleanPath(p, hadHole)
  {
    hide Upper, Squeezed, PathClean, HasDots, HasSuffix;
    if p == "" {
      return Cleaned("/", false, false);
    }
    var q := UpperPercentEscapes(p);
    q := SqueezeLoop(q);
    if !HasPrefix(q, "/") {
      q := "/" + q;
    }
    var trailing := |q| > 1 && HasSuffix(q, "/");
    var resolved := false;
    if !hadHole && HasDots(q) {
      var cleaned := PathCleanLoop(q);
      if cleaned != q {
        resolved := true;
        q := cleaned;
      }
    }
    if trailing && |q| > 1 {
      q := TrimSuffix(q, "/");
      if q == "" {
        q := "/";
      }
    }
    c := Cleaned(q, trailing, resolved);
  }
}

/** JSON pointer tokens (internal/monitor/analyze/openapi/diff.go, openapi.go), RFC 6901 sections 3 and 4. */
module Pointers {
  import opened Strs
  import opened OpenApi

  /** The escaping of one character. */
  function Code(c: char): string {
    if c == '~' then "~0" else if c == '/' then "~1" else [c]
  }

  /** What section 3 of RFC 6901 asks for, character by character. */
  function Coded(s: string): string {
    if s == "" then "" else Code(s[0]) + Coded(s[1..])
  }

  function Tildes(s: string): string {
    if s == "" then "" else (if s[0] == '~' then "~0" else [s[0]]) + Tildes(s[1..])
  }

  lemma {:induction false} TildesIsReplace(s: string)
    ensures ReplaceAll(s, "~", "~0") == Tildes(s)
  {
    if s != "" {
      TildesIsReplace(s[1..]);
      assert "~" <= s <==> s[0] == '~';
    }
  }

  /** One character that the needle does not start with is copied. */
  lemma Copies(c: char, s: string, needle: string, with: string)
    requires needle != "" && c != needle[0]
    ensures ReplaceAll([c] + s, needle, with) == [c] + ReplaceAll(s, needle, with)
  {
    assert ([c] + s)[1..] == s;
    assert !(needle <= [c] + s);
  }

  lemma {:induction false} SlashesAfterTildes(s: string)
    ensures ReplaceAll(Tildes(s), "/", "~1") == Coded(s)
  {
    if s != "" {
      SlashesAfterTildes(s[1..]);
      var rest := Tildes(s[1..]);
      if s[0] == '~' {
        Copies('0', rest, "/", "~1");
        Copies('~', "0" + rest, "/", "~1");
        assert "~0" + rest == ['~'] + ("0" + rest);
      } else if s[0] == '/' {
        assert (['/'] + rest)[1..] == rest;
        assert "/" <= ['/'] + rest;
      } else {
        Copies(s[0], rest, "/", "~1");
      }
    }
  }

  /** The two replacements escape exactly `~` and `/`. */
  lemma EscapeIsCoded(s: string)
    ensures EscapePointer(s) == Coded(s)
  {
    TildesIsReplace(s);
    SlashesAfterTildes(s);
  }

  /** A needle at the front is replaced. */
  lemma Replaces(s: string, needle: string, with: string)
    requires needle != ""
    ensures ReplaceAll(needle + s, needle, with) == with + ReplaceAll(s, needle, with)
  {
    assert (needle + s)[|needle|..] == s;
  }

  lemma {:induction false} SlashesBack(s: string)
    ensures ReplaceAll(Coded(s), "~1", "/") == Tildes(s)
  {
    if s != "" {
      SlashesBack(s[1..]);
      var rest := Coded(s[1..]);
      if s[0] == '~' {
        TildeStays(rest);
      } else if s[0] == '/' {
        Replaces(rest, "~1", "/");
      } else {
        Copies(s[0], rest, "~1", "/");
      }
    }
  }

  lemma TildeStays(rest: string)
    ensures ReplaceAll("~0" + rest, "~1", "/") == "~0" + ReplaceAll(rest, "~1", "/")
  {
    Copies('0', rest, "~1", "/");
    var t := "~0" + rest;
    assert t[1] == '0' && t[1..] == "0" + rest;
    assert "~0" + ReplaceAll(rest, "~1", "/") == ['~'] + ("0" + ReplaceAll(rest, "~1", "/"));
  }

  lemma {:induction false} TildesBack(s: string)
    ensures ReplaceAll(Tildes(s), "~0", "~") == s
  {
    if s != "" {
      TildesBack(s[1..]);
      var rest := Tildes(s[1..]);
      if s[0] == '~' {
        assert ("~0" + rest)[2..] == rest;
      } else {
        Copies(s[0], rest, "~0", "~");
      }
      assert s == [s[0]] + s[1..];
    }
  }

  /** Following a reference undoes the escaping. */
  lemma PointerRoundTrip(s: string)
    ensures UnescapePointer(EscapePointer(s)) == s
  {
    EscapeIsCoded(s);
    SlashesBack(s);
    TildesBack(s);
  }

  /** An escaped token holds no separator, so a pointer splits where it was joined. */
  lemma {:induction false} EscapedHasNoSlash(s: string)
    ensures '/' !in EscapePointer(s)
  {
    EscapeIsCoded(s);
    if s != "" {
      EscapedHasNoSlash(s[1..]);
      EscapeIsCoded(s[1..]);
    }
  }

  /** Distinct paths get distinct pointers, and so do their operations. */
  lemma PointersAreDistinct(j: OpKey, k: OpKey)
    ensures PathPointer(j.path) == PathPointer(k.path) ==> j.path == k.path
    ensures OpPointer(j) == OpPointer(k) && '/' !in ToLower(j.verb) && '/' !in ToLower(k.verb) ==>
              j.path == k.path && ToLower(j.verb) == ToLower(k.verb)
  {
    hide EscapePointer, UnescapePointer, ToLower;
    PointerRoundTrip(j.path);
    PointerRoundTrip(k.path);
    var p, q := EscapePointer(j.path), EscapePointer(k.path);
    if PathPointer(j.path) == PathPointer(k.path) {
      assert p == PathPointer(j.path)[|"#/paths/"|..];
      assert q == PathPointer(k.path)[|"#/paths/"|..];
    }
    if OpPointer(j) == OpPointer(k) {
      EscapedHasNoSlash(j.path);
      EscapedHasNoSlash(k.path);
      var v, w := ToLower(j.verb), ToLower(k.verb);
      assert p + "/" + v == OpPointer(j)[|"#/paths/"|..];
      assert q + "/" + w == OpPointer(k)[|"#/paths/"|..];
      OneSlash(p, v, q, w);
    }
  }

  lemma {:induction false} CodedSlash(s: string)
    requires '~' !in s && '/' !in s
    ensures Coded("/" + s) == "~1" + s
  {
    assert ("/" + s)[1..] == s;
    NothingCoded(s);
  }

  lemma {:induction false} NothingCoded(s: string)
    requires '~' !in s && '/' !in s
    ensures Coded(s) == s
  {
    if s != "" { NothingCoded(s[1..]); }
  }

  /** Where an operation on a path of one segment stands in a document. */
  lemma {:induction false} PointerSpelled(name: string)
    requires '~' !in name && '/' !in name
    ensures OpPointer(OpKey("GET", "/" + name)) == "#/paths/" + "~1" + name + "/get"
  {
    EscapeIsCoded("/" + name);
    CodedSlash(name);
    assert ToLower("GET") == "get";
    hide EscapePointer, ToLower, Coded;
  }
}

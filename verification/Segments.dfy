/**
 Resolved URL pieces (internal/resolve/resolve.go): literal text or a hole standing for
 text that could not be read. A segment list is a pattern in which each hole is a wildcard.
 */
module Segments {
  datatype Segment = Literal(text: string) | Hole(sym: string, name: string, src: string)

  type Segs = seq<Segment>

  /** `s` is an instance of the pattern `segs`. */
  ghost predicate Matches(segs: Segs, s: string) {
    if segs == [] then s == ""
    else match segs[0]
      case Literal(t) => t <= s && Matches(segs[1..], s[|t|..])
      case Hole(_, _, _) => exists k :: 0 <= k <= |s| && Matches(segs[1..], s[k..])
  }

  /** A segment list with the chunking forgotten: single characters and holes. */
  datatype Atom = Chr(c: char) | Wild(hole: Segment)

  function Chars(t: string): seq<Atom> {
    seq(|t|, i requires 0 <= i < |t| => Chr(t[i]))
  }

  function Atoms(segs: Segs): seq<Atom> {
    if segs == [] then []
    else (if segs[0].Literal? then Chars(segs[0].text) else [Wild(segs[0])]) + Atoms(segs[1..])
  }

  ghost predicate MatchesAtoms(atoms: seq<Atom>, s: string) {
    if atoms == [] then s == ""
    else match atoms[0]
      case Chr(c) => s != "" && s[0] == c && MatchesAtoms(atoms[1..], s[1..])
      case Wild(_) => exists k :: 0 <= k <= |s| && MatchesAtoms(atoms[1..], s[k..])
  }

  /** One turn of coalesce's loop. */
  function Push(out: Segs, s: Segment): Segs {
    if s.Literal? && s.text == "" then out
    else if |out| > 0 && s.Literal? && out[|out| - 1].Literal? then
      out[|out| - 1 := Literal(out[|out| - 1].text + s.text)]
    else out + [s]
  }

  function Coalesce(segs: Segs): Segs {
    if segs == [] then [] else Push(Coalesce(segs[..|segs| - 1]), segs[|segs| - 1])
  }

  /** coalesce as the source runs it: one pass that grows `out` in place. */
  method CoalesceLoop(segs: Segs) returns (out: Segs)
    ensures out == Coalesce(segs)
  {
    out := [];
    for i := 0 to |segs|
      invariant out == Coalesce(segs[..i])
    {
      var s := segs[i];
      assert segs[..i + 1][..i] == segs[..i];
      if s.Literal? && s.text == "" {
        continue;
      }
      var n := |out|;
      if n > 0 && s.Literal? && out[n - 1].Literal? {
        out := out[n - 1 := Literal(out[n - 1].text + s.text)];
        continue;
      }
      out := out + [s];
    }
    assert segs[..|segs|] == segs;
  }

  /** No empty literal and no two literals side by side. */
  predicate Normal(segs: Segs) {
    && (forall i :: 0 <= i < |segs| ==> segs[i].Literal? ==> segs[i].text != "")
    && (forall i :: 0 <= i < |segs| - 1 ==> segs[i].Literal? ==> segs[i + 1].Hole?)
  }

  lemma {:induction false} AtomsConcat(a: Segs, b: Segs)
    ensures Atoms(a + b) == Atoms(a) + Atoms(b)
  {
    if a == [] {
      assert a + b == b;
    } else {
      assert (a + b)[1..] == a[1..] + b;
      AtomsConcat(a[1..], b);
    }
  }

  lemma AtomsOne(s: Segment)
    ensures Atoms([s]) == if s.Literal? then Chars(s.text) else [Wild(s)]
  {
    assert [s][1..] == [];
  }

  lemma {:induction false} CoalesceKeepsAtoms(segs: Segs)
    ensures Atoms(Coalesce(segs)) == Atoms(segs)
  {
    if segs != [] {
      var n := |segs| - 1;
      var init, last := segs[..n], segs[n];
      CoalesceKeepsAtoms(init);
      assert segs == init + [last];
      AtomsConcat(init, [last]);
      AtomsOne(last);
      PushAtoms(Coalesce(init), last);
    }
  }

  lemma PushAtoms(out: Segs, s: Segment)
    ensures Atoms(Push(out, s)) == Atoms(out) + Atoms([s])
  {
    var n := |out| - 1;
    if s.Literal? && s.text == "" {
      AtomsOne(s);
    } else if n >= 0 && s.Literal? && out[n].Literal? {
      assert out == out[..n] + [out[n]];
      assert Push(out, s) == out[..n] + [Literal(out[n].text + s.text)];
      JoinAtoms(out[..n], out[n].text, s.text);
    } else {
      AtomsConcat(out, [s]);
    }
  }

  lemma Associative<T>(a: seq<T>, b: seq<T>, c: seq<T>)
    ensures a + (b + c) == a + b + c
  {
  }

  lemma CharsConcat(x: string, y: string)
    ensures Chars(x + y) == Chars(x) + Chars(y)
  {
  }

  lemma JoinAtoms(init: Segs, x: string, y: string)
    ensures Atoms(init + [Literal(x + y)]) == Atoms(init + [Literal(x)]) + Atoms([Literal(y)])
  {
    hide Atoms, Chars;
    AtomsConcat(init, [Literal(x)]);
    AtomsConcat(init, [Literal(x + y)]);
    AtomsOne(Literal(x));
    AtomsOne(Literal(y));
    AtomsOne(Literal(x + y));
    CharsConcat(x, y);
    Associative(Atoms(init), Chars(x), Chars(y));
  }

  lemma {:induction false} CoalesceNormal(segs: Segs)
    ensures Normal(Coalesce(segs))
  {
    if segs != [] {
      CoalesceNormal(segs[..|segs| - 1]);
    }
  }

  /** Two normal lists with the same characters and holes are the same list. */
  lemma {:induction false} NormalUnique(x: Segs, y: Segs)
    requires Normal(x) && Normal(y) && Atoms(x) == Atoms(y)
    ensures x == y
    decreases |x|
  {
    if x != [] && y != [] {
      if x[0].Literal? && y[0].Literal? {
        HeadRun(x);
        HeadRun(y);
        var n := |x[0].text|;
        assert n == |y[0].text|;
        assert x[0].text == y[0].text by {
          forall i | 0 <= i < n ensures x[0].text[i] == y[0].text[i] {
            assert Atoms(x)[i] == Atoms(y)[i];
          }
        }
        assert Atoms(x[1..]) == Atoms(x)[n..] == Atoms(y)[n..] == Atoms(y[1..]);
      } else {
        assert Atoms(x)[0] == Atoms(y)[0];
        assert Atoms(x[1..]) == Atoms(x)[1..] == Atoms(y)[1..] == Atoms(y[1..]);
      }
      NormalUnique(x[1..], y[1..]);
      assert x == [x[0]] + x[1..] && y == [y[0]] + y[1..];
    }
  }

  /** The leading literal of a normal list is its whole first run of characters. */
  lemma HeadRun(x: Segs)
    requires x != [] && x[0].Literal? && Normal(x)
    ensures var n := |x[0].text|;
            && |Atoms(x)| >= n
            && (forall i :: 0 <= i < n ==> Atoms(x)[i] == Chr(x[0].text[i]))
            && (|Atoms(x)| > n ==> Atoms(x)[n].Wild?)
  {
    if |x| > 1 {
      assert x[1].Hole? && x[1..][0] == x[1];
    }
  }

  /** Coalescing is canonical: it forgets exactly how the text was chunked. */
  lemma CoalesceCanonical(a: Segs, b: Segs)
    ensures Coalesce(a) == Coalesce(b) <==> Atoms(a) == Atoms(b)
  {
    CoalesceKeepsAtoms(a);
    CoalesceKeepsAtoms(b);
    CoalesceNormal(a);
    CoalesceNormal(b);
    if Atoms(a) == Atoms(b) {
      NormalUnique(Coalesce(a), Coalesce(b));
    }
  }

  lemma {:induction false} MatchesIsAtoms(segs: Segs, s: string)
    ensures Matches(segs, s) <==> MatchesAtoms(Atoms(segs), s)
    decreases |segs|
  {
    if segs != [] {
      if segs[0].Literal? {
        var t := segs[0].text;
        CharsMatch(t, Atoms(segs[1..]), s);
        if t <= s { MatchesIsAtoms(segs[1..], s[|t|..]); }
      } else {
        assert Atoms(segs)[1..] == Atoms(segs[1..]);
        forall k | 0 <= k <= |s|
          ensures Matches(segs[1..], s[k..]) <==> MatchesAtoms(Atoms(segs[1..]), s[k..])
        {
          MatchesIsAtoms(segs[1..], s[k..]);
        }
      }
    }
  }

  lemma {:induction false} CharsMatch(t: string, rest: seq<Atom>, s: string)
    ensures MatchesAtoms(Chars(t) + rest, s) <==> t <= s && MatchesAtoms(rest, s[|t|..])
    decreases |t|
  {
    if t == "" {
      assert Chars(t) + rest == rest;
    } else {
      assert (Chars(t) + rest)[1..] == Chars(t[1..]) + rest;
      if s != "" && s[0] == t[0] {
        CharsMatch(t[1..], rest, s[1..]);
        assert t <= s <==> t[1..] <= s[1..] by {
          assert t == [t[0]] + t[1..] && s == [s[0]] + s[1..];
        }
        if t <= s { assert s[1..][|t[1..]|..] == s[|t|..]; }
      }
    }
  }

  /** Coalescing changes no instance of the pattern. */
  lemma CoalesceKeepsMatches(segs: Segs, s: string)
    ensures Matches(Coalesce(segs), s) <==> Matches(segs, s)
  {
    CoalesceKeepsAtoms(segs);
    MatchesIsAtoms(segs, s);
    MatchesIsAtoms(Coalesce(segs), s);
  }

  lemma {:induction false} MatchesConcat(a: Segs, b: Segs, s: string, t: string)
    requires Matches(a, s) && Matches(b, t)
    ensures Matches(a + b, s + t)
    decreases |a|
  {
    if a == [] {
      assert a + b == b && s + t == t;
    } else {
      assert (a + b)[1..] == a[1..] + b;
      if a[0].Literal? {
        var n := |a[0].text|;
        MatchesConcat(a[1..], b, s[n..], t);
        assert s[n..] + t == (s + t)[n..];
      } else {
        var k :| 0 <= k <= |s| && Matches(a[1..], s[k..]);
        MatchesConcat(a[1..], b, s[k..], t);
        assert s[k..] + t == (s + t)[k..];
      }
    }
  }

  lemma HoleMatches(h: Segment, s: string)
    requires h.Hole?
    ensures Matches([h], s)
  {
    assert s[|s|..] == "" && [h][1..] == [];
    assert Matches([h][1..], s[|s|..]);
  }

  lemma LiteralMatches(t: string)
    ensures Matches([Literal(t)], t)
  {
    assert [Literal(t)][1..] == [] && t[|t|..] == "";
  }
}

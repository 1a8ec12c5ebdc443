/**
 Resolve and ResolveWithBase (internal/resolve/resolve.go): from the evaluator's raw
 alternatives to the resolutions a caller sees, and what those resolutions promise.
 */
module Resolution {
  import opened Strs
  import opened Segments
  import opened Exprs
  import opened FormatStrings
  import opened Resolver
  import opened Uncapped
  import opened Meaning

  /** One alternative for a call site; the two sets are sorted lists in the source. */
  datatype Resolved = Resolved(segments: Segs, unresolved: set<string>, flags: set<string>)

  function OrUnknown(alts: Alts): Alts {
    if alts == [] then [[Hole("", "", "")]] else alts
  }

  function Resolutions(c: Context, e: Expr): (rs: seq<Resolved>)
    ensures rs != []
  {
    var o := Evaluate(c, e, 0, {});
    var alts := OrUnknown(o.alts);
    var flags := o.flags + (if |alts| > 1 then {"multi_valued"} else {});
    seq(|alts|, i requires 0 <= i < |alts| => Resolved(Coalesce(alts[i]), o.unresolved, flags))
  }

  method Resolve(c: Context, e: Expr) returns (out: seq<Resolved>)
    ensures out == Resolutions(c, e)
  {
    var st := new State(c);
    var alts := st.Eval(e, 0);
    if alts == [] {
      alts := [[Hole("", "", "")]];
    }
    if |alts| > 1 {
      st.Flag("multi_valued");
    }
    out := [];
    var unresolved, flags := st.unresolved, st.flags;
    for i := 0 to |alts|
      invariant out == Resolutions(c, e)[..i]
    {
      var segs := CoalesceLoop(alts[i]);
      assert Resolutions(c, e)[i] == Resolved(segs, unresolved, flags);
      out := out + [Resolved(segs, unresolved, flags)];
    }
  }

  /**
   Every string the expression can denote is an instance of a returned resolution, provided
   no cap is reached, the values of each name reached are told apart by their rendering, and each
   format node reached takes single-valued arguments before any named one.
   */
  lemma ResolutionKeepsMeaning(c: Context, e: Expr, s: string, n: nat) returns (k: nat)
    requires Formats(c, e, 0, {}, Short) && Formats(c, e, 0, {}, Single)
    requires |All(c, e, 0, {})| <= MAX_ALTERNATIVES && AllShort(All(c, e, 0, {}))
    requires Denotes(c, e, s, n)
    ensures k < |Resolutions(c, e)| && Matches(Resolutions(c, e)[k].segments, s)
  {
    k := EvaluationKeepsMeaning(c, e, s, n);
    CoalesceKeepsMatches(Evaluate(c, e, 0, {}).alts[k], s);
  }

  // ----- every hole is accounted for

  /** Each hole that knows where it came from is listed in `names`. */
  predicate Listed(segs: Segs, names: set<string>) {
    forall i :: 0 <= i < |segs| && segs[i].Hole? && segs[i].sym != "" ==> segs[i].sym in names
  }

  predicate ArgsAllListed(args: seq<Option<Segs>>, names: set<string>) {
    forall i :: 0 <= i < |args| && args[i].Some? ==> Listed(args[i].value, names)
  }

  predicate AllListed(alts: Alts, names: set<string>) {
    forall i :: 0 <= i < |alts| ==> Listed(alts[i], names)
  }

  lemma {:induction false} CrossListed(xs: Alts, ys: Alts, sep: Segs, names: set<string>)
    requires AllListed(xs, names) && AllListed(ys, names) && Listed(sep, names)
    ensures AllListed(Cross(xs, ys, sep), names)
  {
    if xs != [] {
      CrossListed(xs[1..], ys, sep, names);
      assert AllListed(Row(xs[0], ys, sep), names);
    }
  }

  lemma {:induction false} AssembleListed(pieces: seq<Piece>, args: seq<Option<Segs>>, next: nat, names: set<string>)
    requires ArgsAllListed(args, names)
    ensures Listed(Assemble(pieces, args, next), names)
    decreases |pieces|
  {
    if pieces != [] {
      var next' := if pieces[0].Verb? && pieces[0].argIndex < 0 then next + 1 else next;
      AssembleListed(pieces[1..], args, next', names);
    }
  }

  lemma {:induction false} HolesListed(c: Context, e: Expr, depth: nat, visiting: set<string>)
    ensures var o := Evaluate(c, e, depth, visiting);
            AllListed(o.alts, o.unresolved)
    decreases Left(depth), 1, 0
  {
    if e.Node? && depth <= MAX_DEPTH {
      match e.kind {
        case Concat => SeqListed(c, e.parts, depth, visiting, "", true, [[]], {});
        case Template => SeqListed(c, e.parts, depth, visiting, "", true, [[]], {});
        case Join => SeqListed(c, e.parts, depth, visiting, "/", true, [[]], {});
        case Cond => AnyListed(c, e.parts, depth, visiting, [], {});
        case Symbol =>
          AnyListed(c, Lookup(c.symbols, e.text, c.fn), depth, visiting + {e.text}, [], {});
        case Format =>
          ArgsListed(c, e.parts, depth, visiting);
          var a := EvaluateArgs(c, e.parts, depth, visiting);
          AssembleListed(Parse(e.text, ""), a.args, 0, a.unresolved);
        case _ =>
      }
    }
  }

  lemma {:induction false} SeqListed(c: Context, parts: seq<Expr>, depth: nat, visiting: set<string>,
                                     sep: string, first: bool, acc: Alts, names: set<string>)
    requires depth <= MAX_DEPTH && AllListed(acc, names)
    ensures var o := EvaluateSeq(c, parts, depth, visiting, sep, first, acc);
            AllListed(o.alts, names + o.unresolved)
    decreases Left(depth), 0, |parts|
  {
    if parts != [] {
      HolesListed(c, parts[0], depth + 1, visiting);
      var o := Evaluate(c, parts[0], depth + 1, visiting);
      CrossListed(acc, o.alts, Separator(sep, first), names + o.unresolved);
      SeqListed(c, parts[1..], depth, visiting, sep, false,
                Take(MAX_ALTERNATIVES, CutAll(Cross(acc, o.alts, Separator(sep, first)))),
                names + o.unresolved);
    }
  }

  lemma {:induction false} AnyListed(c: Context, es: seq<Expr>, depth: nat, visiting: set<string>,
                                     out: Alts, names: set<string>)
    requires depth <= MAX_DEPTH && AllListed(out, names)
    ensures var o := EvaluateAny(c, es, depth, visiting, out);
            AllListed(o.alts, names + o.unresolved)
    decreases Left(depth), 0, |es|
  {
    if es != [] {
      HolesListed(c, es[0], depth + 1, visiting);
      var o := Evaluate(c, es[0], depth + 1, visiting);
      AnyListed(c, es[1..], depth, visiting, out + o.alts, names + o.unresolved);
    }
  }

  lemma {:induction false} ArgsListed(c: Context, es: seq<Expr>, depth: nat, visiting: set<string>)
    requires depth <= MAX_DEPTH
    ensures var a := EvaluateArgs(c, es, depth, visiting);
            ArgsAllListed(a.args, a.unresolved)
    decreases Left(depth), 0, |es|
  {
    if es != [] {
      HolesListed(c, es[0], depth + 1, visiting);
      ArgsListed(c, es[1..], depth, visiting);
      var o, rest := Evaluate(c, es[0], depth + 1, visiting), EvaluateArgs(c, es[1..], depth, visiting);
      assert o.alts != [] ==> Listed(o.alts[0], o.unresolved + rest.unresolved);
      assert ArgsAllListed(rest.args, o.unresolved + rest.unresolved) by {
        forall i | 0 <= i < |rest.args| && rest.args[i].Some?
          ensures Listed(rest.args[i].value, o.unresolved + rest.unresolved)
        {
          assert Listed(rest.args[i].value, rest.unresolved);
        }
      }
    }
  }

  lemma {:induction false} CoalesceListed(segs: Segs, names: set<string>)
    requires Listed(segs, names)
    ensures Listed(Coalesce(segs), names)
  {
    if segs != [] {
      CoalesceListed(segs[..|segs| - 1], names);
    }
  }

  /** A resolution's list of blockers names every symbolic hole left in it. */
  lemma BlockersComplete(c: Context, e: Expr, k: nat)
    requires k < |Resolutions(c, e)|
    ensures Listed(Resolutions(c, e)[k].segments, Resolutions(c, e)[k].unresolved)
  {
    var o := Evaluate(c, e, 0, {});
    HolesListed(c, e, 0, {});
    CoalesceListed(OrUnknown(o.alts)[k], o.unresolved);
  }

  // ----- client base URLs

  /** The text of a resolution without holes. */
  function LiteralString(segs: Segs): Option<string> {
    if segs == [] then Some("")
    else if segs[0].Hole? then None
    else match LiteralString(segs[1..])
      case Some(rest) => Some(segs[0].text + rest)
      case None => None
  }

  /** strings.Index(s, "://"). */
  function SchemeEnd(s: string): (i: int)
    ensures -1 <= i < |s|
  {
    if |s| < 3 then -1
    else if s[..3] == "://" then 0
    else
      var i := SchemeEnd(s[1..]);
      if i < 0 then -1 else i + 1
  }

  predicate HasScheme(s: string) {
    var i := SchemeEnd(s);
    i > 0 && forall k :: 0 <= k < i ==> IsLetter(s[k]) || IsDigit(s[k]) || s[k] in "+-."
  }

  /** The base bound to a client instance, or to the file as a whole. */
  function BaseFor(bindings: map<string, Expr>, instance: string): Expr {
    if instance in bindings then bindings[instance]
    else if "" in bindings then bindings[""]
    else Nil
  }

  function Based(base: Resolved, one: Resolved): Resolved {
    match LiteralString(one.segments)
    case Some(lit) => if HasScheme(lit) then one else Prefixed(base, one)
    case None => Prefixed(base, one)
  }

  function Prefixed(base: Resolved, one: Resolved): Resolved {
    Resolved(Coalesce(base.segments + one.segments), base.unresolved + one.unresolved, base.flags + one.flags)
  }

  method ResolveWithBase(c: Context, bindings: map<string, Expr>, e: Expr, instance: string)
    returns (out: seq<Resolved>)
    ensures var res, base := Resolutions(c, e), BaseFor(bindings, instance);
            && |out| == |res|
            && forall i :: 0 <= i < |res| ==>
                 out[i] == if base == Nil then res[i] else Based(Resolutions(c, base)[0], res[i])
  {
    var res := Resolve(c, e);
    var base := BaseFor(bindings, instance);
    if base == Nil {
      return res;
    }
    var baseAlts := Resolve(c, base);
    var b := baseAlts[0];
    out := [];
    for i := 0 to |res|
      invariant |out| == i
      invariant forall k :: 0 <= k < i ==> out[k] == Based(b, res[k])
    {
      out := out + [Based(b, res[i])];
    }
  }

  /** The resolution certainly holds an absolute URL. */
  predicate Absolute(segs: Segs) {
    segs != [] && segs[0].Literal? && HasScheme(segs[0].text)
  }

  lemma AtomsEmpty(segs: Segs)
    requires Normal(segs) && Atoms(segs) == []
    ensures segs == []
  {
  }

  lemma LiteralNormal(segs: Segs)
    requires Normal(segs) && Absolute(segs)
    ensures LiteralString(segs).Some? <==> |segs| == 1
    ensures |segs| == 1 ==> LiteralString(segs) == Some(segs[0].text)
  {
    if |segs| > 1 {
      assert segs[1..][0].Hole?;
    } else {
      assert segs[1..] == [] && segs[0].text + "" == segs[0].text;
    }
  }

  /**
   An absolute URL at the call site is meant to override the client's base. It does so exactly
   when it is fully literal (or the base is empty): with a hole in it, the base is put in front.
   */
  lemma AbsoluteOverridesBase(c: Context, base: Expr, e: Expr, k: nat)
    requires k < |Resolutions(c, e)| && Absolute(Resolutions(c, e)[k].segments)
    ensures var b, one := Resolutions(c, base)[0], Resolutions(c, e)[k];
            Based(b, one).segments == one.segments <==> |one.segments| == 1 || b.segments == []
  {
    var b, one := Resolutions(c, base)[0], Resolutions(c, e)[k];
    CoalesceNormal(OrUnknown(Evaluate(c, e, 0, {}).alts)[k]);
    CoalesceNormal(OrUnknown(Evaluate(c, base, 0, {}).alts)[0]);
    LiteralNormal(one.segments);
    if |one.segments| != 1 {
      CoalesceKeepsAtoms(b.segments + one.segments);
      AtomsConcat(b.segments, one.segments);
      CoalesceNormal(b.segments + one.segments);
      if Coalesce(b.segments + one.segments) == one.segments {
        assert |Atoms(b.segments)| == 0;
        AtomsEmpty(b.segments);
      }
      if b.segments == [] {
        NormalUnique(Coalesce(b.segments + one.segments), one.segments);
      }
    }
  }

  /** A relative value is read after the base: instances concatenate. */
  lemma RelativeFollowsBase(base: Resolved, one: Resolved, s: string, t: string)
    requires Matches(base.segments, s) && Matches(one.segments, t)
    requires LiteralString(one.segments).Some? ==> !HasScheme(LiteralString(one.segments).value)
    ensures Matches(Based(base, one).segments, s + t)
  {
    MatchesConcat(base.segments, one.segments, s, t);
    CoalesceKeepsMatches(base.segments + one.segments, s + t);
  }
}

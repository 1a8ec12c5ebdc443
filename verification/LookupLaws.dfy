/**
 What a name means (internal/resolve/resolve.go), said of the definitions of the table one by one:
 which of them stands in the narrowest scope, which of them the function may see, and which field
 a dotted name falls back to.
 */
module LookupLaws {
  import opened Exprs
  import opened Strs

  /** Scope `a` lies inside scope `b`: functions in types, types in files, files in the module. */
  predicate Inside(a: ScopeKind, b: ScopeKind) {
    match a
    case ScopeFunc => b != ScopeFunc
    case ScopeType => b == ScopeFile || b == ScopeModule
    case ScopeFile => b == ScopeModule
    case ScopeModule => false
  }

  /** Function `fn` sees the definition under `name`; only a function's own variables are private. */
  predicate Visible(d: SymbolDef, name: string, fn: string) {
    && d.name == name && d.value != Nil && !d.param
    && (d.scope == ScopeFunc ==> fn == "" || d.fn == "" || d.fn == fn)
  }

  /** No definition that `fn` sees stands further inside than the one at `i`. */
  predicate Binds(t: Table, i: nat, name: string, fn: string)
    requires i < |t|
  {
    && Visible(t[i], name, fn)
    && forall j :: 0 <= j < |t| && Visible(t[j], name, fn) ==> !Inside(t[j].scope, t[i].scope)
  }

  /** "x.f" may mean a field "T.f" of a type: only what follows the last dot counts. */
  ghost predicate MayBeField(d: SymbolDef, name: string) {
    d.scope == ScopeType && d.value != Nil
    && exists x, q, f :: name == x + "." + f && '.' !in f && d.name == q + "." + f
  }

  /** The name is bound nowhere, and every field it may be holds the same value. */
  ghost predicate IsField(t: Table, i: nat, name: string, fn: string)
    requires i < |t|
  {
    && (forall j :: 0 <= j < |t| ==> !Visible(t[j], name, fn))
    && MayBeField(t[i], name)
    && forall j :: 0 <= j < |t| && MayBeField(t[j], name) ==> Render(t[j].value) == Render(t[i].value)
  }

  /** The definition at `i` gives `name` a value. */
  ghost predicate Gives(t: Table, i: nat, name: string, fn: string)
    requires i < |t|
  {
    name != "" && (Binds(t, i, name, fn) || IsField(t, i, name, fn))
  }

  /** `at` lists exactly the positions of `good`, in order. */
  ghost predicate Lists(at: seq<nat>, good: set<nat>) {
    && (forall k, l :: 0 <= k < l < |at| ==> at[k] < at[l])
    && forall i :: i in at <==> i in good
  }

  /** The positions of `good` whose value renders unlike that of every earlier one. */
  ghost predicate First(t: Table, good: set<nat>, i: nat)
    requires i < |t|
  {
    i in good && forall j :: 0 <= j < i && j in good ==> Render(t[j].value) != Render(t[i].value)
  }

  ghost function Firsts(t: Table, good: set<nat>): set<nat> {
    set i: nat | i < |t| && First(t, good, i)
  }

  ghost predicate AreValues(t: Table, vals: seq<Expr>, at: seq<nat>) {
    |vals| == |at| && forall k :: 0 <= k < |at| ==> at[k] < |t| && vals[k] == t[at[k]].value
  }

  /** The values `vals` are those of the positions of `good`, in the order of the table. */
  ghost predicate ValuesOf(t: Table, vals: seq<Expr>, good: set<nat>) {
    exists at: seq<nat> :: Lists(at, good) && AreValues(t, vals, at)
  }

  lemma ListsMore(at: seq<nat>, good: set<nat>, n: nat)
    requires Lists(at, good) && forall i :: i in good ==> i < n
    ensures Lists(at + [n], good + {n})
  {
    forall k, l | 0 <= k < l < |at + [n]| ensures (at + [n])[k] < (at + [n])[l] {
      assert at[k] in at;
    }
  }

  lemma ListsFewer(at: seq<nat>, good: set<nat>, n: nat)
    requires Lists(at, good) && |at| == n + 1
    ensures Lists(at[..n], good - {at[n]})
    ensures at[n] in good && forall i :: i in good ==> i <= at[n]
  {
    forall i | i in good ensures i <= at[n] && (i in at[..n] <==> i != at[n]) {
      assert i in at;
      var k :| 0 <= k < |at| && at[k] == i;
      if k < n { assert at[..n][k] == i; }
    }
    assert forall i :: i in at[..n] ==> i in at;
  }

  lemma ValuesOfMore(t: Table, vals: seq<Expr>, good: set<nat>, n: nat)
    requires ValuesOf(t, vals, good) && n < |t| && forall i :: i in good ==> i < n
    ensures ValuesOf(t, vals + [t[n].value], good + {n})
  {
    var at: seq<nat> :| Lists(at, good) && AreValues(t, vals, at);
    ListsMore(at, good, n);
    assert AreValues(t, vals + [t[n].value], at + [n]);
  }

  lemma ValuesOfPrefix(t: Table, n: nat, vals: seq<Expr>, good: set<nat>)
    requires n <= |t| && ValuesOf(t[..n], vals, good)
    ensures ValuesOf(t, vals, good) && forall i :: i in good ==> i < n
  {
    var at: seq<nat> :| Lists(at, good) && AreValues(t[..n], vals, at);
    assert AreValues(t, vals, at);
  }

  ghost function ScopePositions(t: Table, scope: ScopeKind, name: string, fn: string): set<nat> {
    set i: nat | i < |t| && t[i].scope == scope && Visible(t[i], name, fn)
  }

  lemma {:induction false} InScopeAt(t: Table, scope: ScopeKind, name: string, fn: string)
    ensures ValuesOf(t, InScope(t, scope, name, fn), ScopePositions(t, scope, name, fn))
  {
    if t == [] {
      assert Lists([], ScopePositions(t, scope, name, fn)) && AreValues(t, [], []);
    } else {
      var n := |t| - 1;
      InScopeAt(t[..n], scope, name, fn);
      var good := ScopePositions(t[..n], scope, name, fn);
      ValuesOfPrefix(t, n, InScope(t[..n], scope, name, fn), good);
      if Shows(t[n], scope, name, fn) {
        ValuesOfMore(t, InScope(t[..n], scope, name, fn), good, n);
        assert ScopePositions(t, scope, name, fn) == good + {n};
      } else {
        assert ScopePositions(t, scope, name, fn) == good;
      }
    }
  }

  ghost function FieldPositions(t: Table, suffix: string): set<nat> {
    set i: nat | i < |t| && t[i].value != Nil && t[i].scope == ScopeType && HasSuffix(t[i].name, suffix)
  }

  lemma {:induction false} FieldsAt(t: Table, suffix: string)
    ensures ValuesOf(t, Fields(t, suffix), FieldPositions(t, suffix))
  {
    if t == [] {
      assert Lists([], FieldPositions(t, suffix)) && AreValues(t, [], []);
    } else {
      var n := |t| - 1;
      FieldsAt(t[..n], suffix);
      var good := FieldPositions(t[..n], suffix);
      ValuesOfPrefix(t, n, Fields(t[..n], suffix), good);
      if n in FieldPositions(t, suffix) {
        ValuesOfMore(t, Fields(t[..n], suffix), good, n);
        assert FieldPositions(t, suffix) == good + {n};
      } else {
        assert FieldPositions(t, suffix) == good;
      }
    }
  }

  /** Whether the last of the positions adds a rendering. */
  lemma FirstsStep(t: Table, good: set<nat>, last: nat)
    requires last in good && last < |t| && forall i :: i in good ==> i <= last
    ensures First(t, good, last) ==> Firsts(t, good) == Firsts(t, good - {last}) + {last}
    ensures !First(t, good, last) ==> Firsts(t, good) == Firsts(t, good - {last})
  {
    hide Render;
    forall i: nat | i < |t| && i != last ensures First(t, good, i) <==> First(t, good - {last}, i) {}
  }

  lemma RenderingsAt(t: Table, vals: seq<Expr>, at: seq<nat>, good: set<nat>, s: string)
    requires Lists(at, good) && AreValues(t, vals, at)
    ensures s in Renderings(vals) <==> exists i :: i in good && i < |t| && Render(t[i].value) == s
  {
    hide Render;
    if s in Renderings(vals) {
      var k :| 0 <= k < |vals| && Render(vals[k]) == s;
      assert at[k] in at;
    }
    if i :| i in good && i < |t| && Render(t[i].value) == s {
      assert i in at;
      var k :| 0 <= k < |at| && at[k] == i;
      assert vals[k] in vals;
    }
  }

  lemma {:induction false} DedupeAt(t: Table, vals: seq<Expr>, at: seq<nat>, good: set<nat>)
    requires Lists(at, good) && AreValues(t, vals, at)
    ensures ValuesOf(t, Dedupe(vals), Firsts(t, good))
  {
    if vals == [] {
      assert Firsts(t, good) == {} && Lists([], {}) && AreValues(t, [], []);
    } else {
      hide Render;
      var n := |vals| - 1;
      ListsFewer(at, good, n);
      var less := good - {at[n]};
      DedupeAt(t, vals[..n], at[..n], less);
      FirstsStep(t, good, at[n]);
      RenderingsAt(t, vals[..n], at[..n], less, Render(vals[n]));
      if First(t, good, at[n]) {
        ValuesOfMore(t, Dedupe(vals[..n]), Firsts(t, less), at[n]);
      }
    }
  }

  lemma DedupedOf(t: Table, vals: seq<Expr>, good: set<nat>)
    requires ValuesOf(t, vals, good)
    ensures ValuesOf(t, Dedupe(vals), Firsts(t, good))
    ensures vals == [] <==> good == {}
  {
    var at: seq<nat> :| Lists(at, good) && AreValues(t, vals, at);
    DedupeAt(t, vals, at, good);
    if vals != [] { assert at[0] in at; }
    if i :| i in good { assert i in at; }
  }

  ghost function Givers(t: Table, name: string, fn: string): set<nat> {
    set i: nat | i < |t| && Gives(t, i, name, fn)
  }

  /** The innermost scope that shows the name gives it its values. */
  lemma ScopeGives(t: Table, scope: ScopeKind, name: string, fn: string)
    requires name != "" && ScopePositions(t, scope, name, fn) != {}
    requires forall s :: Inside(s, scope) ==> ScopePositions(t, s, name, fn) == {}
    ensures Givers(t, name, fn) == ScopePositions(t, scope, name, fn)
  {
    var w :| w in ScopePositions(t, scope, name, fn);
    forall i: nat | i < |t| ensures Gives(t, i, name, fn) <==> i in ScopePositions(t, scope, name, fn) {
      if Visible(t[i], name, fn) {
        assert i in ScopePositions(t, t[i].scope, name, fn);
        assert t[i].scope == scope || Inside(scope, t[i].scope);
      }
      if i in ScopePositions(t, scope, name, fn) {
        forall j | 0 <= j < |t| && Visible(t[j], name, fn) ensures !Inside(t[j].scope, scope) {
          assert j in ScopePositions(t, t[j].scope, name, fn);
        }
      }
    }
  }

  predicate IsHop(d: SymbolDef, name: string) {
    var i := LastIndexAny(name, ".");
    i >= 0 && d.scope == ScopeType && d.value != Nil && HasSuffix(d.name, "." + name[i + 1..])
  }

  lemma EmptyDedupe()
    ensures Dedupe([]) == []
  {
  }

  lemma DotIsLast(name: string, x: string, f: string)
    requires name == x + "." + f && '.' !in f
    ensures LastIndexAny(name, ".") == |x| && name[|x| + 1..] == f
  {
    var i := LastIndexAny(name, ".");
    assert name[|x|] == '.';
    assert forall k | |x| < k < |name| :: name[k] in f;
  }

  lemma EndsIn(s: string, suffix: string)
    ensures HasSuffix(s, suffix) <==> exists q :: s == q + suffix
  {
    if HasSuffix(s, suffix) { assert s == s[..|s| - |suffix|] + suffix; }
  }

  lemma FieldIsHop(d: SymbolDef, name: string, x: string, q: string, f: string)
    requires name == x + "." + f && '.' !in f && d.name == q + "." + f
    requires d.scope == ScopeType && d.value != Nil
    ensures IsHop(d, name)
  {
    hide HasSuffix, LastIndexAny;
    DotIsLast(name, x, f);
    assert d.name == q + ("." + f);
    EndsIn(d.name, "." + f);
  }

  lemma HopIsField(d: SymbolDef, name: string)
    requires IsHop(d, name)
    ensures MayBeField(d, name)
  {
    hide HasSuffix, LastIndexAny;
    var i := LastIndexAny(name, ".");
    var x, f := name[..i], name[i + 1..];
    EndsIn(d.name, "." + f);
    var q :| d.name == q + ("." + f);
    assert d.name == q + "." + f;
    assert name == x + "." + f;
    assert '.' !in f;
  }

  lemma FieldNames(d: SymbolDef, name: string)
    ensures MayBeField(d, name) <==> IsHop(d, name)
  {
    hide IsHop;
    if MayBeField(d, name) {
      var x, q, f :| name == x + "." + f && '.' !in f && d.name == q + "." + f;
      FieldIsHop(d, name, x, q, f);
    }
    if IsHop(d, name) { HopIsField(d, name); }
  }

  /** Only when every possible field holds one value is there one. */
  lemma SoleRendering(t: Table, vals: seq<Expr>, good: set<nat>)
    requires ValuesOf(t, vals, good)
    ensures |Dedupe(vals)| == 1
       <==> good != {} && forall i, j :: i in good && j in good && i < |t| && j < |t| ==>
                                           Render(t[i].value) == Render(t[j].value)
  {
    hide Render, Dedupe;
    var at: seq<nat> :| Lists(at, good) && AreValues(t, vals, at);
    DedupedOf(t, vals, good);
    DedupeCovers(vals);
    DedupeDistinct(vals);
    if |Dedupe(vals)| == 1 {
      assert Dedupe(vals)[0] in vals;
      var s := Render(Dedupe(vals)[0]);
      assert Renderings(Dedupe(vals)) == {s} by { assert Dedupe(vals) == [Dedupe(vals)[0]]; }
      forall i | i in good && i < |t| ensures Render(t[i].value) == s {
        RenderingsAt(t, vals, at, good, Render(t[i].value));
      }
      assert Dedupe(vals)[0] in vals;
    } else if |Dedupe(vals)| >= 2 {
      var a, b := Dedupe(vals)[0], Dedupe(vals)[1];
      assert a in Dedupe(vals) && b in Dedupe(vals);
      RenderingsAt(t, vals, at, good, Render(a));
      RenderingsAt(t, vals, at, good, Render(b));
    }
  }

  ghost predicate Unbound(t: Table, name: string, fn: string) {
    forall j :: 0 <= j < |t| ==> !Visible(t[j], name, fn)
  }

  lemma FieldsGive(t: Table, name: string, fn: string)
    requires name != "" && Unbound(t, name, fn) && LastIndexAny(name, ".") >= 0
    ensures var good := FieldPositions(t, "." + name[LastIndexAny(name, ".") + 1..]);
            Givers(t, name, fn)
            == if forall i, j :: i in good && j in good && i < |t| && j < |t| ==>
                                   Render(t[i].value) == Render(t[j].value) then good else {}
  {
    hide Render, Fields, HasSuffix, MayBeField;
    var good := FieldPositions(t, "." + name[LastIndexAny(name, ".") + 1..]);
    assert forall i: nat | i < |t| :: !Binds(t, i, name, fn);
    forall i: nat | i < |t| ensures MayBeField(t[i], name) <==> i in good { FieldNames(t[i], name); }
  }

  lemma OneHopGives(t: Table, name: string, fn: string)
    requires name != "" && Unbound(t, name, fn)
    ensures ValuesOf(t, if |Dedupe(OneHop(t, name))| == 1 then OneHop(t, name) else [], Givers(t, name, fn))
  {
    hide Render, Dedupe, Fields, HasSuffix, MayBeField, FieldPositions;
    var none: set<nat> := {};
    assert Lists([], none) && AreValues(t, [], []);
    if LastIndexAny(name, ".") < 0 {
      EmptyDedupe();
      forall i: nat | i < |t| ensures !Gives(t, i, name, fn) { FieldNames(t[i], name); }
      assert Givers(t, name, fn) == none;
    } else {
      var suffix := "." + name[LastIndexAny(name, ".") + 1..];
      FieldsAt(t, suffix);
      SoleRendering(t, Fields(t, suffix), FieldPositions(t, suffix));
      FieldsGive(t, name, fn);
    }
  }

  /** The scopes in turn: the first that shows the name, otherwise the field. */
  lemma NarrowestUnrolled(t: Table, name: string, fn: string)
    ensures var f := InScope(t, ScopeFunc, name, fn);
            var y := InScope(t, ScopeType, name, fn);
            var l := InScope(t, ScopeFile, name, fn);
            var m := InScope(t, ScopeModule, name, fn);
            Narrowest(t, SCOPES, name, fn) == if f != [] then f else if y != [] then y else if l != [] then l else m
  {
    hide InScope;
    assert SCOPES[0..] == SCOPES && Narrowest(t, SCOPES[4..], name, fn) == [];
    NarrowestStep(t, 0, name, fn);
    NarrowestStep(t, 1, name, fn);
    NarrowestStep(t, 2, name, fn);
    NarrowestStep(t, 3, name, fn);
  }

  lemma ScopeIsEmpty(t: Table, scope: ScopeKind, name: string, fn: string)
    ensures ValuesOf(t, InScope(t, scope, name, fn), ScopePositions(t, scope, name, fn))
    ensures InScope(t, scope, name, fn) == [] <==> ScopePositions(t, scope, name, fn) == {}
  {
    InScopeAt(t, scope, name, fn);
    DedupedOf(t, InScope(t, scope, name, fn), ScopePositions(t, scope, name, fn));
  }

  lemma ScopeBinds(t: Table, s: ScopeKind, name: string, fn: string)
    requires name != "" && InScope(t, s, name, fn) != []
    requires forall r :: Inside(r, s) ==> InScope(t, r, name, fn) == []
    ensures ValuesOf(t, InScope(t, s, name, fn), Givers(t, name, fn))
  {
    hide InScope, Givers, ValuesOf, ScopePositions;
    ScopeIsEmpty(t, s, name, fn);
    forall r | Inside(r, s) ensures ScopePositions(t, r, name, fn) == {} { ScopeIsEmpty(t, r, name, fn); }
    ScopeGives(t, s, name, fn);
  }

  lemma NoScopeBinds(t: Table, name: string, fn: string)
    requires name != "" && forall s: ScopeKind :: InScope(t, s, name, fn) == []
    ensures ValuesOf(t, if |Dedupe(OneHop(t, name))| == 1 then OneHop(t, name) else [], Givers(t, name, fn))
  {
    hide InScope, Givers, ValuesOf, ScopePositions, OneHop, Dedupe;
    forall s: ScopeKind ensures ScopePositions(t, s, name, fn) == {} { ScopeIsEmpty(t, s, name, fn); }
    NothingShows(t, name, fn);
    OneHopGives(t, name, fn);
  }

  /** A name is bound to the values of exactly the definitions that give it one, in table order. */
  lemma BindingsExact(t: Table, name: string, fn: string)
    ensures ValuesOf(t, Bindings(t, name, fn), Givers(t, name, fn))
  {
    hide InScope, Narrowest, OneHop, Dedupe, Givers, ValuesOf;
    if name == "" {
      NoName(t, fn);
    } else {
      NarrowestUnrolled(t, name, fn);
      if InScope(t, ScopeFunc, name, fn) != [] {
        ScopeBinds(t, ScopeFunc, name, fn);
      } else if InScope(t, ScopeType, name, fn) != [] {
        ScopeBinds(t, ScopeType, name, fn);
      } else if InScope(t, ScopeFile, name, fn) != [] {
        ScopeBinds(t, ScopeFile, name, fn);
      } else if InScope(t, ScopeModule, name, fn) != [] {
        ScopeBinds(t, ScopeModule, name, fn);
      } else {
        forall s: ScopeKind ensures InScope(t, s, name, fn) == [] {
          assert s == ScopeFunc || s == ScopeType || s == ScopeFile || s == ScopeModule;
        }
        NoScopeBinds(t, name, fn);
      }
    }
  }

  lemma NoName(t: Table, fn: string)
    ensures ValuesOf(t, [], Givers(t, "", fn))
  {
    assert Lists([], {}) && AreValues(t, [], []);
  }

  lemma NothingShows(t: Table, name: string, fn: string)
    requires forall s :: ScopePositions(t, s, name, fn) == {}
    ensures Unbound(t, name, fn)
  {
    forall j | 0 <= j < |t| ensures !Visible(t[j], name, fn) {
      assert j !in ScopePositions(t, t[j].scope, name, fn);
    }
  }

  /** A lookup returns, in table order, the value of every definition that gives the name one and
      renders unlike all earlier ones that do. */
  lemma LookupExact(t: Table, name: string, fn: string)
    ensures ValuesOf(t, Lookup(t, name, fn), Firsts(t, Givers(t, name, fn)))
  {
    BindingsExact(t, name, fn);
    DedupedOf(t, Bindings(t, name, fn), Givers(t, name, fn));
  }

  /** A value is found, up to its rendering, if and only if some definition gives it to the name. */
  lemma FoundIff(t: Table, name: string, fn: string, s: string)
    ensures s in Renderings(Lookup(t, name, fn))
       <==> exists i :: 0 <= i < |t| && Gives(t, i, name, fn) && Render(t[i].value) == s
  {
    hide Render, Gives, Bindings;
    BindingsExact(t, name, fn);
    var good := Givers(t, name, fn);
    var at: seq<nat> :| Lists(at, good) && AreValues(t, Bindings(t, name, fn), at);
    RenderingsAt(t, Bindings(t, name, fn), at, good, s);
    DedupeCovers(Bindings(t, name, fn));
  }

  /** How a rendering starts. */
  function Start(e: Expr): string {
    if e.Nil? then "<"
    else match e.kind
      case Lit => "\""
      case Symbol => "sym("
      case Env => "env("
      case Unknown => "?"
      case _ => KindName(e.kind)
  }

  lemma Starts(e: Expr)
    ensures Start(e) <= Render(e)
  {
    hide Strs.Join, RenderAll;
  }

  lemma LitText(e: Expr)
    requires e.Node? && e.kind == Lit
    ensures |Render(e)| >= 2 && Render(e)[1..|Render(e)| - 1] == e.text
  {
  }

  lemma NameText(e: Expr)
    requires e.Node? && e.kind == Symbol
    ensures |Render(e)| >= 5 && Render(e)[4..|Render(e)| - 1] == e.text
  {
  }

  /** Values of different kinds render differently, and so do different literals and different names. */
  lemma RenderTellsKinds(a: Expr, b: Expr)
    requires Render(a) == Render(b)
    ensures a.Nil? <==> b.Nil?
    ensures a.Node? ==> b.kind == a.kind && (a.kind == Lit || a.kind == Symbol ==> b.text == a.text)
  {
    hide Render;
    Starts(a);
    Starts(b);
    var x, y := Start(a), Start(b);
    assert x[0] == y[0];
    assert a.Nil? <==> b.Nil?;
    if a.Node? && a.kind == Lit {
      LitText(a);
      LitText(b);
    } else if a.Node? && a.kind == Symbol {
      NameText(a);
      NameText(b);
    } else if a.Node? && |x| > 3 && |y| > 3 {
      assert x[1] == y[1] && x[3] == y[3];
    }
  }

  const OUTER := SymbolDef("url", ScopeModule, Node(Lit, "https://a", [], ""), "", false)
  const INNER := SymbolDef("url", ScopeFunc, Node(Lit, "https://b", [], ""), "f", false)

  /** A function's own variable hides the constant of the module, and only from that function. */
  lemma OwnVariableHides()
    ensures Lookup([OUTER, INNER], "url", "f") == [INNER.value]
    ensures Lookup([OUTER, INNER], "url", "g") == [OUTER.value]
  {
    LookupOf("f", 1);
    LookupOf("g", 0);
  }

  lemma OnlyOne(at: seq<nat>, k: nat)
    requires Lists(at, {k})
    ensures at == [k]
  {
    assert k in at;
    assert at[0] in at;
    assert at[|at| - 1] in at;
  }

  lemma LookupOf(fn: string, k: nat)
    requires (fn == "f" && k == 1) || (fn == "g" && k == 0)
    ensures Lookup([OUTER, INNER], "url", fn) == [[OUTER, INNER][k].value]
  {
    var t := [OUTER, INNER];
    hide Render, Lookup, MayBeField;
    assert t[0] == OUTER && t[1] == INNER;
    assert Visible(t[k], "url", fn) && (fn == "g" ==> !Visible(t[1], "url", fn));
    LookupExact(t, "url", fn);
    assert Givers(t, "url", fn) == {k};
    assert Firsts(t, {k}) == {k};
    var at: seq<nat> :| Lists(at, {k}) && AreValues(t, Lookup(t, "url", fn), at);
    assert k in at;
    OnlyOne(at, k);
  }
}
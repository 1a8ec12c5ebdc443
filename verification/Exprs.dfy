/**
 The language-agnostic expression tree (internal/detect/expr.go) and the symbol table the
 resolver reads (internal/resolve/resolve.go).
 */
module Exprs {
  import opened Strs

  datatype Kind =
    Unknown | Lit | Concat | Symbol | Env | Format | Template | Join | Call | Index | Cond

  /** `Nil` is the nil pointer: a part or a value that no detector could build. */
  datatype Expr = Nil | Node(kind: Kind, text: string, parts: seq<Expr>, src: string)

  function KindName(k: Kind): string {
    match k
    case Unknown => "unknown"
    case Lit => "lit"
    case Concat => "concat"
    case Symbol => "symbol"
    case Env => "env"
    case Format => "format"
    case Template => "template"
    case Join => "join"
    case Call => "call"
    case Index => "index"
    case Cond => "cond"
  }

  /** Expr.String: the rendering under which the resolver takes two values for the same. */
  function Render(e: Expr): string
    decreases e, 1
  {
    if e.Nil? then "<nil>"
    else match e.kind
      case Lit => "\"" + e.text + "\""
      case Symbol => "sym(" + e.text + ")"
      case Env => "env(" + e.text + (if |e.parts| == 1 then ", " + Render(e.parts[0]) else "") + ")"
      case Unknown => "?"
      case _ =>
        KindName(e.kind) + (if e.text != "" then "[" + e.text + "]" else "")
        + "(" + Strs.Join(RenderAll(e.parts), ", ") + ")"
  }

  function RenderAll(es: seq<Expr>): (rs: seq<string>)
    ensures |rs| == |es|
    decreases es, 0
  {
    if es == [] then [] else [Render(es[0])] + RenderAll(es[1..])
  }

  /** The tree with the source snippets, which are only evidence, forgotten. */
  function Bare(e: Expr): Expr
    decreases e, 1
  {
    if e.Nil? then Nil else Node(e.kind, e.text, BareAll(e.parts), "")
  }

  function BareAll(es: seq<Expr>): (bs: seq<Expr>)
    ensures |bs| == |es|
    ensures forall i :: 0 <= i < |es| ==> bs[i] == Bare(es[i])
    decreases es, 0
  {
    if es == [] then [] else [Bare(es[0])] + BareAll(es[1..])
  }

  datatype ScopeKind = ScopeFunc | ScopeType | ScopeFile | ScopeModule

  /** A name bound to a value; `fn` is the enclosing function of a function-scoped one. */
  datatype SymbolDef = SymbolDef(name: string, scope: ScopeKind, value: Expr, fn: string, param: bool)

  type Table = seq<SymbolDef>

  /** The definitions of `name` that one scope shows to function `fn`. */
  predicate Shows(d: SymbolDef, scope: ScopeKind, name: string, fn: string) {
    && d.scope == scope && d.name == name && d.value != Nil && !d.param
    && !(scope == ScopeFunc && fn != "" && d.fn != "" && d.fn != fn)
  }

  function InScope(t: Table, scope: ScopeKind, name: string, fn: string): seq<Expr> {
    if t == [] then []
    else
      var n := |t| - 1;
      InScope(t[..n], scope, name, fn) + (if Shows(t[n], scope, name, fn) then [t[n].value] else [])
  }

  function Fields(t: Table, suffix: string): seq<Expr> {
    if t == [] then []
    else
      var n := |t| - 1;
      Fields(t[..n], suffix)
      + (if t[n].value != Nil && t[n].scope == ScopeType && HasSuffix(t[n].name, suffix)
         then [t[n].value] else [])
  }

  function Renderings(es: seq<Expr>): set<string> {
    set e | e in es :: Render(e)
  }

  /** dedupeExprs keeps the first of each rendering. */
  function Dedupe(es: seq<Expr>): (r: seq<Expr>)
    ensures es != [] ==> r != []
  {
    if es == [] then []
    else
      var n := |es| - 1;
      Dedupe(es[..n])
      + (if Render(es[n]) in Renderings(es[..n]) then [] else [es[n]])
  }

  const SCOPES := [ScopeFunc, ScopeType, ScopeFile, ScopeModule]

  /** The definitions in the first of `scopes` that has any. */
  function Narrowest(t: Table, scopes: seq<ScopeKind>, name: string, fn: string): seq<Expr> {
    if scopes == [] then []
    else
      var here := InScope(t, scopes[0], name, fn);
      if here != [] then here else Narrowest(t, scopes[1..], name, fn)
  }

  /** The type-scoped fields a dotted name may mean when no scope binds it whole. */
  function OneHop(t: Table, name: string): seq<Expr> {
    var i := LastIndexAny(name, ".");
    if i < 0 then [] else Fields(t, "." + name[i + 1..])
  }

  /** What `name` is bound to, before deduplication. */
  function Bindings(t: Table, name: string, fn: string): seq<Expr> {
    if name == "" then []
    else
      var scoped := Narrowest(t, SCOPES, name, fn);
      if scoped != [] then scoped
      else if |Dedupe(OneHop(t, name))| == 1 then OneHop(t, name) else []
  }

  function Lookup(t: Table, name: string, fn: string): seq<Expr> {
    Dedupe(Bindings(t, name, fn))
  }

  predicate IsParam(t: Table, name: string, fn: string) {
    name != "" && exists i :: 0 <= i < |t| && t[i].param && t[i].name == name
                              && (fn == "" || t[i].fn == "" || t[i].fn == fn)
  }

  lemma DedupeStep(es: seq<Expr>, i: nat)
    requires i < |es|
    ensures Dedupe(es[..i + 1])
         == Dedupe(es[..i]) + (if Render(es[i]) in Renderings(es[..i]) then [] else [es[i]])
    ensures Renderings(es[..i + 1]) == Renderings(es[..i]) + {Render(es[i])}
  {
    hide Render;
    assert es[..i + 1][..i] == es[..i] && es[..i + 1] == es[..i] + [es[i]];
    RenderingsConcat(es[..i], [es[i]]);
    assert Renderings([es[i]]) == {Render(es[i])};
  }

  method DedupeLoop(es: seq<Expr>) returns (out: seq<Expr>)
    ensures out == Dedupe(es)
  {
    assert Dedupe([]) == [] && Renderings([]) == {};
    hide Render, Dedupe, Renderings;
    var seen: set<string> := {};
    out := [];
    for i := 0 to |es|
      invariant out == Dedupe(es[..i])
      invariant seen == Renderings(es[..i])
    {
      DedupeStep(es, i);
      var key := Render(es[i]);
      if key !in seen {
        seen := seen + {key};
        out := out + [es[i]];
      }
    }
    assert es[..|es|] == es;
  }

  /** A scope that binds the name hides the wider ones. */
  lemma NarrowestStep(t: Table, s: nat, name: string, fn: string)
    requires s < |SCOPES|
    ensures var out := InScope(t, SCOPES[s], name, fn);
            Narrowest(t, SCOPES[s..], name, fn) == if out != [] then out else Narrowest(t, SCOPES[s + 1..], name, fn)
  {
    hide InScope;
    assert SCOPES[s..][1..] == SCOPES[s + 1..];
  }

  method InScopeLoop(t: Table, scope: ScopeKind, name: string, fn: string) returns (out: seq<Expr>)
    ensures out == InScope(t, scope, name, fn)
  {
    out := [];
    for i := 0 to |t|
      invariant out == InScope(t[..i], scope, name, fn)
    {
      assert t[..i + 1][..i] == t[..i];
      if Shows(t[i], scope, name, fn) {
        out := out + [t[i].value];
      }
    }
    assert t[..|t|] == t;
  }

  method FieldsLoop(t: Table, suffix: string) returns (out: seq<Expr>)
    ensures out == Fields(t, suffix)
  {
    out := [];
    for j := 0 to |t|
      invariant out == Fields(t[..j], suffix)
    {
      assert t[..j + 1][..j] == t[..j];
      if t[j].value != Nil && t[j].scope == ScopeType && HasSuffix(t[j].name, suffix) {
        out := out + [t[j].value];
      }
    }
    assert t[..|t|] == t;
  }

  method OneHopLoop(t: Table, name: string) returns (vals: seq<Expr>)
    ensures var distinct := Dedupe(OneHop(t, name)); vals == if |distinct| == 1 then distinct else []
  {
    assert Dedupe([]) == [];
    hide Dedupe, Fields, LastIndexAny;
    var i := LastIndexAny(name, ".");
    if i < 0 {
      return [];
    }
    var out := FieldsLoop(t, "." + name[i + 1..]);
    vals := DedupeLoop(out);
    if |vals| != 1 {
      vals := [];
    }
  }

  /** SymbolTable.Lookup: scopes narrowest first, then an unambiguous field of that name. */
  method LookupLoop(t: Table, name: string, fn: string) returns (vals: seq<Expr>)
    ensures vals == Lookup(t, name, fn)
  {
    assert Dedupe([]) == [] && Narrowest(t, SCOPES[|SCOPES|..], name, fn) == [];
    hide InScope, OneHop, Dedupe, Narrowest;
    if name == "" { return []; }
    for s := 0 to |SCOPES|
      invariant Narrowest(t, SCOPES, name, fn) == Narrowest(t, SCOPES[s..], name, fn)
    {
      var out := InScopeLoop(t, SCOPES[s], name, fn);
      NarrowestStep(t, s, name, fn);
      if out != [] {
        vals := DedupeLoop(out);
        return;
      }
    }
    vals := OneHopLoop(t, name);
  }

  lemma RenderingsConcat(a: seq<Expr>, b: seq<Expr>)
    ensures Renderings(a + b) == Renderings(a) + Renderings(b)
  {
  }

  /** Deduplication loses no rendering and adds no value. */
  lemma {:induction false} DedupeCovers(es: seq<Expr>)
    ensures forall e :: e in Dedupe(es) ==> e in es
    ensures Renderings(Dedupe(es)) == Renderings(es)
  {
    if es != [] {
      var n := |es| - 1;
      DedupeCovers(es[..n]);
      assert es == es[..n] + [es[n]];
      RenderingsConcat(es[..n], [es[n]]);
      RenderingsConcat(Dedupe(es[..n]), [es[n]]);
    }
  }

  /** Values that render alike differ in their source snippets at most. */
  predicate ToldApart(es: seq<Expr>) {
    forall i, j :: 0 <= i < |es| && 0 <= j < |es| && Render(es[i]) == Render(es[j]) ==> Bare(es[i]) == Bare(es[j])
  }

  /** Value `e` is among `es`, up to its snippet. */
  predicate Kept(e: Expr, es: seq<Expr>) {
    exists k :: 0 <= k < |es| && Bare(es[k]) == Bare(e)
  }

  predicate AllKept(es: seq<Expr>) {
    forall e :: e in es ==> Kept(e, Dedupe(es))
  }

  /** A rendering never shows a snippet. */
  lemma {:induction false} RenderBare(e: Expr)
    ensures Render(Bare(e)) == Render(e)
    decreases e, 1
  {
    if e.Node? {
      RenderAllBare(e.parts);
      if |e.parts| == 1 { RenderBare(e.parts[0]); }
    }
  }

  lemma {:induction false} RenderAllBare(es: seq<Expr>)
    ensures RenderAll(BareAll(es)) == RenderAll(es)
    decreases es, 0
  {
    if es != [] {
      RenderBare(es[0]);
      RenderAllBare(es[1..]);
      assert BareAll(es)[1..] == BareAll(es[1..]);
    }
  }

  /** Every rendering is there once. */
  lemma {:induction false} DedupeDistinct(es: seq<Expr>)
    ensures forall i, j :: 0 <= i < j < |Dedupe(es)| ==> Render(Dedupe(es)[i]) != Render(Dedupe(es)[j])
  {
    if es != [] {
      var init := es[..|es| - 1];
      DedupeDistinct(init);
      DedupeCovers(init);
      forall i | 0 <= i < |Dedupe(init)| ensures Render(Dedupe(init)[i]) in Renderings(init) {
        assert Dedupe(init)[i] in Dedupe(init);
      }
      hide Render, Renderings;
    }
  }

  lemma KeptWhenToldApart(es: seq<Expr>, e: Expr)
    requires ToldApart(es) && e in es
    ensures Kept(e, Dedupe(es))
  {
    DedupeCovers(es);
    assert Render(e) in Renderings(Dedupe(es));
    var k :| 0 <= k < |Dedupe(es)| && Render(Dedupe(es)[k]) == Render(e);
    assert Dedupe(es)[k] in es;
    var i :| 0 <= i < |es| && es[i] == Dedupe(es)[k];
    var j :| 0 <= j < |es| && es[j] == e;
  }

  lemma SameWhenKept(es: seq<Expr>, x: Expr, y: Expr)
    requires AllKept(es) && x in es && y in es && Render(x) == Render(y)
    ensures Bare(x) == Bare(y)
  {
    assert Kept(x, Dedupe(es)) && Kept(y, Dedupe(es));
    var i :| 0 <= i < |Dedupe(es)| && Bare(Dedupe(es)[i]) == Bare(x);
    var j :| 0 <= j < |Dedupe(es)| && Bare(Dedupe(es)[j]) == Bare(y);
    RenderBare(x);
    RenderBare(y);
    RenderBare(Dedupe(es)[i]);
    RenderBare(Dedupe(es)[j]);
    DedupeDistinct(es);
    assert i == j;
  }

  /** Deduplication keeps every value exactly when no two of them render alike and differ. */
  lemma AllKeptIff(es: seq<Expr>)
    ensures AllKept(es) <==> ToldApart(es)
  {
    hide Render, Bare, Dedupe;
    if ToldApart(es) {
      forall e | e in es ensures Kept(e, Dedupe(es)) { KeptWhenToldApart(es, e); }
    }
    if AllKept(es) {
      forall i, j | 0 <= i < |es| && 0 <= j < |es| && Render(es[i]) == Render(es[j])
        ensures Bare(es[i]) == Bare(es[j]) {
        SameWhenKept(es, es[i], es[j]);
      }
    }
  }

  lemma {:induction false} InScopeFromTable(t: Table, scope: ScopeKind, name: string, fn: string)
    ensures forall e :: e in InScope(t, scope, name, fn) ==> exists i :: 0 <= i < |t| && t[i].value == e
  {
    if t != [] {
      InScopeFromTable(t[..|t| - 1], scope, name, fn);
    }
  }

  lemma {:induction false} FieldsFromTable(t: Table, suffix: string)
    ensures forall e :: e in Fields(t, suffix) ==> exists i :: 0 <= i < |t| && t[i].value == e
  {
    if t != [] {
      FieldsFromTable(t[..|t| - 1], suffix);
    }
  }

  lemma {:induction false} NarrowestFromTable(t: Table, scopes: seq<ScopeKind>, name: string, fn: string)
    ensures forall e :: e in Narrowest(t, scopes, name, fn) ==> exists i :: 0 <= i < |t| && t[i].value == e
  {
    if scopes != [] {
      InScopeFromTable(t, scopes[0], name, fn);
      NarrowestFromTable(t, scopes[1..], name, fn);
    }
  }

  lemma BindingsFromTable(t: Table, name: string, fn: string)
    ensures forall e :: e in Bindings(t, name, fn) ==> exists i :: 0 <= i < |t| && t[i].value == e
  {
    NarrowestFromTable(t, SCOPES, name, fn);
    var i := LastIndexAny(name, ".");
    if i >= 0 { FieldsFromTable(t, "." + name[i + 1..]); }
  }

  /** A lookup returns every value a name is bound to exactly when that name's values are told apart. */
  lemma LookupCoversIff(t: Table, name: string, fn: string)
    ensures (forall e :: e in Bindings(t, name, fn) ==> Kept(e, Lookup(t, name, fn)))
       <==> ToldApart(Bindings(t, name, fn))
  {
    AllKeptIff(Bindings(t, name, fn));
  }
}

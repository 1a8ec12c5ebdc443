/** The comparison of two whole descriptions (internal/monitor/analyze/openapi/diff.go). */
module OpenApiDoc {
  import opened Strs
  import opened Sorting
  import opened Tallies
  import opened OpenApi
  import OpenApiLaws

  // ----- templates

  /** Every path parameter `{...}` becomes `{}`, as the pattern `\{[^/}]*\}` finds them from the left. */
  function NormalizeTemplate(p: string): string
    decreases |p|
  {
    if p == "" then ""
    else
      var j := IndexAny(p[1..], "/}");
      if p[0] == '{' && j >= 0 && p[1..][j] == '}' then "{}" + NormalizeTemplate(p[j + 2..])
      else [p[0]] + NormalizeTemplate(p[1..])
  }

  /** A brace that meets "/" or the end before "}" opens no parameter. */
  predicate Unclosed(s: string) {
    var j := IndexAny(s, "/}");
    j < 0 || s[j] == '/'
  }

  lemma {:induction false} UnclosedStays(s: string)
    requires Unclosed(s)
    ensures Unclosed(NormalizeTemplate(s))
  {
    if s != "" && s[0] != '/' {
      UnclosedStays(s[1..]);
      assert NormalizeTemplate(s)[1..] == NormalizeTemplate(s[1..]);
    }
  }

  lemma ParamTemplate(rest: string)
    ensures NormalizeTemplate("{}" + rest) == "{}" + NormalizeTemplate(rest)
  {
    var p := "{}" + rest;
    assert p[1..][0] == '}' && p[2..] == rest;
    assert IndexAny(p[1..], "/}") == 0;
  }

  lemma PlainTemplate(c: char, rest: string)
    requires c != '{' || Unclosed(rest)
    ensures NormalizeTemplate([c] + rest) == [c] + NormalizeTemplate(rest)
  {
    assert ([c] + rest)[1..] == rest;
  }

  /** A template is its own template. */
  lemma {:induction false} TemplateIdempotent(p: string)
    ensures NormalizeTemplate(NormalizeTemplate(p)) == NormalizeTemplate(p)
    decreases |p|
  {
    if p != "" {
      var j := IndexAny(p[1..], "/}");
      if p[0] == '{' && j >= 0 && p[1..][j] == '}' {
        assert NormalizeTemplate(p) == "{}" + NormalizeTemplate(p[j + 2..]);
        hide NormalizeTemplate;
        TemplateIdempotent(p[j + 2..]);
        ParamTemplate(NormalizeTemplate(p[j + 2..]));
      } else {
        assert NormalizeTemplate(p) == [p[0]] + NormalizeTemplate(p[1..]);
        hide NormalizeTemplate;
        TemplateIdempotent(p[1..]);
        if p[0] == '{' {
          UnclosedStays(p[1..]);
        }
        PlainTemplate(p[0], NormalizeTemplate(p[1..]));
      }
    }
  }

  /** `q` is the first path, in order, that is spelled differently from its own template `t`. */
  ghost predicate Stands(paths: set<string>, t: string, q: string) {
    && q in paths && NormalizeTemplate(q) == t && q != t
    && forall p :: p in paths && NormalizeTemplate(p) == t && p != t ==> !LexLess(p, q)
  }

  ghost predicate Indexed(paths: set<string>, index: map<string, string>) {
    && (forall t :: t in index ==> Stands(paths, t, index[t]))
    && (forall p :: p in paths && NormalizeTemplate(p) != p ==> NormalizeTemplate(p) in index)
  }

  method TemplateIndex(paths: set<string>) returns (out: map<string, string>)
    ensures Indexed(paths, out)
  {
    out := map[];
    var keys := SortedKeys(paths);
    for i := 0 to |keys|
      invariant forall t :: t in out ==> out[t] in keys[..i] && NormalizeTemplate(out[t]) == t != out[t]
      invariant forall t, k ::
                  t in out && 0 <= k < |keys| && NormalizeTemplate(keys[k]) == t && keys[k] != t
                  ==> !LexLess(keys[k], out[t])
      invariant forall k :: 0 <= k < i && NormalizeTemplate(keys[k]) != keys[k] ==> NormalizeTemplate(keys[k]) in out
    {
      var t := NormalizeTemplate(keys[i]);
      assert keys[..i + 1] == keys[..i] + [keys[i]];
      if t != keys[i] && t !in out {
        forall k | 0 <= k < |keys| && NormalizeTemplate(keys[k]) == t && keys[k] != t ensures !LexLess(keys[k], keys[i]) {
          if k == i {
            LexTotal(keys[i], keys[i]);
          }
        }
        out := out[t := keys[i]];
      }
    }
    forall t | t in out ensures Stands(paths, t, out[t]) {
      forall p | p in paths && NormalizeTemplate(p) == t && p != t ensures !LexLess(p, out[t]) {
        assert p in keys;
      }
    }
    forall p | p in paths && NormalizeTemplate(p) != p ensures NormalizeTemplate(p) in out {
      assert p in keys;
    }
  }

  // ----- document-wide changes

  function MajorOf(v: string): Option<int> {
    var t := TrimSpace(v);
    var s := if HasPrefix(t, "v") then t[1..] else t;
    if s == "" then None
    else
      var i := IndexAny(s, ".-+");
      Atoi(if i >= 0 then s[..i] else s)
  }

  predicate MajorBump(before: string, after: string) {
    MajorOf(before).Some? && MajorOf(after).Some? && MajorOf(after).value > MajorOf(before).value
  }

  function WideChanges(base: Doc, head: Doc): seq<Change> {
    (if base.servers != head.servers && |base.servers| > 0
     then [Change(ServerChanged, WHOLE_DOC, "#/servers", Strs.Join(base.servers, ", "), Strs.Join(head.servers, ", "),
                  true)]
     else [])
    + (if base.security != head.security
       then [Change(AuthChanged, WHOLE_DOC, "#/security", Strs.Join(base.security, ", "), Strs.Join(head.security, ", "),
                    Tightened(base.security, head.security))]
       else [])
    + (if MajorBump(base.infoVersion, head.infoVersion)
       then [Change(MajorVersionBump, WHOLE_DOC, "#/info/version", base.infoVersion, head.infoVersion, false)]
       else [])
  }

  // ----- the parts of the comparison

  function PathChange(p: string, index: map<string, string>): Change {
    var t := NormalizeTemplate(p);
    if t in index then Change(ParamRenamed, OpKey("", p), PathPointer(p), p, index[t], false)
    else Change(PathRemoved, OpKey("", p), PathPointer(p), p, "", true)
  }

  function KeyText(k: OpKey): string {
    k.verb + " " + k.path
  }

  function OpGone(key: OpKey): Change {
    Change(OperationRemoved, key, OpPointer(key), KeyText(key), "", true)
  }

  function OpAdded(key: OpKey): Change {
    Change(Additive, key, OpPointer(key), "", KeyText(key), false)
  }

  /** The operation that `key` became when its path was only renamed. */
  function Follow(index: map<string, string>, key: OpKey): OpKey {
    var t := NormalizeTemplate(key.path);
    if t in index then OpKey(key.verb, index[t]) else key
  }

  predicate Followed(head: Doc, index: map<string, string>, key: OpKey) {
    && key.path !in head.paths && NormalizeTemplate(key.path) in index
    && Follow(index, key) in head.operations
  }

  /** `c` is what the operation loop says about `key`. */
  ghost predicate KeySays(base: Doc, head: Doc, index: map<string, string>, key: OpKey, c: Change)
    requires key in base.operations
  {
    var b := base.operations[key];
    if key in head.operations then OpChange(b, head.operations[key], false, c)
    else if Followed(head, index, key) then OpChange(b, head.operations[Follow(index, key)], true, c)
    else key.path in head.paths && c == OpGone(key)
  }

  /** `c` is one of the changes between two documents. */
  ghost predicate DocChange(base: Doc, head: Doc, index: map<string, string>, c: Change) {
    || c in WideChanges(base, head)
    || (exists p :: p in base.paths && p !in head.paths && c == PathChange(p, index))
    || (exists key :: key in base.operations && KeySays(base, head, index, key, c))
    || (exists key :: key in head.operations && key !in base.operations && c == OpAdded(key))
  }

  ghost function PathOf(head: Doc, index: map<string, string>): string -> multiset<Change> {
    p => if p in head.paths then multiset{} else multiset{PathChange(p, index)}
  }

  ghost function KeyChanges(base: Doc, head: Doc, index: map<string, string>, key: OpKey): multiset<Change>
    requires key in base.operations
  {
    var b := base.operations[key];
    if key in head.operations then OpChanges(b, head.operations[key], false)
    else if Followed(head, index, key) then OpChanges(b, head.operations[Follow(index, key)], true)
    else if key.path in head.paths then multiset{OpGone(key)}
    else multiset{}
  }

  ghost function KeyOf(base: Doc, head: Doc, index: map<string, string>): OpKey -> multiset<Change> {
    key => if key in base.operations then KeyChanges(base, head, index, key) else multiset{}
  }

  ghost function NewOf(base: Doc): OpKey -> multiset<Change> {
    key => if key in base.operations then multiset{} else multiset{OpAdded(key)}
  }

  /** Every change between two documents, as often as it is due. */
  ghost function DocChanges(base: Doc, head: Doc, index: map<string, string>): multiset<Change> {
    multiset(WideChanges(base, head)) + Total(base.paths, PathOf(head, index))
    + Total(base.operations.Keys, KeyOf(base, head, index)) + Total(head.operations.Keys, NewOf(base))
  }

  lemma KeyMembers(base: Doc, head: Doc, index: map<string, string>, key: OpKey, c: Change)
    requires key in base.operations
    ensures c in KeyChanges(base, head, index, key) <==> KeySays(base, head, index, key, c)
  {
    hide OpChanges, OpChange;
    var b := base.operations[key];
    if key in head.operations {
      OpChangesMembers(b, head.operations[key], false, c);
    } else if Followed(head, index, key) {
      OpChangesMembers(b, head.operations[Follow(index, key)], true, c);
    }
  }

  lemma PathMembers(base: Doc, head: Doc, index: map<string, string>, c: Change)
    ensures c in Total(base.paths, PathOf(head, index))
       <==> exists p :: p in base.paths && p !in head.paths && c == PathChange(p, index)
  {
    hide PathChange, Total;
    TotalMembers(base.paths, PathOf(head, index), c);
  }

  lemma NewMembers(base: Doc, head: Doc, c: Change)
    ensures c in Total(head.operations.Keys, NewOf(base))
       <==> exists key :: key in head.operations && key !in base.operations && c == OpAdded(key)
  {
    hide OpAdded, Total;
    TotalMembers(head.operations.Keys, NewOf(base), c);
  }

  lemma AllKeyMembers(base: Doc, head: Doc, index: map<string, string>, c: Change)
    ensures c in Total(base.operations.Keys, KeyOf(base, head, index))
       <==> exists key :: key in base.operations && KeySays(base, head, index, key, c)
  {
    hide KeyChanges, KeySays, Total;
    TotalMembers(base.operations.Keys, KeyOf(base, head, index), c);
    forall key | key in base.operations
      ensures c in KeyOf(base, head, index)(key) <==> KeySays(base, head, index, key, c)
    {
      KeyMembers(base, head, index, key, c);
    }
  }

  lemma DocChangesMembers(base: Doc, head: Doc, index: map<string, string>, c: Change)
    ensures c in DocChanges(base, head, index) <==> DocChange(base, head, index, c)
  {
    hide KeySays, WideChanges, Total, PathChange, OpAdded, KeyOf, PathOf, NewOf;
    PathMembers(base, head, index, c);
    AllKeyMembers(base, head, index, c);
    NewMembers(base, head, c);
  }

  // ----- what covers a missing operation

  predicate Covers(key: OpKey, c: Change) {
    || ((c.kind.PathRemoved? || c.kind.ParamRenamed?) && c.op.path == key.path)
    || (c.kind.OperationRemoved? && c.op == key)
  }

  predicate Structural(s: Signal) {
    s.PathRemoved? || s.ParamRenamed? || s.OperationRemoved?
  }

  function Coverage(key: OpKey, cs: seq<Change>): nat {
    CountIf(c => Covers(key, c), cs)
  }

  lemma CoverageConcat(key: OpKey, xs: seq<Change>, ys: seq<Change>)
    ensures Coverage(key, xs + ys) == Coverage(key, xs) + Coverage(key, ys)
  {
    CountIfConcat(c => Covers(key, c), xs, ys);
  }

  lemma CoverageOne(key: OpKey, c: Change)
    ensures Coverage(key, [c]) == if Covers(key, c) then 1 else 0
  {
    CoverageConcat(key, [], [c]);
    var f := x => Covers(key, x);
    assert CountIf(f, [c]) == CountIf(f, [c][..0]) + (if f(c) then 1 else 0);
  }

  lemma {:induction false} CoverageNone(key: OpKey, cs: seq<Change>)
    requires forall c :: c in cs ==> !Covers(key, c)
    ensures Coverage(key, cs) == 0
  {
    if cs != [] {
      CoverageNone(key, cs[..|cs| - 1]);
    }
  }

  ghost predicate NoneStructural(cs: seq<Change>) {
    forall c :: c in cs ==> !Structural(c.kind)
  }

  lemma PartsAreNotStructural(b: Operation, h: Operation, renamed: bool)
    ensures forall name :: name in b.params ==> NoneStructural(BaseParamChanges(b, h, renamed, name))
    ensures forall name :: name in h.params ==> NoneStructural(HeadParamChanges(b, h, renamed, name))
    ensures NoneStructural(BodyRequiredChanges(b, h))
  {
    forall name | name in b.params && name in h.params
      ensures NoneStructural(SharedParamChanges(b.key, name, b.params[name], h.params[name]))
    {
    }
  }

  lemma TailIsNotStructural(b: Operation, h: Operation)
    ensures NoneStructural(TailChanges(b, h))
  {
    hide Strs.Join, OpPointer, MissingSuccess, Tightened;
  }

  /** Comparing two operations never yields a change about a whole path or operation. */
  lemma OpChangesAreNotStructural(b: Operation, h: Operation, renamed: bool, c: Change)
    requires OpChange(b, h, renamed, c)
    ensures !Structural(c.kind)
  {
    PartsAreNotStructural(b, h, renamed);
    TailIsNotStructural(b, h);
    if BaseSays(b, h, renamed, b.params.Keys, c) {
      var name :| name in b.params && c in BaseParamChanges(b, h, renamed, name);
    } else if HeadSays(b, h, renamed, h.params.Keys, c) {
      var name :| name in h.params && c in HeadParamChanges(b, h, renamed, name);
    }
  }

  /** How often the path loop covers `key`. */
  function ByPath(head: Doc, ps: seq<string>, key: OpKey): nat {
    if key.path in ps && key.path !in head.paths then 1 else 0
  }

  method DiffPaths(base: Doc, head: Doc, index: map<string, string>) returns (out: seq<Change>)
    ensures multiset(out) == Total(base.paths, PathOf(head, index))
    ensures forall key :: Coverage(key, out) == if key.path in base.paths && key.path !in head.paths then 1 else 0
  {
    var ps := SortedKeys(base.paths);
    assert NoRepeats(ps) by {
      assert forall i, j :: 0 <= i < j < |ps| ==> Same(ps[i]) != Same(ps[j]);
    }
    out := [];
    CoverNothing();
    hide Coverage, PathChange, Total;
    ListNone(ps, PathOf(head, index));
    for i := 0 to |ps|
      invariant multiset(out) == Total(Elements(ps[..i]), PathOf(head, index))
      invariant forall key :: Coverage(key, out) == ByPath(head, ps[..i], key)
    {
      var p := ps[i];
      assert ps[..i + 1] == ps[..i] + [p];
      assert p !in ps[..i];
      var more := if p !in head.paths then [PathChange(p, index)] else [];
      ListMore(out, ps, i, PathOf(head, index), more);
      forall key ensures Coverage(key, out + more) == ByPath(head, ps[..i + 1], key) {
        CoverageConcat(key, out, more);
        PathCovers(head, index, p, key);
      }
      out := out + more;
    }
    assert ps[..|ps|] == ps;
    ListAll(ps, base.paths);
  }

  lemma CoverNothing()
    ensures forall key :: Coverage(key, []) == 0
  {
  }

  lemma PathCovers(head: Doc, index: map<string, string>, p: string, key: OpKey)
    ensures Coverage(key, if p !in head.paths then [PathChange(p, index)] else [])
         == if p !in head.paths && key.path == p then 1 else 0
  {
    CoverNothing();
    CoverageOne(key, PathChange(p, index));
  }

  predicate KeyLess(j: OpKey, k: OpKey) {
    if j.path != k.path then LexLess(j.path, k.path) else LexLess(j.verb, k.verb)
  }

  function SameKey(k: OpKey): OpKey { k }

  method SortedOps(keys: set<OpKey>) returns (out: seq<OpKey>)
    ensures forall k :: k in out <==> k in keys
    ensures NoRepeats(out)
  {
    out := [];
    var todo := keys;
    while todo != {}
      invariant todo <= keys && Distinct(SameKey, out)
      invariant forall k :: k in out <==> k in keys && k !in todo
    {
      var k :| k in todo;
      out := out + [k];
      todo := todo - {k};
    }
    SortMembers(KeyLess, out);
    SortDistinct(KeyLess, SameKey, out);
    out := StableSort(KeyLess, out);
    assert forall i, j :: 0 <= i < j < |out| ==> SameKey(out[i]) != SameKey(out[j]);
  }

  /** What the operation loop appends for one key of the base. */
  method DiffKey(base: Doc, head: Doc, index: map<string, string>, key: OpKey) returns (out: seq<Change>)
    requires key in base.operations
    ensures multiset(out) == KeyChanges(base, head, index, key)
    ensures CoversKey(head, key, out)
  {
    var b := base.operations[key];
    if key in head.operations {
      out := DiffOperation(b, head.operations[key], false);
    } else if Followed(head, index, key) {
      out := DiffOperation(b, head.operations[Follow(index, key)], true);
    } else if key.path in head.paths {
      out := [OpGone(key)];
      forall k ensures Coverage(k, out) == if k == key then 1 else 0 {
        CoverageOne(k, OpGone(key));
      }
      return;
    } else {
      out := [];
    }
    forall c | c in out ensures !Structural(c.kind) {
      if key in head.operations {
        OpChangesAreNotStructural(b, head.operations[key], false, c);
      } else {
        OpChangesAreNotStructural(b, head.operations[Follow(index, key)], true, c);
      }
    }
    forall k ensures Coverage(k, out) == 0 {
      CoverageNone(k, out);
    }
  }

  function ByKey(head: Doc, keys: seq<OpKey>, key: OpKey): nat {
    if key in keys && key !in head.operations && key.path in head.paths then 1 else 0
  }

  /** The changes for the first `i` keys cover what they should. */
  ghost predicate CoveredUpTo(head: Doc, keys: seq<OpKey>, i: nat, out: seq<Change>) {
    i <= |keys| && forall key :: Coverage(key, out) == ByKey(head, keys[..i], key)
  }

  ghost predicate CoversKey(head: Doc, key: OpKey, out: seq<Change>) {
    forall k :: Coverage(k, out) == if k == key && key !in head.operations && key.path in head.paths then 1 else 0
  }

  lemma KeyCoverage(head: Doc, keys: seq<OpKey>, i: nat, out: seq<Change>, more: seq<Change>)
    requires i < |keys| && NoRepeats(keys) && CoveredUpTo(head, keys, i, out) && CoversKey(head, keys[i], more)
    ensures CoveredUpTo(head, keys, i + 1, out + more)
  {
    hide Coverage;
    assert keys[..i + 1] == keys[..i] + [keys[i]];
    assert keys[i] !in keys[..i];
    forall key ensures Coverage(key, out + more) == ByKey(head, keys[..i + 1], key) {
      CoverageConcat(key, out, more);
    }
  }

  lemma CoverEnds(base: Doc, head: Doc, keys: seq<OpKey>, out: seq<Change>)
    requires (forall k :: k in keys <==> k in base.operations.Keys) && CoveredUpTo(head, keys, |keys|, out)
    ensures forall key ::
              Coverage(key, out)
              == if key in base.operations && key !in head.operations && key.path in head.paths then 1 else 0
  {
    hide Coverage;
    assert keys[..|keys|] == keys;
  }

  lemma KeyPart(base: Doc, head: Doc, index: map<string, string>, key: OpKey)
    requires key in base.operations
    ensures KeyOf(base, head, index)(key) == KeyChanges(base, head, index, key)
  {
    hide KeyChanges;
  }

  method DiffKeys(base: Doc, head: Doc, index: map<string, string>) returns (out: seq<Change>)
    ensures multiset(out) == Total(base.operations.Keys, KeyOf(base, head, index))
    ensures forall key ::
              Coverage(key, out)
              == if key in base.operations && key !in head.operations && key.path in head.paths then 1 else 0
  {
    var keys := SortedOps(base.operations.Keys);
    out := [];
    CoverNothing();
    assert CoveredUpTo(head, keys, 0, out);
    hide *;
    ListNone(keys, KeyOf(base, head, index));
    for i := 0 to |keys|
      invariant multiset(out) == Total(Elements(keys[..i]), KeyOf(base, head, index))
      invariant CoveredUpTo(head, keys, i, out)
    {
      assert keys[i] in keys;
      var more := DiffKey(base, head, index, keys[i]);
      KeyPart(base, head, index, keys[i]);
      ListMore(out, keys, i, KeyOf(base, head, index), more);
      KeyCoverage(head, keys, i, out, more);
      out := out + more;
    }
    ListAll(keys, base.operations.Keys);
    CoverEnds(base, head, keys, out);
  }

  method DiffAdded(base: Doc, head: Doc) returns (out: seq<Change>)
    ensures multiset(out) == Total(head.operations.Keys, NewOf(base))
    ensures forall key :: Coverage(key, out) == 0
  {
    var keys := SortedOps(head.operations.Keys);
    out := [];
    hide Coverage, Total;
    ListNone(keys, NewOf(base));
    for i := 0 to |keys|
      invariant multiset(out) == Total(Elements(keys[..i]), NewOf(base))
      invariant forall c :: c in out ==> c.kind == Additive
    {
      var more := if keys[i] !in base.operations then [OpAdded(keys[i])] else [];
      ListMore(out, keys, i, NewOf(base), more);
      out := out + more;
    }
    ListAll(keys, head.operations.Keys);
    forall key ensures Coverage(key, out) == 0 {
      CoverageNone(key, out);
    }
  }

  // ----- the whole comparison

  predicate ChangeLess(x: Change, y: Change) {
    if x.op.path != y.op.path then LexLess(x.op.path, y.op.path)
    else if x.op.verb != y.op.verb then LexLess(x.op.verb, y.op.verb)
    else LexLess(SignalName(x.kind), SignalName(y.kind))
  }

  lemma ChangeOrder()
    ensures StrictWeak(ChangeLess)
  {
    LexOrder();
    forall x: Change, y: Change | ChangeLess(x, y) ensures !ChangeLess(y, x) {
    }
    forall x: Change, y: Change, z: Change | !ChangeLess(x, y) && !ChangeLess(y, z) ensures !ChangeLess(x, z) {
      LexTotal(x.op.path, y.op.path);
      LexTotal(y.op.path, z.op.path);
      LexTotal(x.op.verb, y.op.verb);
      LexTotal(y.op.verb, z.op.verb);
    }
  }

  lemma CoverageSum(key: OpKey, wide: seq<Change>, paths: seq<Change>, keys: seq<Change>, added: seq<Change>)
    requires Coverage(key, added) == 0 && forall c :: c in wide ==> !Covers(key, c)
    ensures Coverage(key, wide + paths + keys + added) == Coverage(key, paths) + Coverage(key, keys)
  {
    CoverageNone(key, wide);
    CoverageConcat(key, wide, paths);
    CoverageConcat(key, wide + paths, keys);
    CoverageConcat(key, wide + paths + keys, added);
  }

  lemma WideCoversNothing(base: Doc, head: Doc, key: OpKey)
    ensures forall c :: c in WideChanges(base, head) ==> !Covers(key, c)
  {
  }

  /** Sorting moves changes about and loses none. */
  method Arrange(all: seq<Change>) returns (out: seq<Change>)
    ensures multiset(out) == multiset(all)
    ensures Sorted(ChangeLess, out)
    ensures forall key :: Coverage(key, out) == Coverage(key, all)
  {
    out := StableSort(ChangeLess, all);
    ChangeOrder();
    SortSorted(ChangeLess, all);
    SortMultiset(ChangeLess, all);
    forall key ensures Coverage(key, out) == Coverage(key, all) {
      CountIfSort(ChangeLess, c => Covers(key, c), all);
    }
  }

  /** The changes between two documents, each as often as it is due, sorted; a missing operation is covered exactly once. */
  method Diff(base: Doc, head: Doc) returns (out: seq<Change>, ghost index: map<string, string>)
    ensures Indexed(head.paths, index)
    ensures multiset(out) == DocChanges(base, head, index)
    ensures forall c :: c in out <==> DocChange(base, head, index, c)
    ensures Sorted(ChangeLess, out)
    ensures forall key ::
              key in base.operations && key !in head.operations && key.path in base.paths ==> Coverage(key, out) == 1
  {
    var wide := WideChanges(base, head);
    var table := TemplateIndex(head.paths);
    index := table;
    var paths := DiffPaths(base, head, table);
    var keys := DiffKeys(base, head, table);
    var added := DiffAdded(base, head);
    var all := wide + paths + keys + added;
    out := Arrange(all);
    forall key ensures Coverage(key, out) == Coverage(key, paths) + Coverage(key, keys) {
      WideCoversNothing(base, head, key);
      CoverageSum(key, wide, paths, keys, added);
    }
    forall c ensures c in out <==> DocChange(base, head, index, c) {
      DocChangesMembers(base, head, index, c);
      assert c in out <==> c in multiset(out);
    }
  }

  /** A document does not differ from itself. */
  lemma SelfDocDiffEmpty(d: Doc, index: map<string, string>)
    ensures forall c :: !DocChange(d, d, index, c)
  {
    forall c, key | key in d.operations ensures !KeySays(d, d, index, key, c) {
      OpenApiLaws.SelfDiffEmpty(d.operations[key], false);
    }
  }

  /** A dropped operation is reported as breaking unless its path lives on under a renamed parameter. */
  lemma DroppedOperationBreaksIff(base: Doc, head: Doc, index: map<string, string>, key: OpKey)
    requires Indexed(head.paths, index)
    requires key in base.operations && key !in head.operations && key.path in base.paths
    ensures (exists c :: DocChange(base, head, index, c) && Covers(key, c) && c.breaking) <==>
            (|| key.path in head.paths
             || forall q :: q in head.paths && NormalizeTemplate(q) == NormalizeTemplate(key.path) ==> NormalizeTemplate(q) == q)
  {
    var t := NormalizeTemplate(key.path);
    assert t in index <==> exists q :: q in head.paths && NormalizeTemplate(q) == t && t != q by {
      if t in index {
        assert Stands(head.paths, t, index[t]);
      }
    }
    if key.path in head.paths {
      assert KeySays(base, head, index, key, OpGone(key));
      assert DocChange(base, head, index, OpGone(key)) && Covers(key, OpGone(key));
    } else if t !in index {
      var c := PathChange(key.path, index);
      assert DocChange(base, head, index, c) && Covers(key, c) && c.breaking;
    } else {
      forall c | DocChange(base, head, index, c) && Covers(key, c) ensures !c.breaking {
        CoverIsRename(base, head, index, key, c);
      }
    }
  }

  lemma CoverIsRename(base: Doc, head: Doc, index: map<string, string>, key: OpKey, c: Change)
    requires DocChange(base, head, index, c) && Covers(key, c)
    requires key.path !in head.paths && NormalizeTemplate(key.path) in index
    ensures !c.breaking
  {
    if k :| k in base.operations && KeySays(base, head, index, k, c) {
      if k in head.operations {
        OpChangesAreNotStructural(base.operations[k], head.operations[k], false, c);
      } else if Followed(head, index, k) {
        OpChangesAreNotStructural(base.operations[k], head.operations[Follow(index, k)], true, c);
      }
    }
  }

  lemma OneLetterTemplate(p: string, c: char)
    requires p == ['/', '{', c, '}'] && c !in "/}"
    ensures NormalizeTemplate(p) == "/{}"
  {
    var t := p[1..];
    assert t[1..][1] == '}';
    var j := IndexAny(t[1..], "/}");
    assert j >= 0;
    assert t[1..][0] == c;
    assert j == 1;
    assert t[3..] == "";
    assert NormalizeTemplate(t) == "{}" + "";
  }

  /** "POST /{a}" is dropped while its path becomes "/{b}": no breaking change says so. */
  lemma DroppedUnderRename(op: Operation, index: map<string, string>, a: string, b: string)
    requires a == "/{a}" && b == "/{b}" && Indexed({b}, index)
    ensures var base := Doc("", [], map[OpKey("GET", a) := op, OpKey("POST", a) := op], [], {a});
            var head := Doc("", [], map[OpKey("GET", b) := op], [], {b});
            forall c :: DocChange(base, head, index, c) && Covers(OpKey("POST", a), c) ==> !c.breaking
  {
    var base := Doc("", [], map[OpKey("GET", a) := op, OpKey("POST", a) := op], [], {a});
    var head := Doc("", [], map[OpKey("GET", b) := op], [], {b});
    OneLetterTemplate(a, 'a');
    OneLetterTemplate(b, 'b');
    hide NormalizeTemplate, Indexed, DocChange, Covers;
    assert b in head.paths && b != "/{}" && a != b by { assert a[2] != b[2] && |b| == 4; }
    DroppedOperationBreaksIff(base, head, index, OpKey("POST", a));
  }
}

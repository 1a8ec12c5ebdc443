/** The table of declared operations (internal/monitor/coverage.go) against a plain search of all documents. */
module Declared {
  import opened Strs
  import opened OpenApi

  /** A specification file: the paths of its servers and the operations it declares. */
  datatype SpecDoc = SpecDoc(file: string, bases: seq<string>, ops: set<OpKey>)

  /** A call: its method and its normalized path. */
  datatype Target = Target(verb: string, path: string)

  datatype Rec = Rec(file: string, op: string)

  const ANY := "ANY"
  const VERBS := ["GET", "POST", "PUT", "PATCH", "DELETE", "HEAD", "OPTIONS"]

  function Raise(c: char): char {
    if 'a' <= c <= 'z' then c - ('a' - 'A') else c
  }

  function ToUpper(s: string): (r: string)
    ensures |r| == |s|
  {
    seq(|s|, i requires 0 <= i < |s| => Raise(s[i]))
  }

  function TableKey(verb: string, path: string): string {
    ToUpper(verb) + " " + path
  }

  /** A server prefix removed on a segment boundary. */
  function StripPrefixPath(p: string, prefix: string): Option<string> {
    if prefix == "" || prefix == "/" then None
    else if p == prefix then Some("/")
    else if HasPrefix(p, prefix + "/") then Some(p[|prefix|..])
    else None
  }

  /** What is left starts a segment, and behind the prefix it is the path again, but for the root's slash. */
  lemma StripMeans(p: string, prefix: string, rest: string)
    ensures StripPrefixPath(p, prefix) == Some(rest) <==>
            && prefix != "" && prefix != "/" && HasPrefix(rest, "/")
            && (p == prefix + rest || (rest == "/" && p == prefix))
            && !(p == prefix && rest != "/")
  {
    if p == prefix + rest && HasPrefix(rest, "/") {
      assert p[..|prefix| + 1] == prefix + "/";
      assert p[|prefix|..] == rest;
    }
    if HasPrefix(p, prefix + "/") {
      assert p == prefix + p[|prefix|..];
      assert p[|prefix|..][..1] == "/";
    }
  }

  // ----- the plain search

  /** The operation is one of a document's, here or behind one of the document's servers. */
  predicate Spelled(norm: string -> string, doc: SpecDoc, op: OpKey, path: string) {
    op in doc.ops && (norm(op.path) == path || exists b :: b in doc.bases && norm(b + op.path) == path)
  }

  /** Whether a declared method answers a call's method. */
  predicate Answers(called: string, declared: string) {
    var d := ToUpper(declared);
    if called == ANY then d == ANY || d in VERBS else d == ToUpper(called) || d == ANY
  }

  /** The call's path, or what is left of it behind some server of some document. */
  ghost predicate Candidate(docs: seq<SpecDoc>, t: Target, path: string) {
    path == t.path || exists doc, b :: doc in docs && b in doc.bases && StripPrefixPath(t.path, b) == Some(path)
  }

  ghost predicate Names(norm: string -> string, docs: seq<SpecDoc>, t: Target, doc: SpecDoc, op: OpKey) {
    doc in docs && Answers(t.verb, op.verb) && exists path :: Candidate(docs, t, path) && Spelled(norm, doc, op, path)
  }

  ghost predicate Documented(norm: string -> string, docs: seq<SpecDoc>, t: Target) {
    exists doc, op :: Names(norm, docs, t, doc, op)
  }

  /** The answer depends on which documents there are, not on their order or repetition. */
  lemma OrderDoesNotMatter(norm: string -> string, docs: seq<SpecDoc>, others: seq<SpecDoc>, t: Target)
    requires forall doc :: doc in docs <==> doc in others
    ensures Documented(norm, docs, t) <==> Documented(norm, others, t)
  {
    forall path ensures Candidate(docs, t, path) <==> Candidate(others, t, path) {
    }
    forall doc, op ensures Names(norm, docs, t, doc, op) <==> Names(norm, others, t, doc, op) {
    }
  }

  // ----- the table

  predicate SpaceFree(verb: string) {
    ' ' !in verb
  }

  lemma {:induction false} FirstSpace(p: string, v: string)
    requires SpaceFree(p)
    ensures IndexByte(p + " " + v, ' ') == |p|
  {
    if p == "" {
      assert (p + " " + v)[0] == ' ';
    } else {
      FirstSpace(p[1..], v);
      assert (p + " " + v)[1..] == p[1..] + " " + v;
    }
  }

  /** A key of the table is read in one way. */
  lemma KeysApart(verb: string, path: string, verb': string, path': string)
    requires SpaceFree(verb) && SpaceFree(verb')
    ensures TableKey(verb, path) == TableKey(verb', path') <==> ToUpper(verb) == ToUpper(verb') && path == path'
  {
    if TableKey(verb, path) == TableKey(verb', path') {
      var u, u' := ToUpper(verb), ToUpper(verb');
      assert SpaceFree(u) && SpaceFree(u') by {
        assert forall i :: 0 <= i < |verb| ==> verb[i] in verb;
        assert forall i :: 0 <= i < |verb'| ==> verb'[i] in verb';
      }
      FirstSpace(u, path);
      FirstSpace(u', path');
      var s := u + " " + path;
      assert u == s[..|u|] && u' == s[..|u'|];
      assert path == s[|u| + 1..] && path' == s[|u'| + 1..];
    }
  }

  /** The document's operation fills this entry. */
  predicate Fills(norm: string -> string, doc: SpecDoc, op: OpKey, key: string, rec: Rec) {
    && op in doc.ops && rec == Rec(doc.file, op.verb + " " + op.path)
    && (|| key == TableKey(op.verb, norm(op.path))
        || exists b :: b in doc.bases && key == TableKey(op.verb, norm(b + op.path)))
  }

  ghost predicate Filled(norm: string -> string, docs: seq<SpecDoc>, key: string, rec: Rec) {
    exists doc, op :: doc in docs && Fills(norm, doc, op, key, rec)
  }

  /** The keys an operation is registered under, its own and one for each of the first servers. */
  predicate KeyOf(norm: string -> string, bases: seq<string>, op: OpKey, key: string) {
    key == TableKey(op.verb, norm(op.path)) || exists b :: b in bases && key == TableKey(op.verb, norm(b + op.path))
  }

  class DeclaredSet {
    const norm: string -> string
    var ops: map<string, Rec>
    var bases: seq<string>
    ghost var docs: seq<SpecDoc>

    ghost predicate Valid()
      reads this
    {
      && (forall key :: key in ops ==> Filled(norm, docs, key, ops[key]))
      && (forall key, rec :: Filled(norm, docs, key, rec) ==> key in ops)
      && (forall b :: b in bases <==> exists doc :: doc in docs && b in doc.bases)
    }

    constructor (norm: string -> string)
      ensures Valid() && docs == [] && this.norm == norm
    {
      this.norm := norm;
      ops, bases, docs := map[], [], [];
    }

    /** The first record under a key stays. */
    method Put(verb: string, path: string, rec: Rec)
      modifies this`ops
      ensures ops == if TableKey(verb, path) in old(ops) then old(ops) else old(ops)[TableKey(verb, path) := rec]
    {
      if TableKey(verb, path) !in ops {
        ops := ops[TableKey(verb, path) := rec];
      }
    }

    method AddBases(more: seq<string>)
      modifies this`bases
      ensures forall b :: b in bases <==> b in old(bases) || b in more
    {
      for i := 0 to |more|
        invariant forall b :: b in bases <==> b in old(bases) || b in more[..i]
      {
        assert more[..i + 1] == more[..i] + [more[i]];
        if more[i] !in bases {
          bases := bases + [more[i]];
        }
      }
      assert more[..|more|] == more;
    }

    /** Registers one operation, bare and behind every server. */
    method AddOp(doc: SpecDoc, op: OpKey)
      requires op in doc.ops
      modifies this`ops
      ensures forall key :: key in ops <==> key in old(ops) || KeyOf(norm, doc.bases, op, key)
      ensures forall key :: key in old(ops) ==> ops[key] == old(ops)[key]
      ensures forall key :: key in ops && key !in old(ops) ==> Fills(norm, doc, op, key, ops[key])
    {
      var rec := Rec(doc.file, op.verb + " " + op.path);
      Put(op.verb, norm(op.path), rec);
      for i := 0 to |doc.bases|
        invariant forall key :: key in ops <==> key in old(ops) || KeyOf(norm, doc.bases[..i], op, key)
        invariant forall key :: key in old(ops) ==> key in ops && ops[key] == old(ops)[key]
        invariant forall key :: key in ops && key !in old(ops) ==> Fills(norm, doc, op, key, ops[key])
      {
        hide TableKey;
        assert doc.bases[..i + 1] == doc.bases[..i] + [doc.bases[i]];
        Put(op.verb, norm(doc.bases[i] + op.path), rec);
      }
      assert doc.bases[..|doc.bases|] == doc.bases;
    }

    method Add(doc: SpecDoc)
      requires Valid()
      modifies this
      ensures Valid() && docs == old(docs) + [doc]
    {
      AddBases(doc.bases);
      ghost var known, all := bases, docs + [doc];
      forall key | key in ops ensures Filled(norm, all, key, ops[key]) {
        FilledMore(norm, docs, doc, key, ops[key]);
      }
      var todo := doc.ops;
      while todo != {}
        invariant todo <= doc.ops && docs == old(docs) && bases == known
        invariant forall key :: key in ops ==> Filled(norm, all, key, ops[key])
        invariant forall key, rec :: Filled(norm, docs, key, rec) ==> key in ops
        invariant forall op, key, rec :: op in doc.ops - todo && Fills(norm, doc, op, key, rec) ==> key in ops
      {
        hide Fills, Filled, KeyOf;
        var op :| op in todo;
        ghost var was := ops;
        AddOp(doc, op);
        todo := todo - {op};
        forall key | key in ops ensures Filled(norm, all, key, ops[key]) {
          if key !in was {
            FilledBy(norm, all, doc, op, key, ops[key]);
          }
        }
        forall key, rec | Fills(norm, doc, op, key, rec) ensures key in ops {
          FillsKey(norm, doc, op, key, rec);
        }
      }
      forall key, rec | Filled(norm, all, key, rec) ensures key in ops {
        FilledSnoc(norm, docs, doc, key, rec);
      }
      docs := all;
    }

    /** The first entry for the path, over the verbs to try. */
    method TryPath(verbs: seq<string>, path: string) returns (found: Option<Rec>)
      ensures found.None? <==> forall m :: m in verbs ==> TableKey(m, path) !in ops
      ensures found.Some? ==> exists m :: m in verbs && TableKey(m, path) in ops && ops[TableKey(m, path)] == found.value
    {
      hide TableKey;
      for i := 0 to |verbs|
        invariant forall k :: 0 <= k < i ==> TableKey(verbs[k], path) !in ops
      {
        assert verbs[i] in verbs;
        if TableKey(verbs[i], path) in ops {
          return Some(ops[TableKey(verbs[i], path)]);
        }
      }
      found := None;
    }

    method Candidates(t: Target) returns (paths: seq<string>)
      requires Valid()
      ensures forall p :: p in paths <==> Candidate(docs, t, p)
    {
      hide StripPrefixPath;
      paths := [t.path];
      for i := 0 to |bases|
        invariant forall p :: p in paths <==>
                    p == t.path || exists b :: b in bases[..i] && StripPrefixPath(t.path, b) == Some(p)
      {
        assert bases[..i + 1] == bases[..i] + [bases[i]];
        var trimmed := StripPrefixPath(t.path, bases[i]);
        ghost var was := paths;
        if trimmed.Some? {
          paths := paths + [trimmed.value];
        }
        assert forall p :: p in paths <==> p in was || trimmed == Some(p);
      }
      assert bases[..|bases|] == bases;
    }

    /** The table says yes exactly when the plain search does, and names what it found. */
    method Lookup(t: Target) returns (found: Option<Rec>)
      requires Valid() && SpaceFree(t.verb) && forall doc, op :: doc in docs && op in doc.ops ==> SpaceFree(op.verb)
      ensures found.Some? <==> Documented(norm, docs, t)
      ensures found.Some? ==>
                exists doc, op :: Names(norm, docs, t, doc, op) && found.value == Rec(doc.file, op.verb + " " + op.path)
    {
      var paths := Candidates(t);
      var verbs := Tried(t.verb);
      for i := 0 to |paths|
        invariant forall k, m :: 0 <= k < i && m in verbs ==> TableKey(m, paths[k]) !in ops
      {
        hide TableKey, Candidate, Names, Documented, Valid, Tried;
        found := TryPath(verbs, paths[i]);
        if found.Some? {
          var m :| m in verbs && TableKey(m, paths[i]) in ops && ops[TableKey(m, paths[i])] == found.value;
          assert paths[i] in paths;
          EntryNames(t, m, paths[i]);
          return;
        }
      }
      if Documented(norm, docs, t) {
        var doc, op :| Names(norm, docs, t, doc, op);
        var path :| Candidate(docs, t, path) && Spelled(norm, doc, op, path);
        var m := NamedIsEntry(t, doc, op, path);
        assert false;
      }
      found := None;
    }

    /** An entry that a lookup reaches stands for an operation that answers the call. */
    lemma EntryNames(t: Target, m: string, path: string)
      requires Valid() && SpaceFree(t.verb) && forall doc, op :: doc in docs && op in doc.ops ==> SpaceFree(op.verb)
      requires m in Tried(t.verb) && Candidate(docs, t, path) && TableKey(m, path) in ops
      ensures Documented(norm, docs, t)
      ensures exists doc, op :: Names(norm, docs, t, doc, op)
                                && ops[TableKey(m, path)] == Rec(doc.file, op.verb + " " + op.path)
    {
      var key := TableKey(m, path);
      var doc, op :| doc in docs && Fills(norm, doc, op, key, ops[key]);
      TriedIsAnswers(t.verb, m);
      FillsSpelled(norm, doc, op, m, path, ops[key]);
      hide Candidate, Spelled, Fills, Answers;
      assert Names(norm, docs, t, doc, op);
    }

    /** An operation that answers the call has an entry that a lookup reaches. */
    lemma NamedIsEntry(t: Target, doc: SpecDoc, op: OpKey, path: string) returns (m: string)
      requires Valid() && doc in docs && Answers(t.verb, op.verb) && Spelled(norm, doc, op, path)
      ensures m in Tried(t.verb) && TableKey(m, path) in ops
    {
      m := AnswersIsTried(t.verb, op.verb);
      var rec := Rec(doc.file, op.verb + " " + op.path);
      assert TableKey(m, path) == TableKey(op.verb, path);
      assert Fills(norm, doc, op, TableKey(m, path), rec);
      assert Filled(norm, docs, TableKey(m, path), rec);
    }
  }

  /** The verbs a lookup tries, in order. */
  function Tried(verb: string): seq<string> {
    if verb != ANY then [verb, ANY] else [ANY] + VERBS
  }

  lemma UpperVerbs()
    ensures ToUpper(ANY) == ANY && forall m :: m in VERBS ==> ToUpper(m) == m
    ensures SpaceFree(ANY) && forall m :: m in VERBS ==> SpaceFree(m)
  {
    forall m | m in VERBS ensures ToUpper(m) == m && SpaceFree(m) {
      assert m == "GET" || m == "POST" || m == "PUT" || m == "PATCH" || m == "DELETE" || m == "HEAD" || m == "OPTIONS";
    }
  }

  lemma TriedIsAnswers(called: string, m: string)
    requires m in Tried(called) && SpaceFree(called)
    ensures SpaceFree(m)
    ensures forall declared :: ToUpper(declared) == ToUpper(m) ==> Answers(called, declared)
  {
    UpperVerbs();
  }

  lemma AnswersIsTried(called: string, declared: string) returns (m: string)
    requires Answers(called, declared)
    ensures m in Tried(called) && ToUpper(m) == ToUpper(declared)
  {
    UpperVerbs();
    var d := ToUpper(declared);
    m := if d == ANY then ANY else if called == ANY then d else called;
  }

  lemma FillsSpelled(norm: string -> string, doc: SpecDoc, op: OpKey, m: string, path: string, rec: Rec)
    requires Fills(norm, doc, op, TableKey(m, path), rec) && SpaceFree(m) && SpaceFree(op.verb)
    ensures Spelled(norm, doc, op, path) && ToUpper(op.verb) == ToUpper(m)
  {
    hide TableKey, ToUpper;
    KeysApart(op.verb, norm(op.path), m, path);
    forall b | b in doc.bases && TableKey(m, path) == TableKey(op.verb, norm(b + op.path))
      ensures norm(b + op.path) == path && ToUpper(op.verb) == ToUpper(m)
    {
      KeysApart(op.verb, norm(b + op.path), m, path);
    }
  }

  lemma FilledBy(norm: string -> string, docs: seq<SpecDoc>, doc: SpecDoc, op: OpKey, key: string, rec: Rec)
    requires doc in docs && Fills(norm, doc, op, key, rec)
    ensures Filled(norm, docs, key, rec)
  {
  }

  lemma FillsKey(norm: string -> string, doc: SpecDoc, op: OpKey, key: string, rec: Rec)
    requires Fills(norm, doc, op, key, rec)
    ensures KeyOf(norm, doc.bases, op, key)
  {
  }

  lemma FilledSnoc(norm: string -> string, docs: seq<SpecDoc>, doc: SpecDoc, key: string, rec: Rec)
    requires Filled(norm, docs + [doc], key, rec)
    ensures Filled(norm, docs, key, rec) || exists op :: op in doc.ops && Fills(norm, doc, op, key, rec)
  {
    var d, op :| d in docs + [doc] && Fills(norm, d, op, key, rec);
  }

  lemma FilledMore(norm: string -> string, docs: seq<SpecDoc>, doc: SpecDoc, key: string, rec: Rec)
    requires Filled(norm, docs, key, rec)
    ensures Filled(norm, docs + [doc], key, rec)
  {
    var d, op :| d in docs && Fills(norm, d, op, key, rec);
    assert d in docs + [doc];
  }
}

/** Call identity and derived host groups (internal/index/model.go): AssignIdentity and BuildHosts. */
module Identity {
  import opened Strs
  import opened Sorting
  import opened Calls

  // ----- identity

  const NUL := "\0"

  predicate NulFree(s: string) {
    '\0' !in s
  }

  /** What is assumed of the hash: no two texts share a digest, and digests are printable. */
  ghost predicate Ideal(hash: string -> string) {
    && (forall x, y :: hash(x) == hash(y) ==> x == y)
    && (forall x :: NulFree(hash(x)))
  }

  function Fingerprint(hash: string -> string, c: Call): string {
    "f_" + hash(Strs.Join(["v1", c.kind, c.host, c.verb, c.path], NUL))
  }

  /** The line is left out on purpose; the ordinal tells apart calls of one target in one file. */
  function IdOf(hash: string -> string, c: Call, ordinal: nat): string {
    "c_" + hash(Strs.Join(["v1", c.fingerprint, c.file, c.client, Itoa(ordinal)], NUL))
  }

  function Key(c: Call): string {
    c.file + NUL + c.fingerprint + NUL + c.client
  }

  /** The call with its target, its lists in order and its confidence, if it had none. */
  function Mark(hash: string -> string, c: Call): Call {
    c.(fingerprint := Fingerprint(hash, c),
       flags := SortUnique(c.flags), blockers := SortUnique(c.blockers), queryKeys := SortUnique(c.queryKeys),
       confidence := if c.confidence.Some? then c.confidence else Some(ConfidenceFor(c.score)))
  }

  function Marked(hash: string -> string, calls: seq<Call>): seq<Call> {
    seq(|calls|, i requires 0 <= i < |calls| => Mark(hash, calls[i]))
  }

  /** How many of the calls so far have this key. */
  function Ordinal(calls: seq<Call>, key: string): nat {
    CountIf((c: Call) => Key(c) == key, calls)
  }

  function Named(hash: string -> string, calls: seq<Call>): seq<Call> {
    seq(|calls|, i requires 0 <= i < |calls| => NamedAt(hash, calls, i))
  }

  function NamedAt(hash: string -> string, calls: seq<Call>, i: nat): Call
    requires i < |calls|
  {
    calls[i].(id := IdOf(hash, calls[i], Ordinal(calls[..i], Key(calls[i]))))
  }

  function Assigned(hash: string -> string, calls: seq<Call>): seq<Call> {
    SortCalls(Named(hash, StableSort(LessByPosition, Marked(hash, calls))))
  }

  method SortInPlace(a: array<Call>, less: (Call, Call) -> bool)
    modifies a
    ensures a[..] == StableSort(less, old(a[..]))
  {
    var sorted := StableSort(less, a[..]);
    SortMultiset(less, a[..]);
    for i := 0 to a.Length
      invariant a[..i] == sorted[..i]
    {
      a[i] := sorted[i];
    }
  }

  method MarkInPlace(a: array<Call>, hash: string -> string)
    modifies a
    ensures a[..] == Marked(hash, old(a[..]))
  {
    hide SortUnique, Fingerprint, ConfidenceFor;
    for i := 0 to a.Length
      invariant a[i..] == old(a[i..])
      invariant a[..i] == Marked(hash, old(a[..]))[..i]
    {
      assert a[i] == old(a[i]);
      var flags := SortUniqueLoop(a[i].flags);
      var blockers := SortUniqueLoop(a[i].blockers);
      var queryKeys := SortUniqueLoop(a[i].queryKeys);
      var confidence := if a[i].confidence.None? then Some(ConfidenceFor(a[i].score)) else a[i].confidence;
      a[i] := a[i].(fingerprint := Fingerprint(hash, a[i]), flags := flags, blockers := blockers,
                    queryKeys := queryKeys, confidence := confidence);
    }
  }

  lemma OrdinalSnoc(calls: seq<Call>, i: nat, key: string)
    requires i < |calls|
    ensures Ordinal(calls[..i + 1], key) == Ordinal(calls[..i], key) + (if Key(calls[i]) == key then 1 else 0)
  {
    assert calls[..i + 1][..i] == calls[..i];
  }

  /** The table holds the ordinal that is due next for each key. */
  ghost predicate Counts(ordinals: map<string, nat>, part: seq<Call>) {
    forall key :: (if key in ordinals then ordinals[key] else 0) == Ordinal(part, key)
  }

  lemma CountsMore(ordinals: map<string, nat>, calls: seq<Call>, i: nat)
    requires i < |calls| && Counts(ordinals, calls[..i])
    ensures var key := Key(calls[i]);
            var n := if key in ordinals then ordinals[key] else 0;
            n == Ordinal(calls[..i], key) && Counts(ordinals[key := n + 1], calls[..i + 1])
  {
    hide Key, Ordinal;
    forall key ensures Ordinal(calls[..i + 1], key) == Ordinal(calls[..i], key) + (if Key(calls[i]) == key then 1 else 0) {
      OrdinalSnoc(calls, i, key);
    }
  }

  method NameInPlace(a: array<Call>, hash: string -> string)
    modifies a
    ensures a[..] == Named(hash, old(a[..]))
  {
    ghost var was := a[..];
    var ordinals: map<string, nat> := map[];
    assert Counts(ordinals, was[..0]);
    hide IdOf, Key, Ordinal, Counts;
    for i := 0 to a.Length
      invariant a[i..] == was[i..]
      invariant forall k :: 0 <= k < i ==> a[k] == NamedAt(hash, was, k)
      invariant Counts(ordinals, was[..i])
    {
      assert a[i] == was[i];
      CountsMore(ordinals, was, i);
      var key := Key(a[i]);
      var n := if key in ordinals then ordinals[key] else 0;
      ordinals := ordinals[key := n + 1];
      a[i] := a[i].(id := IdOf(hash, a[i], n));
    }
  }

  method AssignIdentity(a: array<Call>, hash: string -> string)
    modifies a
    ensures a[..] == Assigned(hash, old(a[..]))
  {
    MarkInPlace(a, hash);
    SortInPlace(a, LessByPosition);
    NameInPlace(a, hash);
    SortInPlace(a, CanonicalLess);
  }

  // ----- IDs are distinct

  lemma {:induction false} FirstNul(p: string, v: string)
    requires NulFree(p)
    ensures IndexByte(p + NUL + v, '\0') == |p|
  {
    if p == "" {
      assert (p + NUL + v)[0] == '\0';
    } else {
      FirstNul(p[1..], v);
      assert (p + NUL + v)[1..] == p[1..] + NUL + v;
    }
  }

  lemma OneNul(p: string, v: string, q: string, w: string)
    requires NulFree(p) && NulFree(q) && p + NUL + v == q + NUL + w
    ensures p == q && v == w
  {
    FirstNul(p, v);
    FirstNul(q, w);
    var s := p + NUL + v;
    assert p == s[..|p|] && q == s[..|q|];
    assert v == s[|p| + 1..] && w == s[|q| + 1..];
  }

  /** Texts joined by NULs are determined by the joined text. */
  lemma {:induction false} JoinedApart(xs: seq<string>, ys: seq<string>)
    requires |xs| == |ys| && (forall i :: 0 <= i < |xs| ==> NulFree(xs[i]) && NulFree(ys[i]))
    requires Strs.Join(xs, NUL) == Strs.Join(ys, NUL)
    ensures xs == ys
  {
    if |xs| > 1 {
      OneNul(xs[0], Strs.Join(xs[1..], NUL), ys[0], Strs.Join(ys[1..], NUL));
      JoinedApart(xs[1..], ys[1..]);
      assert xs == [xs[0]] + xs[1..] && ys == [ys[0]] + ys[1..];
    } else if |xs| == 1 {
      assert xs == [xs[0]] && ys == [ys[0]];
    }
  }

  lemma SameId(hash: string -> string, c: Call, m: nat, d: Call, n: nat)
    requires Ideal(hash) && IdOf(hash, c, m) == IdOf(hash, d, n)
    requires NulFree(c.fingerprint) && NulFree(c.file) && NulFree(c.client)
    requires NulFree(d.fingerprint) && NulFree(d.file) && NulFree(d.client)
    ensures Key(c) == Key(d) && m == n
    ensures c.fingerprint == d.fingerprint && c.file == d.file && c.client == d.client
  {
    var xs, ys := ["v1", c.fingerprint, c.file, c.client, Itoa(m)], ["v1", d.fingerprint, d.file, d.client, Itoa(n)];
    hide Itoa, Strs.Join;
    assert hash(Strs.Join(xs, NUL)) == IdOf(hash, c, m)[2..];
    assert hash(Strs.Join(ys, NUL)) == IdOf(hash, d, n)[2..];
    DigitsHaveNoNul(m);
    DigitsHaveNoNul(n);
    JoinedApart(xs, ys);
    assert xs[1] == ys[1] && xs[2] == ys[2] && xs[3] == ys[3] && xs[4] == ys[4];
    assert Number(Itoa(m)) == m && Number(Itoa(n)) == n;
  }

  lemma DigitsHaveNoNul(n: nat)
    ensures NulFree(Itoa(n))
  {
    assert forall k :: 0 <= k < |Itoa(n)| ==> IsDigit(Itoa(n)[k]);
  }

  /** Of two calls with one key the later has the greater ordinal. */
  lemma {:induction false} OrdinalGrows(calls: seq<Call>, i: nat, j: nat, key: string)
    requires i < j < |calls| && Key(calls[i]) == key
    ensures Ordinal(calls[..i], key) < Ordinal(calls[..j], key)
    decreases j
  {
    OrdinalSnoc(calls, j - 1, key);
    if i < j - 1 {
      OrdinalGrows(calls, i, j - 1, key);
    }
  }

  predicate Storable(calls: seq<Call>) {
    forall i :: 0 <= i < |calls| ==> NulFree(calls[i].file) && NulFree(calls[i].client)
  }

  lemma NamedDistinct(hash: string -> string, calls: seq<Call>)
    requires Ideal(hash) && Storable(calls) && forall i :: 0 <= i < |calls| ==> NulFree(calls[i].fingerprint)
    ensures Distinct(Id, Named(hash, calls))
  {
    hide IdOf;
    forall i, j | 0 <= i < j < |calls| ensures Named(hash, calls)[i].id != Named(hash, calls)[j].id {
      var m, n := Ordinal(calls[..i], Key(calls[i])), Ordinal(calls[..j], Key(calls[j]));
      if IdOf(hash, calls[i], m) == IdOf(hash, calls[j], n) {
        SameId(hash, calls[i], m, calls[j], n);
        OrdinalGrows(calls, i, j, Key(calls[i]));
      }
    }
  }

  /** With a hash that tells texts apart, no two calls share an ID; file names hold no NUL. */
  lemma AssignedDistinct(hash: string -> string, calls: seq<Call>)
    requires Ideal(hash) && Storable(calls)
    ensures Distinct(Id, Assigned(hash, calls))
  {
    var marked := Marked(hash, calls);
    var sorted := StableSort(LessByPosition, marked);
    SortMembers(LessByPosition, marked);
    forall i | 0 <= i < |sorted|
      ensures NulFree(sorted[i].file) && NulFree(sorted[i].client) && NulFree(sorted[i].fingerprint)
    {
      assert sorted[i] in marked;
      var k :| 0 <= k < |marked| && marked[k] == sorted[i];
      assert NulFree(calls[k].file) && marked[k].file == calls[k].file;
      MarkNulFree(hash, calls[k]);
    }
    NamedDistinct(hash, sorted);
    SortDistinct(CanonicalLess, Id, Named(hash, sorted));
  }

  lemma MarkNulFree(hash: string -> string, c: Call)
    requires Ideal(hash)
    ensures NulFree(Fingerprint(hash, c))
  {
    assert NulFree("f_");
  }

  // ----- moving code

  function Map<T>(g: T -> T, xs: seq<T>): (r: seq<T>)
    ensures |r| == |xs|
  {
    seq(|xs|, i requires 0 <= i < |xs| => g(xs[i]))
  }

  ghost predicate Preserves<T(!new)>(g: T -> T, less: (T, T) -> bool) {
    forall x, y :: less(g(x), g(y)) == less(x, y)
  }

  lemma {:induction false} InsertCommutes<T(!new)>(less: (T, T) -> bool, g: T -> T, xs: seq<T>, x: T)
    requires Preserves(g, less)
    ensures Insert(less, Map(g, xs), g(x)) == Map(g, Insert(less, xs, x))
  {
    if xs != [] && less(x, xs[|xs| - 1]) {
      InsertCommutes(less, g, xs[..|xs| - 1], x);
      assert Map(g, xs)[..|xs| - 1] == Map(g, xs[..|xs| - 1]);
    }
  }

  /** A map that keeps every comparison commutes with sorting. */
  lemma {:induction false} SortCommutes<T(!new)>(less: (T, T) -> bool, g: T -> T, xs: seq<T>)
    requires Preserves(g, less)
    ensures StableSort(less, Map(g, xs)) == Map(g, StableSort(less, xs))
  {
    if xs != [] {
      var n := |xs| - 1;
      SortCommutes(less, g, xs[..n]);
      assert Map(g, xs)[..n] == Map(g, xs[..n]);
      InsertCommutes(less, g, StableSort(less, xs[..n]), xs[n]);
    }
  }

  /** Lines move within their files and never pass each other. */
  ghost predicate Shifts(move: (string, int) -> int) {
    forall file, l, m :: l < m ==> move(file, l) < move(file, m)
  }

  function Moved(move: (string, int) -> int, c: Call): Call {
    c.(line := move(c.file, c.line))
  }

  lemma MovePreserves(move: (string, int) -> int)
    requires Shifts(move)
    ensures Preserves((c: Call) => Moved(move, c), LessByPosition)
    ensures Preserves((c: Call) => Moved(move, c), CanonicalLess)
  {
    forall a: Call, b: Call ensures LessByPosition(Moved(move, a), Moved(move, b)) == LessByPosition(a, b) {
      if a.file == b.file {
        assert a.line < b.line ==> move(a.file, a.line) < move(a.file, b.line);
        assert b.line < a.line ==> move(a.file, b.line) < move(a.file, a.line);
      }
    }
  }

  lemma {:induction false} OrdinalMoved(move: (string, int) -> int, calls: seq<Call>, key: string)
    ensures Ordinal(Map((c: Call) => Moved(move, c), calls), key) == Ordinal(calls, key)
  {
    if calls != [] {
      var n := |calls| - 1;
      var g := (c: Call) => Moved(move, c);
      OrdinalMoved(move, calls[..n], key);
      assert Map(g, calls)[..n] == Map(g, calls[..n]);
    }
  }

  lemma NamedMoved(hash: string -> string, move: (string, int) -> int, calls: seq<Call>)
    ensures var g := (c: Call) => Moved(move, c); Named(hash, Map(g, calls)) == Map(g, Named(hash, calls))
  {
    hide IdOf, Key;
    var g := (c: Call) => Moved(move, c);
    forall i | 0 <= i < |calls| ensures Named(hash, Map(g, calls))[i] == g(Named(hash, calls)[i]) {
      assert Map(g, calls)[..i] == Map(g, calls[..i]);
      KeyMoved(hash, move, calls[i]);
      OrdinalMoved(move, calls[..i], Key(calls[i]));
      IdMoved(hash, move, calls[i], Ordinal(calls[..i], Key(calls[i])));
    }
  }

  lemma KeyMoved(hash: string -> string, move: (string, int) -> int, c: Call)
    ensures Key(Moved(move, c)) == Key(c)
  {
  }

  lemma IdMoved(hash: string -> string, move: (string, int) -> int, c: Call, n: nat)
    ensures IdOf(hash, Moved(move, c), n) == IdOf(hash, c, n)
  {
  }

  lemma MarkedMoved(hash: string -> string, move: (string, int) -> int, calls: seq<Call>)
    ensures var g := (c: Call) => Moved(move, c); Marked(hash, Map(g, calls)) == Map(g, Marked(hash, calls))
  {
    forall c ensures Fingerprint(hash, Moved(move, c)) == Fingerprint(hash, c) {
    }
  }

  /** Renumbering the lines of each file upwards changes no call's ID, nor the order of the calls. */
  lemma MovingLinesKeepsIds(hash: string -> string, move: (string, int) -> int, calls: seq<Call>)
    requires Shifts(move)
    ensures var g := (c: Call) => Moved(move, c); Assigned(hash, Map(g, calls)) == Map(g, Assigned(hash, calls))
  {
    hide Marked, Named, StableSort, Preserves;
    var g := (c: Call) => Moved(move, c);
    MovePreserves(move);
    MarkedMoved(hash, move, calls);
    SortCommutes(LessByPosition, g, Marked(hash, calls));
    var sorted := StableSort(LessByPosition, Marked(hash, calls));
    NamedMoved(hash, move, sorted);
    SortCommutes(CanonicalLess, g, Named(hash, sorted));
  }
}

/** The history of one record over a run of scans (internal/index/merge.go): who it continues, and what stays. */
module Chains {
  import opened Strs
  import opened Sorting
  import opened Calls
  import opened Merge
  import opened MergeLaws

  /** Call number `call` of scan number `scan`. */
  datatype Sighting = Sighting(scan: nat, call: nat)

  /** The index before the first scan of a history is empty. */
  function After(h: seq<Step>): seq<Call> {
    if h == [] then [] else Run(h).value
  }

  /** The sightings that the record of this ID stands for: each continued the record of the one before. */
  function Chain(h: seq<Step>, id: string): (r: seq<Sighting>)
    ensures InRange(h, r)
    ensures forall i :: 0 <= i < |r| - 1 ==> r[i].scan < r[i + 1].scan
  {
    if h == [] then []
    else
      var n := |h| - 1;
      var init, s := h[..n], h[n];
      var j := FindId(s.next, id);
      if j < 0 then Chain(init, id)
      else
        var hit := Hits(After(init), s.next)[j];
        var before := if hit.None? then [] else Chain(init, After(init)[hit.value.at].id);
        assert InRange(init, before);
        before + [Sighting(n, j)]
  }

  ghost predicate InRange(h: seq<Step>, chain: seq<Sighting>) {
    forall i :: 0 <= i < |chain| ==> chain[i].scan < |h| && chain[i].call < |h[chain[i].scan].next|
  }

  function ScanIds(h: seq<Step>, chain: seq<Sighting>): seq<string>
    requires InRange(h, chain)
  {
    seq(|chain|, i requires 0 <= i < |chain| => h[chain[i].scan].scan.id)
  }

  function Commits(h: seq<Step>, chain: seq<Sighting>): seq<string>
    requires InRange(h, chain)
  {
    seq(|chain|, i requires 0 <= i < |chain| => h[chain[i].scan].scan.commit)
  }

  /** The first text that is not empty; the empty text if there is none. */
  function FirstOf(texts: seq<string>): string {
    if texts == [] then ""
    else if texts[0] != "" then texts[0]
    else FirstOf(texts[1..])
  }

  lemma {:induction false} FirstOfGrows(texts: seq<string>, t: string)
    ensures FirstOf(texts + [t]) == FirstNonEmpty(FirstOf(texts), t)
  {
    if texts != [] {
      assert (texts + [t])[1..] == texts[1..] + [t];
      FirstOfGrows(texts[1..], t);
    }
  }

  /** The first text is what was chosen exactly when it is not empty, or nothing after it is there either. */
  lemma {:induction false} FirstOfHead(texts: seq<string>)
    requires texts != []
    ensures FirstOf(texts) == texts[0] <==> texts[0] != "" || forall i :: 0 < i < |texts| ==> texts[i] == ""
    decreases |texts|
  {
    var rest := texts[1..];
    if texts[0] == "" && rest != [] {
      FirstOfHead(rest);
      assert rest[0] == texts[1];
      assert forall i :: 0 < i < |rest| ==> rest[i] == texts[i + 1];
      assert forall i :: 1 < i < |texts| ==> texts[i] == rest[i - 1];
    }
  }

  /** What a record remembers, told from the sightings in its chain. */
  ghost predicate Remembers(h: seq<Step>, c: Call) {
    var chain := Chain(h, c.id);
    && chain != []
    && c.life.firstScan == FirstOf(ScanIds(h, chain))
    && c.life.firstCommit == FirstOf(Commits(h, chain))
    && c.life.lastCommit == h[chain[|chain| - 1].scan].scan.commit
  }

  ghost predicate AllRemember(h: seq<Step>) {
    forall c :: c in After(h) ==> Remembers(h, c)
  }

  ghost predicate Clean(h: seq<Step>) {
    forall i :: 0 <= i < |h| ==> DistinctIds(h[i].next)
  }

  /** Merging into no index is merging into an empty one. */
  lemma RunIsMerge(h: seq<Step>)
    requires h != []
    ensures var s := h[|h| - 1];
            Run(h).value == SortCalls(MergedCalls(Some(After(h[..|h| - 1])), s.next, s.scan, s.opts))
  {
    var s := h[|h| - 1];
    assert Unclaimed([], s.next) == [];
    hide Unclaimed, SeenAll, SortCalls, StableSort;
    assert RestAll([], s.opts, s.scan) == [];
    assert SeenAll([], s.next, s.scan) + [] == SeenAll([], s.next, s.scan);
  }

  lemma {:induction false} RunDistinct(h: seq<Step>)
    requires Clean(h)
    ensures DistinctIds(After(h))
  {
    if h != [] {
      var s := h[|h| - 1];
      RunDistinct(h[..|h| - 1]);
      RunIsMerge(h);
      MergedDistinct(After(h[..|h| - 1]), s.next, s.scan, s.opts);
    }
  }

  /** Chains, and the texts along them, do not change when the history goes on. */
  lemma Shorter(h: seq<Step>, chain: seq<Sighting>)
    requires h != [] && InRange(h[..|h| - 1], chain)
    ensures InRange(h, chain)
    ensures ScanIds(h, chain) == ScanIds(h[..|h| - 1], chain) && Commits(h, chain) == Commits(h[..|h| - 1], chain)
  {
  }

  lemma Longer(h: seq<Step>, chain: seq<Sighting>, x: Sighting)
    requires InRange(h, chain) && x.scan < |h| && x.call < |h[x.scan].next|
    ensures InRange(h, chain + [x])
    ensures ScanIds(h, chain + [x]) == ScanIds(h, chain) + [h[x.scan].scan.id]
    ensures Commits(h, chain + [x]) == Commits(h, chain) + [h[x.scan].scan.commit]
  {
  }

  /** The chain of a record just sighted: the chain of the record it hit, and this sighting. */
  function Before(h: seq<Step>, j: nat): (r: seq<Sighting>)
    requires h != [] && j < |h[|h| - 1].next|
    ensures InRange(h[..|h| - 1], r)
  {
    var init := h[..|h| - 1];
    var hit := Hits(After(init), h[|h| - 1].next)[j];
    if hit.None? then [] else Chain(init, After(init)[hit.value.at].id)
  }

  lemma SeenAt(next: seq<Call>, i: nat)
    requires DistinctIds(next) && i < |next|
    ensures FindId(next, next[i].id) == i
  {
    var j := FindId(next, next[i].id);
    assert Id(next[i]) == Id(next[j]);
  }

  /** The texts along the grown chain. */
  lemma BeforeTexts(h: seq<Step>, j: nat)
    requires h != [] && j < |h[|h| - 1].next|
    ensures var n := |h| - 1;
            var chain := Before(h, j);
            && InRange(h, chain + [Sighting(n, j)])
            && FirstOf(ScanIds(h, chain + [Sighting(n, j)]))
            == FirstNonEmpty(FirstOf(ScanIds(h[..n], chain)), h[n].scan.id)
            && FirstOf(Commits(h, chain + [Sighting(n, j)]))
            == FirstNonEmpty(FirstOf(Commits(h[..n], chain)), h[n].scan.commit)
  {
    var n := |h| - 1;
    var chain := Before(h, j);
    hide Chain, FirstOf, Before, ScanIds, Commits;
    Shorter(h, chain);
    Longer(h, chain, Sighting(n, j));
    FirstOfGrows(ScanIds(h, chain), h[n].scan.id);
    FirstOfGrows(Commits(h, chain), h[n].scan.commit);
  }

  /** What the record that call `j` of the last scan hit says about its beginnings; nothing if there is none. */
  function Origin(h: seq<Step>, j: nat): (r: (string, string))
    requires h != [] && j < |h[|h| - 1].next|
  {
    var prev := After(h[..|h| - 1]);
    var hit := Hits(prev, h[|h| - 1].next)[j];
    if hit.None? then ("", "") else (prev[hit.value.at].life.firstScan, prev[hit.value.at].life.firstCommit)
  }

  lemma BeforeRemembers(h: seq<Step>, j: nat)
    requires h != [] && j < |h[|h| - 1].next| && AllRemember(h[..|h| - 1])
    ensures FirstOf(ScanIds(h[..|h| - 1], Before(h, j))) == Origin(h, j).0
    ensures FirstOf(Commits(h[..|h| - 1], Before(h, j))) == Origin(h, j).1
  {
    var init := h[..|h| - 1];
    var prev := After(init);
    var hit := Hits(prev, h[|h| - 1].next)[j];
    if hit.Some? {
      assert prev[hit.value.at] in prev;
      assert Remembers(init, prev[hit.value.at]);
    }
    assert FirstOf([]) == "";
    hide FirstOf, Hits, Chain;
  }

  lemma ChainGrows(h: seq<Step>, j: nat)
    requires h != [] && j < |h[|h| - 1].next| && DistinctIds(h[|h| - 1].next)
    ensures Chain(h, h[|h| - 1].next[j].id) == Before(h, j) + [Sighting(|h| - 1, j)]
  {
    SeenAt(h[|h| - 1].next, j);
    hide FindId, Hits;
  }

  lemma GrownTexts(h: seq<Step>, j: nat)
    requires h != [] && j < |h[|h| - 1].next| && DistinctIds(h[|h| - 1].next) && AllRemember(h[..|h| - 1])
    ensures var s := h[|h| - 1];
            var chain := Chain(h, s.next[j].id);
            && chain != [] && chain[|chain| - 1] == Sighting(|h| - 1, j)
            && FirstOf(ScanIds(h, chain)) == FirstNonEmpty(Origin(h, j).0, s.scan.id)
            && FirstOf(Commits(h, chain)) == FirstNonEmpty(Origin(h, j).1, s.scan.commit)
  {
    hide Chain, FirstOf, Before, ScanIds, Commits, AllRemember, DistinctIds, Origin;
    ChainGrows(h, j);
    BeforeRemembers(h, j);
    BeforeTexts(h, j);
  }

  lemma SeenOrigin(h: seq<Step>, j: nat, c: Call)
    requires h != [] && j < |h[|h| - 1].next|
    requires var s := h[|h| - 1]; var prev := After(h[..|h| - 1]);
             c == Seen(prev, s.next[j], Hits(prev, s.next)[j], s.scan)
    ensures var s := h[|h| - 1];
            && c.id == s.next[j].id && c.life.lastCommit == s.scan.commit
            && c.life.firstScan == FirstNonEmpty(Origin(h, j).0, s.scan.id)
            && c.life.firstCommit == FirstNonEmpty(Origin(h, j).1, s.scan.commit)
  {
    hide Hits, Run;
  }

  /** A call of the last scan: its record continues the chain of the one it hit, or starts one. */
  lemma SeenRemembers(h: seq<Step>, c: Call)
    requires h != [] && Clean(h) && AllRemember(h[..|h| - 1])
    requires FromScan(After(h[..|h| - 1]), h[|h| - 1].next, h[|h| - 1].scan, c)
    ensures Remembers(h, c)
  {
    var s := h[|h| - 1];
    var prev := After(h[..|h| - 1]);
    assert DistinctIds(s.next);
    var i :| 0 <= i < |s.next| && c == Seen(prev, s.next[i], Hits(prev, s.next)[i], s.scan);
    hide Chain, FirstOf, ScanIds, Commits, AllRemember, DistinctIds, Origin, Seen, Hits, Run, After;
    SeenOrigin(h, i, c);
    GrownTexts(h, i);
  }

  lemma FoundIds(calls: seq<Call>, id: string)
    ensures FindId(calls, id) >= 0 <==> id in IdSet(calls)
  {
    if FindId(calls, id) >= 0 { assert calls[FindId(calls, id)] in calls; }
  }

  /** What is left of a record keeps its chain. */
  lemma LeftRemembers(h: seq<Step>, c: Call)
    requires h != [] && Clean(h) && AllRemember(h[..|h| - 1])
    requires DistinctIds(After(h[..|h| - 1]))
    requires FromIndex(After(h[..|h| - 1]), h[|h| - 1].next, h[|h| - 1].scan, h[|h| - 1].opts, c)
    ensures Remembers(h, c)
  {
    var n := |h| - 1;
    var init, s := h[..n], h[n];
    var prev := After(init);
    var p := FromIndexFacts(prev, s.next, s.scan, s.opts, c);
    FoundIds(s.next, c.id);
    assert Remembers(init, p) && c in Rest(p, s.opts, s.scan);
    assert Chain(h, c.id) == Chain(init, p.id);
    Shorter(h, Chain(init, p.id));
    hide Chain, FirstOf, Hits, FromIndex;
  }

  /**
   Over any history of full and partial scans, with any retention: a record's first scan and first
   commit are the first that are not empty along its chain, and its last commit is the chain's last.
   */
  lemma {:induction false} EveryRecordRemembers(h: seq<Step>, c: Call)
    requires Clean(h) && c in After(h)
    ensures Remembers(h, c)
    decreases |h|
  {
    var s := h[|h| - 1];
    var init := h[..|h| - 1];
    forall p | p in After(init) ensures Remembers(init, p) {
      EveryRecordRemembers(init, p);
    }
    RunIsMerge(h);
    RunDistinct(init);
    MergedMember(After(init), s.next, s.scan, s.opts, c);
    if FromScan(After(init), s.next, s.scan, c) {
      SeenRemembers(h, c);
    } else {
      LeftRemembers(h, c);
    }
  }

  /** The scan in which a record's chain was born. */
  function Birth(h: seq<Step>, c: Call): Scan
    requires Chain(h, c.id) != []
  {
    h[Chain(h, c.id)[0].scan].scan
  }

  /** First-seen never moves along a chain of matches, as long as scans have IDs. */
  lemma FirstScanIsBirth(h: seq<Step>, c: Call)
    requires Clean(h) && c in After(h)
    ensures Chain(h, c.id) != []
    ensures Birth(h, c).id != "" ==> c.life.firstScan == Birth(h, c).id
  {
    EveryRecordRemembers(h, c);
    FirstOfHead(ScanIds(h, Chain(h, c.id)));
  }

  /** The first commit is the birth's exactly when the birth has one, or no later scan of the chain has. */
  lemma FirstCommitIsBirthIff(h: seq<Step>, c: Call)
    requires Clean(h) && c in After(h)
    ensures Chain(h, c.id) != []
    ensures c.life.firstCommit == Birth(h, c).commit
       <==> (Birth(h, c).commit != ""
             || forall i :: 0 < i < |Chain(h, c.id)| ==> h[Chain(h, c.id)[i].scan].scan.commit == "")
  {
    EveryRecordRemembers(h, c);
    var commits := Commits(h, Chain(h, c.id));
    FirstOfHead(commits);
    assert forall i :: 0 < i < |commits| ==> commits[i] == h[Chain(h, c.id)[i].scan].scan.commit;
  }

  /** One more scan of a single call, whose record is all the index may hold. */
  lemma ScannedAgain(init: seq<Step>, c: Call, opts: Options, scan: Scan)
    requires |After(init)| <= 1 && (After(init) != [] ==> After(init)[0].id == c.id)
    ensures var h := init + [Step([c], scan, opts)];
            && After(h) == [if After(init) == [] then Born(c, scan) else Continued(c, After(init)[0], scan)]
            && Chain(h, c.id) == (if After(init) == [] then [] else Chain(init, c.id)) + [Sighting(|init|, 0)]
  {
    var h := init + [Step([c], scan, opts)];
    assert h[..|init|] == init && h[|init|] == Step([c], scan, opts);
    assert FindId([c], c.id) == 0;
    OneCall(After(init), c, opts, scan);
    hide FindId, SortCalls, MergedCalls, Hits, Continued, Born;
    RunIsMerge(h);
  }

  /** Two scans of one and the same call. */
  lemma {:induction false} TwoScans(h: seq<Step>, c: Call, opts: Options)
    requires |h| == 2 && h[0] == Step([c], h[0].scan, opts) && h[1] == Step([c], h[1].scan, opts)
    ensures After(h) == [Continued(c, Born(c, h[0].scan), h[1].scan)]
    ensures Chain(h, c.id) == [Sighting(0, 0), Sighting(1, 0)]
  {
    assert After([]) == [] && [] + [h[0]] == [h[0]] && [h[0]] + [h[1]] == h;
    assert Born(c, h[0].scan).id == c.id;
    hide Run, Chain, Continued, Born, InRange, After;
    ScannedAgain([], c, opts, h[0].scan);
    ScannedAgain([h[0]], c, opts, h[1].scan);
  }

  /** A call first scanned outside a repository is credited to the commit of a later scan. */
  lemma CreditMoves(h: seq<Step>, c: Call, opts: Options)
    requires |h| == 2 && h[0] == Step([c], h[0].scan, opts) && h[1] == Step([c], h[1].scan, opts)
    requires h[0].scan.id != "" && h[0].scan.commit == ""
    ensures |After(h)| == 1 && Birth.requires(h, After(h)[0]) && Birth(h, After(h)[0]) == h[0].scan
    ensures After(h)[0].life.firstScan == h[0].scan.id && After(h)[0].life.firstCommit == h[1].scan.commit
  {
    TwoScans(h, c, opts);
    hide Run, Chain;
  }

  /** Scanned as "s1" without a commit and as "s2" at "abc", a call has first scan "s1" and first commit "abc". */
  lemma FirstCommitMoves(c: Call, opts: Options)
    ensures var h := [Step([c], Scan("s1", ""), opts), Step([c], Scan("s2", "abc"), opts)];
            && |After(h)| == 1 && Birth.requires(h, After(h)[0])
            && Birth(h, After(h)[0]) == Scan("s1", "")
            && After(h)[0].life.firstScan == "s1" && After(h)[0].life.firstCommit == "abc"
  {
    hide Run, Chain, After, Birth;
    CreditMoves([Step([c], Scan("s1", ""), opts), Step([c], Scan("s2", "abc"), opts)], c, opts);
  }

  /** One call scanned into an index that is empty or holds just it. */
  lemma {:induction false} OneCall(prev: seq<Call>, c: Call, opts: Options, scan: Scan)
    requires |prev| <= 1 && (prev != [] ==> prev[0].id == c.id)
    ensures Hits(prev, [c]) == [if prev == [] then None else Some(Hit(0, Exact))]
    ensures SortCalls(MergedCalls(Some(prev), [c], scan, opts))
         == [if prev == [] then Born(c, scan) else Continued(c, prev[0], scan)]
  {
    assert [c][..0] == [];
    NothingBefore([c]);
    var hs := Hits(prev, [c]);
    if prev != [] {
      assert FindId(prev, c.id) == 0;
      assert hs == [Some(Hit(0, Exact))];
      TakenHas(prev, hs, 0);
    }
    LeftNone(prev, Taken(prev, hs));
    var one := Seen(prev, c, hs[0], scan);
    assert SeenAll(prev, [c], scan) == [one];
    assert MergedCalls(Some(prev), [c], scan, opts) == [one];
    SortMultiset(CanonicalLess, [one]);
    assert |SortCalls([one])| == 1;
    assert SortCalls([one])[0] in multiset(SortCalls([one]));
  }

  // ----- no history is shared

  /** Two records of one index never share a sighting. */
  lemma {:induction false} ChainsDisjoint(h: seq<Step>, c: Call, d: Call, x: Sighting)
    requires Clean(h) && c in After(h) && d in After(h) && c.id != d.id
    ensures !(x in Chain(h, c.id) && x in Chain(h, d.id))
    decreases |h|
  {
    var n := |h| - 1;
    var init, s := h[..n], h[n];
    RunIsMerge(h);
    RunDistinct(init);
    var oldC := Came(h, c);
    var oldD := Came(h, d);
    ChainLast(h, c, oldC, x);
    ChainLast(h, d, oldD, x);
    if oldC.Some? && oldD.Some? {
      FromApart(h, c, d, oldC.value, oldD.value);
      ChainsDisjoint(init, oldC.value, oldD.value, x);
    }
  }

  /** Which record of the index before `c` goes on from. */
  ghost predicate GoesOn(h: seq<Step>, c: Call, p: Option<Call>)
    requires h != []
  {
    var init, s := h[..|h| - 1], h[|h| - 1];
    var prev := After(init);
    var j := FindId(s.next, c.id);
    && (p.Some? ==> p.value in prev)
    && if j < 0 then p.Some? && p.value.id == c.id && p.value.id !in Taken(prev, Hits(prev, s.next))
       else
         var hit := Hits(prev, s.next)[j];
         p == if hit.None? then None else Some(prev[hit.value.at])
  }

  lemma Came(h: seq<Step>, c: Call) returns (p: Option<Call>)
    requires h != [] && Clean(h) && c in Run(h).value
    ensures GoesOn(h, c, p)
  {
    var n := |h| - 1;
    var init, s := h[..n], h[n];
    var prev := After(init);
    var j := FindId(s.next, c.id);
    FoundIds(s.next, c.id);
    if j >= 0 {
      var hit := Hits(prev, s.next)[j];
      p := if hit.None? then None else Some(prev[hit.value.at]);
    } else {
      RunIsMerge(h);
      RunDistinct(init);
      MergedMember(prev, s.next, s.scan, s.opts, c);
      if FromScan(prev, s.next, s.scan, c) {
        FromScanFacts(prev, s.next, s.scan, c);
        assert false;
      }
      var was := LeftOf(prev, s, c);
      p := Some(was);
    }
  }

  lemma LeftOf(prev: seq<Call>, s: Step, c: Call) returns (p: Call)
    requires DistinctIds(prev) && FromIndex(prev, s.next, s.scan, s.opts, c)
    ensures p in prev && p.id == c.id && p.id !in Taken(prev, Hits(prev, s.next))
  {
    var left := Unclaimed(prev, s.next);
    var k :| 0 <= k < |left| && Rest(left[k], s.opts, s.scan) == [c];
    p := left[k];
    RestKeepsId(p, s.opts, s.scan, c);
    LeftFrom(prev, Taken(prev, Hits(prev, s.next)));
    assert p in left;
  }

  /** A sighting in a chain is the last scan's, or lies in the chain before. */
  lemma ChainLast(h: seq<Step>, c: Call, p: Option<Call>, x: Sighting)
    requires h != [] && GoesOn(h, c, p)
    ensures var n := |h| - 1;
            x in Chain(h, c.id) <==>
            (FindId(h[n].next, c.id) >= 0 && x == Sighting(n, FindId(h[n].next, c.id)))
            || (p.Some? && x in Chain(h[..n], p.value.id))
    ensures p.Some? && x in Chain(h[..|h| - 1], p.value.id) ==> x.scan < |h| - 1
  {
  }

  lemma TakenIfHit(h: seq<Step>, c: Call, p: Call)
    requires h != [] && GoesOn(h, c, Some(p))
    ensures var s := h[|h| - 1];
            && (FindId(s.next, c.id) < 0 ==> p.id == c.id)
            && (FindId(s.next, c.id) >= 0 ==>
                  var hit := Hits(After(h[..|h| - 1]), s.next)[FindId(s.next, c.id)];
                  hit.Some? && p == After(h[..|h| - 1])[hit.value.at])
            && (p.id in Taken(After(h[..|h| - 1]), Hits(After(h[..|h| - 1]), s.next)) <==> FindId(s.next, c.id) >= 0)
  {
    var s := h[|h| - 1];
    var prev := After(h[..|h| - 1]);
    var i := FindId(s.next, c.id);
    hide Taken, FindId, Run;
    if i >= 0 { TakenHas(prev, Hits(prev, s.next), i); }
  }

  lemma FoundTwice(calls: seq<Call>, a: string, b: string)
    requires a != b && FindId(calls, a) == FindId(calls, b)
    ensures FindId(calls, a) < 0
  {
  }

  lemma FromApart(h: seq<Step>, c: Call, d: Call, p: Call, q: Call)
    requires h != [] && c.id != d.id && GoesOn(h, c, Some(p)) && GoesOn(h, d, Some(q))
    ensures p.id != q.id
  {
    var s := h[|h| - 1];
    var prev := After(h[..|h| - 1]);
    var i, j := FindId(s.next, c.id), FindId(s.next, d.id);
    hide Hits, Taken, FindId, Run, GoesOn;
    TakenIfHit(h, c, p);
    TakenIfHit(h, d, q);
    if 0 <= i < j { HitsInjective(prev, s.next, i, j); }
    if 0 <= j < i { HitsInjective(prev, s.next, j, i); }
    if i == j { FoundTwice(s.next, c.id, d.id); }
  }
}

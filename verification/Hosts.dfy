/** The derived per-host summary (internal/index/model.go): BuildHosts. */
module Hosts {
  import opened Strs
  import opened Sorting
  import opened Calls

  /** What is gathered about one host; `best` is the highest score, `kind` the first call's host kind. */
  datatype Acc = Acc(kind: string, vendor: string, count: nat, paths: set<string>, verbs: set<string>,
                     languages: set<string>, best: int)

  function Level(c: Confidence): nat {
    match c case Low => 0 case Medium => 1 case High => 2
  }

  datatype HostGroup = HostGroup(host: string, kind: string, vendor: string, count: nat, pathCount: nat,
                                 verbs: seq<string>, languages: seq<string>, confidence: Confidence)

  predicate Live(c: Call, host: string) {
    c.life.status != Removed && c.host == host
  }

  function Fresh(host: string, vendors: map<string, string>): Acc {
    Acc("", if host in vendors then vendors[host] else "", 0, {}, {}, {}, -1)
  }

  function Add(a: Acc, c: Call): Acc {
    Acc(if a.count == 0 then c.hostKind else a.kind,
        if a.vendor == "" then c.vendor else a.vendor, a.count + 1, a.paths + {c.path}, a.verbs + {c.verb},
        a.languages + {c.language}, if c.score > a.best then c.score else a.best)
  }

  function AccOf(calls: seq<Call>, host: string, vendors: map<string, string>): Acc {
    if calls == [] then Fresh(host, vendors)
    else
      var a := AccOf(calls[..|calls| - 1], host, vendors);
      if Live(calls[|calls| - 1], host) then Add(a, calls[|calls| - 1]) else a
  }

  /** The hosts that still have a call. */
  function LiveHosts(calls: seq<Call>): set<string> {
    set c | c in calls && c.life.status != Removed :: c.host
  }

  function CountLive(calls: seq<Call>, host: string): nat {
    CountIf((c: Call) => Live(c, host), calls)
  }

  /** What the summary of one host says, without the order of accumulation. */
  lemma {:induction false} AccMeans(calls: seq<Call>, host: string, vendors: map<string, string>)
    ensures var a := AccOf(calls, host, vendors);
            && a.count == CountLive(calls, host)
            && a.paths == (set c | c in calls && Live(c, host) :: c.path)
            && a.verbs == (set c | c in calls && Live(c, host) :: c.verb)
            && a.languages == (set c | c in calls && Live(c, host) :: c.language)
            && (forall c :: c in calls && Live(c, host) ==> c.score <= a.best)
            && (a.best == -1 || exists c :: c in calls && Live(c, host) && c.score == a.best)
  {
    if calls != [] {
      var n := |calls| - 1;
      AccMeans(calls[..n], host, vendors);
      assert calls == calls[..n] + [calls[n]];
      assert forall c :: c in calls <==> c in calls[..n] || c == calls[n];
    }
  }

  /** A host already known keeps its vendor; otherwise the first call that names one gives it. */
  lemma {:induction false} AccVendor(calls: seq<Call>, host: string, vendors: map<string, string>)
    ensures var v := AccOf(calls, host, vendors).vendor;
            if host in vendors && vendors[host] != "" then v == vendors[host]
            else if v == "" then forall i :: 0 <= i < |calls| && Live(calls[i], host) ==> calls[i].vendor == ""
            else exists i :: 0 <= i < |calls| && Live(calls[i], host) && calls[i].vendor == v
                             && forall j :: 0 <= j < i && Live(calls[j], host) ==> calls[j].vendor == ""
  {
    if calls != [] {
      var n := |calls| - 1;
      AccVendor(calls[..n], host, vendors);
      assert forall i :: 0 <= i < n ==> calls[..n][i] == calls[i];
    }
  }

  /** Call `i` is the first of the host. */
  ghost predicate FirstLive(calls: seq<Call>, host: string, i: int) {
    0 <= i < |calls| && Live(calls[i], host) && forall j :: 0 <= j < i ==> !Live(calls[j], host)
  }

  ghost predicate NoneLive(calls: seq<Call>, host: string) {
    forall j :: 0 <= j < |calls| ==> !Live(calls[j], host)
  }

  /** The host kind of a group is that of the first of its calls. */
  lemma {:induction false} AccKind(calls: seq<Call>, host: string, vendors: map<string, string>)
    ensures AccOf(calls, host, vendors).count == 0 <==> NoneLive(calls, host)
    ensures host in LiveHosts(calls) ==>
              exists i :: FirstLive(calls, host, i) && calls[i].hostKind == AccOf(calls, host, vendors).kind
  {
    LiveIff(calls, host);
    if calls != [] {
      var n := |calls| - 1;
      var a, c := AccOf(calls[..n], host, vendors), calls[n];
      assert AccOf(calls, host, vendors) == if Live(c, host) then Add(a, c) else a;
      assert calls[..n] + [c] == calls;
      hide AccOf, LiveHosts, Live;
      AccKind(calls[..n], host, vendors);
      LiveIff(calls[..n], host);
      if i :| FirstLive(calls[..n], host, i) && calls[..n][i].hostKind == a.kind {
        assert FirstLive(calls, host, i) && Live(calls[i], host);
      } else if Live(c, host) {
        assert FirstLive(calls, host, n);
      }
    }
  }

  lemma LiveIff(calls: seq<Call>, host: string)
    ensures host in LiveHosts(calls) <==> !NoneLive(calls, host)
  {
    if j :| 0 <= j < |calls| && Live(calls[j], host) {
      assert calls[j] in calls;
    }
  }

  /** A group with a scored call has the confidence of its best one, and none of its calls has a higher one. */
  lemma AccConfidence(calls: seq<Call>, host: string, vendors: map<string, string>)
    requires host in LiveHosts(calls) && forall c :: c in calls ==> c.score >= 0
    ensures var best := ConfidenceFor(AccOf(calls, host, vendors).best);
            && (forall c :: c in calls && Live(c, host) ==> Level(ConfidenceFor(c.score)) <= Level(best))
            && exists c :: c in calls && Live(c, host) && ConfidenceFor(c.score) == best
  {
    AccMeans(calls, host, vendors);
    var d :| d in calls && d.life.status != Removed && d.host == host;
    assert Live(d, host);
  }

  /** A list writes out a set in increasing order. */
  ghost predicate Lists(xs: seq<string>, s: set<string>) {
    (forall x :: x in xs <==> x in s) && Distinct(Same, xs) && Sorted(LexLess, xs)
  }

  ghost predicate Summarizes(g: HostGroup, a: Acc) {
    && g.kind == a.kind && g.vendor == a.vendor && g.count == a.count && g.pathCount == |a.paths|
    && g.confidence == ConfidenceFor(a.best)
    && Lists(g.verbs, a.verbs) && Lists(g.languages, a.languages)
  }

  ghost predicate Gathered(calls: seq<Call>, vendors: map<string, string>, accs: map<string, Acc>) {
    && accs.Keys == LiveHosts(calls)
    && forall h :: h in accs ==> accs[h] == AccOf(calls, h, vendors)
  }

  lemma {:induction false} NoCallsYet(calls: seq<Call>, host: string, vendors: map<string, string>)
    requires host !in LiveHosts(calls)
    ensures AccOf(calls, host, vendors) == Fresh(host, vendors)
  {
    if calls != [] {
      var n := |calls| - 1;
      assert forall c :: c in calls[..n] ==> c in calls;
      NoCallsYet(calls[..n], host, vendors);
    }
  }

  lemma AccSnoc(calls: seq<Call>, c: Call, host: string, vendors: map<string, string>)
    ensures AccOf(calls + [c], host, vendors)
         == if Live(c, host) then Add(AccOf(calls, host, vendors), c) else AccOf(calls, host, vendors)
  {
    assert (calls + [c])[..|calls|] == calls;
  }

  lemma LiveSnoc(calls: seq<Call>, c: Call)
    ensures LiveHosts(calls + [c]) == LiveHosts(calls) + (if c.life.status == Removed then {} else {c.host})
  {
    var all := calls + [c];
    assert forall d :: d in all <==> d in calls || d == c;
    assert c in all;
  }

  lemma GatherOne(calls: seq<Call>, c: Call, vendors: map<string, string>, accs: map<string, Acc>)
    requires Gathered(calls, vendors, accs)
    ensures var a := if c.host in accs then accs[c.host] else Fresh(c.host, vendors);
            Gathered(calls + [c], vendors, if c.life.status == Removed then accs else accs[c.host := Add(a, c)])
  {
    hide AccOf, Add, LiveHosts, Fresh;
    LiveSnoc(calls, c);
    if c.host !in accs {
      NoCallsYet(calls, c.host, vendors);
    }
    forall h
      ensures AccOf(calls + [c], h, vendors)
           == if Live(c, h) then Add(AccOf(calls, h, vendors), c) else AccOf(calls, h, vendors)
    {
      AccSnoc(calls, c, h, vendors);
    }
  }

  method Gather(calls: seq<Call>, vendors: map<string, string>) returns (accs: map<string, Acc>)
    ensures Gathered(calls, vendors, accs)
  {
    accs := map[];
    for i := 0 to |calls|
      invariant Gathered(calls[..i], vendors, accs)
    {
      hide *;
      var c := calls[i];
      assert calls[..i + 1] == calls[..i] + [c];
      GatherOne(calls[..i], c, vendors, accs);
      if c.life.status == Removed {
        continue;
      }
      var a := if c.host in accs then accs[c.host] else Fresh(c.host, vendors);
      accs := accs[c.host := Add(a, c)];
    }
    assert calls[..|calls|] == calls;
  }

  function HostKey(g: HostGroup): string { g.host }

  predicate HostLess(g: HostGroup, h: HostGroup) {
    LexLess(g.host, h.host)
  }

  /** The host groups of an index: one per live host, in strict order, none left out and none invented. */
  ghost predicate HostsOf(calls: seq<Call>, vendors: map<string, string>, out: seq<HostGroup>) {
    && (forall h :: h in LiveHosts(calls) <==> exists i :: 0 <= i < |out| && out[i].host == h)
    && (forall i :: 0 <= i < |out| ==> Summarizes(out[i], AccOf(calls, out[i].host, vendors)))
    && (forall i, j :: 0 <= i < j < |out| ==> LexLess(out[i].host, out[j].host))
  }

  method Summary(host: string, a: Acc) returns (g: HostGroup)
    ensures g.host == host && Summarizes(g, a)
  {
    var verbs := SortedKeys(a.verbs);
    var languages := SortedKeys(a.languages);
    g := HostGroup(host, a.kind, a.vendor, a.count, |a.paths|, verbs, languages, ConfidenceFor(a.best));
  }

  /** The groups made so far: one for each host that is no longer to do. */
  ghost predicate GroupsUpTo(groups: seq<HostGroup>, accs: map<string, Acc>, todo: set<string>) {
    && Distinct(HostKey, groups)
    && (forall g :: g in groups ==> g.host in accs && g.host !in todo && Summarizes(g, accs[g.host]))
    && (forall h :: h in accs && h !in todo ==> exists g :: g in groups && g.host == h)
  }

  lemma GroupsMore(groups: seq<HostGroup>, accs: map<string, Acc>, todo: set<string>, host: string, g: HostGroup)
    requires GroupsUpTo(groups, accs, todo) && host in todo && host in accs && g.host == host && Summarizes(g, accs[host])
    ensures GroupsUpTo(groups + [g], accs, todo - {host})
  {
    hide Summarizes;
    var all := groups + [g];
    assert g in all && forall x :: x in all <==> x in groups || x == g;
    assert forall i :: 0 <= i < |groups| ==> groups[i] in groups;
  }

  lemma GroupsComplete(calls: seq<Call>, vendors: map<string, string>, accs: map<string, Acc>,
                       groups: seq<HostGroup>, out: seq<HostGroup>)
    requires Gathered(calls, vendors, accs) && GroupsUpTo(groups, accs, {})
    requires forall g :: g in out <==> g in groups
    ensures forall h :: h in LiveHosts(calls) <==> exists i :: 0 <= i < |out| && out[i].host == h
    ensures forall i :: 0 <= i < |out| ==> Summarizes(out[i], AccOf(calls, out[i].host, vendors))
  {
    hide Summarizes, AccOf, LiveHosts;
    forall h ensures h in accs <==> exists i :: 0 <= i < |out| && out[i].host == h {
      if h in accs {
        var g :| g in groups && g.host == h;
        assert g in out;
        var i :| 0 <= i < |out| && out[i] == g;
      }
      if i :| 0 <= i < |out| && out[i].host == h {
        assert out[i] in out;
      }
    }
    forall i | 0 <= i < |out| ensures Summarizes(out[i], AccOf(calls, out[i].host, vendors)) {
      assert out[i] in out;
    }
  }

  method BuildHosts(calls: seq<Call>, vendors: map<string, string>) returns (out: seq<HostGroup>)
    ensures HostsOf(calls, vendors, out)
  {
    var accs := Gather(calls, vendors);
    var groups: seq<HostGroup> := [];
    var todo := accs.Keys;
    assert GroupsUpTo(groups, accs, todo);
    hide Summarizes, Gathered, GroupsUpTo;
    while todo != {}
      invariant todo <= accs.Keys && GroupsUpTo(groups, accs, todo)
    {
      var host :| host in todo;
      var g := Summary(host, accs[host]);
      GroupsMore(groups, accs, todo, host, g);
      groups := groups + [g];
      todo := todo - {host};
    }
    assert Distinct(HostKey, groups) by { GroupsApart(groups, accs, todo); }
    out := Ordered(groups);
    GroupsComplete(calls, vendors, accs, groups, out);
  }

  lemma GroupsApart(groups: seq<HostGroup>, accs: map<string, Acc>, todo: set<string>)
    requires GroupsUpTo(groups, accs, todo)
    ensures Distinct(HostKey, groups)
  {
  }

  /** Sorting by host: the same groups, strictly increasing when no host occurs twice. */
  method Ordered(groups: seq<HostGroup>) returns (out: seq<HostGroup>)
    requires Distinct(HostKey, groups)
    ensures forall g :: g in out <==> g in groups
    ensures forall i, j :: 0 <= i < j < |out| ==> LexLess(out[i].host, out[j].host)
  {
    out := StableSort(HostLess, groups);
    SortMembers(HostLess, groups);
    SortDistinct(HostLess, HostKey, groups);
    LexOrder();
    assert StrictWeak(HostLess);
    SortSorted(HostLess, groups);
    forall i, j | 0 <= i < j < |out| ensures LexLess(out[i].host, out[j].host) {
      LexTotal(out[i].host, out[j].host);
      assert HostKey(out[i]) != HostKey(out[j]);
    }
  }

  function Total(groups: seq<HostGroup>): nat {
    if groups == [] then 0 else Total(groups[..|groups| - 1]) + groups[|groups| - 1].count
  }

  function Sum(hosts: seq<string>, calls: seq<Call>): nat {
    if hosts == [] then 0 else Sum(hosts[..|hosts| - 1], calls) + CountLive(calls, hosts[|hosts| - 1])
  }

  function HostsIn(out: seq<HostGroup>): (r: seq<string>)
    ensures |r| == |out|
  {
    seq(|out|, i requires 0 <= i < |out| => out[i].host)
  }

  /** One more call counts for exactly one of distinct hosts. */
  lemma {:induction false} SumSnoc(hosts: seq<string>, calls: seq<Call>, c: Call)
    requires Distinct(Same, hosts)
    ensures Sum(hosts, calls + [c]) == Sum(hosts, calls) + (if c.life.status != Removed && c.host in hosts then 1 else 0)
  {
    if hosts != [] {
      var n := |hosts| - 1;
      SumSnoc(hosts[..n], calls, c);
      assert (calls + [c])[..|calls|] == calls;
      assert hosts == hosts[..n] + [hosts[n]];
      assert hosts[n] !in hosts[..n] by {
        assert forall i :: 0 <= i < n ==> Same(hosts[i]) != Same(hosts[n]);
      }
    }
  }

  lemma {:induction false} SumNone(hosts: seq<string>)
    ensures Sum(hosts, []) == 0
  {
    if hosts != [] {
      SumNone(hosts[..|hosts| - 1]);
    }
  }

  lemma {:induction false} SumIsLive(hosts: seq<string>, calls: seq<Call>)
    requires Distinct(Same, hosts) && forall c :: c in calls && c.life.status != Removed ==> c.host in hosts
    ensures Sum(hosts, calls) == CountIf((c: Call) => c.life.status != Removed, calls)
  {
    if calls == [] {
      SumNone(hosts);
    } else {
      var n := |calls| - 1;
      assert calls == calls[..n] + [calls[n]];
      assert forall c :: c in calls[..n] ==> c in calls;
      assert calls[n] in calls;
      SumIsLive(hosts, calls[..n]);
      SumSnoc(hosts, calls[..n], calls[n]);
    }
  }

  lemma {:induction false} TotalIsSum(calls: seq<Call>, vendors: map<string, string>, out: seq<HostGroup>)
    requires forall i :: 0 <= i < |out| ==> Summarizes(out[i], AccOf(calls, out[i].host, vendors))
    ensures Total(out) == Sum(HostsIn(out), calls)
  {
    if out != [] {
      var n := |out| - 1;
      TotalIsSum(calls, vendors, out[..n]);
      assert HostsIn(out)[..n] == HostsIn(out[..n]);
      AccMeans(calls, out[n].host, vendors);
    }
  }

  /** The counts of the groups add up to the calls that are not removed: none is lost or counted twice. */
  lemma CountsAddUp(calls: seq<Call>, vendors: map<string, string>, out: seq<HostGroup>)
    requires HostsOf(calls, vendors, out)
    ensures Total(out) == CountIf((c: Call) => c.life.status != Removed, calls)
  {
    TotalIsSum(calls, vendors, out);
    var hosts := HostsIn(out);
    forall i, j | 0 <= i < j < |hosts| ensures hosts[i] != hosts[j] {
      LexTotal(hosts[i], hosts[j]);
      assert LexLess(out[i].host, out[j].host);
    }
    forall c | c in calls && c.life.status != Removed ensures c.host in hosts {
      assert c.host in LiveHosts(calls);
      var i :| 0 <= i < |out| && out[i].host == c.host;
      assert hosts[i] == c.host;
    }
    SumIsLive(hosts, calls);
  }

  // ----- what a group says, in terms of its calls

  predicate OfHost(c: Call, host: string) {
    c.life.status == Active && c.host == host
  }

  /** A group counts its calls, lists each path, method and language of theirs once, and no others. */
  ghost predicate Tells(g: HostGroup, calls: seq<Call>) {
    && g.count == |Where((c: Call) => OfHost(c, g.host), calls, |calls|)|
    && g.pathCount == |set c | c in calls && OfHost(c, g.host) :: c.path|
    && (forall v :: v in g.verbs <==> exists c :: c in calls && OfHost(c, g.host) && c.verb == v)
    && (forall v :: v in g.languages <==> exists c :: c in calls && OfHost(c, g.host) && c.language == v)
    && (forall i, j :: 0 <= i < j < |g.verbs| ==> g.verbs[i] != g.verbs[j])
    && (forall i, j :: 0 <= i < j < |g.languages| ==> g.languages[i] != g.languages[j])
  }

  lemma {:induction false} LiveIs(c: Call, host: string)
    ensures Live(c, host) <==> OfHost(c, host)
  {
  }

  lemma {:induction false} AccTells(calls: seq<Call>, g: HostGroup, a: Acc)
    requires Summarizes(g, a) && a.count == CountLive(calls, g.host)
    requires a.paths == (set c | c in calls && Live(c, g.host) :: c.path)
    requires a.verbs == (set c | c in calls && Live(c, g.host) :: c.verb)
    requires a.languages == (set c | c in calls && Live(c, g.host) :: c.language)
    ensures Tells(g, calls)
  {
    forall c: Call ensures Live(c, g.host) <==> OfHost(c, g.host) { LiveIs(c, g.host); }
    hide Live, OfHost;
    var live, mine := (c: Call) => Live(c, g.host), (c: Call) => OfHost(c, g.host);
    CountIfIsWhere(live, calls, |calls|);
    assert calls[..|calls|] == calls;
    assert Where(live, calls, |calls|) == Where(mine, calls, |calls|);
    assert a.paths == (set c | c in calls && OfHost(c, g.host) :: c.path);
    forall i, j | 0 <= i < j < |g.verbs| ensures g.verbs[i] != g.verbs[j] { assert Same(g.verbs[i]) != Same(g.verbs[j]); }
    forall i, j | 0 <= i < j < |g.languages| ensures g.languages[i] != g.languages[j] {
      assert Same(g.languages[i]) != Same(g.languages[j]);
    }
  }

  /** Every group tells of its calls, and there is one for each host that has a call. */
  lemma {:induction false} GroupsTell(calls: seq<Call>, vendors: map<string, string>, out: seq<HostGroup>)
    requires HostsOf(calls, vendors, out)
    ensures forall i :: 0 <= i < |out| ==> Tells(out[i], calls)
    ensures forall c :: c in calls && c.life.status == Active ==> exists i :: 0 <= i < |out| && out[i].host == c.host
  {
    forall i | 0 <= i < |out| ensures Tells(out[i], calls) {
      AccMeans(calls, out[i].host, vendors);
      AccTells(calls, out[i], AccOf(calls, out[i].host, vendors));
    }
    forall c | c in calls && c.life.status == Active ensures exists i :: 0 <= i < |out| && out[i].host == c.host {
      assert c.host in LiveHosts(calls);
    }
  }
}

/**
 One upstream's check and its history (checkUpstream, internal/monitor/run.go). What the source
 host answers is an input; what the check remembers, analyses and reports is proved.
 */
module CheckUpstream {
  import opened Strs
  import opened Sorting
  import opened StoreState

  datatype Repo = Repo(defaultBranch: string, archived: bool, pushedAt: Option<Time>)

  datatype RepoReply =
    | RepoError(notFound: bool, message: string)
    | RepoAnswer(etag: string, notModified: bool, repo: Option<Repo>)

  datatype CompareReply =
    | CompareError(unresolvable: bool)
    | CompareNone
    | Compared(status: string, head: string, truncated: bool)

  /** Every answer one check may ask for, in the order it asks. */
  datatype Answers = Answers(
    repo: RepoReply, newest: Option<string>, specs: seq<string>, release: string, hasTargets: bool,
    compare: CompareReply, latestTag: Option<string>, foundSpecs: seq<string>, found: seq<Finding>,
    remarks: set<string>)

  /** The call's settings: the linked ref, whether validators are ignored, and the clock. */
  datatype Settings = Settings(ref: string, force: bool, now: Time)

  /** The commits an analysis looked at. */
  datatype Window = Window(base: string, head: string)

  datatype Outcome = Outcome(next: CheckState, failed: bool, skipped: bool, baselined: bool,
                             degraded: set<string>, window: Option<Window>, findings: seq<Finding>)

  predicate LaterThan(a: Option<Time>, b: Option<Time>) {
    a.Some? && (b.None? || a.value > b.value)
  }

  /** Why a check ended where it did. */
  datatype Verdict =
    | RepoFailed | Unchanged | Archived | NotPushed | FirstSight | NoTargets
    | CompareFailed | Rewritten | Reset | Analysed

  predicate Gated(v: Verdict) { v.RepoFailed? || v.Unchanged? || v.Archived? || v.NotPushed? }

  predicate Fails(v: Verdict) { v.RepoFailed? || v.CompareFailed? }

  predicate Skips(v: Verdict) { v.Unchanged? || v.Archived? || v.NotPushed? || v.NoTargets? || v.Reset? }

  predicate Baselines(v: Verdict) { v.FirstSight? || v.Rewritten? }

  predicate Compares(v: Verdict) { v.CompareFailed? || v.Rewritten? || v.Reset? || v.Analysed? }

  function Judge(prev: CheckState, a: Answers, s: Settings): Verdict {
    if a.repo.RepoError? then RepoFailed
    else if a.repo.repo.None? && a.repo.notModified then Unchanged
    else if a.repo.repo.Some? && a.repo.repo.value.archived then Archived
    else if a.repo.repo.Some? && !s.force && prev.pushedAt.Some?
            && !LaterThan(a.repo.repo.value.pushedAt, prev.pushedAt) then NotPushed
    else if prev.lastHead == "" then FirstSight
    else if !a.hasTargets then NoTargets
    else match a.compare
      case CompareError(unresolvable) => if unresolvable then Rewritten else CompareFailed
      case CompareNone => Reset
      case Compared(status, _, _) => if status == "" || status == "ahead" || status == "diverged" then Analysed else Reset
  }

  /** The ref a check resolves: the linked one, else the default branch, else HEAD. */
  function HeadRef(prev: CheckState, a: Answers, s: Settings): string {
    var branch := if a.repo.RepoAnswer? && a.repo.repo.Some? then a.repo.repo.value.defaultBranch else prev.defaultBranch;
    if s.ref != "" then s.ref else if branch != "" then branch else "HEAD"
  }

  function Resolved(a: Answers, ref: string): string {
    match a.newest case Some(sha) => sha case None => ref
  }

  /** Where the remembered head is after a check. */
  function HeadAfter(prev: CheckState, a: Answers, s: Settings): string {
    match Judge(prev, a, s)
    case FirstSight => Resolved(a, HeadRef(prev, a, s))
    case Rewritten => Resolved(a, HeadRef(prev, a, s))
    case Reset => if a.compare.Compared? && a.compare.head != "" then a.compare.head else prev.lastHead
    case Analysed =>
      if a.compare.Compared? && a.compare.head != "" then a.compare.head else HeadRef(prev, a, s)
    case _ => prev.lastHead
  }

  /** The remembered push time: advanced as soon as the repository answer gets past the gate. */
  function PushedAfter(prev: CheckState, a: Answers, s: Settings): Option<Time> {
    if Gated(Judge(prev, a, s)) || a.repo.repo.None?
    then prev.pushedAt else a.repo.repo.value.pushedAt
  }

  function BranchAfter(prev: CheckState, a: Answers): string {
    if a.repo.RepoAnswer? && a.repo.repo.Some? then a.repo.repo.value.defaultBranch else prev.defaultBranch
  }

  function StatusAfter(prev: CheckState, a: Answers, s: Settings): string {
    match Judge(prev, a, s)
    case RepoFailed => if a.repo.RepoError? && a.repo.notFound then "inaccessible" else prev.status
    case Archived => "archived"
    case _ => "active"
  }

  function ReleaseAfter(prev: CheckState, a: Answers, s: Settings): string {
    match Judge(prev, a, s)
    case FirstSight => if a.release != "" then a.release else prev.releaseTag
    case Analysed => if a.latestTag.Some? then a.latestTag.value else prev.releaseTag
    case _ => prev.releaseTag
  }

  /** What is remembered after a check, but for the specification paths. */
  function NextState(prev: CheckState, a: Answers, s: Settings, specPaths: seq<string>): CheckState {
    var v := Judge(prev, a, s);
    CheckState(
      BranchAfter(prev, a),
      HeadAfter(prev, a, s),
      if Fails(v) then prev.lastChecked else Some(s.now),
      PushedAfter(prev, a, s),
      ReleaseAfter(prev, a, s),
      if v.FirstSight? && a.release != "" then a.release else prev.tagName,
      specPaths,
      if a.repo.RepoAnswer? && a.repo.etag != "" then prev.etags["repo" := a.repo.etag] else prev.etags,
      StatusAfter(prev, a, s),
      if a.repo.RepoError? then a.repo.message else "",
      if v.RepoFailed? then prev.failures + 1 else 0,
      prev.skipUntil)
  }

  /** The paths known, and those found by an analysis: each nonempty one once, in order. */
  ghost predicate Union(out: seq<string>, a: seq<string>, b: seq<string>) {
    && Distinct(Same, out) && Sorted(LexLess, out)
    && forall s :: s in out <==> s != "" && (s in a || s in b)
  }

  ghost predicate SpecsAfter(prev: CheckState, a: Answers, s: Settings, specPaths: seq<string>) {
    match Judge(prev, a, s)
    case FirstSight => specPaths == a.specs
    case Analysed =>
      if a.foundSpecs == [] then specPaths == prev.specPaths else Union(specPaths, prev.specPaths, a.foundSpecs)
    case _ => specPaths == prev.specPaths
  }

  /** Everything remembered after a check. */
  ghost predicate Remembered(prev: CheckState, a: Answers, s: Settings, next: CheckState) {
    next == NextState(prev, a, s, next.specPaths) && SpecsAfter(prev, a, s, next.specPaths)
  }

  function Remarks(v: Verdict, a: Answers): set<string> {
    match v
    case Archived => {"upstream_archived"}
    case Rewritten => {"history_rewritten"}
    case Analysed => a.remarks + (if a.compare.Compared? && a.compare.truncated then {"files_truncated"} else {})
    case _ => {}
  }

  /** What one check remembers and reports. */
  ghost predicate Checked(prev: CheckState, a: Answers, s: Settings, out: Outcome) {
    var v := Judge(prev, a, s);
    && Remembered(prev, a, s, out.next)
    && out.failed == Fails(v) && out.skipped == Skips(v) && out.baselined == Baselines(v)
    && out.window == (if v.Analysed? then Some(Window(prev.lastHead, HeadAfter(prev, a, s))) else None)
    && out.findings == (if v.Analysed? then a.found else [])
    && out.degraded == Remarks(v, a)
  }

  method MergeStrings(a: seq<string>, b: seq<string>) returns (out: seq<string>)
    ensures Union(out, a, b)
  {
    SortUniqueMeans(a + b);
    out := SortUniqueLoop(a + b);
  }

  method Check(prev: CheckState, a: Answers, s: Settings) returns (out: Outcome)
    ensures Checked(prev, a, s, out)
  {
    var next := prev;
    if a.repo.RepoError? {
      next := next.(failures := next.failures + 1, lastError := a.repo.message);
      if a.repo.notFound {
        next := next.(status := "inaccessible");
      }
      return Outcome(next, true, false, false, {}, None, []);
    }
    if a.repo.etag != "" {
      next := next.(etags := next.etags["repo" := a.repo.etag]);
    }
    next := next.(failures := 0, lastError := "", status := "active");
    if a.repo.repo.None? && a.repo.notModified {
      next := next.(lastChecked := Some(s.now));
      return Outcome(next, false, true, false, {}, None, []);
    }
    if a.repo.repo.Some? {
      var repo := a.repo.repo.value;
      next := next.(defaultBranch := repo.defaultBranch);
      if repo.archived {
        next := next.(status := "archived", lastChecked := Some(s.now));
        return Outcome(next, false, true, false, {"upstream_archived"}, None, []);
      }
      if !s.force && prev.pushedAt.Some? && !LaterThan(repo.pushedAt, prev.pushedAt) {
        next := next.(lastChecked := Some(s.now));
        return Outcome(next, false, true, false, {}, None, []);
      }
      next := next.(pushedAt := repo.pushedAt);
    }
    assert !Gated(Judge(prev, a, s)) && next == PastGate(prev, a, s);
    out := CheckFurther(prev, next, a, s);
  }

  /** What is remembered once the repository's answer is past the gate. */
  function PastGate(prev: CheckState, a: Answers, s: Settings): CheckState
    requires a.repo.RepoAnswer?
  {
    prev.(etags := if a.repo.etag != "" then prev.etags["repo" := a.repo.etag] else prev.etags,
          failures := 0, lastError := "", status := "active",
          defaultBranch := BranchAfter(prev, a),
          pushedAt := if a.repo.repo.Some? then a.repo.repo.value.pushedAt else prev.pushedAt)
  }

  /** The second part of a check: a baseline, or a comparison. */
  method CheckFurther(prev: CheckState, passed: CheckState, a: Answers, s: Settings) returns (out: Outcome)
    requires a.repo.RepoAnswer? && !Gated(Judge(prev, a, s)) && passed == PastGate(prev, a, s)
    ensures Checked(prev, a, s, out)
  {
    var next := passed;
    var head := s.ref;
    if head == "" { head := next.defaultBranch; }
    if head == "" { head := "HEAD"; }
    if prev.lastHead == "" {
      next := next.(lastHead := Resolved(a, head), lastChecked := Some(s.now), specPaths := a.specs);
      if a.release != "" {
        next := next.(releaseTag := a.release, tagName := a.release);
      }
      return Outcome(next, false, false, true, {}, None, []);
    }
    if !a.hasTargets {
      next := next.(lastChecked := Some(s.now));
      return Outcome(next, false, true, false, {}, None, []);
    }
    out := CompareFrom(prev, next, head, a, s);
  }

  /** The last part of a check, with a baseline to compare from. */
  method CompareFrom(prev: CheckState, passed: CheckState, head: string, a: Answers, s: Settings)
    returns (out: Outcome)
    requires a.repo.RepoAnswer? && prev.lastHead != "" && head == HeadRef(prev, a, s)
    requires Compares(Judge(prev, a, s)) && passed == PastGate(prev, a, s)
    ensures Checked(prev, a, s, out)
  {
    var next := passed;
    if a.compare.CompareError? {
      if a.compare.unresolvable {
        next := next.(lastHead := Resolved(a, head), lastChecked := Some(s.now));
        return Outcome(next, false, false, true, {"history_rewritten"}, None, []);
      }
      return Outcome(next, true, false, false, {}, None, []);
    }
    if a.compare.CompareNone?
       || (a.compare.status != "" && a.compare.status != "ahead" && a.compare.status != "diverged") {
      if a.compare.Compared? && a.compare.head != "" {
        next := next.(lastHead := a.compare.head);
      }
      next := next.(lastChecked := Some(s.now));
      return Outcome(next, false, true, false, {}, None, []);
    }
    out := Analyse(prev, next, head, a, s);
  }

  /** The comparison is worth analysing: the head moves to its end. */
  method Analyse(prev: CheckState, passed: CheckState, head: string, a: Answers, s: Settings) returns (out: Outcome)
    requires a.repo.RepoAnswer? && head == HeadRef(prev, a, s)
    requires Judge(prev, a, s) == Analysed && a.compare.Compared? && passed == PastGate(prev, a, s)
    ensures Checked(prev, a, s, out)
  {
    hide Union;
    var next := passed;
    var degraded := if a.compare.truncated then {"files_truncated"} else {};
    var headSHA := if a.compare.head != "" then a.compare.head else head;
    if a.latestTag.Some? {
      next := next.(releaseTag := a.latestTag.value);
    }
    next := next.(lastHead := headSHA, lastChecked := Some(s.now));
    if a.foundSpecs != [] {
      var merged := MergeStrings(next.specPaths, a.foundSpecs);
      next := next.(specPaths := merged);
    }
    out := Outcome(next, false, false, false, a.remarks + degraded, Some(Window(prev.lastHead, headSHA)), a.found);
  }

  // ----- histories

  /** One check of a history: its answers, its settings, and what was remembered before and after. */
  datatype Visit = Visit(before: CheckState, answers: Answers, settings: Settings, after: CheckState)

  function VerdictOf(v: Visit): Verdict {
    Judge(v.before, v.answers, v.settings)
  }

  /** Sequential checks of one upstream whose state nobody else writes, from the first on. */
  ghost predicate History(h: seq<Visit>) {
    && (forall i :: 0 <= i < |h| ==> Remembered(h[i].before, h[i].answers, h[i].settings, h[i].after))
    && (forall i :: 0 <= i < |h| - 1 ==> h[i + 1].before == h[i].after)
    && (h != [] ==> h[0].before == UNSEEN)
  }

  /** The verdicts that set the remembered head: a baseline, an analysis, or a re-anchoring. */
  predicate Anchors(v: Verdict) {
    v.FirstSight? || v.Analysed? || v.Rewritten? || v.Reset?
  }

  /** A check that errors or skips before comparing leaves the remembered head where it was. */
  lemma OnlyAnchorsMoveTheHead(prev: CheckState, a: Answers, s: Settings)
    requires !Anchors(Judge(prev, a, s))
    ensures HeadAfter(prev, a, s) == prev.lastHead
  {
  }

  /** Until some check anchors, the head is the initial one. */
  lemma {:induction false} HeadSinceAnchor(h: seq<Visit>, i: nat) returns (j: int)
    requires History(h) && i < |h|
    ensures -1 <= j < i
    ensures j >= 0 ==> Anchors(VerdictOf(h[j])) && h[i].before.lastHead == h[j].after.lastHead
    ensures j < 0 ==> h[i].before.lastHead == ""
    ensures forall k :: j < k < i ==> !Anchors(VerdictOf(h[k]))
    decreases i
  {
    if i == 0 {
      j := -1;
    } else {
      assert h[i - 1 + 1].before == h[i - 1].after;
      if Anchors(VerdictOf(h[i - 1])) {
        j := i - 1;
      } else {
        OnlyAnchorsMoveTheHead(h[i - 1].before, h[i - 1].answers, h[i - 1].settings);
        j := HeadSinceAnchor(h, i - 1);
      }
    }
  }

  /**
   No gap and no overlap: an analysed window starts at the head that the last anchoring check
   left, with only failed and skipped checks in between, and ends at the new remembered head.
   */
  lemma WindowsTile(h: seq<Visit>, i: nat) returns (j: nat)
    requires History(h) && i < |h| && VerdictOf(h[i]) == Analysed
    ensures j < i && Anchors(VerdictOf(h[j]))
    ensures h[i].before.lastHead == h[j].after.lastHead
    ensures forall k :: j < k < i ==> !Anchors(VerdictOf(h[k])) && h[k].after.lastHead == h[i].before.lastHead
  {
    var a := HeadSinceAnchor(h, i);
    assert a >= 0;
    j := a;
    HeadSteady(h, j, i);
  }

  lemma {:induction false} HeadSteady(h: seq<Visit>, j: nat, i: nat)
    requires History(h) && j < i < |h| && forall k :: j < k < i ==> !Anchors(VerdictOf(h[k]))
    ensures forall k :: j <= k < i ==> h[k].after.lastHead == h[i].before.lastHead
    decreases i
  {
    assert h[i - 1 + 1].before == h[i - 1].after;
    if j < i - 1 {
      OnlyAnchorsMoveTheHead(h[i - 1].before, h[i - 1].answers, h[i - 1].settings);
      HeadSteady(h, j, i - 1);
    }
  }

  /** Nothing is analysed, so nothing is reported, before a baseline has been taken. */
  lemma BaselineComesFirst(h: seq<Visit>, i: nat) returns (j: nat)
    requires History(h) && i < |h| && VerdictOf(h[i]) == Analysed
    ensures j < i && VerdictOf(h[j]) == FirstSight
    decreases i
  {
    j := WindowsTile(h, i);
    if VerdictOf(h[j]) != FirstSight {
      j := FirstAnchor(h, j);
    }
  }

  lemma {:induction false} FirstAnchor(h: seq<Visit>, i: nat) returns (j: nat)
    requires History(h) && i < |h| && Anchors(VerdictOf(h[i]))
    ensures j <= i && VerdictOf(h[j]) == FirstSight
    decreases i
  {
    if VerdictOf(h[i]) == FirstSight {
      j := i;
    } else {
      var a := HeadSinceAnchor(h, i);
      assert a >= 0;
      j := FirstAnchor(h, a);
    }
  }

  // ----- after a comparison that failed

  /** An answer leads from a baseline to a comparison, when this push time is remembered. */
  predicate Reopens(remembered: Option<Time>, a: Answers, s: Settings) {
    && a.repo.RepoAnswer? && a.hasTargets
    && if a.repo.repo.Some?
       then !a.repo.repo.value.archived
            && (s.force || remembered.None? || LaterThan(a.repo.repo.value.pushedAt, remembered))
       else !a.repo.notModified
  }

  /**
   A comparison that failed is not simply retried: the push time and the validator it saw are
   already remembered. The next check compares from the same head again if and only if it has
   targets and the answer names a live repository that was pushed since the failed check, or the
   check is forced, or no push time is known, or the answer names no repository and is no 304.
   */
  lemma FailedWindowReopensIff(prev: CheckState, a: Answers, s: Settings, next: CheckState, a': Answers, s': Settings)
    requires Judge(prev, a, s) == CompareFailed && Remembered(prev, a, s, next)
    ensures next.lastHead == prev.lastHead
    ensures next.pushedAt == (if a.repo.repo.Some? then a.repo.repo.value.pushedAt else prev.pushedAt)
    ensures a.repo.etag != "" ==> "repo" in next.etags && next.etags["repo"] == a.repo.etag
    ensures Compares(Judge(next, a', s')) <==> Reopens(next.pushedAt, a', s')
  {
  }

  /** With a baseline, the gate and the targets alone decide whether a check compares. */
  lemma ComparesIff(prev: CheckState, a: Answers, s: Settings)
    requires prev.lastHead != ""
    ensures Compares(Judge(prev, a, s)) <==> Reopens(prev.pushedAt, a, s)
    ensures !Compares(Judge(prev, a, s)) ==> HeadAfter(prev, a, s) == prev.lastHead
  {
  }

  /** Until a check compares again, the failed window's base stays the remembered head. */
  lemma {:induction false} BaseWaits(h: seq<Visit>, i: nat, j: nat)
    requires History(h) && i < j < |h| && VerdictOf(h[i]) == CompareFailed
    requires forall k :: i < k < j ==> !Compares(VerdictOf(h[k]))
    ensures h[j].before.lastHead == h[i].before.lastHead && h[i].before.lastHead != ""
    decreases j
  {
    assert h[j - 1 + 1].before == h[j - 1].after;
    if i < j - 1 {
      BaseWaits(h, i, j - 1);
      ComparesIff(h[j - 1].before, h[j - 1].answers, h[j - 1].settings);
    }
  }

  lemma {:induction false} FirstComparison(h: seq<Visit>, i: nat, k: nat) returns (j: nat)
    requires i < k < |h| && Compares(VerdictOf(h[k]))
    ensures i < j <= k && Compares(VerdictOf(h[j]))
    ensures forall m :: i < m < j ==> !Compares(VerdictOf(h[m]))
    decreases k
  {
    j := k;
    if m :| i < m < k && Compares(VerdictOf(h[m])) {
      j := FirstComparison(h, i, m);
    }
  }

  /** In any history, a failed window is compared again if and only if some later check reopens it. */
  lemma ComparedAgainIff(h: seq<Visit>, i: nat)
    requires History(h) && i < |h| && VerdictOf(h[i]) == CompareFailed
    ensures (exists k :: i < k < |h| && Compares(VerdictOf(h[k])))
       <==> (exists k :: i < k < |h| && Reopens(h[k].before.pushedAt, h[k].answers, h[k].settings))
  {
    hide History, Judge, Compares, Reopens;
    if k :| i < k < |h| && Compares(VerdictOf(h[k])) {
      var j := FirstComparison(h, i, k);
      BaseWaits(h, i, j);
      ComparesIff(h[j].before, h[j].answers, h[j].settings);
    } else if k :| i < k < |h| && Reopens(h[k].before.pushedAt, h[k].answers, h[k].settings) {
      BaseWaits(h, i, k);
      ComparesIff(h[k].before, h[k].answers, h[k].settings);
    }
  }

  /** Nothing new is heard of the repository: an error, a 304, an archived repository, or no later push. */
  predicate Quiet(remembered: Option<Time>, v: Visit) {
    || v.answers.repo.RepoError?
    || (v.answers.repo.repo.None? && v.answers.repo.notModified)
    || (v.answers.repo.repo.Some? && v.answers.repo.repo.value.archived)
    || (v.answers.repo.repo.Some? && !v.settings.force && remembered.Some?
        && !LaterThan(v.answers.repo.repo.value.pushedAt, remembered))
  }

  /**
   As long as the repository stays quiet, the failed window is never analysed: every check ends
   before comparing, and the head and the push time stay where the failure left them.
   */
  lemma {:induction false} FailedWindowStaysShut(h: seq<Visit>, i: nat, j: nat)
    requires History(h) && i < j < |h| && VerdictOf(h[i]) == CompareFailed
    requires forall k :: i < k <= j ==> Quiet(h[i].after.pushedAt, h[k])
    ensures Gated(VerdictOf(h[j]))
    ensures h[j].after.lastHead == h[i].before.lastHead && h[j].after.pushedAt == h[i].after.pushedAt
    decreases j
  {
    assert h[j - 1 + 1].before == h[j - 1].after;
    if i < j - 1 {
      FailedWindowStaysShut(h, i, j - 1);
    }
  }

  // ----- one such history

  function Hears(repo: RepoReply, compare: CompareReply): Answers {
    Answers(repo, Some("base"), [], "", true, compare, None, [], [], {})
  }

  const PLAIN := Settings("", false, 0)
  const PUSHED_FIRST := Hears(RepoAnswer("v1", false, Some(Repo("main", false, Some(1)))), CompareNone)
  const PUSHED_AGAIN := Hears(RepoAnswer("v2", false, Some(Repo("main", false, Some(2)))), CompareError(false))
  const UNCHANGED := Hears(RepoAnswer("v2", true, None), CompareError(false))

  /** A check whose paths stay, and what it remembers. */
  function Then(prev: CheckState, a: Answers): Visit {
    Visit(prev, a, PLAIN, NextState(prev, a, PLAIN, prev.specPaths))
  }

  /** A baseline, a push whose comparison fails, and `n` checks that answer 304. */
  function Stuck(n: nat): (h: seq<Visit>)
    ensures |h| == n + 2
  {
    if n == 0 then
      var first := Then(UNSEEN, PUSHED_FIRST);
      [first, Then(first.after, PUSHED_AGAIN)]
    else
      Stuck(n - 1) + [Then(Stuck(n - 1)[n].after, UNCHANGED)]
  }

  /** The pushed commits are never analysed, however often the repository is checked. */
  lemma {:induction false} StuckForever(n: nat)
    ensures History(Stuck(n)) && VerdictOf(Stuck(n)[1]) == CompareFailed
    ensures forall k :: 2 <= k < n + 2 ==> VerdictOf(Stuck(n)[k]) == Unchanged
    ensures Stuck(n)[n + 1].after.lastHead == "base"
  {
    if n == 0 {
      var first := Then(UNSEEN, PUSHED_FIRST);
      var second := Then(first.after, PUSHED_AGAIN);
      assert Judge(UNSEEN, PUSHED_FIRST, PLAIN) == FirstSight && Judge(first.after, PUSHED_AGAIN, PLAIN) == CompareFailed;
      assert Stuck(0) == [first, second];
    } else {
      StuckForever(n - 1);
      hide NextState;
      ThenUnchanged(Stuck(n - 1), Stuck(n));
    }
  }

  lemma ThenUnchanged(h: seq<Visit>, h': seq<Visit>)
    requires |h| >= 2 && History(h) && h' == h + [Then(h[|h| - 1].after, UNCHANGED)]
    ensures History(h') && VerdictOf(h'[|h|]) == Unchanged
    ensures h'[|h|].after.lastHead == h[|h| - 1].after.lastHead
  {
    var last := h'[|h|];
    assert Remembered(last.before, last.answers, last.settings, last.after);
    hide Remembered, NextState;
  }
}

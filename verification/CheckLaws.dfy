/**
 What one check remembers and reports (checkUpstream, internal/monitor/run.go), said of the
 answers it got: which of them lead where, and which head each of them leaves behind.
 */
module CheckLaws {
  import opened Strs
  import opened Sorting
  import opened StoreState
  import opened CheckUpstream

  /** The answer gets past the gate: a live repository with a later push, or an answer without one. */
  predicate Passes(prev: CheckState, a: Answers, s: Settings) {
    match a.repo
    case RepoError(_, _) => false
    case RepoAnswer(_, notModified, None) => !notModified
    case RepoAnswer(_, _, Some(repo)) =>
      !repo.archived && (s.force || match (prev.pushedAt, repo.pushedAt)
                                    case (None, _) => true
                                    case (Some(seen), None) => false
                                    case (Some(seen), Some(pushed)) => seen < pushed)
  }

  /** There is a baseline, and something to compare for. */
  predicate GoesOn(prev: CheckState, a: Answers, s: Settings) {
    Passes(prev, a, s) && prev.lastHead != "" && a.hasTargets
  }

  /** The comparison found commits that came after the base. */
  predicate Ahead(c: CompareReply) {
    match c
    case CompareError(_) => false
    case CompareNone => false
    case Compared(status, _, _) => status in ["", "ahead", "diverged"]
  }

  /** Which answers lead to which verdict. */
  lemma VerdictsMean(prev: CheckState, a: Answers, s: Settings)
    ensures Judge(prev, a, s) == RepoFailed <==> a.repo.RepoError?
    ensures Gated(Judge(prev, a, s)) <==> !Passes(prev, a, s)
    ensures Judge(prev, a, s) == Unchanged <==> a.repo.RepoAnswer? && a.repo.repo == None && a.repo.notModified
    ensures Judge(prev, a, s) == Archived
       <==> a.repo.RepoAnswer? && a.repo.repo.Some? && a.repo.repo.value.archived
    ensures Judge(prev, a, s) == FirstSight <==> Passes(prev, a, s) && prev.lastHead == ""
    ensures Judge(prev, a, s) == NoTargets <==> Passes(prev, a, s) && prev.lastHead != "" && !a.hasTargets
    ensures Judge(prev, a, s) == CompareFailed <==> GoesOn(prev, a, s) && a.compare == CompareError(false)
    ensures Judge(prev, a, s) == Rewritten <==> GoesOn(prev, a, s) && a.compare == CompareError(true)
    ensures Judge(prev, a, s) == Analysed <==> GoesOn(prev, a, s) && Ahead(a.compare)
    ensures Judge(prev, a, s) == Reset
       <==> GoesOn(prev, a, s) && !Ahead(a.compare) && !a.compare.CompareError?
  {
  }

  /** The branch known after a check: the answered one, or the one known before. */
  predicate KnownBranch(prev: CheckState, a: Answers, branch: string) {
    match a.repo
    case RepoAnswer(_, _, Some(repo)) => branch == repo.defaultBranch
    case _ => branch == prev.defaultBranch
  }

  /** `ref` is the linked ref; without one the known branch; without either, HEAD. */
  predicate NamesRef(prev: CheckState, a: Answers, s: Settings, ref: string) {
    || (s.ref != "" && ref == s.ref)
    || (s.ref == "" && ref != "" && KnownBranch(prev, a, ref))
    || (s.ref == "" && KnownBranch(prev, a, "") && ref == "HEAD")
  }

  /** `head` is the newest commit, or the ref itself where it could not be resolved. */
  predicate Newest(prev: CheckState, a: Answers, s: Settings, head: string) {
    match a.newest
    case Some(sha) => head == sha
    case None => NamesRef(prev, a, s, head)
  }

  /** Nothing is known of the commits, and nothing is reported. */
  predicate Silent(out: Outcome) {
    out.window == None && out.findings == []
  }

  /** What every answer of the repository leaves behind, past the gate. */
  predicate Heard(prev: CheckState, a: Answers, next: CheckState) {
    && a.repo.RepoAnswer?
    && KnownBranch(prev, a, next.defaultBranch)
    && (a.repo.repo.Some? ==> next.pushedAt == a.repo.repo.value.pushedAt)
    && (a.repo.repo.None? ==> next.pushedAt == prev.pushedAt)
    && (a.repo.etag != "" ==> next.etags == prev.etags["repo" := a.repo.etag])
    && (a.repo.etag == "" ==> next.etags == prev.etags)
    && next.status == "active" && next.failures == 0 && next.lastError == "" && next.skipUntil == prev.skipUntil
  }

  /** An analysis moves the head to the end of the comparison, and covers what lies between. */
  lemma AnalysisMovesHead(prev: CheckState, a: Answers, s: Settings, out: Outcome)
    requires Checked(prev, a, s, out) && GoesOn(prev, a, s) && Ahead(a.compare)
    ensures a.compare.head != "" ==> out.next.lastHead == a.compare.head
    ensures a.compare.head == "" ==> NamesRef(prev, a, s, out.next.lastHead)
    ensures out.window == Some(Window(prev.lastHead, out.next.lastHead)) && out.findings == a.found
    ensures !out.failed && !out.skipped && !out.baselined
    ensures out.next.lastChecked == Some(s.now) && Heard(prev, a, out.next)
    ensures out.degraded == a.remarks + (if a.compare.truncated then {"files_truncated"} else {})
    ensures out.next.releaseTag == (match a.latestTag case Some(tag) => tag case None => prev.releaseTag)
    ensures out.next.tagName == prev.tagName
    ensures forall p :: p in out.next.specPaths && p != "" <==> p != "" && (p in prev.specPaths || p in a.foundSpecs)
  {
    VerdictsMean(prev, a, s);
  }

  /** First sight takes the newest commit as the baseline and reports nothing. */
  lemma FirstSightIsBaseline(prev: CheckState, a: Answers, s: Settings, out: Outcome)
    requires Checked(prev, a, s, out) && Passes(prev, a, s) && prev.lastHead == ""
    ensures Newest(prev, a, s, out.next.lastHead)
    ensures Silent(out) && out.baselined && !out.failed && !out.skipped && out.degraded == {}
    ensures out.next.lastChecked == Some(s.now) && Heard(prev, a, out.next) && out.next.specPaths == a.specs
    ensures a.release != "" ==> out.next.releaseTag == a.release && out.next.tagName == a.release
    ensures a.release == "" ==> out.next.releaseTag == prev.releaseTag && out.next.tagName == prev.tagName
  {
    VerdictsMean(prev, a, s);
  }

  predicate KeepsNotes(prev: CheckState, next: CheckState) {
    next.specPaths == prev.specPaths && next.releaseTag == prev.releaseTag && next.tagName == prev.tagName
  }

  /** Where the base no longer resolves, the newest commit is the new baseline. */
  lemma RewrittenIsBaseline(prev: CheckState, a: Answers, s: Settings, out: Outcome)
    requires Checked(prev, a, s, out) && GoesOn(prev, a, s) && a.compare == CompareError(true)
    ensures Newest(prev, a, s, out.next.lastHead)
    ensures Silent(out) && out.baselined && !out.failed && !out.skipped && out.degraded == {"history_rewritten"}
    ensures out.next.lastChecked == Some(s.now) && Heard(prev, a, out.next) && KeepsNotes(prev, out.next)
  {
    VerdictsMean(prev, a, s);
  }

  /** Any other error fails the check: the head and the time of the check stay, the push time does not. */
  lemma FailureKeepsHead(prev: CheckState, a: Answers, s: Settings, out: Outcome)
    requires Checked(prev, a, s, out) && GoesOn(prev, a, s) && a.compare == CompareError(false)
    ensures out.next.lastHead == prev.lastHead && out.next.lastChecked == prev.lastChecked
    ensures Silent(out) && out.failed && !out.skipped && !out.baselined && out.degraded == {}
    ensures Heard(prev, a, out.next) && KeepsNotes(prev, out.next)
  {
    VerdictsMean(prev, a, s);
  }

  /** Nothing ahead: the head is set back to where the comparison ended, and nothing is reported. */
  lemma ResetFollowsHead(prev: CheckState, a: Answers, s: Settings, out: Outcome)
    requires Checked(prev, a, s, out) && GoesOn(prev, a, s) && !Ahead(a.compare) && !a.compare.CompareError?
    ensures a.compare.Compared? && a.compare.head != "" ==> out.next.lastHead == a.compare.head
    ensures a.compare.CompareNone? || a.compare.head == "" ==> out.next.lastHead == prev.lastHead
    ensures Silent(out) && out.skipped && !out.failed && !out.baselined && out.degraded == {}
    ensures out.next.lastChecked == Some(s.now) && Heard(prev, a, out.next) && KeepsNotes(prev, out.next)
  {
    VerdictsMean(prev, a, s);
  }

  /** Nothing depends on the upstream any more: only the push time moves on. */
  lemma NoTargetsKeepsHead(prev: CheckState, a: Answers, s: Settings, out: Outcome)
    requires Checked(prev, a, s, out) && Passes(prev, a, s) && prev.lastHead != "" && !a.hasTargets
    ensures out.next.lastHead == prev.lastHead && out.next.lastChecked == Some(s.now)
    ensures Silent(out) && out.skipped && !out.failed && !out.baselined && out.degraded == {}
    ensures Heard(prev, a, out.next) && KeepsNotes(prev, out.next)
  {
    VerdictsMean(prev, a, s);
  }

  /** Before the gate nothing is compared: the head and the push time stay as they were. */
  lemma GateKeepsHead(prev: CheckState, a: Answers, s: Settings, out: Outcome)
    requires Checked(prev, a, s, out) && !Passes(prev, a, s)
    ensures out.next.lastHead == prev.lastHead && out.next.pushedAt == prev.pushedAt
    ensures Silent(out) && !out.baselined && KeepsNotes(prev, out.next) && out.next.skipUntil == prev.skipUntil
    ensures out.failed == a.repo.RepoError? && out.skipped == !out.failed
    ensures out.failed ==>
              && out.next == prev.(failures := prev.failures + 1, lastError := a.repo.message,
                                   status := if a.repo.notFound then "inaccessible" else prev.status)
    ensures out.skipped ==>
              && out.next.lastChecked == Some(s.now) && out.next.failures == 0 && out.next.lastError == ""
              && (a.repo.etag != "" ==> out.next.etags == prev.etags["repo" := a.repo.etag])
              && (a.repo.etag == "" ==> out.next.etags == prev.etags)
              && KnownBranch(prev, a, out.next.defaultBranch)
    ensures a.repo.RepoAnswer? && a.repo.repo.Some? && a.repo.repo.value.archived
            ==> out.next.status == "archived" && out.degraded == {"upstream_archived"}
    ensures a.repo.RepoAnswer? && (a.repo.repo.Some? ==> !a.repo.repo.value.archived)
            ==> out.next.status == "active" && out.degraded == {}
  {
    VerdictsMean(prev, a, s);
  }

  /** The check moves the head. */
  predicate Sets(v: Visit) {
    (Passes(v.before, v.answers, v.settings) && v.before.lastHead == "")
    || (GoesOn(v.before, v.answers, v.settings) && v.answers.compare != CompareError(false))
  }

  predicate Analyses(v: Visit) {
    GoesOn(v.before, v.answers, v.settings) && Ahead(v.answers.compare)
  }

  /**
   Consecutive windows share an end: after an analysis whose comparison ended at a commit, the next
   window to be analysed starts at that commit, whatever failed and skipped checks lie between.
   */
  lemma WindowsChain(h: seq<Visit>, i: nat, k: nat, out: Outcome)
    requires History(h) && i < k < |h| && Analyses(h[i]) && Analyses(h[k])
    requires forall j :: i < j < k ==> !Sets(h[j])
    requires h[i].answers.compare.head != "" && Checked(h[k].before, h[k].answers, h[k].settings, out)
    ensures out.window == Some(Window(h[i].answers.compare.head, out.next.lastHead))
    ensures h[k].answers.compare.head != "" ==> out.next.lastHead == h[k].answers.compare.head
  {
    forall j | i <= j < k ensures Anchors(VerdictOf(h[j])) <==> Sets(h[j]) {
      VerdictsMean(h[j].before, h[j].answers, h[j].settings);
    }
    HeadSteady(h, i, k);
    assert Remembered(h[i].before, h[i].answers, h[i].settings, h[i].after);
    VerdictsMean(h[i].before, h[i].answers, h[i].settings);
    AnalysisMovesHead(h[k].before, h[k].answers, h[k].settings, out);
  }
}

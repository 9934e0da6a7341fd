/** The dispatch sweep (`process_issues`): the home repository is answered
    unconditionally, then each watched repository through the relevance
    filter. The issue tracker is an immutable value and a sweep maps one
    tracker state to the next. */
module Coordinator {
  import opened Text
  import opened Classifier
  import opened Issues

  /** The repositories the coordinator names (`jayo2005/paint-woocommerce-operations`
      and the three watched ones) and every other repository of the
      tracker, `Elsewhere`, which no sweep reads or writes. */
  datatype Repo =
    | PaintWoocommerceOperations
    | PaintOdooOperations
    | PaintProjectOrchestration
    | PaintWordpressOperations
    | Elsewhere(fullName: string)

  /** The coordinator's own repository, scanned unconditionally. */
  const HomeRepo: Repo := PaintWoocommerceOperations

  /** The repositories scanned for e-commerce issues, in scan order. */
  const WatchedRepos: seq<Repo> := [
    PaintOdooOperations,
    PaintProjectOrchestration,
    PaintWordpressOperations
  ]

  /** Every issue, open or closed, of every repository the tracker knows. */
  type Tracker = map<Repo, seq<Issue>>

  /** Where the scan of one repository raises. Indices run over all the
      repository's issues, closed ones included. `FailsAt(0)` stands for
      opening the repository or listing its issues failing; `FailsAt(i)` for
      the call for issue `i` (or the fetch of the page holding it) failing
      before a reply is posted to it. A fault past the last issue stands for
      the listing raising after its last item: every issue is visited and
      the scan still fails. */
  datatype Fault = NoFault | FailsAt(index: nat)

  /** The tracker's failures during one sweep: repository name to the index
      at which its scan raises. */
  type Faults = map<Repo, nat>

  /** The fault a repository's scan meets. A repository the tracker does not
      know raises at once, like `get_repo` for a missing repository. */
  function FaultOf(t: Tracker, faults: Faults, repo: Repo): Fault {
    if repo !in t then FailsAt(0)
    else if repo in faults then FailsAt(faults[repo])
    else NoFault
  }

  /** The scan gets as far as issue `i`. */
  predicate Reaches(fault: Fault, i: nat) {
    fault.NoFault? || i < fault.index
  }

  function Advance(fault: Fault): Fault {
    match fault
    case NoFault => NoFault
    case FailsAt(k) => if k == 0 then FailsAt(0) else FailsAt(k - 1)
  }

  /** The coordinator answers an issue: it is listed (open), passes the
      relevance filter when its repository is watched, and carries no
      marked comment yet. */
  predicate Qualifies(issue: Issue, watched: bool) {
    issue.open && (!watched || Relevant(issue.title, issue.body)) && !Responded(issue.comments)
  }

  /** One iteration of the issue loop. */
  function Visit(issue: Issue, watched: bool): Issue {
    if Qualifies(issue, watched) then issue.(comments := issue.comments + [Reply(issue)])
    else issue
  }

  /** The issues of one repository after its scan, and whether it raised. */
  datatype Scan = Scan(issues: seq<Issue>, failed: bool)

  /** The loop over one repository's issues, in listing order, stopping at
      the fault if there is one. Issues before the fault are visited, the
      rest are left as they were. */
  function ScanRepo(issues: seq<Issue>, watched: bool, fault: Fault): (s: Scan)
    ensures |s.issues| == |issues|
    ensures s.failed <==> fault.FailsAt?
    ensures forall i :: 0 <= i < |issues| ==>
      s.issues[i] == if Reaches(fault, i) then Visit(issues[i], watched) else issues[i]
    decreases |issues|
  {
    if fault == FailsAt(0) then Scan(issues, true)
    else if issues == [] then Scan([], fault.FailsAt?)
    else
      var rest := ScanRepo(issues[1..], watched, Advance(fault));
      Scan([Visit(issues[0], watched)] + rest.issues, rest.failed)
  }

  function IssuesOf(t: Tracker, repo: Repo): seq<Issue> {
    if repo in t then t[repo] else []
  }

  /** Writes a repository's issues back; an unknown repository stays unknown. */
  function Store(t: Tracker, repo: Repo, issues: seq<Issue>): Tracker {
    if repo in t then t[repo := issues] else t
  }

  /** The loop over the watched repositories. Each scan runs inside its own
      handler, so a failure is recorded and the loop moves on. */
  function ScanWatched(t: Tracker, repos: seq<Repo>, faults: Faults): (Tracker, seq<bool>)
    decreases |repos|
  {
    if repos == [] then (t, [])
    else
      var s := ScanRepo(IssuesOf(t, repos[0]), true, FaultOf(t, faults, repos[0]));
      var (after, failed) := ScanWatched(Store(t, repos[0], s.issues), repos[1..], faults);
      (after, [s.failed] + failed)
  }

  /** How a sweep ended: no token, the home scan raised into the outer
      handler, or every repository was tried. */
  datatype Status = MissingToken | Aborted | Completed

  /** The tracker after a sweep, how the sweep ended, and for each watched
      repository whether its scan raised. */
  datatype Run = Run(tracker: Tracker, status: Status, watchedFailed: seq<bool>)

  /** `process_issues`. The token is the empty string when the variable is unset or empty; the
      secondary token used for watched repositories is not modelled apart
      from the faults it may cause. */
  function Sweep(t: Tracker, token: string, faults: Faults): Run {
    if token == "" then Run(t, MissingToken, [])
    else
      var home := ScanRepo(IssuesOf(t, HomeRepo), false, FaultOf(t, faults, HomeRepo));
      var t1 := Store(t, HomeRepo, home.issues);
      if home.failed then Run(t1, Aborted, [])
      else
        var (t2, failed) := ScanWatched(t1, WatchedRepos, faults);
        Run(t2, Completed, failed)
  }

  /** Reference for one repository: its issues after a sweep that got past
      the home repository, computed from that repository alone. */
  function SweptIssues(issues: seq<Issue>, repo: Repo, fault: Fault): seq<Issue> {
    if repo == HomeRepo then ScanRepo(issues, false, fault).issues
    else if repo in WatchedRepos then ScanRepo(issues, true, fault).issues
    else issues
  }

  /** The issue is one a sweep would answer if it reached it. */
  predicate Pending(repo: Repo, issue: Issue) {
    || (repo == HomeRepo && Qualifies(issue, false))
    || (repo in WatchedRepos && Qualifies(issue, true))
  }

  /** No issue anywhere is waiting for an answer. */
  predicate Settled(t: Tracker) {
    forall repo, i :: repo in t && 0 <= i < |t[repo]| ==> !Pending(repo, t[repo][i])
  }

  /** The issue is unchanged, or exactly the reply for it was appended. */
  predicate KeptOrAnswered(before: Issue, after: Issue) {
    after == before || after == before.(comments := before.comments + [Reply(before)])
  }

  /** The watched-repository loop threads the tracker through, but each
      repository ends up depending only on its own issues and its own
      fault, and each failure is reported at its own position. */
  lemma ScanWatchedIsolates(t: Tracker, repos: seq<Repo>, faults: Faults)
    requires forall j, k :: 0 <= j < k < |repos| ==> repos[j] != repos[k]
    ensures var (after, failed) := ScanWatched(t, repos, faults);
      && after.Keys == t.Keys
      && (forall r :: r in t ==>
            after[r] == (if r in repos then ScanRepo(t[r], true, FaultOf(t, faults, r)).issues else t[r]))
      && |failed| == |repos|
      && (forall j :: 0 <= j < |repos| ==> (failed[j] <==> FaultOf(t, faults, repos[j]).FailsAt?))
  {
    ScanWatchedTracker(t, repos, faults);
    ScanWatchedReports(t, repos, faults);
  }

  /** The tracker half of `ScanWatchedIsolates`. */
  lemma {:induction false} ScanWatchedTracker(t: Tracker, repos: seq<Repo>, faults: Faults)
    requires forall j, k :: 0 <= j < k < |repos| ==> repos[j] != repos[k]
    ensures var after := ScanWatched(t, repos, faults).0;
      && after.Keys == t.Keys
      && (forall r :: r in t ==>
            after[r] == (if r in repos then ScanRepo(t[r], true, FaultOf(t, faults, r)).issues else t[r]))
    decreases |repos|
  {
    if repos != [] {
      var r0 := repos[0];
      var s := ScanRepo(IssuesOf(t, r0), true, FaultOf(t, faults, r0));
      var t1 := Store(t, r0, s.issues);
      assert forall r :: FaultOf(t1, faults, r) == FaultOf(t, faults, r);
      ScanWatchedTracker(t1, repos[1..], faults);
      var after := ScanWatched(t1, repos[1..], faults).0;
      assert ScanWatched(t, repos, faults).0 == after;
      assert r0 !in repos[1..];
      forall r | r in t
        ensures after[r] == if r in repos then ScanRepo(t[r], true, FaultOf(t, faults, r)).issues else t[r]
      {
        if r != r0 {
          assert r in repos <==> r in repos[1..];
        }
      }
    }
  }

  /** The failure-report half of `ScanWatchedIsolates`. */
  lemma {:induction false} ScanWatchedReports(t: Tracker, repos: seq<Repo>, faults: Faults)
    ensures var failed := ScanWatched(t, repos, faults).1;
      && |failed| == |repos|
      && (forall j :: 0 <= j < |repos| ==> (failed[j] <==> FaultOf(t, faults, repos[j]).FailsAt?))
    decreases |repos|
  {
    if repos != [] {
      var r0 := repos[0];
      var s := ScanRepo(IssuesOf(t, r0), true, FaultOf(t, faults, r0));
      var t1 := Store(t, r0, s.issues);
      assert forall r :: FaultOf(t1, faults, r) == FaultOf(t, faults, r);
      ScanWatchedReports(t1, repos[1..], faults);
      var failed := ScanWatched(t1, repos[1..], faults).1;
      assert ScanWatched(t, repos, faults).1 == [s.failed] + failed;
      forall j | 0 <= j < |repos|
        ensures ([s.failed] + failed)[j] <==> FaultOf(t, faults, repos[j]).FailsAt?
      {
        if j > 0 {
          assert repos[j] == repos[1..][j - 1];
        }
      }
    }
  }

  /** With a token and a home scan that does not raise, the sweep completes;
      every repository ends up as its own scan leaves it, whatever happens to
      the others, and each watched repository's failure is reported. */
  lemma SweepCompleted(t: Tracker, token: string, faults: Faults)
    requires token != "" && FaultOf(t, faults, HomeRepo) == NoFault
    ensures var r := Sweep(t, token, faults);
      && r.status == Completed
      && r.tracker.Keys == t.Keys
      && (forall repo :: repo in t ==>
            r.tracker[repo] == SweptIssues(t[repo], repo, FaultOf(t, faults, repo)))
      && |r.watchedFailed| == |WatchedRepos|
      && (forall j :: 0 <= j < |WatchedRepos| ==>
            (r.watchedFailed[j] <==> FaultOf(t, faults, WatchedRepos[j]).FailsAt?))
  {
    CompletedTracker(t, token, faults);
    CompletedReports(t, token, faults);
  }

  /** The tracker half of `SweepCompleted`. */
  lemma CompletedTracker(t: Tracker, token: string, faults: Faults)
    requires token != "" && FaultOf(t, faults, HomeRepo) == NoFault
    ensures var r := Sweep(t, token, faults);
      && r.tracker.Keys == t.Keys
      && (forall repo :: repo in t ==>
            r.tracker[repo] == SweptIssues(t[repo], repo, FaultOf(t, faults, repo)))
  {
    SweepAfterHome(t, token, faults);
    WatchedAfterHome(t, faults);
  }

  /** The watched loop run on the tracker left by a fault-free home scan. */
  lemma WatchedAfterHome(t: Tracker, faults: Faults)
    requires FaultOf(t, faults, HomeRepo) == NoFault
    ensures var t2 := ScanWatched(AfterHome(t), WatchedRepos, faults).0;
      && t2.Keys == t.Keys
      && (forall repo :: repo in t ==>
            t2[repo] == SweptIssues(t[repo], repo, FaultOf(t, faults, repo)))
  {
    var t1 := AfterHome(t);
    assert forall r :: FaultOf(t1, faults, r) == FaultOf(t, faults, r);
    ScanWatchedIsolates(t1, WatchedRepos, faults);
    var t2 := ScanWatched(t1, WatchedRepos, faults).0;
    forall repo | repo in t
      ensures t2[repo] == SweptIssues(t[repo], repo, FaultOf(t, faults, repo))
    {
      if repo == HomeRepo {
        assert t2[repo] == t1[repo];
      }
    }
  }

  /** The status and failure-report half of `SweepCompleted`. */
  lemma CompletedReports(t: Tracker, token: string, faults: Faults)
    requires token != "" && FaultOf(t, faults, HomeRepo) == NoFault
    ensures var r := Sweep(t, token, faults);
      && r.status == Completed
      && |r.watchedFailed| == |WatchedRepos|
      && (forall j :: 0 <= j < |WatchedRepos| ==>
            (r.watchedFailed[j] <==> FaultOf(t, faults, WatchedRepos[j]).FailsAt?))
  {
    var t1 := AfterHome(t);
    assert forall r :: FaultOf(t1, faults, r) == FaultOf(t, faults, r);
    ScanWatchedIsolates(t1, WatchedRepos, faults);
    SweepAfterHome(t, token, faults);
  }

  /** The tracker once the home repository has been scanned without a fault. */
  function AfterHome(t: Tracker): Tracker
    requires HomeRepo in t
  {
    t[HomeRepo := ScanRepo(t[HomeRepo], false, NoFault).issues]
  }

  /** Unfolds a sweep whose home scan does not raise. */
  lemma SweepAfterHome(t: Tracker, token: string, faults: Faults)
    requires token != "" && FaultOf(t, faults, HomeRepo) == NoFault
    ensures Sweep(t, token, faults) ==
      Run(ScanWatched(AfterHome(t), WatchedRepos, faults).0, Completed,
          ScanWatched(AfterHome(t), WatchedRepos, faults).1)
  {
  }

  /** A failure during the home scan reaches the outer handler: the watched
      repositories are not scanned, and replies already posted in the home
      repository stay. */
  lemma HomeFailureAborts(t: Tracker, token: string, faults: Faults)
    requires token != "" && FaultOf(t, faults, HomeRepo).FailsAt?
    ensures var r := Sweep(t, token, faults);
      && r.status == Aborted
      && r.watchedFailed == []
      && r.tracker.Keys == t.Keys
      && (forall repo :: repo in t && repo != HomeRepo ==> r.tracker[repo] == t[repo])
      && (HomeRepo in t ==>
            r.tracker[HomeRepo] == ScanRepo(t[HomeRepo], false, FaultOf(t, faults, HomeRepo)).issues)
  {
  }

  /** Without a token nothing is posted. */
  lemma SweepWithoutToken(t: Tracker, faults: Faults)
    ensures Sweep(t, "", faults).tracker == t
    ensures Sweep(t, "", faults).status == MissingToken
  {
  }

  /** One visit keeps the issue or appends exactly its reply. */
  lemma VisitKeptOrAnswered(issue: Issue, watched: bool)
    ensures KeptOrAnswered(issue, Visit(issue, watched))
    ensures Visit(issue, watched) != issue <==> Qualifies(issue, watched)
  {
    if Qualifies(issue, watched) {
      assert |Visit(issue, watched).comments| == |issue.comments| + 1;
    }
  }

  /** A sweep only appends: no repository or issue appears or disappears, no
      title, body or earlier comment changes, and an issue gains at most one
      comment, the reply computed from it. */
  lemma SweepOnlyAppends(t: Tracker, token: string, faults: Faults)
    ensures var r := Sweep(t, token, faults);
      && r.tracker.Keys == t.Keys
      && (forall repo :: repo in t ==> |r.tracker[repo]| == |t[repo]|)
      && (forall repo, i :: repo in t && 0 <= i < |t[repo]| ==>
            KeptOrAnswered(t[repo][i], r.tracker[repo][i]))
  {
    var r := Sweep(t, token, faults);
    if token != "" {
      var fault := FaultOf(t, faults, HomeRepo);
      if fault.FailsAt? {
        HomeFailureAborts(t, token, faults);
      } else {
        SweepCompleted(t, token, faults);
      }
      forall repo, i | repo in t && 0 <= i < |t[repo]|
        ensures KeptOrAnswered(t[repo][i], r.tracker[repo][i])
      {
        VisitKeptOrAnswered(t[repo][i], repo != HomeRepo);
      }
    }
  }

  /** Every issue a sweep changed now carries a marked comment. */
  lemma AnsweredIssuesAreMarked(t: Tracker, token: string, faults: Faults)
    ensures var r := Sweep(t, token, faults);
      && r.tracker.Keys == t.Keys
      && forall repo, i ::
           (repo in t && 0 <= i < |t[repo]| && i < |r.tracker[repo]| && r.tracker[repo][i] != t[repo][i])
           ==> Responded(r.tracker[repo][i].comments)
  {
    SweepOnlyAppends(t, token, faults);
    var r := Sweep(t, token, faults);
    forall repo, i | repo in t && 0 <= i < |t[repo]| && i < |r.tracker[repo]|
      && r.tracker[repo][i] != t[repo][i]
      ensures Responded(r.tracker[repo][i].comments)
    {
      ReplyMarksAnswered(t[repo][i]);
    }
  }

  /** The relevance gate: an issue of a watched repository that mentions
      none of the e-commerce keywords is never commented on. */
  lemma IrrelevantWatchedUntouched(t: Tracker, token: string, faults: Faults, repo: Repo, i: nat)
    requires repo in WatchedRepos && repo in t && i < |t[repo]|
    requires !Relevant(t[repo][i].title, t[repo][i].body)
    ensures repo in Sweep(t, token, faults).tracker
    ensures i < |Sweep(t, token, faults).tracker[repo]|
    ensures Sweep(t, token, faults).tracker[repo][i] == t[repo][i]
  {
    SweepOnlyAppends(t, token, faults);
    assert repo != HomeRepo;
    if token != "" && FaultOf(t, faults, HomeRepo) == NoFault {
      SweepCompleted(t, token, faults);
    }
  }

  /** The marker guard, issue by issue: whatever the token and the faults,
      a sweep changes an issue only if it was pending. */
  lemma ChangedOnlyIfPending(t: Tracker, token: string, faults: Faults, repo: Repo, i: nat)
    requires repo in t && i < |t[repo]|
    ensures var r := Sweep(t, token, faults);
      && repo in r.tracker && i < |r.tracker[repo]|
      && (r.tracker[repo][i] != t[repo][i] ==> Pending(repo, t[repo][i]))
  {
    SweepOnlyAppends(t, token, faults);
    VisitKeptOrAnswered(t[repo][i], repo != HomeRepo);
    if token != "" && FaultOf(t, faults, HomeRepo) == NoFault {
      SweepCompleted(t, token, faults);
    } else if token != "" {
      HomeFailureAborts(t, token, faults);
    }
  }

  /** An issue that already carries a marked comment is left as it is by
      every sweep, whatever its token and faults. */
  lemma AnsweredUntouched(t: Tracker, token: string, faults: Faults, repo: Repo, i: nat)
    requires repo in t && i < |t[repo]|
    requires Responded(t[repo][i].comments)
    ensures repo in Sweep(t, token, faults).tracker
    ensures i < |Sweep(t, token, faults).tracker[repo]|
    ensures Sweep(t, token, faults).tracker[repo][i] == t[repo][i]
  {
    assert !Pending(repo, t[repo][i]);
    ChangedOnlyIfPending(t, token, faults, repo, i);
  }

  /** With a token, every listed repository present and no failures, the
      sweep changes exactly the pending issues (each by appending its one
      reply, by `SweepOnlyAppends`) and reports no failure. */
  lemma FaultFreeSweepAnswersPending(t: Tracker, token: string)
    requires token != "" && HomeRepo in t
    requires forall w :: w in WatchedRepos ==> w in t
    ensures var r := Sweep(t, token, map[]);
      && r.status == Completed
      && |r.watchedFailed| == |WatchedRepos|
      && (forall j :: 0 <= j < |r.watchedFailed| ==> !r.watchedFailed[j])
      && r.tracker.Keys == t.Keys
      && (forall repo :: repo in t ==> |r.tracker[repo]| == |t[repo]|)
      && (forall repo, i :: repo in t && 0 <= i < |t[repo]| ==>
            (r.tracker[repo][i] != t[repo][i] <==> Pending(repo, t[repo][i])))
  {
    var r := Sweep(t, token, map[]);
    SweepCompleted(t, token, map[]);
    forall repo, i | repo in t && 0 <= i < |t[repo]|
      ensures r.tracker[repo][i] != t[repo][i] <==> Pending(repo, t[repo][i])
    {
      assert FaultOf(t, map[], repo) == NoFault;
      VisitKeptOrAnswered(t[repo][i], repo != HomeRepo);
    }
  }

  /** Visiting twice is visiting once: the reply makes the issue answered. */
  lemma VisitIdempotent(issue: Issue, watched: bool)
    ensures Visit(Visit(issue, watched), watched) == Visit(issue, watched)
  {
    if Qualifies(issue, watched) {
      ReplyMarksAnswered(issue);
    }
  }

  /** Scanning a repository again with the same fault changes nothing. */
  lemma ScanRepoIdempotent(issues: seq<Issue>, watched: bool, fault: Fault)
    ensures var once := ScanRepo(issues, watched, fault);
      ScanRepo(once.issues, watched, fault) == once
  {
    var once := ScanRepo(issues, watched, fault);
    var twice := ScanRepo(once.issues, watched, fault);
    forall i | 0 <= i < |issues| ensures twice.issues[i] == once.issues[i] {
      VisitIdempotent(issues[i], watched);
    }
  }

  /** A second sweep with no changes in between, and the same failures,
      posts nothing and reports the same outcome. */
  lemma SweepIdempotent(t: Tracker, token: string, faults: Faults)
    ensures var once := Sweep(t, token, faults);
      Sweep(once.tracker, token, faults) == once
  {
    if token != "" {
      if FaultOf(t, faults, HomeRepo).FailsAt? {
        AbortedSweepIdempotent(t, token, faults);
      } else {
        CompletedSweepIdempotent(t, token, faults);
      }
    }
  }

  /** `SweepIdempotent` when the home scan raises. */
  lemma AbortedSweepIdempotent(t: Tracker, token: string, faults: Faults)
    requires token != "" && FaultOf(t, faults, HomeRepo).FailsAt?
    ensures var once := Sweep(t, token, faults);
      Sweep(once.tracker, token, faults) == once
  {
    var once := Sweep(t, token, faults);
    var t1 := once.tracker;
    HomeFailureAborts(t, token, faults);
    assert forall r :: FaultOf(t1, faults, r) == FaultOf(t, faults, r);
    HomeFailureAborts(t1, token, faults);
    var twice := Sweep(t1, token, faults);
    forall repo | repo in t ensures twice.tracker[repo] == t1[repo] {
      if repo == HomeRepo {
        ScanRepoIdempotent(t[HomeRepo], false, FaultOf(t, faults, HomeRepo));
      }
    }
    assert twice.tracker == t1;
  }

  /** `SweepIdempotent` when the home scan does not raise. */
  lemma CompletedSweepIdempotent(t: Tracker, token: string, faults: Faults)
    requires token != "" && FaultOf(t, faults, HomeRepo) == NoFault
    ensures var once := Sweep(t, token, faults);
      Sweep(once.tracker, token, faults) == once
  {
    var once := Sweep(t, token, faults);
    CompletedTracker(t, token, faults);
    SweptTrackerIsStable(t, once.tracker, token, faults);
    SweptReportsAreStable(t, once.tracker, token, faults);
  }

  /** A sweep of an already swept tracker reports the same failures. */
  lemma SweptReportsAreStable(t: Tracker, swept: Tracker, token: string, faults: Faults)
    requires token != "" && FaultOf(t, faults, HomeRepo) == NoFault
    requires swept.Keys == t.Keys
    ensures Sweep(swept, token, faults).status == Completed
    ensures Sweep(swept, token, faults).watchedFailed == Sweep(t, token, faults).watchedFailed
  {
    assert forall r :: FaultOf(swept, faults, r) == FaultOf(t, faults, r);
    CompletedReports(t, token, faults);
    CompletedReports(swept, token, faults);
  }

  /** A tracker whose every repository is already in its swept form is left
      as it is by a sweep that meets the same failures. */
  lemma SweptTrackerIsStable(t: Tracker, swept: Tracker, token: string, faults: Faults)
    requires token != "" && FaultOf(t, faults, HomeRepo) == NoFault
    requires swept.Keys == t.Keys
    requires forall repo :: repo in t ==>
      swept[repo] == SweptIssues(t[repo], repo, FaultOf(t, faults, repo))
    ensures Sweep(swept, token, faults).tracker == swept
  {
    assert forall r :: FaultOf(swept, faults, r) == FaultOf(t, faults, r);
    CompletedTracker(swept, token, faults);
    var twice := Sweep(swept, token, faults);
    forall repo | repo in t ensures twice.tracker[repo] == swept[repo] {
      SweptIssuesIdempotent(t[repo], repo, FaultOf(t, faults, repo));
    }
    assert twice.tracker == swept;
  }

  /** Sweeping a repository's issues twice is sweeping them once. */
  lemma SweptIssuesIdempotent(issues: seq<Issue>, repo: Repo, fault: Fault)
    ensures SweptIssues(SweptIssues(issues, repo, fault), repo, fault) == SweptIssues(issues, repo, fault)
  {
    if repo == HomeRepo {
      ScanRepoIdempotent(issues, false, fault);
    } else if repo in WatchedRepos {
      ScanRepoIdempotent(issues, true, fault);
    }
  }

  /** A settled tracker is a fixed point: no sweep, whatever its token or
      failures, posts anything. */
  lemma SettledIsFixpoint(t: Tracker, token: string, faults: Faults)
    requires Settled(t)
    ensures Sweep(t, token, faults).tracker == t
  {
    var r := Sweep(t, token, faults);
    SweepOnlyAppends(t, token, faults);
    forall repo | repo in t ensures r.tracker[repo] == t[repo] {
      forall i | 0 <= i < |t[repo]| ensures r.tracker[repo][i] == t[repo][i] {
        assert !Pending(repo, t[repo][i]);
        VisitKeptOrAnswered(t[repo][i], repo != HomeRepo);
        if token != "" && FaultOf(t, faults, HomeRepo) == NoFault {
          SweepCompleted(t, token, faults);
        } else if token != "" {
          HomeFailureAborts(t, token, faults);
        }
      }
    }
  }

  /** A sweep in which no repository failed leaves nothing pending. */
  lemma CleanSweepSettles(t: Tracker, token: string, faults: Faults)
    requires Sweep(t, token, faults).status == Completed
    requires forall j :: 0 <= j < |Sweep(t, token, faults).watchedFailed| ==>
      !Sweep(t, token, faults).watchedFailed[j]
    ensures Settled(Sweep(t, token, faults).tracker)
  {
    var r := Sweep(t, token, faults);
    SweepCompleted(t, token, faults);
    forall repo, i | repo in r.tracker && 0 <= i < |r.tracker[repo]|
      ensures !Pending(repo, r.tracker[repo][i])
    {
      var f := FaultOf(t, faults, repo);
      if repo in WatchedRepos {
        var j :| 0 <= j < |WatchedRepos| && WatchedRepos[j] == repo;
        assert !r.watchedFailed[j];
      }
      if repo == HomeRepo || repo in WatchedRepos {
        assert f == NoFault;
        VisitIdempotent(t[repo][i], repo != HomeRepo);
        VisitKeptOrAnswered(Visit(t[repo][i], repo != HomeRepo), repo != HomeRepo);
      }
    }
  }
}

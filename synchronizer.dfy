/** The per-repository synchronization of application.ts: `cloneRepository`,
    `trySyncMasterBranch` and `syncRepository`, as functions from the git
    executor to the commands issued and the outcome. Path joining
    (`path.join`) is a parameter `join`; the local folder of a repository is
    `join(directoryPath, name)`. */
module Synchronizer {
  import opened Base
  import opened Patterns
  import opened Git
  import opened GitHub
  import opened SyncPlan

  /** `cloneRepository(name, fullname, cloneUrl)` with the failure handler
      that application.ts evidently intends: a clone into a folder that is
      already there counts as success, any other failure rejects. */
  function CloneRepository(exec: Executor, cloneUrl: string, dir: string): (r: Run)
    ensures r.trace == [CloneCommand(cloneUrl, dir)]
    ensures r.outcome == Resolved <==> Passes(exec(CloneCommand(cloneUrl, dir)), AlreadyCloned)
    ensures r.outcome != Resolved ==>
      r.outcome == Rejected(CommandFailed(exec(CloneCommand(cloneUrl, dir)).text))
  {
    var clone := Clone(exec, cloneUrl, dir);
    var answer := exec(CloneCommand(cloneUrl, dir));
    if Passes(answer, AlreadyCloned) then Run(clone.trace, Resolved)
    else clone
  }

  /** `cloneRepository` as written: on a failure whose text does not match,
      `.match` yields `null` and reading its `.length` throws inside the
      `catch` handler. Neither `resolve` nor `reject` is ever called, so the
      promise never settles. */
  function CloneRepositoryAsWritten(exec: Executor, cloneUrl: string, dir: string): (r: Run)
    ensures r.trace == [CloneCommand(cloneUrl, dir)]
    ensures r.outcome == Resolved <==> Passes(exec(CloneCommand(cloneUrl, dir)), AlreadyCloned)
    ensures r.outcome != Resolved ==> r.outcome == Stuck
  {
    var clone := Clone(exec, cloneUrl, dir);
    var answer := exec(CloneCommand(cloneUrl, dir));
    if answer.Ok? then clone
    else if Matches(AlreadyCloned, answer.text) then Run(clone.trace, Resolved)
    else Run(clone.trace, Stuck)
  }

  /** `trySyncMasterBranch(name, fullname, branch)`: nothing to do when the
      default branch is `master`; otherwise check out and pull `master`, then
      push it, stopping at the first failure. It always resolves. */
  function TrySyncMasterBranch(exec: Executor, dir: string, branch: string): (r: Run)
    ensures r.outcome == Resolved
    ensures branch == "master" ==> r.trace == []
    ensures branch != "master" ==>
      && 1 <= |r.trace| <= 3
      && r.trace == MasterCommands(dir)[..|r.trace|]
      && (|r.trace| >= 2 <==> Passes(exec(CheckoutCommand(dir, "master")), BranchExists))
      && (|r.trace| == 3 <==> Passes(exec(CheckoutCommand(dir, "master")), BranchExists)
                               && exec(PullCommand(dir, "master")).Ok?)
  {
    if branch == "master" then Run([], Resolved)
    else
      var attempt := AndThen(PullUpstream(exec, dir, "master"), PushOrigin(exec, dir, "master"));
      Run(attempt.trace, Resolved)
  }

  function MasterCommands(dir: string): seq<Command> {
    [CheckoutCommand(dir, "master"), PullCommand(dir, "master"), PushCommand(dir, "master")]
  }

  /** The `.then` chain of `syncRepository` after the clone step. Reading
      `repo.parent.clone_url` on a missing parent throws, which rejects
      before any command. The source chains the steps one after the other;
      written nested here, which is the same by `AndThenAssociative`. */
  function AfterClone(exec: Executor, dir: string, repo: DetailedRepoResult): (r: Run)
    ensures r.outcome != Stuck
    ensures repo.parent.None? ==> r.trace == [] && r.outcome == Rejected(ParentMissing)
    ensures repo.parent.Some? ==> |r.trace| >= 1 && r.trace[0] == RemoveUpstreamCommand(dir)
  {
    match repo.parent
    case None => Run([], Rejected(ParentMissing))
    case Some(parent) =>
      AndThen(SetUpstream(exec, dir, parent.cloneUrl),
      AndThen(PullUpstream(exec, dir, repo.defaultBranch),
      AndThen(PushOrigin(exec, dir, repo.defaultBranch),
      AndThen(TrySyncMasterBranch(exec, dir, repo.defaultBranch),
              SyncTags(exec, dir)))))
  }

  /** `syncRepository(repo)`: clone → setUpstream(parent's url) →
      pullUpstream(default branch) → pushOrigin(default branch) →
      trySyncMasterBranch → syncTags. */
  function SyncRepository(exec: Executor, join: (string, string) -> string,
                          directoryPath: string, repo: DetailedRepoResult): (r: Run)
    ensures r.outcome != Stuck
    ensures |r.trace| >= 1 && r.trace[0] == CloneCommand(repo.cloneUrl, join(directoryPath, repo.name))
  {
    var dir := join(directoryPath, repo.name);
    AndThen(CloneRepository(exec, repo.cloneUrl, dir), AfterClone(exec, dir, repo))
  }

  /** `syncRepository(repo)` with `cloneRepository` as written. */
  function SyncRepositoryAsWritten(exec: Executor, join: (string, string) -> string,
                                   directoryPath: string, repo: DetailedRepoResult): (r: Run)
    ensures |r.trace| >= 1 && r.trace[0] == CloneCommand(repo.cloneUrl, join(directoryPath, repo.name))
  {
    var dir := join(directoryPath, repo.name);
    AndThen(CloneRepositoryAsWritten(exec, repo.cloneUrl, dir), AfterClone(exec, dir, repo))
  }

  // ---------------------------------------------------------------------------
  // The synchronization as a plan of commands

  function ClonePlan(cloneUrl: string, dir: string): seq<Planned> {
    [Planned(CloneCommand(cloneUrl, dir), Tolerate(AlreadyCloned), false)]
  }
  function UpstreamPlan(dir: string, url: string): seq<Planned> {
    [Planned(RemoveUpstreamCommand(dir), Tolerate(NoSuchRemote), false),
     Planned(AddUpstreamCommand(dir, url), Strict, false)]
  }
  function PullPlan(dir: string, branch: string): seq<Planned> {
    [Planned(CheckoutCommand(dir, branch), Tolerate(BranchExists), false),
     Planned(PullCommand(dir, branch), Strict, false)]
  }
  function PushPlan(dir: string, branch: string): seq<Planned> {
    [Planned(PushCommand(dir, branch), Strict, false)]
  }
  function MasterPlan(dir: string, branch: string): seq<Planned> {
    if branch == "master" then []
    else
      [Planned(CheckoutCommand(dir, "master"), Tolerate(BranchExists), true),
       Planned(PullCommand(dir, "master"), Strict, true),
       Planned(PushCommand(dir, "master"), Strict, true)]
  }
  function TagsPlan(dir: string): seq<Planned> {
    [Planned(FetchTagsCommand(dir), Strict, false),
     Planned(PushTagsCommand(dir), Strict, false)]
  }

  /** The plan of one repository whose parent's clone url is `parentUrl`. */
  function Plan(repo: DetailedRepoResult, parentUrl: string, dir: string): seq<Planned> {
    ClonePlan(repo.cloneUrl, dir) + (UpstreamPlan(dir, parentUrl) +
    (PullPlan(dir, repo.defaultBranch) + (PushPlan(dir, repo.defaultBranch) +
    (MasterPlan(dir, repo.defaultBranch) + TagsPlan(dir)))))
  }

  /** The commands of the plan, written out. */
  lemma PlanCommands(repo: DetailedRepoResult, parentUrl: string, dir: string)
    ensures Commands(Plan(repo, parentUrl, dir)) ==
      [CloneCommand(repo.cloneUrl, dir),
       RemoveUpstreamCommand(dir), AddUpstreamCommand(dir, parentUrl),
       CheckoutCommand(dir, repo.defaultBranch), PullCommand(dir, repo.defaultBranch),
       PushCommand(dir, repo.defaultBranch)]
      + (if repo.defaultBranch == "master" then [] else MasterCommands(dir))
      + [FetchTagsCommand(dir), PushTagsCommand(dir)]
  {
  }

  // The blocks of the plan behave like the steps of the source.

  lemma {:induction false} InterpretClonePlan(exec: Executor, cloneUrl: string, dir: string)
    ensures Interpret(exec, ClonePlan(cloneUrl, dir)) == CloneRepository(exec, cloneUrl, dir)
  {
    assert ClonePlan(cloneUrl, dir)[1..] == [];
  }

  lemma {:induction false} InterpretUpstreamPlan(exec: Executor, dir: string, url: string)
    ensures Interpret(exec, UpstreamPlan(dir, url)) == SetUpstream(exec, dir, url)
  {
    var p := UpstreamPlan(dir, url);
    assert p == [p[0]] + [p[1]];
    InterpretRequiredCons(exec, p[0], [p[1]]);
    InterpretStrictSingle(exec, p[1]);
  }

  lemma {:induction false} InterpretPullPlan(exec: Executor, dir: string, branch: string)
    ensures Interpret(exec, PullPlan(dir, branch)) == PullUpstream(exec, dir, branch)
  {
    var p := PullPlan(dir, branch);
    assert p == [p[0]] + [p[1]];
    InterpretRequiredCons(exec, p[0], [p[1]]);
    InterpretStrictSingle(exec, p[1]);
  }

  lemma {:induction false} InterpretPushPlan(exec: Executor, dir: string, branch: string)
    ensures Interpret(exec, PushPlan(dir, branch)) == PushOrigin(exec, dir, branch)
  {
    InterpretStrictSingle(exec, PushPlan(dir, branch)[0]);
  }

  lemma {:induction false} InterpretTagsPlan(exec: Executor, dir: string)
    ensures Interpret(exec, TagsPlan(dir)) == SyncTags(exec, dir)
  {
    var p := TagsPlan(dir);
    assert p == [p[0]] + [p[1]];
    InterpretRequiredCons(exec, p[0], [p[1]]);
    InterpretStrictSingle(exec, p[1]);
  }

  lemma {:induction false} InterpretMasterPlan(exec: Executor, dir: string, branch: string)
    ensures Interpret(exec, MasterPlan(dir, branch)) == TrySyncMasterBranch(exec, dir, branch)
  {
    if branch != "master" {
      var p := MasterPlan(dir, branch);
      var p1 := p[1..];
      var p2 := p1[1..];
      assert p1 == [p[1], p[2]];
      assert p2 == [p[2]];
      assert p2[1..] == [];
      assert LeadingBestEffort(p2[1..]) == 0;
      assert LeadingBestEffort(p1[1..]) == 1;
      assert LeadingBestEffort(p[1..]) == 2;
      assert p[1 + 2..] == [];
      assert p1[1 + 1..] == [];
      var checkout, pull, push := p[0].cmd, p[1].cmd, p[2].cmd;
      var e := Run([], Resolved);
      assert Interpret(exec, p2) == Prepend(push, e);
      if StepPasses(p[0], exec(checkout)) {
        if exec(pull).Ok? {
          assert Interpret(exec, p1) == Prepend(pull, Interpret(exec, p2));
        } else {
          assert Interpret(exec, p1) == Prepend(pull, e);
        }
        assert Interpret(exec, p) == Prepend(checkout, Interpret(exec, p1));
        assert [checkout] + ([pull] + ([push] + [])) == [checkout, pull, push];
        assert [checkout] + ([pull] + []) == [checkout, pull];
      } else {
        assert Interpret(exec, p) == Prepend(checkout, e);
        assert [checkout] + [] == [checkout];
      }
    }
  }

  /** The nested promise chain of `syncRepository` runs exactly the plan. */
  lemma {:induction false} SyncRepositoryFollowsPlan(exec: Executor, join: (string, string) -> string,
                                                     directoryPath: string, repo: DetailedRepoResult)
    requires repo.parent.Some?
    ensures SyncRepository(exec, join, directoryPath, repo) ==
            Interpret(exec, Plan(repo, repo.parent.value.cloneUrl, join(directoryPath, repo.name)))
  {
    var dir := join(directoryPath, repo.name);
    var b := repo.defaultBranch;
    var c, u, pl, ps, m, t :=
      ClonePlan(repo.cloneUrl, dir), UpstreamPlan(dir, repo.parent.value.cloneUrl),
      PullPlan(dir, b), PushPlan(dir, b), MasterPlan(dir, b), TagsPlan(dir);
    InterpretAppend(exec, m, t);
    InterpretAppend(exec, ps, m + t);
    InterpretAppend(exec, pl, ps + (m + t));
    InterpretAppend(exec, u, pl + (ps + (m + t)));
    InterpretAppend(exec, c, u + (pl + (ps + (m + t))));
    InterpretClonePlan(exec, repo.cloneUrl, dir);
    InterpretUpstreamPlan(exec, dir, repo.parent.value.cloneUrl);
    InterpretPullPlan(exec, dir, b);
    InterpretPushPlan(exec, dir, b);
    InterpretMasterPlan(exec, dir, b);
    InterpretTagsPlan(exec, dir);
  }

  // ---------------------------------------------------------------------------
  // What a synchronization does

  /** No command is planned twice for one synchronization; what is issued
      follows in `SyncRepositoryIssuesEachOnce`. */
  lemma SyncPlanDistinct(repo: DetailedRepoResult, parentUrl: string, dir: string)
    ensures Distinct(Commands(Plan(repo, parentUrl, dir)))
  {
    PlanCommands(repo, parentUrl, dir);
    var b := repo.defaultBranch;
    var head := [CloneCommand(repo.cloneUrl, dir),
       RemoveUpstreamCommand(dir), AddUpstreamCommand(dir, parentUrl),
       CheckoutCommand(dir, b), PullCommand(dir, b), PushCommand(dir, b)];
    var tags := [FetchTagsCommand(dir), PushTagsCommand(dir)];
    if b == "master" {
      assert Commands(Plan(repo, parentUrl, dir)) == head + tags;
      DistinctCommands(repo.cloneUrl, dir, parentUrl, b, []);
    } else {
      assert Commands(Plan(repo, parentUrl, dir)) == head + MasterCommands(dir) + tags;
      DistinctCommands(repo.cloneUrl, dir, parentUrl, b, MasterCommands(dir));
    }
  }

  /** No command is issued twice in one synchronization, under either clone
      handler; so an executor that depends on the command alone is as
      general as one that also sees the earlier commands of the run. */
  lemma {:induction false} SyncRepositoryIssuesEachOnce(exec: Executor, join: (string, string) -> string,
                                                        directoryPath: string, repo: DetailedRepoResult)
    ensures Distinct(SyncRepository(exec, join, directoryPath, repo).trace)
    ensures Distinct(SyncRepositoryAsWritten(exec, join, directoryPath, repo).trace)
  {
    var dir := join(directoryPath, repo.name);
    var clone := CloneCommand(repo.cloneUrl, dir);
    match repo.parent
    case None =>
      SyncRepositoryWithoutParent(exec, join, directoryPath, repo);
      assert SyncRepositoryAsWritten(exec, join, directoryPath, repo).trace == [clone];
    case Some(parent) =>
      var p := Plan(repo, parent.cloneUrl, dir);
      SyncRepositoryCommandsInOrder(exec, join, directoryPath, repo);
      SyncPlanDistinct(repo, parent.cloneUrl, dir);
      SubsequenceDistinct(SyncRepository(exec, join, directoryPath, repo).trace, Commands(p));
      if Passes(exec(clone), AlreadyCloned) {
        SyncRepositoryAsWrittenAgrees(exec, join, directoryPath, repo);
      } else {
        assert SyncRepositoryAsWritten(exec, join, directoryPath, repo).trace == [clone];
      }
  }

  /** The commands of one synchronization, with or without the three
      `master` commands, are pairwise different. */
  lemma DistinctCommands(cloneUrl: string, dir: string, parentUrl: string, b: string, master: seq<Command>)
    requires master == [] || (b != "master" && master == MasterCommands(dir))
    ensures Distinct([CloneCommand(cloneUrl, dir),
       RemoveUpstreamCommand(dir), AddUpstreamCommand(dir, parentUrl),
       CheckoutCommand(dir, b), PullCommand(dir, b), PushCommand(dir, b)]
       + master + [FetchTagsCommand(dir), PushTagsCommand(dir)])
  {
  }

  /** The synchronization resolves exactly when the clone succeeds or finds
      its folder already there, the upstream remote is rebound to the
      parent's url, the default branch is checked out and pulled, it is
      pushed, and the tags are fetched and pushed. The master-branch step
      plays no part. */
  lemma {:induction false} SyncRepositorySucceedsIff(exec: Executor, join: (string, string) -> string,
                                  directoryPath: string, repo: DetailedRepoResult)
    ensures var dir, b := join(directoryPath, repo.name), repo.defaultBranch;
      SyncRepository(exec, join, directoryPath, repo).outcome == Resolved <==>
        && repo.parent.Some?
        && Passes(exec(CloneCommand(repo.cloneUrl, dir)), AlreadyCloned)
        && Passes(exec(RemoveUpstreamCommand(dir)), NoSuchRemote)
        && exec(AddUpstreamCommand(dir, repo.parent.value.cloneUrl)).Ok?
        && Passes(exec(CheckoutCommand(dir, b)), BranchExists)
        && exec(PullCommand(dir, b)).Ok?
        && exec(PushCommand(dir, b)).Ok?
        && exec(FetchTagsCommand(dir)).Ok?
        && exec(PushTagsCommand(dir)).Ok?
  {
  }

  /** Two executors that differ only on the commands of the master-branch
      block lead to the same outcome. */
  lemma {:induction false} SyncRepositoryIgnoresMasterStep(exec1: Executor, exec2: Executor,
                                        join: (string, string) -> string,
                                        directoryPath: string, repo: DetailedRepoResult)
    requires var dir := join(directoryPath, repo.name);
      forall c :: c !in Commands(MasterPlan(dir, repo.defaultBranch)) ==> exec1(c) == exec2(c)
    ensures SyncRepository(exec1, join, directoryPath, repo).outcome ==
            SyncRepository(exec2, join, directoryPath, repo).outcome
  {
    var dir := join(directoryPath, repo.name);
    match repo.parent
    case None =>
      assert CloneCommand(repo.cloneUrl, dir) !in Commands(MasterPlan(dir, repo.defaultBranch));
    case Some(parent) =>
      var p := Plan(repo, parent.cloneUrl, dir);
      SyncRepositoryFollowsPlan(exec1, join, directoryPath, repo);
      SyncRepositoryFollowsPlan(exec2, join, directoryPath, repo);
      RequiredOutsideMaster(repo, parent.cloneUrl, dir);
      OutcomeOnRequired(exec1, exec2, p);
  }

  /** The only best-effort steps of the plan are those of the master-branch
      block, and no other step issues one of its commands. */
  lemma RequiredOutsideMaster(repo: DetailedRepoResult, parentUrl: string, dir: string)
    ensures var p, master := Plan(repo, parentUrl, dir), Commands(MasterPlan(dir, repo.defaultBranch));
      forall i :: 0 <= i < |p| && !p[i].bestEffort ==> p[i].cmd !in master
  {
    var b := repo.defaultBranch;
    var pre := ClonePlan(repo.cloneUrl, dir) + UpstreamPlan(dir, parentUrl) + PullPlan(dir, b) + PushPlan(dir, b);
    var m, t := MasterPlan(dir, b), TagsPlan(dir);
    var p, master := Plan(repo, parentUrl, dir), Commands(m);
    assert p == pre + m + t;
    assert forall i :: 0 <= i < |m| ==> m[i].bestEffort;
    assert forall i :: 0 <= i < |pre| ==> pre[i].cmd !in master by {
      if b != "master" {
        assert master == MasterCommands(dir);
      }
    }
    assert forall i :: 0 <= i < |t| ==> t[i].cmd !in master;
    forall i | 0 <= i < |p| && !p[i].bestEffort ensures p[i].cmd !in master {
      if i < |pre| {
        assert p[i] == pre[i];
      } else {
        assert i >= |pre| + |m|;
        assert p[i] == t[i - |pre| - |m|];
      }
    }
  }

  /** Every command is a command of the plan, in plan order; the clone runs
      without a working directory and every other command in the
      repository's folder. */
  lemma {:induction false} SyncRepositoryCommandsInOrder(exec: Executor, join: (string, string) -> string,
                                      directoryPath: string, repo: DetailedRepoResult)
    requires repo.parent.Some?
    ensures var dir := join(directoryPath, repo.name);
      var r := SyncRepository(exec, join, directoryPath, repo);
      && IsSubsequence(r.trace, Commands(Plan(repo, repo.parent.value.cloneUrl, dir)))
      && r.trace[0].cwd == None
      && forall c :: c in r.trace ==> c == r.trace[0] || c.cwd == Some(dir)
  {
    var dir := join(directoryPath, repo.name);
    var r := SyncRepository(exec, join, directoryPath, repo);
    var p := Plan(repo, repo.parent.value.cloneUrl, dir);
    SyncRepositoryFollowsPlan(exec, join, directoryPath, repo);
    InterpretTraceInOrder(exec, p);
    SubsequenceElements(r.trace, Commands(p));
    PlanInFolder(repo, repo.parent.value.cloneUrl, dir);
  }

  /** The plan's first command is the clone, which runs without a working
      directory; all the others run in the repository's folder. */
  lemma PlanInFolder(repo: DetailedRepoResult, parentUrl: string, dir: string)
    ensures var cs := Commands(Plan(repo, parentUrl, dir));
      && cs[0] == CloneCommand(repo.cloneUrl, dir)
      && forall c :: c in cs ==> c == cs[0] || c.cwd == Some(dir)
  {
    PlanCommands(repo, parentUrl, dir);
    var b := repo.defaultBranch;
    var tail := [RemoveUpstreamCommand(dir), AddUpstreamCommand(dir, parentUrl),
       CheckoutCommand(dir, b), PullCommand(dir, b), PushCommand(dir, b)]
      + (if b == "master" then [] else MasterCommands(dir))
      + [FetchTagsCommand(dir), PushTagsCommand(dir)];
    assert Commands(Plan(repo, parentUrl, dir)) == [CloneCommand(repo.cloneUrl, dir)] + tail;
    assert forall c :: c in tail ==> c.cwd == Some(dir);
  }

  /** A missing parent is noticed right after the clone: nothing but the
      clone is issued. */
  lemma {:induction false} SyncRepositoryWithoutParent(exec: Executor, join: (string, string) -> string,
                                    directoryPath: string, repo: DetailedRepoResult)
    requires repo.parent.None?
    ensures var clone := CloneCommand(repo.cloneUrl, join(directoryPath, repo.name));
      var r := SyncRepository(exec, join, directoryPath, repo);
      && r.trace == [clone]
      && (Passes(exec(clone), AlreadyCloned) ==> r.outcome == Rejected(ParentMissing))
  {
  }

  /** A rejected synchronization stopped at a step k of the plan that is not
      best-effort and whose failure was not tolerated. The rejection carries
      that failure's text, that step's command was the last one issued, and
      no command of a later step was issued. */
  lemma {:induction false} SyncRepositoryStopsAtFirstFailure(exec: Executor, join: (string, string) -> string,
                                          directoryPath: string, repo: DetailedRepoResult)
    requires repo.parent.Some?
    requires SyncRepository(exec, join, directoryPath, repo).outcome.Rejected?
    ensures var p := Plan(repo, repo.parent.value.cloneUrl, join(directoryPath, repo.name));
      var r := SyncRepository(exec, join, directoryPath, repo);
      exists k :: 0 <= k < |p|
        && !p[k].bestEffort
        && !StepPasses(p[k], exec(p[k].cmd))
        && r.outcome == Rejected(CommandFailed(exec(p[k].cmd).text))
        && r.trace[|r.trace| - 1] == p[k].cmd
        && forall j :: k < j < |p| ==> p[j].cmd !in r.trace
  {
    var dir := join(directoryPath, repo.name);
    var p := Plan(repo, repo.parent.value.cloneUrl, dir);
    var r := SyncRepository(exec, join, directoryPath, repo);
    SyncRepositoryFollowsPlan(exec, join, directoryPath, repo);
    SyncPlanDistinct(repo, repo.parent.value.cloneUrl, dir);
    InterpretStopsAtFirstFailure(exec, p);
  }

  /** When every command succeeds or fails only with its tolerated text, the
      whole plan is issued in order and the synchronization resolves. */
  lemma {:induction false} SyncRepositoryAllPass(exec: Executor, join: (string, string) -> string,
                              directoryPath: string, repo: DetailedRepoResult)
    requires repo.parent.Some?
    requires AllPass(exec, Plan(repo, repo.parent.value.cloneUrl, join(directoryPath, repo.name)))
    ensures var dir, b := join(directoryPath, repo.name), repo.defaultBranch;
      SyncRepository(exec, join, directoryPath, repo) == Run(
        [CloneCommand(repo.cloneUrl, dir),
         RemoveUpstreamCommand(dir), AddUpstreamCommand(dir, repo.parent.value.cloneUrl),
         CheckoutCommand(dir, b), PullCommand(dir, b), PushCommand(dir, b)]
        + (if b == "master" then [] else MasterCommands(dir))
        + [FetchTagsCommand(dir), PushTagsCommand(dir)],
        Resolved)
  {
    var dir := join(directoryPath, repo.name);
    SyncRepositoryFollowsPlan(exec, join, directoryPath, repo);
    InterpretAllPass(exec, Plan(repo, repo.parent.value.cloneUrl, dir));
    PlanCommands(repo, repo.parent.value.cloneUrl, dir);
  }

  /** A re-run over an existing clone: git reports the folder, the missing
      remote is a non-issue, everything else succeeds; the clone counts as
      done and the run goes on with the remote rebinding. */
  lemma {:induction false} CloneRepositoryToleratesExistingFolder(exec: Executor, cloneUrl: string, dir: string,
                                               before: string, path: string, after: string)
    requires forall k :: 0 <= k < |path| ==> !IsLineTerminator(path[k])
    requires exec(CloneCommand(cloneUrl, dir)) ==
      Fail(before + "destination path " + path + " already exists and is not an empty directory" + after)
    ensures CloneRepository(exec, cloneUrl, dir) == Run([CloneCommand(cloneUrl, dir)], Resolved)
    ensures CloneRepositoryAsWritten(exec, cloneUrl, dir) == Run([CloneCommand(cloneUrl, dir)], Resolved)
  {
    WildcardMatchesWhenPresent(before, AlreadyCloned.prefix, path, AlreadyCloned.suffix, after);
  }

  // ---------------------------------------------------------------------------
  // The clone failure handler as written

  /** As written, a clone failure with any other text leaves the
      synchronization pending forever after the one clone command; the
      corrected handler rejects with that text instead. */
  lemma {:induction false} SyncRepositoryAsWrittenHangs(exec: Executor, join: (string, string) -> string,
                                     directoryPath: string, repo: DetailedRepoResult)
    requires var answer := exec(CloneCommand(repo.cloneUrl, join(directoryPath, repo.name)));
      answer.Fail? && !Matches(AlreadyCloned, answer.text)
    ensures var clone := CloneCommand(repo.cloneUrl, join(directoryPath, repo.name));
      && SyncRepositoryAsWritten(exec, join, directoryPath, repo) == Run([clone], Stuck)
      && SyncRepository(exec, join, directoryPath, repo) ==
         Run([clone], Rejected(CommandFailed(exec(clone).text)))
  {
  }

  /** Apart from that case the two handlers agree. */
  lemma {:induction false} SyncRepositoryAsWrittenAgrees(exec: Executor, join: (string, string) -> string,
                                      directoryPath: string, repo: DetailedRepoResult)
    requires Passes(exec(CloneCommand(repo.cloneUrl, join(directoryPath, repo.name))), AlreadyCloned)
    ensures SyncRepositoryAsWritten(exec, join, directoryPath, repo) ==
            SyncRepository(exec, join, directoryPath, repo)
  {
  }

  /** A concrete case: `git clone` fails because the repository cannot be
      found. */
  lemma CloneNotFoundNeverSettles(cloneUrl: string, dir: string)
    ensures var exec := (c: Command) => Fail("fatal: repository not found");
      && CloneRepositoryAsWritten(exec, cloneUrl, dir).outcome == Stuck
      && CloneRepository(exec, cloneUrl, dir).outcome ==
         Rejected(CommandFailed("fatal: repository not found"))
  {
    ShortTextDoesNotMatch(AlreadyCloned, "fatal: repository not found");
  }
}

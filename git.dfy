/** The git steps of one repository (gitService.ts). Running `git` is an
    oracle: an `Executor` answers each command with success or with the
    failure's text (`err.toString()`, kept opaque). Each step is a function
    from the oracle to the commands it issues, in order, and the outcome of
    its promise. */
module Git {
  import opened Base
  import opened Patterns

  /** `git <args>`, run in `cwd`, or in the process's directory when `cwd` is absent. */
  datatype Command = Command(args: seq<string>, cwd: Option<string>)

  datatype ExecResult = Ok | Fail(text: string)

  /** The version-control executor. Within one synchronization every command
      is issued at most once, so a function of the command alone loses no
      generality for one run. */
  type Executor = Command -> ExecResult

  datatype Reason =
    | CommandFailed(text: string)   // a git command's failure, passed on
    | ParentMissing                 // `repo.parent.clone_url` on a missing parent throws

  /** How a step's promise settles; `Stuck` is a promise that never does. */
  datatype Outcome = Resolved | Rejected(reason: Reason) | Stuck

  datatype Run = Run(trace: seq<Command>, outcome: Outcome)

  function CloneCommand(cloneUrl: string, target: string): Command {
    Command(["clone", cloneUrl, target], None)
  }
  function RemoveUpstreamCommand(dir: string): Command {
    Command(["remote", "remove", "upstream"], Some(dir))
  }
  function AddUpstreamCommand(dir: string, url: string): Command {
    Command(["remote", "add", "upstream", url], Some(dir))
  }
  function CheckoutCommand(dir: string, branch: string): Command {
    Command(["checkout", branch], Some(dir))
  }
  function PullCommand(dir: string, branch: string): Command {
    Command(["pull", "upstream", branch], Some(dir))
  }
  function PushCommand(dir: string, branch: string): Command {
    Command(["push", "-u", "origin", branch], Some(dir))
  }
  function FetchTagsCommand(dir: string): Command {
    Command(["fetch", "upstream", "--prune", "--tags"], Some(dir))
  }
  function PushTagsCommand(dir: string): Command {
    Command(["push", "--tags"], Some(dir))
  }

  /** A command's answer counts as success: it succeeded, or its failure text
      matches the pattern the caller tolerates. */
  predicate Passes(r: ExecResult, tolerated: Pattern) {
    r.Ok? || Matches(tolerated, r.text)
  }

  /** The promise of a bare `execa` call. */
  function Settle(r: ExecResult): (o: Outcome)
    ensures o == Resolved <==> r.Ok?
    ensures r.Fail? ==> o == Rejected(CommandFailed(r.text))
  {
    match r
    case Ok => Resolved
    case Fail(text) => Rejected(CommandFailed(text))
  }

  /** `.then` on two runs: the second runs only when the first resolved. */
  function AndThen(first: Run, next: Run): (r: Run)
    ensures first.outcome == Resolved ==> r.trace == first.trace + next.trace && r.outcome == next.outcome
    ensures first.outcome != Resolved ==> r == first
  {
    if first.outcome == Resolved then Run(first.trace + next.trace, next.outcome) else first
  }

  /** A chain `a.then(b).then(c)` runs like `a.then(b.then(c))`: the same
      commands, in the same order, and the same outcome. */
  lemma AndThenAssociative(a: Run, b: Run, c: Run)
    ensures AndThen(AndThen(a, b), c) == AndThen(a, AndThen(b, c))
  {
    if a.outcome == Resolved && b.outcome == Resolved {
      assert a.trace + b.trace + c.trace == a.trace + (b.trace + c.trace);
    }
  }

  /** `clone(name, cloneUrl)`: one command, without a working directory,
      whose own result is the step's. */
  function Clone(exec: Executor, cloneUrl: string, target: string): (r: Run)
    ensures r.trace == [CloneCommand(cloneUrl, target)]
    ensures r.outcome == Resolved <==> exec(CloneCommand(cloneUrl, target)).Ok?
    ensures r.outcome != Stuck
  {
    var clone := CloneCommand(cloneUrl, target);
    Run([clone], Settle(exec(clone)))
  }

  /** `setUpstream(name, fullname, upstreamCloneUrl)`: remove the remote
      `upstream` (a "No such remote: upstream" failure is ignored), then add
      it with the given url. */
  function SetUpstream(exec: Executor, dir: string, url: string): (r: Run)
    ensures |r.trace| >= 1 && r.trace[0] == RemoveUpstreamCommand(dir)
    ensures |r.trace| == 2 <==> Passes(exec(RemoveUpstreamCommand(dir)), NoSuchRemote)
    ensures |r.trace| == 2 ==> r.trace[1] == AddUpstreamCommand(dir, url)
    ensures |r.trace| <= 2
    ensures r.outcome == Resolved <==>
      Passes(exec(RemoveUpstreamCommand(dir)), NoSuchRemote) && exec(AddUpstreamCommand(dir, url)).Ok?
    ensures r.outcome != Stuck
  {
    var remove := RemoveUpstreamCommand(dir);
    var removed := exec(remove);
    if !Passes(removed, NoSuchRemote) then
      Run([remove], Rejected(CommandFailed(removed.text)))
    else
      var add := AddUpstreamCommand(dir, url);
      Run([remove, add], Settle(exec(add)))
  }

  /** `pullUpstream(name, fullname, branch)`: check out the branch (a
      "A branch named '...' already exists" failure is ignored), then pull it
      from `upstream`. */
  function PullUpstream(exec: Executor, dir: string, branch: string): (r: Run)
    ensures |r.trace| >= 1 && r.trace[0] == CheckoutCommand(dir, branch)
    ensures |r.trace| == 2 <==> Passes(exec(CheckoutCommand(dir, branch)), BranchExists)
    ensures |r.trace| == 2 ==> r.trace[1] == PullCommand(dir, branch)
    ensures |r.trace| <= 2
    ensures r.outcome == Resolved <==>
      Passes(exec(CheckoutCommand(dir, branch)), BranchExists) && exec(PullCommand(dir, branch)).Ok?
    ensures r.outcome != Stuck
  {
    var checkout := CheckoutCommand(dir, branch);
    var checkedOut := exec(checkout);
    if !Passes(checkedOut, BranchExists) then
      Run([checkout], Rejected(CommandFailed(checkedOut.text)))
    else
      var pull := PullCommand(dir, branch);
      Run([checkout, pull], Settle(exec(pull)))
  }

  /** `pushOrigin(name, fullname, branch)`: one `push -u origin <branch>`. */
  function PushOrigin(exec: Executor, dir: string, branch: string): (r: Run)
    ensures r.trace == [PushCommand(dir, branch)]
    ensures r.outcome == Resolved <==> exec(PushCommand(dir, branch)).Ok?
    ensures r.outcome != Stuck
  {
    var push := PushCommand(dir, branch);
    Run([push], Settle(exec(push)))
  }

  /** `syncTags(name, fullname)`: fetch tags from `upstream` with pruning,
      then push all tags; a failed fetch skips the push. */
  function SyncTags(exec: Executor, dir: string): (r: Run)
    ensures |r.trace| >= 1 && r.trace[0] == FetchTagsCommand(dir)
    ensures |r.trace| == 2 <==> exec(FetchTagsCommand(dir)).Ok?
    ensures |r.trace| == 2 ==> r.trace[1] == PushTagsCommand(dir)
    ensures |r.trace| <= 2
    ensures r.outcome == Resolved <==> exec(FetchTagsCommand(dir)).Ok? && exec(PushTagsCommand(dir)).Ok?
    ensures r.outcome != Stuck
  {
    var fetch := FetchTagsCommand(dir);
    var fetched := exec(fetch);
    if fetched.Fail? then
      Run([fetch], Rejected(CommandFailed(fetched.text)))
    else
      var push := PushTagsCommand(dir);
      Run([fetch, push], Settle(exec(push)))
  }

  /** Rebinding the remote of a clone that has no `upstream` yet: the removal's
      "No such remote: upstream" failure is ignored and the remote is added. */
  lemma {:induction false} SetUpstreamToleratesMissingRemote(exec: Executor, dir: string, url: string,
                                          before: string, after: string)
    requires exec(RemoveUpstreamCommand(dir)) == Fail(before + "No such remote: upstream" + after)
    ensures SetUpstream(exec, dir, url) ==
      Run([RemoveUpstreamCommand(dir), AddUpstreamCommand(dir, url)],
          Settle(exec(AddUpstreamCommand(dir, url))))
  {
    LiteralMatchesWhenPresent(before, NoSuchRemote.text, after);
  }

  /** Checking out a branch that exists locally already: the failure is
      ignored and the branch is pulled. */
  lemma {:induction false} PullUpstreamToleratesExistingBranch(exec: Executor, dir: string, branch: string,
                                            before: string, name: string, after: string)
    requires forall k :: 0 <= k < |name| ==> !IsLineTerminator(name[k])
    requires exec(CheckoutCommand(dir, branch)) ==
      Fail(before + "A branch named '" + name + "' already exists" + after)
    ensures PullUpstream(exec, dir, branch) ==
      Run([CheckoutCommand(dir, branch), PullCommand(dir, branch)],
          Settle(exec(PullCommand(dir, branch))))
  {
    WildcardMatchesWhenPresent(before, BranchExists.prefix, name, BranchExists.suffix, after);
  }
}

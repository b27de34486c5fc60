/** A flat, independent description of one repository's synchronization:
    the list of git commands in the order they are meant to run, each marked
    with the failure text it tolerates and whether it is part of the
    best-effort master-branch block, plus a small interpreter for such lists.
    The Synchronizer module proves that the nested promise chain of
    application.ts and gitService.ts behaves exactly like this interpreter
    on this list. */
module SyncPlan {
  import opened Base
  import opened Patterns
  import opened Git

  datatype Tolerance = Strict | Tolerate(pattern: Pattern)

  /** A planned command. A failing best-effort command abandons the rest of
      its best-effort block and the run goes on after the block. */
  datatype Planned = Planned(cmd: Command, tolerance: Tolerance, bestEffort: bool)

  predicate StepPasses(s: Planned, r: ExecResult) {
    r.Ok? || (s.tolerance.Tolerate? && Matches(s.tolerance.pattern, r.text))
  }

  /** The commands of a plan, in order. */
  function Commands(plan: seq<Planned>): (cs: seq<Command>)
    ensures |cs| == |plan|
    ensures forall i :: 0 <= i < |plan| ==> cs[i] == plan[i].cmd
  {
    seq(|plan|, i requires 0 <= i < |plan| => plan[i].cmd)
  }

  /** The number of best-effort steps at the start of a plan. */
  function LeadingBestEffort(plan: seq<Planned>): (n: nat)
    ensures n <= |plan|
    ensures forall i :: 0 <= i < n ==> plan[i].bestEffort
    ensures n < |plan| ==> !plan[n].bestEffort
  {
    if plan != [] && plan[0].bestEffort then 1 + LeadingBestEffort(plan[1..]) else 0
  }

  /** What follows the best-effort block that starts a plan. */
  function AfterBlock(plan: seq<Planned>): (rest: seq<Planned>)
    requires plan != []
    ensures |rest| < |plan| && rest == plan[|plan| - |rest|..]
    ensures forall i :: 1 <= i < |plan| - |rest| ==> plan[i].bestEffort
    ensures rest == [] || !rest[0].bestEffort
  {
    plan[1 + LeadingBestEffort(plan[1..])..]
  }

  function Prepend(c: Command, r: Run): Run {
    Run([c] + r.trace, r.outcome)
  }

  /** Runs a plan against the executor. */
  function Interpret(exec: Executor, plan: seq<Planned>): Run
    decreases |plan|
  {
    if plan == [] then Run([], Resolved)
    else
      var s := plan[0];
      var r := exec(s.cmd);
      if StepPasses(s, r) then Prepend(s.cmd, Interpret(exec, plan[1..]))
      else if s.bestEffort then
        Prepend(s.cmd, Interpret(exec, AfterBlock(plan)))
      else Run([s.cmd], Rejected(CommandFailed(r.text)))
  }

  /** Every step passes. */
  ghost predicate AllPass(exec: Executor, plan: seq<Planned>) {
    forall k :: 0 <= k < |plan| ==> StepPasses(plan[k], exec(plan[k].cmd))
  }

  /** Every step that is not best-effort passes. */
  ghost predicate RequiredPass(exec: Executor, plan: seq<Planned>) {
    forall k :: 0 <= k < |plan| && !plan[k].bestEffort ==> StepPasses(plan[k], exec(plan[k].cmd))
  }

  lemma CommandsSplit(plan: seq<Planned>, n: nat)
    requires n <= |plan|
    ensures Commands(plan) == Commands(plan[..n]) + Commands(plan[n..])
  {
  }

  /** The commands issued are commands of the plan, in plan order. */
  lemma {:induction false} InterpretTraceInOrder(exec: Executor, plan: seq<Planned>)
    ensures IsSubsequence(Interpret(exec, plan).trace, Commands(plan))
    decreases |plan|
  {
    if plan != [] {
      var s, r := plan[0], exec(plan[0].cmd);
      var t := Interpret(exec, plan).trace;
      assert Commands(plan) == [s.cmd] + Commands(plan[1..]);
      if StepPasses(s, r) {
        InterpretTraceInOrder(exec, plan[1..]);
        assert t[1..] == Interpret(exec, plan[1..]).trace;
      } else if s.bestEffort {
        var rest, tail := plan[1..], AfterBlock(plan);
        var j := |rest| - |tail|;
        assert rest[j..] == tail;
        InterpretTraceInOrder(exec, tail);
        CommandsSplit(rest, j);
        SubsequencePrefixRight(Interpret(exec, tail).trace, Commands(tail), Commands(rest[..j]));
        assert t[1..] == Interpret(exec, tail).trace;
      } else {
        assert t[1..] == [];
      }
    }
  }

  /** The run never settles as `Stuck`, and it resolves exactly when every
      step that is not best-effort passes: failures of best-effort steps
      never matter. */
  lemma {:induction false} InterpretResolvedIff(exec: Executor, plan: seq<Planned>)
    ensures Interpret(exec, plan).outcome != Stuck
    ensures Interpret(exec, plan).outcome == Resolved <==> RequiredPass(exec, plan)
    decreases |plan|
  {
    if plan != [] {
      var s, r := plan[0], exec(plan[0].cmd);
      if StepPasses(s, r) {
        assert Interpret(exec, plan) == Prepend(s.cmd, Interpret(exec, plan[1..]));
        InterpretResolvedIff(exec, plan[1..]);
        RequiredPassAfterPass(exec, plan);
      } else if s.bestEffort {
        assert Interpret(exec, plan) == Prepend(s.cmd, Interpret(exec, AfterBlock(plan)));
        InterpretResolvedIff(exec, AfterBlock(plan));
        RequiredPassAfterSkip(exec, plan);
      } else {
        assert !RequiredPass(exec, plan) by {
          assert plan[0] == s;
        }
      }
    }
  }

  lemma {:induction false} RequiredPassAfterPass(exec: Executor, plan: seq<Planned>)
    requires plan != [] && StepPasses(plan[0], exec(plan[0].cmd))
    ensures RequiredPass(exec, plan) <==> RequiredPass(exec, plan[1..])
  {
    var rest := plan[1..];
    if RequiredPass(exec, rest) {
      forall k | 0 < k < |plan| ensures plan[k] == rest[k - 1] { }
    }
    if RequiredPass(exec, plan) {
      forall k | 0 <= k < |rest| && !rest[k].bestEffort
        ensures StepPasses(rest[k], exec(rest[k].cmd))
      {
        assert rest[k] == plan[k + 1];
      }
    }
  }

  lemma {:induction false} RequiredPassAfterSkip(exec: Executor, plan: seq<Planned>)
    requires plan != [] && plan[0].bestEffort
    ensures RequiredPass(exec, plan) <==> RequiredPass(exec, AfterBlock(plan))
  {
    var tail := AfterBlock(plan);
    var j := |plan| - |tail|;
    if RequiredPass(exec, tail) {
      forall k | 0 <= k < |plan| && !plan[k].bestEffort
        ensures StepPasses(plan[k], exec(plan[k].cmd))
      {
        assert plan[k] == tail[k - j];
      }
    }
    if RequiredPass(exec, plan) {
      forall k | 0 <= k < |tail| && !tail[k].bestEffort
        ensures StepPasses(tail[k], exec(tail[k].cmd))
      {
        assert tail[k] == plan[k + j];
      }
    }
  }

  /** When every step passes, every command of the plan is issued, in order,
      and the run resolves. */
  lemma {:induction false} InterpretAllPass(exec: Executor, plan: seq<Planned>)
    requires AllPass(exec, plan)
    ensures Interpret(exec, plan) == Run(Commands(plan), Resolved)
    decreases |plan|
  {
    if plan != [] {
      var rest := plan[1..];
      assert StepPasses(plan[0], exec(plan[0].cmd));
      assert AllPass(exec, rest) by {
        forall k | 0 <= k < |rest| ensures StepPasses(rest[k], exec(rest[k].cmd)) {
          assert rest[k] == plan[k + 1];
        }
      }
      InterpretAllPass(exec, rest);
      assert Commands(plan) == [plan[0].cmd] + Commands(rest);
    }
  }

  /** A rejected run stopped at a step k that is not best-effort and whose
      failure was not tolerated; the rejection carries that failure's text,
      the last command issued is that step's, and every command issued belongs
      to the plan up to and including step k. */
  lemma {:induction false} InterpretRejectedAt(exec: Executor, plan: seq<Planned>)
    requires Interpret(exec, plan).outcome.Rejected?
    ensures exists k :: 0 <= k < |plan| && RejectedAt(exec, plan, k)
    decreases |plan|
  {
    var s, r := plan[0], exec(plan[0].cmd);
    var rest := plan[1..];
    if StepPasses(s, r) {
      assert Interpret(exec, plan) == Prepend(s.cmd, Interpret(exec, rest));
      InterpretRejectedAt(exec, rest);
      var k' :| 0 <= k' < |rest| && RejectedAt(exec, rest, k');
      RejectedAtShift(exec, plan, 1, k');
    } else if s.bestEffort {
      var tail := AfterBlock(plan);
      assert Interpret(exec, plan) == Prepend(s.cmd, Interpret(exec, tail));
      InterpretRejectedAt(exec, tail);
      var k' :| 0 <= k' < |tail| && RejectedAt(exec, tail, k');
      RejectedAtShift(exec, plan, |plan| - |tail|, k');
    } else {
      assert Commands(plan[..1]) == [s.cmd];
      assert RejectedAt(exec, plan, 0);
    }
  }

  /** When the run of a plan is its first command followed by the run of the
      plan from step n on, a stopping point k' of the latter is the stopping
      point k' + n of the former. */
  lemma {:induction false} RejectedAtShift(exec: Executor, plan: seq<Planned>, n: nat, k': int)
    requires 1 <= n <= |plan|
    requires Interpret(exec, plan) == Prepend(plan[0].cmd, Interpret(exec, plan[n..]))
    requires 0 <= k' < |plan| - n && RejectedAt(exec, plan[n..], k')
    ensures RejectedAt(exec, plan, k' + n)
  {
    var c, tail, k := plan[0].cmd, plan[n..], k' + n;
    assert tail[k'] == plan[k];
    var t' := Interpret(exec, tail).trace;
    CommandsAfterSkip(plan, n, k');
    SubsequencePrefixRight(t', Commands(tail[..k' + 1]), Commands(plan[1..n]));
    assert ([c] + t')[1..] == t';
  }

  lemma CommandsAfterSkip(plan: seq<Planned>, n: nat, k': nat)
    requires 1 <= n && k' + n < |plan|
    ensures Commands(plan[..k' + n + 1]) ==
      [plan[0].cmd] + (Commands(plan[1..n]) + Commands(plan[n..][..k' + 1]))
  {
    assert plan[..k' + n + 1] == [plan[0]] + plan[1..n] + plan[n..][..k' + 1];
  }

  ghost predicate RejectedAt(exec: Executor, plan: seq<Planned>, k: int)
    requires 0 <= k < |plan|
  {
    var run := Interpret(exec, plan);
    && !plan[k].bestEffort
    && !StepPasses(plan[k], exec(plan[k].cmd))
    && run.outcome == Rejected(CommandFailed(exec(plan[k].cmd).text))
    && run.trace != []
    && run.trace[|run.trace| - 1] == plan[k].cmd
    && IsSubsequence(run.trace, Commands(plan[..k + 1]))
  }

  /** A best-effort block has no say in how a plan settles: a plan that
      starts with one settles like what follows the block. */
  lemma {:induction false} BlockOutcome(exec: Executor, plan: seq<Planned>)
    requires plan != [] && plan[0].bestEffort
    ensures Interpret(exec, plan).outcome == Interpret(exec, AfterBlock(plan)).outcome
    decreases |plan|
  {
    var s, rest := plan[0], plan[1..];
    if StepPasses(s, exec(s.cmd)) {
      assert Interpret(exec, plan) == Prepend(s.cmd, Interpret(exec, rest));
      if rest != [] && rest[0].bestEffort {
        BlockOutcome(exec, rest);
        assert rest[1..] == plan[2..];
        assert AfterBlock(rest) == AfterBlock(plan);
      } else {
        assert AfterBlock(plan) == rest;
      }
    }
  }

  /** Two executors that agree on every step that is not best-effort lead to
      the same outcome. */
  lemma {:induction false} OutcomeOnRequired(exec1: Executor, exec2: Executor, plan: seq<Planned>)
    requires forall i :: 0 <= i < |plan| && !plan[i].bestEffort ==> exec1(plan[i].cmd) == exec2(plan[i].cmd)
    ensures Interpret(exec1, plan).outcome == Interpret(exec2, plan).outcome
    decreases |plan|
  {
    if plan != [] {
      var s := plan[0];
      if s.bestEffort {
        var tail := AfterBlock(plan);
        BlockOutcome(exec1, plan);
        BlockOutcome(exec2, plan);
        forall i | 0 <= i < |tail| && !tail[i].bestEffort
          ensures exec1(tail[i].cmd) == exec2(tail[i].cmd)
        {
          assert tail[i] == plan[i + |plan| - |tail|];
        }
        OutcomeOnRequired(exec1, exec2, tail);
      } else {
        assert exec1(s.cmd) == exec2(s.cmd);
        var rest := plan[1..];
        if StepPasses(s, exec1(s.cmd)) {
          forall i | 0 <= i < |rest| && !rest[i].bestEffort
            ensures exec1(rest[i].cmd) == exec2(rest[i].cmd)
          {
            assert rest[i] == plan[i + 1];
          }
          OutcomeOnRequired(exec1, exec2, rest);
        }
      }
    }
  }

  /** With no command planned twice, a run that rejects stops at a step k
      and issues no command of a later step. */
  lemma {:induction false} InterpretStopsAtFirstFailure(exec: Executor, plan: seq<Planned>)
    requires Distinct(Commands(plan))
    requires Interpret(exec, plan).outcome.Rejected?
    ensures exists k :: 0 <= k < |plan| && RejectedAt(exec, plan, k) &&
                        forall j :: k < j < |plan| ==> plan[j].cmd !in Interpret(exec, plan).trace
  {
    var t := Interpret(exec, plan).trace;
    InterpretRejectedAt(exec, plan);
    var k :| 0 <= k < |plan| && RejectedAt(exec, plan, k);
    var done, cs := Commands(plan[..k + 1]), Commands(plan);
    SubsequenceElements(t, done);
    forall j | k < j < |plan| ensures plan[j].cmd !in t {
      forall i | 0 <= i < |done| ensures done[i] != plan[j].cmd {
        assert done[i] == cs[i] && cs[i] != cs[j];
      }
    }
  }

  /** Running two plans one after the other is running their concatenation,
      unless a failure in a trailing best-effort block of the first would skip
      into a best-effort block at the start of the second. */
  lemma {:induction false} InterpretAppend(exec: Executor, a: seq<Planned>, b: seq<Planned>)
    requires b == [] || !b[0].bestEffort || forall i :: 0 <= i < |a| ==> !a[i].bestEffort
    ensures Interpret(exec, a + b) == AndThen(Interpret(exec, a), Interpret(exec, b))
    decreases |a|
  {
    if a == [] {
      assert a + b == b;
    } else {
      var s, r := a[0], exec(a[0].cmd);
      if StepPasses(s, r) {
        assert b == [] || !b[0].bestEffort || forall i :: 0 <= i < |a[1..]| ==> !a[1..][i].bestEffort by {
          if forall i :: 0 <= i < |a| ==> !a[i].bestEffort {
            forall i | 0 <= i < |a[1..]| ensures !a[1..][i].bestEffort {
              assert a[1..][i] == a[i + 1];
            }
          }
        }
        InterpretAppend(exec, a[1..], b);
        AppendAfterPass(exec, a, b);
      } else if s.bestEffort {
        assert !(forall i :: 0 <= i < |a| ==> !a[i].bestEffort);
        AfterBlockAppend(a, b);
        InterpretAppend(exec, AfterBlock(a), b);
        AppendAfterSkip(exec, a, b);
      } else {
        var ab := a + b;
        assert ab[0] == s;
        assert Interpret(exec, ab) == Run([s.cmd], Rejected(CommandFailed(r.text)));
      }
    }
  }

  /** The step of `InterpretAppend` for a passing first step. */
  lemma {:induction false} AppendAfterPass(exec: Executor, a: seq<Planned>, b: seq<Planned>)
    requires a != [] && StepPasses(a[0], exec(a[0].cmd))
    requires Interpret(exec, a[1..] + b) == AndThen(Interpret(exec, a[1..]), Interpret(exec, b))
    ensures Interpret(exec, a + b) == AndThen(Interpret(exec, a), Interpret(exec, b))
  {
    var ab := a + b;
    assert ab[0] == a[0];
    assert ab[1..] == a[1..] + b;
    AndThenPrepend(a[0].cmd, Interpret(exec, a[1..]), Interpret(exec, b));
  }

  /** The step of `InterpretAppend` for a failing best-effort first step
      whose block ends inside `a`. */
  lemma {:induction false} AppendAfterSkip(exec: Executor, a: seq<Planned>, b: seq<Planned>)
    requires a != [] && !StepPasses(a[0], exec(a[0].cmd)) && a[0].bestEffort
    requires AfterBlock(a + b) == AfterBlock(a) + b
    requires Interpret(exec, AfterBlock(a) + b) == AndThen(Interpret(exec, AfterBlock(a)), Interpret(exec, b))
    ensures Interpret(exec, a + b) == AndThen(Interpret(exec, a), Interpret(exec, b))
  {
    assert (a + b)[0] == a[0];
    AndThenPrepend(a[0].cmd, Interpret(exec, AfterBlock(a)), Interpret(exec, b));
  }

  /** The block that starts `a` ends inside `a` when `b` does not start
      with a best-effort step. */
  lemma AfterBlockAppend(a: seq<Planned>, b: seq<Planned>)
    requires a != [] && (b == [] || !b[0].bestEffort)
    ensures AfterBlock(a + b) == AfterBlock(a) + b
  {
    var ab := a + b;
    assert ab[1..] == a[1..] + b;
    var j := LeadingBestEffortAppend(a[1..], b);
    assert ab[1 + j..] == a[1 + j..] + b;
  }

  lemma AndThenPrepend(c: Command, x: Run, y: Run)
    ensures AndThen(Prepend(c, x), y) == Prepend(c, AndThen(x, y))
  {
    if x.outcome == Resolved {
      assert [c] + x.trace + y.trace == [c] + (x.trace + y.trace);
    }
  }

  /** Skipping the leading best-effort steps of `x + b` stops inside `x`, or
      exactly at `b` when `b` does not start with a best-effort step. */
  lemma {:induction false} LeadingBestEffortAppend(x: seq<Planned>, b: seq<Planned>) returns (j: nat)
    requires b == [] || !b[0].bestEffort
    ensures j == LeadingBestEffort(x) == LeadingBestEffort(x + b)
    decreases |x|
  {
    j := LeadingBestEffort(x);
    if x == [] {
      assert x + b == b;
    } else {
      assert (x + b)[0] == x[0];
      assert (x + b)[1..] == x[1..] + b;
      if x[0].bestEffort {
        var j' := LeadingBestEffortAppend(x[1..], b);
      }
    }
  }

  /** A plan of one strict step settles like the bare command. */
  lemma {:induction false} InterpretStrictSingle(exec: Executor, s: Planned)
    requires s.tolerance == Strict && !s.bestEffort
    ensures Interpret(exec, [s]) == Run([s.cmd], Settle(exec(s.cmd)))
  {
    assert [s][1..] == [];
    assert [s.cmd] + [] == [s.cmd];
  }

  /** One step of the interpreter on a step that is not best-effort. */
  lemma {:induction false} InterpretRequiredCons(exec: Executor, s: Planned, rest: seq<Planned>)
    requires !s.bestEffort
    ensures Interpret(exec, [s] + rest) ==
      if StepPasses(s, exec(s.cmd)) then Prepend(s.cmd, Interpret(exec, rest))
      else Run([s.cmd], Rejected(CommandFailed(exec(s.cmd).text)))
  {
    assert ([s] + rest)[0] == s;
    assert ([s] + rest)[1..] == rest;
  }
}

/** The executor: actions are announced one by one with their position, run
    against the connection unless this is a dry run, and summarised at the end.
    The first action that fails ends the run, and no summary is produced. */
module Executor {
  import opened Wrappers
  import opened Collections
  import opened Records
  import opened Actions
  import opened Connection
  import opened Execution
  import opened Summary

  /** One progress line: "Action <num>/<total>: <action>". */
  datatype Progress = Progress(num: nat, total: nat, action: Action)

  /** Running one action, as a step. */
  function Executing(rejects: Call -> bool, groupIds: Value -> seq<string>, isCidr: Value -> bool): Action -> Run {
    a => Outcome(rejects, Plan(a, groupIds, isCidr))
  }

  /** Running the actions in order until one fails: a run that does not fail
      resolved every action. */
  function RunActions(rejects: Call -> bool, groupIds: Value -> seq<string>, isCidr: Value -> bool,
                      acts: seq<Action>): (r: Run)
    ensures r.error.None? ==> forall a :: a in acts ==> Plan(a, groupIds, isCidr).Ok?
  {
    Steps(Executing(rejects, groupIds, isCidr), acts)
  }

  /** The calls the actions plan, one plan after the other. */
  function Planned(groupIds: Value -> seq<string>, isCidr: Value -> bool, acts: seq<Action>): seq<Call>
    requires forall a :: a in acts ==> Plan(a, groupIds, isCidr).Ok?
  {
    if acts == [] then []
    else
      assert forall a :: a in acts[..|acts| - 1] ==> a in acts;
      Planned(groupIds, isCidr, acts[..|acts| - 1]) + Plan(acts[|acts| - 1], groupIds, isCidr).value
  }

  /** The progress lines for the first `n` actions. */
  function Announced(acts: seq<Action>, n: nat): (ps: seq<Progress>)
    requires n <= |acts|
    ensures |ps| == n && forall i :: 0 <= i < n ==> ps[i] == Progress(i + 1, |acts|, acts[i])
  {
    seq(n, i requires 0 <= i < n => Progress(i + 1, |acts|, acts[i]))
  }

  /** Announcing one more action adds its line at the end. */
  lemma AnnouncedSnoc(acts: seq<Action>, i: nat)
    requires i < |acts|
    ensures Announced(acts, i + 1) == Announced(acts, i) + [Progress(i + 1, |acts|, acts[i])]
  {
  }

  /** The `k`-th action is the one that fails: the actions before it all
      succeed, and it does not. */
  ghost predicate FailsAt(rejects: Call -> bool, groupIds: Value -> seq<string>, isCidr: Value -> bool,
                          acts: seq<Action>, k: nat)
    requires k < |acts|
  {
    RunActions(rejects, groupIds, isCidr, acts[..k]).error.None? &&
    RunActions(rejects, groupIds, isCidr, acts[..k + 1]).error.Some?
  }

  /** An action whose rule cannot be resolved issues no call: the run stops at
      it, keeping the calls of the actions before it and reporting its error. */
  lemma {:induction false} AbortsAtInvalidAction(rejects: Call -> bool, groupIds: Value -> seq<string>,
                                                 isCidr: Value -> bool, acts: seq<Action>, k: nat)
    requires k < |acts| && Plan(acts[k], groupIds, isCidr).Err?
    requires RunActions(rejects, groupIds, isCidr, acts[..k]).error.None?
    ensures RunActions(rejects, groupIds, isCidr, acts) ==
      Run(RunActions(rejects, groupIds, isCidr, acts[..k]).calls, Some(Plan(acts[k], groupIds, isCidr).error))
  {
    var step := Executing(rejects, groupIds, isCidr);
    assert acts[..k + 1] == acts[..k] + [acts[k]];
    StepsSnoc(step, acts[..k], acts[k]);
    assert RunActions(rejects, groupIds, isCidr, acts[..k]).calls + [] ==
           RunActions(rejects, groupIds, isCidr, acts[..k]).calls;
    StepsStopAtFailure(step, acts[..k + 1], acts);
  }

  /** With a provider that accepts everything and actions that all resolve,
      every planned call is issued, in order, and nothing fails. */
  lemma {:induction false} RunAllAccepted(groupIds: Value -> seq<string>, isCidr: Value -> bool, acts: seq<Action>)
    requires forall a :: a in acts ==> Plan(a, groupIds, isCidr).Ok?
    ensures RunActions(c => false, groupIds, isCidr, acts) == Run(Planned(groupIds, isCidr, acts), None)
  {
    if acts != [] {
      var init, last := acts[..|acts| - 1], acts[|acts| - 1];
      assert forall a :: a in init ==> a in acts;
      RunAllAccepted(groupIds, isCidr, init);
      PerformAccepted(c => false, Plan(last, groupIds, isCidr).value);
    }
  }

  /** Running one more action after a successful prefix issues its calls and
      ends as it ends; when it fails, nothing after it runs. */
  lemma RunActionsSnoc(rejects: Call -> bool, groupIds: Value -> seq<string>, isCidr: Value -> bool,
                       acts: seq<Action>, i: nat)
    requires i < |acts| && RunActions(rejects, groupIds, isCidr, acts[..i]).error.None?
    ensures var now := Outcome(rejects, Plan(acts[i], groupIds, isCidr));
      RunActions(rejects, groupIds, isCidr, acts[..i + 1]) ==
        Run(RunActions(rejects, groupIds, isCidr, acts[..i]).calls + now.calls, now.error)
    ensures var now := Outcome(rejects, Plan(acts[i], groupIds, isCidr));
      now.error.Some? ==> RunActions(rejects, groupIds, isCidr, acts) == RunActions(rejects, groupIds, isCidr, acts[..i + 1])
  {
    var step := Executing(rejects, groupIds, isCidr);
    assert acts[..i + 1] == acts[..i] + [acts[i]];
    StepsSnoc(step, acts[..i], acts[i]);
    if step(acts[i]).error.Some? {
      StepsStopAtFailure(step, acts[..i + 1], acts);
    }
  }

  /** The executor loop. A dry run issues no call and always produces the
      summary of all the actions; otherwise the trace grows by the calls of the
      run, and the summary is produced only when no action failed. Every
      action up to and including the one that failed is announced first. */
  method Execute(conn: Connector, isCidr: Value -> bool, acts: seq<Action>, dryRun: bool)
    returns (progress: seq<Progress>, outcome: Result<string, ExecError>)
    modifies conn
    ensures dryRun ==> conn.trace == old(conn.trace) && outcome.Ok?
    ensures !dryRun ==>
      conn.trace == old(conn.trace) + RunActions(conn.rejects, conn.groupIds, isCidr, acts).calls
    ensures outcome.Ok? <==> dryRun || RunActions(conn.rejects, conn.groupIds, isCidr, acts).error.None?
    ensures outcome.Ok? ==> outcome.value == Render(Tally(acts)) && progress == Announced(acts, |acts|)
    ensures outcome.Err? ==> outcome.error == RunActions(conn.rejects, conn.groupIds, isCidr, acts).error.value
    ensures outcome.Err? ==> 1 <= |progress| <= |acts| && progress == Announced(acts, |progress|)
    ensures outcome.Err? ==> FailsAt(conn.rejects, conn.groupIds, isCidr, acts, |progress| - 1)
  {
    progress := [];
    var i := 0;
    while i < |acts|
      invariant 0 <= i <= |acts|
      invariant progress == Announced(acts, i)
      invariant dryRun ==> conn.trace == old(conn.trace)
      invariant !dryRun ==> conn.trace == old(conn.trace) + RunActions(conn.rejects, conn.groupIds, isCidr, acts[..i]).calls
      invariant !dryRun ==> RunActions(conn.rejects, conn.groupIds, isCidr, acts[..i]).error.None?
    {
      AnnouncedSnoc(acts, i);
      progress := progress + [Progress(i + 1, |acts|, acts[i])];
      if !dryRun {
        ghost var done := RunActions(conn.rejects, conn.groupIds, isCidr, acts[..i]).calls;
        ghost var now := Outcome(conn.rejects, Plan(acts[i], conn.groupIds, isCidr)).calls;
        RunActionsSnoc(conn.rejects, conn.groupIds, isCidr, acts, i);
        ConcatAssoc(old(conn.trace), done, now);
        var err := Apply(conn, isCidr, acts[i]);
        if err.Some? {
          return progress, Err(err.value);
        }
      }
      i := i + 1;
    }
    assert acts[..i] == acts;
    var summary := Summarise(acts);
    return progress, Ok(summary);
  }

  /** `print(Changes(actions))`: the summary of every action. */
  method Summarise(acts: seq<Action>) returns (s: string)
    ensures s == Render(Tally(acts))
  {
    var changes := new Changes(acts);
    s := changes.Repr();
  }
}

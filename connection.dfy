/** The provider connection as the actions see it: the calls they issue, a
    connector that records every call and answers each with success or
    failure, and the semantics of issuing a list of calls until one fails. */
module Connection {
  import opened Wrappers
  import opened Collections
  import opened Records

  /** The four rule operations of the provider API: authorize or revoke, on
      inbound (ingress) or outbound (egress) traffic. */
  datatype RuleOp = AuthorizeIngress | AuthorizeEgress | RevokeIngress | RevokeEgress

  /** The other end of a rule call: a CIDR (`cidr_ip`), or a source group id
      passed under the keyword `src_group_id` or under the alternative keyword
      `src_security_group_group_id`. */
  datatype Source = CidrIp(cidr: Value) | SrcGroupId(id: string) | SrcSecurityGroupGroupId(id: string)

  /** One mutating call on the connection. */
  datatype Call =
    | CreateSecurityGroupCall(name: string, desc: string)
    | ModifyInstanceAttributeCall(instance: string, attr: string, value: set<string>)
    | RuleCall(op: RuleOp, groupId: string, protocol: Value, fromPort: int, toPort: int, source: Source)

  /** Why executing an action stops: a rule direction other than inbound or
      outbound, a `ports` value that is set but is not a port range, or a call
      the provider rejected. */
  datatype ExecError = InvalidDirection(direction: Value) | MalformedPorts(ports: Value) | Rejected(call: Call)

  /** The calls issued, in order, and the error that ended the run, if any. */
  datatype Run = Run(calls: seq<Call>, error: Option<ExecError>)

  /** Run `first`, then `next` unless `first` failed. */
  function Then(first: Run, next: Run): (r: Run)
    ensures first.error.Some? ==> r == first
    ensures first.error.None? ==> r.calls == first.calls + next.calls && r.error == next.error
  {
    if first.error.Some? then first else Run(first.calls + next.calls, next.error)
  }

  /** Run `step` on each element of `xs` in order, stopping at the first
      failure: a run that does not fail ran every step without failure. */
  function Steps<T>(step: T -> Run, xs: seq<T>): (r: Run)
    ensures r.error.None? ==> forall x :: x in xs ==> step(x).error.None?
  {
    if xs == [] then Run([], None)
    else
      assert forall x :: x in xs ==> x in xs[..|xs| - 1] || x == xs[|xs| - 1];
      Then(Steps(step, xs[..|xs| - 1]), step(xs[|xs| - 1]))
  }

  /** Nothing after a failure runs: once a prefix of `ys` has failed, the whole
      of `ys` gives the same calls and the same error. */
  lemma {:induction false} StepsStopAtFailure<T>(step: T -> Run, xs: seq<T>, ys: seq<T>)
    requires xs <= ys && Steps(step, xs).error.Some?
    ensures Steps(step, ys) == Steps(step, xs)
    decreases |ys|
  {
    if |ys| > |xs| {
      var init := ys[..|ys| - 1];
      assert xs <= init;
      StepsStopAtFailure(step, xs, init);
    } else {
      assert xs == ys;
    }
  }

  /** Running a list extended by one element runs the list, then the element. */
  lemma StepsSnoc<T>(step: T -> Run, xs: seq<T>, x: T)
    ensures Steps(step, xs + [x]) == Then(Steps(step, xs), step(x))
  {
    assert (xs + [x])[..|xs|] == xs;
  }

  /** Running a run after an empty success changes nothing. */
  lemma ThenOne(first: Run, next: Run)
    requires first == Run([], None)
    ensures Then(first, next) == next
  {
    assert [] + next.calls == next.calls;
  }

  /** Sequencing runs is associative. */
  lemma ThenAssoc(a: Run, b: Run, c: Run)
    ensures Then(Then(a, b), c) == Then(a, Then(b, c))
  {
    if a.error.None? && b.error.None? {
      ConcatAssoc(a.calls, b.calls, c.calls);
    }
  }

  /** Running a concatenation runs the first part, then the second. */
  lemma {:induction false} StepsAppend<T>(step: T -> Run, xs: seq<T>, ys: seq<T>)
    ensures Steps(step, xs + ys) == Then(Steps(step, xs), Steps(step, ys))
    decreases |ys|
  {
    if ys == [] {
      assert xs + ys == xs;
      assert Steps(step, xs).calls + [] == Steps(step, xs).calls;
    } else {
      var init, y := ys[..|ys| - 1], ys[|ys| - 1];
      assert ys == init + [y];
      assert xs + ys == (xs + init) + [y];
      StepsAppend(step, xs, init);
      StepsSnoc(step, xs + init, y);
      StepsSnoc(step, init, y);
      ThenAssoc(Steps(step, xs), Steps(step, init), step(y));
    }
  }

  /** `src_group_id` is retried once as `src_security_group_group_id`; no other
      call is retried. */
  function Retry(c: Call): (alt: Option<Call>)
    ensures alt.Some? <==> c.RuleCall? && c.source.SrcGroupId?
    ensures alt.Some? ==> alt.value == c.(source := SrcSecurityGroupGroupId(c.source.id))
  {
    if c.RuleCall? && c.source.SrcGroupId? then Some(c.(source := SrcSecurityGroupGroupId(c.source.id)))
    else None
  }

  /** One call, with the retry: it succeeds when the call is accepted, or when
      it is rejected, has a retry, and the retry is accepted. */
  function Attempt(rejects: Call -> bool, c: Call): (r: Run)
    ensures 1 <= |r.calls| <= 2 && r.calls[0] == c
    ensures |r.calls| == 2 <==> rejects(c) && Retry(c).Some?
    ensures |r.calls| == 2 ==> r.calls[1] == Retry(c).value
    ensures r.error.None? <==> !rejects(c) || (Retry(c).Some? && !rejects(Retry(c).value))
    ensures r.error.Some? ==> r.error.value == Rejected(r.calls[|r.calls| - 1])
  {
    if !rejects(c) then Run([c], None)
    else
      match Retry(c)
      case None => Run([c], Some(Rejected(c)))
      case Some(alt) => Run([c, alt], if rejects(alt) then Some(Rejected(alt)) else None)
  }

  /** Issue the calls `cs` in order, each with its retry, stopping at the first
      failure. */
  function Perform(rejects: Call -> bool, cs: seq<Call>): Run {
    Steps(Attempter(rejects), cs)
  }

  /** Attempting calls against one provider, as a step. */
  function Attempter(rejects: Call -> bool): Call -> Run {
    c => Attempt(rejects, c)
  }

  /** After a successful prefix, issuing a further batch issues its calls and
      ends as the batch ends; when the batch fails, nothing after it runs. */
  lemma PerformExtend(rejects: Call -> bool, done: seq<Call>, batch: seq<Call>, whole: seq<Call>)
    requires Perform(rejects, done).error.None? && done + batch <= whole
    ensures Perform(rejects, done + batch).calls == Perform(rejects, done).calls + Perform(rejects, batch).calls
    ensures Perform(rejects, done + batch).error == Perform(rejects, batch).error
    ensures Perform(rejects, batch).error.Some? ==> Perform(rejects, whole) == Perform(rejects, done + batch)
  {
    StepsAppend(Attempter(rejects), done, batch);
    if Perform(rejects, batch).error.Some? {
      StepsStopAtFailure(Attempter(rejects), done + batch, whole);
    }
  }

  /** Issuing one call is one attempt. */
  lemma PerformOne(rejects: Call -> bool, c: Call)
    ensures Perform(rejects, [c]) == Attempt(rejects, c)
  {
    assert [c][..0] == [];
    ThenOne(Perform(rejects, []), Attempt(rejects, c));
  }

  /** When the provider accepts every call, exactly the planned calls are issued
      and nothing fails. */
  lemma {:induction false} PerformAccepted(rejects: Call -> bool, cs: seq<Call>)
    requires forall c :: c in cs ==> !rejects(c)
    ensures Perform(rejects, cs) == Run(cs, None)
  {
    if cs != [] {
      var init := cs[..|cs| - 1];
      assert forall c :: c in init ==> c in cs;
      PerformAccepted(rejects, init);
      assert init + [cs[|cs| - 1]] == cs;
    }
  }

  /** The connection: the calls issued so far, which calls the provider rejects,
      and the name-to-ids lookup (`util.get_sgid`) it answers. */
  class Connector {
    var trace: seq<Call>
    const rejects: Call -> bool
    const groupIds: Value -> seq<string>

    constructor (rejects: Call -> bool, groupIds: Value -> seq<string>)
      ensures trace == [] && this.rejects == rejects && this.groupIds == groupIds
    {
      this.trace := [];
      this.rejects := rejects;
      this.groupIds := groupIds;
    }

    /** Issue one call; it is recorded whether or not the provider accepts it. */
    method Send(c: Call) returns (ok: bool)
      modifies this
      ensures trace == old(trace) + [c]
      ensures ok == !rejects(c)
    {
      trace := trace + [c];
      ok := !rejects(c);
    }
  }
}

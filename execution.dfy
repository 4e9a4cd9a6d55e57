/** Executing one action against the connection. Rule actions resolve the
    wildcards first (protocol "all" as -1, location "all" as 0.0.0.0/0, no
    ports as -1..-1), pick authorize or revoke and ingress or egress from the
    direction, and fan out one call per id of the target group and, when the
    location is not a CIDR, per id of the source group. */
module Execution {
  import opened Wrappers
  import opened Collections
  import opened Records
  import opened Rules
  import opened Actions
  import opened Connection

  /** A rule resolved for the wire. */
  datatype Request = Request(op: RuleOp, protocol: Value, fromPort: int, toPort: int, location: Value)

  /** The operation for a direction: revoke for removals, authorize for
      additions; ingress for "inbound", egress for "outbound"; any other
      direction is an error. */
  function OpFor(remove: bool, direction: Value): (r: Result<RuleOp, ExecError>)
    ensures r.Err? <==> direction != Text("inbound") && direction != Text("outbound")
    ensures r.Err? ==> r.error == InvalidDirection(direction)
    ensures r.Ok? ==> (r.value == RevokeIngress || r.value == RevokeEgress) == remove
    ensures r.Ok? ==> (r.value == AuthorizeIngress || r.value == RevokeIngress) == (direction == Text("inbound"))
  {
    if direction == Text("inbound") then Ok(if remove then RevokeIngress else AuthorizeIngress)
    else if direction == Text("outbound") then Ok(if remove then RevokeEgress else AuthorizeEgress)
    else Err(InvalidDirection(direction))
  }

  /** The protocol sent: the sentinel "all" becomes the provider wildcard -1;
      anything else is sent as it is. */
  function WireProtocol(p: Value): (w: Value)
    ensures w != Text("all")
    ensures p != Text("all") ==> w == p
  {
    if p == Text("all") then Num(-1) else p
  }

  /** The location sent: the sentinel "all" becomes the CIDR 0.0.0.0/0. */
  function WireLocation(l: Value): (w: Value)
    ensures w != Text("all")
    ensures l != Text("all") ==> w == l
  {
    if l == Text("all") then Text("0.0.0.0/0") else l
  }

  /** The port bounds sent: -1 and -1 when no ports are set (any false value),
      the bounds of a port range; anything else set is an error (it has no
      bounds to read). */
  function WirePorts(p: Value): (r: Result<(int, int), ExecError>)
    ensures r.Err? <==> Truthy(p) && !p.Range?
    ensures !Truthy(p) ==> r == Ok((-1, -1))
    ensures p.Range? ==> r == Ok((p.fromport, p.toport))
  {
    if !Truthy(p) then Ok((-1, -1))
    else if p.Range? then Ok((p.fromport, p.toport))
    else Err(MalformedPorts(p))
  }

  /** Resolves a rule: the direction is checked before anything else. */
  function Resolve(remove: bool, rule: Rule): (r: Result<Request, ExecError>)
    ensures OpFor(remove, rule.direction).Err? ==> r == Err(InvalidDirection(rule.direction))
  {
    var op :- OpFor(remove, rule.direction);
    var ports :- WirePorts(rule.ports);
    Ok(Request(op, WireProtocol(rule.protocol), ports.0, ports.1, WireLocation(rule.location)))
  }

  /** The call for target group `gid` and source `src`. */
  function CallTo(q: Request, gid: string, src: Source): Call {
    RuleCall(q.op, gid, q.protocol, q.fromPort, q.toPort, src)
  }

  /** One call per source group id. */
  function SourceCalls(q: Request, gid: string, srcs: seq<string>): (cs: seq<Call>)
    ensures |cs| == |srcs|
    ensures forall j :: 0 <= j < |srcs| ==> cs[j] == CallTo(q, gid, SrcGroupId(srcs[j]))
  {
    seq(|srcs|, j requires 0 <= j < |srcs| => CallTo(q, gid, SrcGroupId(srcs[j])))
  }

  /** Call `c` is the resolved rule `q` sent to one of the target ids `gids`:
      same operation, protocol and ports. */
  predicate Carries(q: Request, gids: seq<string>, c: Call) {
    c.RuleCall? && c.groupId in gids && c.op == q.op && c.protocol == q.protocol &&
    c.fromPort == q.fromPort && c.toPort == q.toPort
  }

  /** The calls for one target group id: one CIDR call when the location is a
      CIDR, else one call per source group id. */
  function CallsFor(q: Request, gid: string, srcs: seq<string>, isCidr: Value -> bool): (cs: seq<Call>)
    ensures forall c :: c in cs ==> Carries(q, [gid], c)
  {
    if isCidr(q.location) then [CallTo(q, gid, CidrIp(q.location))] else SourceCalls(q, gid, srcs)
  }

  /** The calls for all target group ids, in order: each carries the resolved
      rule to one of the target ids. */
  function FanOut(q: Request, gids: seq<string>, srcs: seq<string>, isCidr: Value -> bool): (cs: seq<Call>)
    ensures forall c :: c in cs ==> Carries(q, gids, c)
  {
    if gids == [] then []
    else
      var init, last := gids[..|gids| - 1], gids[|gids| - 1];
      assert forall g :: g in init ==> g in gids;
      FanOut(q, init, srcs, isCidr) + CallsFor(q, last, srcs, isCidr)
  }

  /** The calls for one target group id are the resolved rule, sent to the
      CIDR when the location is one, otherwise once to every source group id. */
  lemma CallsForCalls(q: Request, gid: string, srcs: seq<string>, isCidr: Value -> bool, c: Call)
    ensures |CallsFor(q, gid, srcs, isCidr)| == if isCidr(q.location) then 1 else |srcs|
    ensures c in CallsFor(q, gid, srcs, isCidr) <==>
      if isCidr(q.location) then c == CallTo(q, gid, CidrIp(q.location))
      else exists s :: s in srcs && c == CallTo(q, gid, SrcGroupId(s))
  {
    if !isCidr(q.location) && c in CallsFor(q, gid, srcs, isCidr) {
      var j :| 0 <= j < |srcs| && SourceCalls(q, gid, srcs)[j] == c;
      assert srcs[j] in srcs;
    }
  }

  /** The fan-out has one batch of calls per target group id and nothing
      else. */
  lemma {:induction false} FanOutCalls(q: Request, gids: seq<string>, srcs: seq<string>, isCidr: Value -> bool, c: Call)
    ensures c in FanOut(q, gids, srcs, isCidr) <==> exists gid :: gid in gids && c in CallsFor(q, gid, srcs, isCidr)
  {
    if gids != [] {
      var init, last := gids[..|gids| - 1], gids[|gids| - 1];
      FanOutCalls(q, init, srcs, isCidr, c);
      assert gids == init + [last];
      if c in FanOut(q, gids, srcs, isCidr) {
        if c in CallsFor(q, last, srcs, isCidr) {
          assert last in gids;
        } else {
          var gid :| gid in init && c in CallsFor(q, gid, srcs, isCidr);
          assert gid in gids;
        }
      }
    }
  }

  /** One batch per target group id, each as long as the other. */
  lemma {:induction false} FanOutLength(q: Request, gids: seq<string>, srcs: seq<string>, isCidr: Value -> bool)
    ensures |FanOut(q, gids, srcs, isCidr)| == |gids| * (if isCidr(q.location) then 1 else |srcs|)
  {
    if gids != [] {
      var init, last := gids[..|gids| - 1], gids[|gids| - 1];
      FanOutLength(q, init, srcs, isCidr);
      var k := if isCidr(q.location) then 1 else |srcs|;
      CallsForCalls(q, last, srcs, isCidr, CallTo(q, last, CidrIp(q.location)));
      assert |gids| * k == |init| * k + k;
    }
  }

  /** Growing the target list only extends the fan-out. */
  lemma {:induction false} FanOutGrows(q: Request, gids: seq<string>, more: seq<string>, srcs: seq<string>,
                                       isCidr: Value -> bool)
    requires gids <= more
    ensures FanOut(q, gids, srcs, isCidr) <= FanOut(q, more, srcs, isCidr)
    decreases |more|
  {
    if |more| > |gids| {
      FanOutGrows(q, gids, more[..|more| - 1], srcs, isCidr);
    } else {
      assert gids == more;
    }
  }

  /** Taking one more target id adds its batch at the end, and stays a prefix
      of the whole fan-out. */
  lemma FanOutSnoc(q: Request, gids: seq<string>, srcs: seq<string>, isCidr: Value -> bool, i: nat)
    requires i < |gids|
    ensures FanOut(q, gids[..i + 1], srcs, isCidr) == FanOut(q, gids[..i], srcs, isCidr) + CallsFor(q, gids[i], srcs, isCidr)
    ensures FanOut(q, gids[..i + 1], srcs, isCidr) <= FanOut(q, gids, srcs, isCidr)
  {
    assert gids[..i + 1][..i] == gids[..i];
    FanOutGrows(q, gids[..i + 1], gids, srcs, isCidr);
  }

  /** Fanning out over a list that starts with `gid` sends the batch for `gid`
      first. */
  lemma {:induction false} FanOutCons(q: Request, gid: string, rest: seq<string>, srcs: seq<string>,
                                      isCidr: Value -> bool)
    ensures FanOut(q, [gid] + rest, srcs, isCidr) == CallsFor(q, gid, srcs, isCidr) + FanOut(q, rest, srcs, isCidr)
    decreases |rest|
  {
    var gids := [gid] + rest;
    if rest == [] {
      assert gids[..0] == [];
      assert [] + CallsFor(q, gid, srcs, isCidr) == CallsFor(q, gid, srcs, isCidr) + [];
    } else {
      var init := rest[..|rest| - 1];
      assert gids[..|gids| - 1] == [gid] + init;
      FanOutCons(q, gid, init, srcs, isCidr);
      var a, b, c := CallsFor(q, gid, srcs, isCidr), FanOut(q, init, srcs, isCidr),
                     CallsFor(q, rest[|rest| - 1], srcs, isCidr);
      ConcatAssoc(a, b, c);
    }
  }

  /** The location the inner loop of the fan-out leaves behind as written: its
      loop variable is the same `loc` that holds the resolved location, so after
      a non-CIDR batch with at least one source id it holds the last source
      id. */
  function NextLocation(loc: Value, groupIds: Value -> seq<string>, isCidr: Value -> bool): (next: Value)
    ensures isCidr(loc) || groupIds(loc) == [] ==> next == loc
    ensures !isCidr(loc) && groupIds(loc) != [] ==> next == Text(groupIds(loc)[|groupIds(loc)| - 1])
  {
    var srcs := groupIds(loc);
    if isCidr(loc) || srcs == [] then loc else Text(srcs[|srcs| - 1])
  }

  /** The fan-out as written: each target group id after the first is served
      with the location the previous one left behind, and its source ids are
      looked up from that. */
  function FanOutAsWritten(q: Request, gids: seq<string>, groupIds: Value -> seq<string>,
                           isCidr: Value -> bool): (cs: seq<Call>)
    ensures forall c :: c in cs ==> Carries(q, gids, c)
    decreases |gids|
  {
    if gids == [] then []
    else
      assert forall g :: g in gids[1..] ==> g in gids;
      CallsFor(q, gids[0], groupIds(q.location), isCidr) +
         FanOutAsWritten(q.(location := NextLocation(q.location, groupIds, isCidr)), gids[1..], groupIds, isCidr)
  }

  /** As written and as intended agree when the location is a CIDR (the loop
      variable is never rebound). */
  lemma {:induction false} AsWrittenAgreesOnCidr(q: Request, gids: seq<string>, groupIds: Value -> seq<string>,
                                                 isCidr: Value -> bool)
    requires isCidr(q.location)
    ensures FanOutAsWritten(q, gids, groupIds, isCidr) == FanOut(q, gids, groupIds(q.location), isCidr)
    decreases |gids|
  {
    if gids != [] {
      assert q.(location := NextLocation(q.location, groupIds, isCidr)) == q;
      AsWrittenAgreesOnCidr(q, gids[1..], groupIds, isCidr);
      assert gids == [gids[0]] + gids[1..];
      FanOutCons(q, gids[0], gids[1..], groupIds(q.location), isCidr);
    }
  }

  /** As written and as intended agree for a group with a single id. */
  lemma AsWrittenAgreesOnOneGroupId(q: Request, gid: string, groupIds: Value -> seq<string>, isCidr: Value -> bool)
    ensures FanOutAsWritten(q, [gid], groupIds, isCidr) == FanOut(q, [gid], groupIds(q.location), isCidr)
  {
    var q' := q.(location := NextLocation(q.location, groupIds, isCidr));
    assert FanOutAsWritten(q', [gid][1..], groupIds, isCidr) == [];
    FanOutCons(q, gid, [], groupIds(q.location), isCidr);
    assert [gid] + [] == [gid];
  }

  /** For every lookup: when the location is not a CIDR and names at least one
      source id, the second target id is served with the location rebound to
      the last of those ids, and its sources are whatever that id looks up to. */
  lemma AsWrittenSecondTarget(q: Request, gids: seq<string>, groupIds: Value -> seq<string>, isCidr: Value -> bool)
    requires |gids| >= 2 && !isCidr(q.location) && groupIds(q.location) != []
    ensures var srcs := groupIds(q.location);
      var q2 := q.(location := Text(srcs[|srcs| - 1]));
      FanOutAsWritten(q, gids, groupIds, isCidr) ==
        CallsFor(q, gids[0], srcs, isCidr) +
        (CallsFor(q2, gids[1], groupIds(q2.location), isCidr) +
         FanOutAsWritten(q2.(location := NextLocation(q2.location, groupIds, isCidr)), gids[2..], groupIds, isCidr))
  {
    assert gids[1..][1..] == gids[2..];
  }

  /** The discrepancy: a group "web" with ids sg-w1 and sg-w2 as the source of a
      rule on a group with ids sg-a and sg-b (each id looking up to itself).
      As written, sg-b is only opened to sg-w2; as intended, to both. */
  lemma AsWrittenDropsSourceIds()
    ensures var q := Request(AuthorizeIngress, Text("tcp"), 22, 22, Text("web"));
      var groupIds := (v: Value) => if v == Text("web") then ["sg-w1", "sg-w2"] else if v.Text? then [v.s] else [];
      var isCidr := (v: Value) => false;
      var missing := CallTo(q, "sg-b", SrcGroupId("sg-w1"));
      |FanOutAsWritten(q, ["sg-a", "sg-b"], groupIds, isCidr)| == 3 &&
      missing !in FanOutAsWritten(q, ["sg-a", "sg-b"], groupIds, isCidr) &&
      |FanOut(q, ["sg-a", "sg-b"], groupIds(q.location), isCidr)| == 4 &&
      missing in FanOut(q, ["sg-a", "sg-b"], groupIds(q.location), isCidr)
  {
    var q := Request(AuthorizeIngress, Text("tcp"), 22, 22, Text("web"));
    var groupIds := (v: Value) => if v == Text("web") then ["sg-w1", "sg-w2"] else if v.Text? then [v.s] else [];
    var isCidr := (v: Value) => false;
    var gids := ["sg-a", "sg-b"];
    var q2 := q.(location := Text("sg-w2"));
    assert NextLocation(q.location, groupIds, isCidr) == Text("sg-w2");
    assert NextLocation(q2.location, groupIds, isCidr) == Text("sg-w2");
    var first := CallsFor(q, "sg-a", ["sg-w1", "sg-w2"], isCidr);
    var second := CallsFor(q2, "sg-b", ["sg-w2"], isCidr);
    assert gids[1..] == ["sg-b"];
    assert ["sg-b"][1..] == [];
    assert FanOutAsWritten(q2, ["sg-b"], groupIds, isCidr) == second + [];
    assert FanOutAsWritten(q, gids, groupIds, isCidr) == first + (second + []);
    var missing := CallTo(q, "sg-b", SrcGroupId("sg-w1"));
    assert missing !in first && missing !in second;
    FanOutLength(q, gids, ["sg-w1", "sg-w2"], isCidr);
    FanOutCalls(q, gids, ["sg-w1", "sg-w2"], isCidr, missing);
    assert "sg-b" in gids;
    CallsForCalls(q, "sg-b", ["sg-w1", "sg-w2"], isCidr, missing);
  }

  /** The calls a rule action plans: the resolved rule fanned out over the ids
      of its group and of its location. */
  function PlanRule(remove: bool, group: string, rule: Rule, groupIds: Value -> seq<string>,
                    isCidr: Value -> bool): (r: Result<seq<Call>, ExecError>)
    ensures r.Err? <==> OpFor(remove, rule.direction).Err? || (Truthy(rule.ports) && !rule.ports.Range?)
    ensures r.Err? && OpFor(remove, rule.direction).Ok? ==> r.error == MalformedPorts(rule.ports)
    ensures r.Ok? ==> forall c :: c in r.value ==>
      c.RuleCall? && c.groupId in groupIds(Text(group)) && c.op == OpFor(remove, rule.direction).value
  {
    var q :- Resolve(remove, rule);
    Ok(FanOut(q, groupIds(Text(group)), groupIds(q.location), isCidr))
  }

  /** What a rule action sends: a direction other than inbound or outbound is
      rejected before any call is planned; otherwise every planned call goes to
      an id of the rule's group, under the operation of its direction, with
      protocol "all" sent as -1, no ports sent as -1..-1, a port range sent as
      its own bounds, and location "all" sent as 0.0.0.0/0 when that is a
      CIDR. */
  lemma RuleWireFormat(remove: bool, group: string, rule: Rule, groupIds: Value -> seq<string>,
                       isCidr: Value -> bool)
    ensures var plan := PlanRule(remove, group, rule, groupIds, isCidr);
      (rule.direction != Text("inbound") && rule.direction != Text("outbound") ==>
         plan == Err(InvalidDirection(rule.direction))) &&
      (plan.Ok? ==> forall c :: c in plan.value ==>
         c.RuleCall? && c.groupId in groupIds(Text(group)) &&
         c.op == OpFor(remove, rule.direction).value &&
         c.protocol != Text("all") &&
         (rule.protocol == Text("all") ==> c.protocol == Num(-1)) &&
         (!Truthy(rule.ports) ==> c.fromPort == -1 && c.toPort == -1) &&
         (rule.ports.Range? ==> c.fromPort == rule.ports.fromport && c.toPort == rule.ports.toport) &&
         (rule.location == Text("all") && isCidr(Text("0.0.0.0/0")) ==> c.source == CidrIp(Text("0.0.0.0/0"))))
  {
    var plan := PlanRule(remove, group, rule, groupIds, isCidr);
    if plan.Ok? {
      var q := Resolve(remove, rule).value;
      forall c | c in plan.value
        ensures c.RuleCall? && c.groupId in groupIds(Text(group)) && c.op == q.op && c.protocol == q.protocol &&
                c.fromPort == q.fromPort && c.toPort == q.toPort &&
                (isCidr(q.location) ==> c.source == CidrIp(q.location))
      {
        FanOutCalls(q, groupIds(Text(group)), groupIds(q.location), isCidr, c);
        var gid :| gid in groupIds(Text(group)) && c in CallsFor(q, gid, groupIds(q.location), isCidr);
        CallsForCalls(q, gid, groupIds(q.location), isCidr, c);
      }
    }
  }

  /** The calls any action plans. */
  function Plan(a: Action, groupIds: Value -> seq<string>, isCidr: Value -> bool): (r: Result<seq<Call>, ExecError>)
    ensures r.Err? ==> a.AddRule? || a.RemoveRule?
    ensures a.CreateSecurityGroup? ==> r == Ok([CreateSecurityGroupCall(a.name, a.desc)])
    ensures a.ModifyInstanceAttribute? ==> r == Ok([ModifyInstanceAttributeCall(a.instance, a.attr, a.value)])
    ensures r.Ok? && (a.AddRule? || a.RemoveRule?) ==> forall c :: c in r.value ==>
      c.RuleCall? && c.groupId in groupIds(Text(a.group)) &&
      (c.op == RevokeIngress || c.op == RevokeEgress) == a.RemoveRule?
  {
    match a
    case CreateSecurityGroup(name, desc) => Ok([CreateSecurityGroupCall(name, desc)])
    case ModifyInstanceAttribute(id, attr, value) => Ok([ModifyInstanceAttributeCall(id, attr, value)])
    case AddRule(group, rule) => PlanRule(false, group, rule, groupIds, isCidr)
    case RemoveRule(group, rule) => PlanRule(true, group, rule, groupIds, isCidr)
  }

  /** Executing a plan: an error in planning issues no call; otherwise the
      calls are issued until one fails. */
  function Outcome(rejects: Call -> bool, plan: Result<seq<Call>, ExecError>): Run {
    match plan
    case Err(e) => Run([], Some(e))
    case Ok(cs) => Perform(rejects, cs)
  }

  /** Executing a create or an update issues its one call, without a retry, and
      fails exactly when the provider rejects that call. */
  lemma CreateOrUpdateOutcome(rejects: Call -> bool, a: Action, groupIds: Value -> seq<string>,
                              isCidr: Value -> bool)
    requires a.CreateSecurityGroup? || a.ModifyInstanceAttribute?
    ensures var c := Plan(a, groupIds, isCidr).value[0];
      Outcome(rejects, Plan(a, groupIds, isCidr)) == Run([c], if rejects(c) then Some(Rejected(c)) else None)
  {
    PerformOne(rejects, Plan(a, groupIds, isCidr).value[0]);
  }

  /** One call, retried once under the alternative keyword when it fails. */
  method TryCall(conn: Connector, c: Call) returns (err: Option<ExecError>)
    modifies conn
    ensures conn.trace == old(conn.trace) + Attempt(conn.rejects, c).calls
    ensures err == Attempt(conn.rejects, c).error
  {
    var ok := conn.Send(c);
    if ok {
      err := None;
    } else {
      match Retry(c)
      case None =>
        err := Some(Rejected(c));
      case Some(alt) =>
        ok := conn.Send(alt);
        err := if ok then None else Some(Rejected(alt));
    }
  }

  /** Taking one more source id adds its call at the end, and stays a prefix
      of the calls for all source ids. */
  lemma SourceCallsSnoc(q: Request, gid: string, srcs: seq<string>, j: nat)
    requires j < |srcs|
    ensures SourceCalls(q, gid, srcs[..j + 1]) == SourceCalls(q, gid, srcs[..j]) + [CallTo(q, gid, SrcGroupId(srcs[j]))]
    ensures SourceCalls(q, gid, srcs[..j + 1]) <= SourceCalls(q, gid, srcs)
  {
  }

  /** One call per source group id, each with its retry, stopping at the first
      failure. */
  method SendToSources(conn: Connector, q: Request, gid: string, srcs: seq<string>)
    returns (err: Option<ExecError>)
    modifies conn
    ensures var run := Perform(conn.rejects, SourceCalls(q, gid, srcs));
      conn.trace == old(conn.trace) + run.calls && err == run.error
  {
    err := None;
    var j := 0;
    while j < |srcs|
      invariant 0 <= j <= |srcs| && err.None?
      invariant conn.trace == old(conn.trace) + Perform(conn.rejects, SourceCalls(q, gid, srcs[..j])).calls
      invariant Perform(conn.rejects, SourceCalls(q, gid, srcs[..j])).error.None?
    {
      var c := CallTo(q, gid, SrcGroupId(srcs[j]));
      ghost var sent := SourceCalls(q, gid, srcs[..j]);
      SourceCallsSnoc(q, gid, srcs, j);
      StepsSnoc(Attempter(conn.rejects), sent, c);
      err := TryCall(conn, c);
      if err.Some? {
        StepsStopAtFailure(Attempter(conn.rejects), sent + [c], SourceCalls(q, gid, srcs));
        return;
      }
      j := j + 1;
    }
    assert srcs[..j] == srcs;
  }

  /** The calls for one target group id: the CIDR call when the location is a
      CIDR, otherwise the calls to the source group ids. */
  method SendFor(conn: Connector, isCidr: Value -> bool, q: Request, gid: string, srcs: seq<string>)
    returns (err: Option<ExecError>)
    modifies conn
    ensures var run := Perform(conn.rejects, CallsFor(q, gid, srcs, isCidr));
      conn.trace == old(conn.trace) + run.calls && err == run.error
  {
    if isCidr(q.location) {
      var c := CallTo(q, gid, CidrIp(q.location));
      var ok := conn.Send(c);
      err := if ok then None else Some(Rejected(c));
      PerformOne(conn.rejects, c);
    } else {
      err := SendToSources(conn, q, gid, srcs);
    }
  }

  /** `AddRule` (when `remove` is false) and `RemoveRule` (when it is true):
      issues the planned calls, in order, until one fails. */
  method ApplyRule(conn: Connector, isCidr: Value -> bool, remove: bool, group: string, rule: Rule)
    returns (err: Option<ExecError>)
    modifies conn
    ensures var run := Outcome(conn.rejects, PlanRule(remove, group, rule, conn.groupIds, isCidr));
      conn.trace == old(conn.trace) + run.calls && err == run.error
  {
    var op: RuleOp;
    if rule.direction == Text("inbound") {
      op := if remove then RevokeIngress else AuthorizeIngress;
    } else if rule.direction == Text("outbound") {
      op := if remove then RevokeEgress else AuthorizeEgress;
    } else {
      return Some(InvalidDirection(rule.direction));
    }
    var proto := if rule.protocol == Text("all") then Num(-1) else rule.protocol;
    var loc := if rule.location == Text("all") then Text("0.0.0.0/0") else rule.location;
    var fromPort, toPort;
    if !Truthy(rule.ports) {
      fromPort, toPort := -1, -1;
    } else if rule.ports.Range? {
      fromPort, toPort := rule.ports.fromport, rule.ports.toport;
    } else {
      return Some(MalformedPorts(rule.ports));
    }
    var q := Request(op, proto, fromPort, toPort, loc);
    assert Resolve(remove, rule) == Ok(q);
    err := SendFanOut(conn, isCidr, q, conn.groupIds(Text(group)), conn.groupIds(loc));
  }

  /** One turn of the fan-out loop: after the calls of the first `i` target ids
      succeeded, issuing the batch of the next one either extends the run to
      `i + 1` target ids or ends the whole fan-out with the batch's failure. */
  lemma FanOutStep(rejects: Call -> bool, q: Request, gids: seq<string>, srcs: seq<string>, isCidr: Value -> bool,
                   i: nat, start: seq<Call>, before: seq<Call>, after: seq<Call>)
    requires i < |gids|
    requires before == start + Perform(rejects, FanOut(q, gids[..i], srcs, isCidr)).calls
    requires Perform(rejects, FanOut(q, gids[..i], srcs, isCidr)).error.None?
    requires after == before + Perform(rejects, CallsFor(q, gids[i], srcs, isCidr)).calls
    ensures var batch := Perform(rejects, CallsFor(q, gids[i], srcs, isCidr));
      batch.error.None? ==>
        after == start + Perform(rejects, FanOut(q, gids[..i + 1], srcs, isCidr)).calls &&
        Perform(rejects, FanOut(q, gids[..i + 1], srcs, isCidr)).error.None?
    ensures var batch := Perform(rejects, CallsFor(q, gids[i], srcs, isCidr));
      batch.error.Some? ==>
        after == start + Perform(rejects, FanOut(q, gids, srcs, isCidr)).calls &&
        Perform(rejects, FanOut(q, gids, srcs, isCidr)).error == batch.error
  {
    var prefix, next := FanOut(q, gids[..i], srcs, isCidr), CallsFor(q, gids[i], srcs, isCidr);
    var whole := FanOut(q, gids, srcs, isCidr);
    FanOutSnoc(q, gids, srcs, isCidr, i);
    assert FanOut(q, gids[..i + 1], srcs, isCidr) == prefix + next;
    PerformExtend(rejects, prefix, next, whole);
    var done, batch := Perform(rejects, prefix).calls, Perform(rejects, next).calls;
    assert Perform(rejects, prefix + next).calls == done + batch;
    ConcatAssoc(start, done, batch);
  }

  /** The fan-out loop: for each target group id in turn, its calls, stopping
      at the first failure. */
  method SendFanOut(conn: Connector, isCidr: Value -> bool, q: Request, gids: seq<string>, srcs: seq<string>)
    returns (err: Option<ExecError>)
    modifies conn
    ensures var run := Perform(conn.rejects, FanOut(q, gids, srcs, isCidr));
      conn.trace == old(conn.trace) + run.calls && err == run.error
  {
    err := None;
    var i := 0;
    while i < |gids|
      invariant 0 <= i <= |gids| && err.None?
      invariant conn.trace == old(conn.trace) + Perform(conn.rejects, FanOut(q, gids[..i], srcs, isCidr)).calls
      invariant Perform(conn.rejects, FanOut(q, gids[..i], srcs, isCidr)).error.None?
    {
      ghost var before := conn.trace;
      err := SendFor(conn, isCidr, q, gids[i], srcs);
      FanOutStep(conn.rejects, q, gids, srcs, isCidr, i, old(conn.trace), before, conn.trace);
      if err.Some? {
        return;
      }
      i := i + 1;
    }
    assert gids[..i] == gids;
  }

  /** Executes one action against the connection. */
  method Apply(conn: Connector, isCidr: Value -> bool, a: Action) returns (err: Option<ExecError>)
    modifies conn
    ensures var run := Outcome(conn.rejects, Plan(a, conn.groupIds, isCidr));
      conn.trace == old(conn.trace) + run.calls && err == run.error
  {
    match a
    case CreateSecurityGroup(name, desc) =>
      var c := CreateSecurityGroupCall(name, desc);
      var ok := conn.Send(c);
      err := if ok then None else Some(Rejected(c));
      PerformOne(conn.rejects, c);
    case ModifyInstanceAttribute(id, attr, value) =>
      var c := ModifyInstanceAttributeCall(id, attr, value);
      var ok := conn.Send(c);
      err := if ok then None else Some(Rejected(c));
      PerformOne(conn.rejects, c);
    case AddRule(group, rule) =>
      err := ApplyRule(conn, isCidr, false, group, rule);
    case RemoveRule(group, rule) =>
      err := ApplyRule(conn, isCidr, true, group, rule);
  }
}

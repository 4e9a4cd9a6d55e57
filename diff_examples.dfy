/** Worked diffs on small snapshots. */
module DiffExamples {
  import opened Wrappers
  import opened Records
  import opened Collections
  import opened Rules
  import opened Actions
  import opened Diff
  import opened DiffLaws

  function InboundTcp(port: int): RuleRecord {
    map["direction" := Text("inbound"), "location" := Text("0.0.0.0/0"),
        "protocol" := Text("tcp"), "ports" := Range(port, port)]
  }

  function NoInstances(): Table<InstanceRecord> {
    Table([], map[])
  }

  /** Group "web" should allow port 80 and allows port 22: the diff removes the
      port-22 rule and then adds the port-80 rule. */
  lemma WebPortSwap()
    ensures
      var desired := Snapshot(Table(["web"], map["web" := GroupRecord(None, None, Some([InboundTcp(80)]))]),
                              NoInstances());
      var live := Snapshot(Table(["web"], map["web" := GroupRecord(Some("sg-1"), None, Some([InboundTcp(22)]))]),
                           NoInstances());
      GetActions(desired, live) == Ok([RemoveRule("web", RuleOf(InboundTcp(22))), AddRule("web", RuleOf(InboundTcp(80)))])
  {
    var r80, r22 := RuleOf(InboundTcp(80)), RuleOf(InboundTcp(22));
    var want := GroupRecord(None, None, Some([InboundTcp(80)]));
    var have := map["web" := GroupRecord(Some("sg-1"), None, Some([InboundTcp(22)]))];
    WebRuleActions();
    var rules := [RemoveRule("web", r22), AddRule("web", r80)];
    assert RulePhase(["web"], map["web" := want], have) == rules;
    var desired := Snapshot(Table(["web"], map["web" := want]), NoInstances());
    var live := Snapshot(Table(["web"], have), NoInstances());
    assert desired.Valid() && live.Valid();
    assert CreatePhase(["web"], map["web" := want], have) == [];
    assert MembershipPhase([], map[], map[], have) == Ok([]);
    assert [] + [] + rules == rules;
  }

  /** The rule actions of group "web" in that example. */
  lemma WebRuleActions()
    ensures var want := GroupRecord(None, None, Some([InboundTcp(80)]));
      var have := map["web" := GroupRecord(Some("sg-1"), None, Some([InboundTcp(22)]))];
      GroupRuleActions("web", want, have) ==
        [RemoveRule("web", RuleOf(InboundTcp(22))), AddRule("web", RuleOf(InboundTcp(80)))]
  {
    var r80, r22 := RuleOf(InboundTcp(80)), RuleOf(InboundTcp(22));
    var want := GroupRecord(None, None, Some([InboundTcp(80)]));
    var have := map["web" := GroupRecord(Some("sg-1"), None, Some([InboundTcp(22)]))];
    assert r80 != r22 by {
      assert r80.ports == Range(80, 80) && r22.ports == Range(22, 22);
    }
    assert GroupRules(want) == [r80];
    assert LiveRules("web", have) == [r22];
    assert RuleSet(want) == {r80};
    assert LiveRuleSet("web", have) == {r22};
    assert Minus([r22], {r80}) == [r22];
    assert Minus([r80], {r22}) == [r80];
  }

  /** Instance "i-1" should be in "web" only and is in "web" and "db": one
      update sets its groups to the id of "web". */
  lemma InstanceLeavesGroup()
    ensures
      var bare := GroupRecord(None, None, None);
      var desired := Snapshot(Table(["web"], map["web" := bare]),
                              Table(["i-1"], map["i-1" := InstanceRecord(Some(["web"]))]));
      var live := Snapshot(Table(["web", "db"], map["web" := GroupRecord(Some("sg-web"), None, None),
                                                    "db" := GroupRecord(Some("sg-db"), None, None)]),
                           Table(["i-1"], map["i-1" := InstanceRecord(Some(["web", "db"]))]));
      GetActions(desired, live) == Ok([ModifyInstanceAttribute("i-1", "groupSet", {"sg-web"})])
  {
    var bare := GroupRecord(None, None, None);
    var liveGroups := map["web" := GroupRecord(Some("sg-web"), None, None),
                          "db" := GroupRecord(Some("sg-db"), None, None)];
    assert "db" in Elems(["web", "db"]) && "db" !in Elems(["web"]);
    assert forall n :: n in ["web"] <==> n == "web";
    assert LiveIds(["web"], liveGroups) == {"sg-web"} by {
      assert "web" in ["web"] && liveGroups["web"].id.value == "sg-web";
      assert "sg-web" in LiveIds(["web"], liveGroups);
    }
    assert ResolveIds(["web"], liveGroups) == Ok({"sg-web"});
    assert GroupRuleActions("web", bare, liveGroups) == [];
    assert RulePhase(["web"], map["web" := bare], liveGroups) == [];
    var desiredInst := map["i-1" := InstanceRecord(Some(["web"]))];
    var liveInst := map["i-1" := InstanceRecord(Some(["web", "db"]))];
    var update := [ModifyInstanceAttribute("i-1", "groupSet", {"sg-web"})];
    assert ["i-1"][1..] == [];
    assert MembershipPhase([], desiredInst, liveInst, liveGroups) == Ok([]);
    assert update + [] == update;
    assert MembershipPhase(["i-1"], desiredInst, liveInst, liveGroups) == Ok(update);
    assert CreatePhase(["web"], map["web" := bare], liveGroups) == [];
    var desired := Snapshot(Table(["web"], map["web" := bare]), Table(["i-1"], desiredInst));
    var live := Snapshot(Table(["web", "db"], liveGroups), Table(["i-1"], liveInst));
    assert desired.Valid() && live.Valid();
    assert [] + update + [] == update;
  }

  /** An instance that should join a group which is only now being created
      makes the diff fail: the group's id is looked up in the live table, which
      does not have it yet. */
  lemma JoiningNewGroupFails()
    ensures
      var bare := GroupRecord(None, None, None);
      var desired := Snapshot(Table(["web", "new"], map["web" := bare, "new" := bare]),
                              Table(["i-1"], map["i-1" := InstanceRecord(Some(["web", "new"]))]));
      var live := Snapshot(Table(["web"], map["web" := GroupRecord(Some("sg-web"), None, None)]),
                           Table(["i-1"], map["i-1" := InstanceRecord(Some(["web"]))]));
      GetActions(desired, live) == Err(UnknownGroup("new"))
  {
    assert "new" in Elems(["web", "new"]);
  }
  /** Instance "i-1" should be in "web" and "x" and is in "web"; "x" is live but
      has no id. The update sets the groups to the id of "web" alone, so the
      provider still reports "i-1" in "web" only: the live state is unchanged
      and the next diff emits the same update again. */
  lemma IdlessGroupNeverJoined()
    ensures
      var bare := GroupRecord(None, None, None);
      var liveGroups := map["web" := GroupRecord(Some("sg-web"), None, None), "x" := bare];
      var desired := Snapshot(Table(["web", "x"], map["web" := bare, "x" := bare]),
                              Table(["i-1"], map["i-1" := InstanceRecord(Some(["web", "x"]))]));
      var live := Snapshot(Table(["web", "x"], liveGroups),
                           Table(["i-1"], map["i-1" := InstanceRecord(Some(["web"]))]));
      GetActions(desired, live) == Ok([ModifyInstanceAttribute("i-1", "groupSet", {"sg-web"})]) &&
      NamesOf({"sg-web"}, liveGroups) == Elems(["web"]) != Elems(["web", "x"])
  {
    var bare := GroupRecord(None, None, None);
    var liveGroups := map["web" := GroupRecord(Some("sg-web"), None, None), "x" := bare];
    var desiredGroups := map["web" := bare, "x" := bare];
    IdlessGroupUpdate();
    IdlessGroupRules();
    assert NamesOf({"sg-web"}, liveGroups) == {"web"} by {
      assert "web" in NamesOf({"sg-web"}, liveGroups);
    }
    assert "x" in Elems(["web", "x"]) && "x" !in Elems(["web"]);
    var update := [ModifyInstanceAttribute("i-1", "groupSet", {"sg-web"})];
    var desired := Snapshot(Table(["web", "x"], desiredGroups),
                            Table(["i-1"], map["i-1" := InstanceRecord(Some(["web", "x"]))]));
    var live := Snapshot(Table(["web", "x"], liveGroups), Table(["i-1"], map["i-1" := InstanceRecord(Some(["web"]))]));
    assert desired.Valid() && live.Valid();
    assert [] + update + [] == update;
  }

  /** The membership phase of that example: one update, to the id of "web". */
  lemma IdlessGroupUpdate()
    ensures var liveGroups := map["web" := GroupRecord(Some("sg-web"), None, None), "x" := GroupRecord(None, None, None)];
      MembershipPhase(["i-1"], map["i-1" := InstanceRecord(Some(["web", "x"]))],
                      map["i-1" := InstanceRecord(Some(["web"]))], liveGroups) ==
        Ok([ModifyInstanceAttribute("i-1", "groupSet", {"sg-web"})])
  {
    var liveGroups := map["web" := GroupRecord(Some("sg-web"), None, None), "x" := GroupRecord(None, None, None)];
    assert "x" in Elems(["web", "x"]) && "x" !in Elems(["web"]);
    assert forall n :: n in ["web", "x"] <==> n == "web" || n == "x";
    assert LiveIds(["web", "x"], liveGroups) == {"sg-web"} by {
      assert "web" in ["web", "x"] && liveGroups["web"].id.value == "sg-web";
      assert "sg-web" in LiveIds(["web", "x"], liveGroups);
    }
    assert ResolveIds(["web", "x"], liveGroups) == Ok({"sg-web"});
    var desiredInst := map["i-1" := InstanceRecord(Some(["web", "x"]))];
    var liveInst := map["i-1" := InstanceRecord(Some(["web"]))];
    var update := [ModifyInstanceAttribute("i-1", "groupSet", {"sg-web"})];
    assert ["i-1"][1..] == [];
    assert MembershipPhase([], desiredInst, liveInst, liveGroups) == Ok([]);
    assert update + [] == update;
  }

  /** The other two phases of that example are empty: both groups are live
      and neither has rules. */
  lemma IdlessGroupRules()
    ensures var bare := GroupRecord(None, None, None);
      var liveGroups := map["web" := GroupRecord(Some("sg-web"), None, None), "x" := bare];
      CreatePhase(["web", "x"], map["web" := bare, "x" := bare], liveGroups) == [] &&
      RulePhase(["web", "x"], map["web" := bare, "x" := bare], liveGroups) == []
  {
    var bare := GroupRecord(None, None, None);
    var liveGroups := map["web" := GroupRecord(Some("sg-web"), None, None), "x" := bare];
    var desiredGroups := map["web" := bare, "x" := bare];
    assert GroupRuleActions("web", bare, liveGroups) == [];
    assert GroupRuleActions("x", bare, liveGroups) == [];
    assert ["web", "x"][1..] == ["x"] && ["x"][1..] == [];
    assert RulePhase(["x"], desiredGroups, liveGroups) == [];
    assert CreatePhase(["x"], desiredGroups, liveGroups) == [];
  }
}

/** Rule identity: the canonical 4-field key a rule record is compared by. */
module Rules {
  import opened Records
  import opened Collections

  /** The attributes that make up a rule's identity, in tuple order. */
  const RuleAttrs: seq<string> := ["direction", "location", "protocol", "ports"]

  /** The identity of a rule. Two rules are the same rule exactly when all four
      fields are equal. The sentinel `Text("all")` is kept as written: it is not
      replaced by the wildcard the provider is sent at execution time. */
  datatype Rule = Rule(direction: Value, location: Value, protocol: Value, ports: Value)

  /** Attribute `k` of a rule record, `Null` when the record lacks it. */
  function Field(rec: RuleRecord, k: string): Value {
    if k in rec then rec[k] else Null
  }

  /** The identity of one rule record: the record cut down to the four identity
      attributes, each absent one filled in with null. */
  function RuleOf(rec: RuleRecord): (r: Rule)
    ensures RecordOf(r) == map k | k in RuleAttrs :: if k in rec then rec[k] else Null
  {
    Rule(Field(rec, "direction"), Field(rec, "location"), Field(rec, "protocol"), Field(rec, "ports"))
  }

  /** The rules of a group record, one per rule record, in record order; a
      group without a `rules` key has none. */
  function GroupRules(g: GroupRecord): (rs: seq<Rule>)
    ensures g.rules.None? ==> rs == []
    ensures g.rules.Some? ==> |rs| == |g.rules.value|
  {
    match g.rules
    case None => []
    case Some(recs) => seq(|recs|, i requires 0 <= i < |recs| => RuleOf(recs[i]))
  }

  /** The rule set of a group: what the diff compares. */
  function RuleSet(g: GroupRecord): set<Rule> {
    Elems(GroupRules(g))
  }

  /** A rule record holding exactly the four fields of `r`. */
  function RecordOf(r: Rule): RuleRecord {
    map["direction" := r.direction, "location" := r.location,
        "protocol" := r.protocol, "ports" := r.ports]
  }

  /** Two records have the same identity exactly when they agree, attribute by
      attribute, on the four identity attributes (absent reading as null). */
  lemma SameRuleIff(a: RuleRecord, b: RuleRecord)
    ensures RuleOf(a) == RuleOf(b) <==> forall k :: k in RuleAttrs ==> Field(a, k) == Field(b, k)
  {
  }

  /** An identity attribute that is absent and one that is present with a null
      value give the same rule. */
  lemma NullSameAsAbsent(rec: RuleRecord, k: string)
    requires k !in rec
    ensures RuleOf(rec[k := Null]) == RuleOf(rec)
  {
  }

  /** Attributes outside the four identity attributes do not matter. */
  lemma OtherKeysIgnored(rec: RuleRecord, k: string, v: Value)
    requires k !in RuleAttrs
    ensures RuleOf(rec[k := v]) == RuleOf(rec)
  {
  }

  /** Building a record from a rule and reading its identity gives the rule back. */
  lemma RecordRoundTrip(r: Rule)
    ensures RuleOf(RecordOf(r)) == r
  {
  }

  /** A rule is in a group's set exactly when some rule record of the group has it
      as its identity. */
  lemma InRuleSetIff(g: GroupRecord, r: Rule)
    ensures r in RuleSet(g) <==> g.rules.Some? && exists rec :: rec in g.rules.value && RuleOf(rec) == r
  {
    if g.rules.Some? {
      var recs := g.rules.value;
      if r in RuleSet(g) {
        var i :| 0 <= i < |GroupRules(g)| && GroupRules(g)[i] == r;
        assert recs[i] in recs;
      }
      if exists rec :: rec in recs && RuleOf(rec) == r {
        var rec :| rec in recs && RuleOf(rec) == r;
        var i :| 0 <= i < |recs| && recs[i] == rec;
        assert GroupRules(g)[i] == r;
      }
    }
  }

  /** The location sentinel is not the CIDR it stands for: a rule written with
      location "all" and one written with "0.0.0.0/0" are different rules. */
  lemma AllLocationIsItsOwnValue(rec: RuleRecord)
    ensures RuleOf(rec["location" := Text("all")]) != RuleOf(rec["location" := Text("0.0.0.0/0")])
  {
  }
}

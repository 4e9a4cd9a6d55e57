/** The four kinds of action the diff emits. Equality is structural. */
module Actions {
  import opened Rules

  datatype Action =
    | CreateSecurityGroup(name: string, desc: string)
    | ModifyInstanceAttribute(instance: string, attr: string, value: set<string>)
    | AddRule(group: string, rule: Rule)
    | RemoveRule(group: string, rule: Rule)
}

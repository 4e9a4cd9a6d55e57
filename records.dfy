/** The record shapes the diff consumes: what the configuration loader and the
    provider fetcher produce for groups, instances and rules. */
module Records {
  import opened Wrappers

  /** A scalar found in a rule record. `Null` is the loader's null (Python
      `None`); `Range` is a port range with its two bounds. */
  datatype Value = Null | Text(s: string) | Num(n: int) | Range(fromport: int, toport: int)

  /** Python truthiness of a rule value: null, the empty string and zero are false. */
  predicate Truthy(v: Value) {
    match v
    case Null => false
    case Text(s) => s != ""
    case Num(n) => n != 0
    case Range(_, _) => true
  }

  /** A rule as loaded: a dictionary from attribute name to value. It may lack
      any attribute and may carry attributes the rule identity ignores. */
  type RuleRecord = map<string, Value>

  /** A security group as loaded. Each field is `None` when the key is absent:
      `id` (the provider's group id, only in live records), `description`,
      and `rules`. */
  datatype GroupRecord = GroupRecord(id: Option<string>, description: Option<string>,
                                     rules: Option<seq<RuleRecord>>)

  /** An instance as loaded; `groups` is `None` when the key is absent. */
  datatype InstanceRecord = InstanceRecord(groups: Option<seq<string>>)

  /** A dictionary keyed by name: `entries` holds the records and `order` is
      the dictionary's iteration order. */
  datatype Table<V> = Table(order: seq<string>, entries: map<string, V>) {
    predicate Valid() {
      (forall i, j :: 0 <= i < j < |order| ==> order[i] != order[j]) &&
      (forall k :: k in entries ==> k in order) &&
      (forall k :: k in order ==> k in entries)
    }
  }

  /** One side of the reconciliation: groups by name, instances by id. */
  datatype Snapshot = Snapshot(groups: Table<GroupRecord>, instances: Table<InstanceRecord>) {
    predicate Valid() {
      groups.Valid() && instances.Valid()
    }
  }
}

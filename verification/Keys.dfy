/** The composite map keys of the status store: "type:name" for rings, "check:metric" for budgets. */
module Keys {
  import opened Wrappers
  import Check

  function CheckKey(typ: string, name: string): string {
    typ + ":" + name
  }

  function BudgetKey(check: string, metric: string): string {
    check + ":" + metric
  }

  /** strings.LastIndex(key, ":"). */
  function LastColon(key: string): (i: int)
    ensures -1 <= i < |key|
    ensures i >= 0 ==> key[i] == ':'
    ensures forall j :: i < j < |key| ==> key[j] != ':'
  {
    if key == "" then -1
    else if key[|key| - 1] == ':' then |key| - 1
    else
      LastColon(key[..|key| - 1])
  }

  function BudgetKeyCheck(key: string): Option<string> {
    var i := LastColon(key);
    if i < 0 then None else Some(key[..i])
  }

  /** The rest of the key after the separator; the status page shows it as the metric. */
  function BudgetKeyMetric(key: string): string
    requires BudgetKeyCheck(key).Some?
  {
    key[|BudgetKeyCheck(key).value| + 1..]
  }

  /**
   Splitting a budget key at its last colon gives back the check name it was built from
   exactly when the metric holds no colon; the check name may hold any number of them.
   */
  lemma BudgetKeySplits(check: string, metric: string)
    ensures BudgetKeyCheck(BudgetKey(check, metric)).Some?
    ensures BudgetKeyCheck(BudgetKey(check, metric)) == Some(check) <==> ':' !in metric
    ensures ':' !in metric ==> BudgetKeyMetric(BudgetKey(check, metric)) == metric
  {
    var key := BudgetKey(check, metric);
    var i := LastColon(key);
    assert key[|check|] == ':' && key[..|check|] == check && key[|check| + 1..] == metric;
    assert i >= |check|;
    assert forall j :: 0 <= j < |metric| ==> metric[j] == key[|check| + 1 + j];
    if i > |check| {
      assert key[i] == metric[i - |check| - 1];
    }
  }

  /** Budget states of different (check, metric) pairs never share a key. */
  lemma BudgetKeyInjective(c1: string, m1: string, c2: string, m2: string)
    requires ':' !in m1 && ':' !in m2
    requires BudgetKey(c1, m1) == BudgetKey(c2, m2)
    ensures c1 == c2 && m1 == m2
  {
    BudgetKeySplits(c1, m1);
    BudgetKeySplits(c2, m2);
  }

  /** No two checks whose types lie in `types` share a key. */
  ghost predicate CheckKeysInjective(types: set<string>) {
    forall t1, n1, t2, n2 ::
      t1 in types && t2 in types && CheckKey(t1, n1) == CheckKey(t2, n2) ==> t1 == t2 && n1 == n2
  }

  /** No type name continues another one past a colon. */
  ghost predicate NoTypeExtendsAnother(types: set<string>) {
    forall t1, t2 :: t1 in types && t2 in types ==> !(t2 + ":" <= t1)
  }

  lemma CheckKeyCollision(t1: string, n1: string, t2: string, n2: string)
    requires CheckKey(t1, n1) == CheckKey(t2, n2)
    ensures |t1| == |t2| ==> t1 == t2 && n1 == n2
    ensures |t1| > |t2| ==> t2 + ":" <= t1
  {
    var key := CheckKey(t1, n1);
    assert key[..|t1|] == t1 && key[|t1| + 1..] == n1;
    assert key[..|t2|] == t2 && key[|t2| + 1..] == n2;
    if |t1| > |t2| {
      assert key[..|t2| + 1] == t2 + ":";
      assert t1[..|t2| + 1] == key[..|t2| + 1];
    }
  }

  lemma ExtensionCollides(t1: string, t2: string)
    requires t2 + ":" <= t1
    ensures ':' in t1 && t1 != t2
    ensures CheckKey(t1, "") == CheckKey(t2, t1[|t2| + 1..] + ":")
  {
    assert t1[|t2|] == (t2 + ":")[|t2|];
    assert t1 == t2 + ":" + t1[|t2| + 1..];
  }

  /** Keys identify checks exactly when no type name continues another past a colon. */
  lemma CheckKeyInjectiveIff(types: set<string>)
    ensures CheckKeysInjective(types) <==> NoTypeExtendsAnother(types)
  {
    if NoTypeExtendsAnother(types) {
      forall t1, n1, t2, n2 |
        t1 in types && t2 in types && CheckKey(t1, n1) == CheckKey(t2, n2)
        ensures t1 == t2 && n1 == n2
      {
        SameKeySameCheck(types, t1, n1, t2, n2);
      }
    }
    if CheckKeysInjective(types) {
      forall t1, t2 | t1 in types && t2 in types
        ensures !(t2 + ":" <= t1)
      {
        if t2 + ":" <= t1 {
          ExtensionCollides(t1, t2);
        }
      }
    }
  }

  lemma SameKeySameCheck(types: set<string>, t1: string, n1: string, t2: string, n2: string)
    requires NoTypeExtendsAnother(types) && t1 in types && t2 in types
    ensures CheckKey(t1, n1) == CheckKey(t2, n2) <==> t1 == t2 && n1 == n2
  {
    if CheckKey(t1, n1) == CheckKey(t2, n2) {
      CheckKeyCollision(t1, n1, t2, n2);
      CheckKeyCollision(t2, n2, t1, n1);
    }
  }

  lemma KnownTypesAreColonFree()
    ensures forall t :: t in Check.TYPE_ORDER ==> ':' !in t
  {
  }

  /** With the configured check types, every check has its own ring key. */
  lemma KnownTypeKeysInjective()
    ensures CheckKeysInjective(set t | t in Check.TYPE_ORDER)
  {
    var types := set t | t in Check.TYPE_ORDER;
    KnownTypesAreColonFree();
    forall t1, t2 | t1 in types && t2 in types
      ensures !(t2 + ":" <= t1)
    {
      if t2 + ":" <= t1 {
        ExtensionCollides(t1, t2);
      }
    }
    CheckKeyInjectiveIff(types);
  }
}

/**
 * GET /api/dashboard/stats of backend/routes/dashboard.js: four counting
 * statements, one per key, whose results are written into one object key by
 * key, a failed statement writing 0; the object is always sent.
 */
module StatsRoute {
  import opened Common
  import opened Sql

  /** The keys of the `queries` object, in their declaration order. */
  const StatKeys := ["cropRecommendations", "fertilizerAdvices", "yieldRecords", "newAlerts"]

  /** The counting statement of each key, in the same order. */
  const StatStatements: seq<Statement> := [
    [Literal("SELECT COUNT(*) as count FROM croprecommendations")],
    [Literal("SELECT COUNT(*) as count FROM fertilizers")],
    [Literal("SELECT COUNT(*) as count FROM yieldrecords")],
    [Literal("SELECT COUNT(*) as count FROM alerts WHERE status = \"new\"")]]

  /** What a key is set to: the count read from the first row, or 0 when the statement failed. */
  function CountOrZero(outcome: DbOutcome<int>): (count: int)
    ensures outcome.DbFailed? ==> count == 0
    ensures outcome.DbOk? ==> count == outcome.value
  {
    if outcome.DbOk? then outcome.value else 0
  }

  /**
   * The object after the keys in `keys` have been set from the matching
   * outcomes, in order: the key set last holds the value of its own outcome.
   */
  function StatsFields(keys: seq<string>, outcomes: seq<DbOutcome<int>>): (fields: map<string, Json>)
    requires |keys| == |outcomes|
    ensures keys != [] ==> keys[|keys| - 1] in fields && fields[keys[|keys| - 1]] == JNum(CountOrZero(outcomes[|keys| - 1]))
    decreases |keys|
  {
    if keys == [] then map[]
    else StatsFields(keys[..|keys| - 1], outcomes[..|keys| - 1])[keys[|keys| - 1] := JNum(CountOrZero(outcomes[|keys| - 1]))]
  }

  /** The object has exactly the keys set. */
  lemma {:induction false} StatsFieldsKeys(keys: seq<string>, outcomes: seq<DbOutcome<int>>)
    requires |keys| == |outcomes|
    ensures StatsFields(keys, outcomes).Keys == set k | k in keys
    decreases |keys|
  {
    if keys != [] {
      var n := |keys| - 1;
      StatsFieldsKeys(keys[..n], outcomes[..n]);
      assert keys == keys[..n] + [keys[n]];
    }
  }

  /** With distinct keys, each key holds the value of its own outcome and of no other. */
  lemma {:induction false} StatsFieldsValue(keys: seq<string>, outcomes: seq<DbOutcome<int>>, i: nat)
    requires |keys| == |outcomes| && i < |keys|
    requires forall a, b :: 0 <= a < b < |keys| ==> keys[a] != keys[b]
    ensures keys[i] in StatsFields(keys, outcomes)
    ensures StatsFields(keys, outcomes)[keys[i]] == JNum(CountOrZero(outcomes[i]))
    decreases |keys|
  {
    var n := |keys| - 1;
    if i < n {
      StatsFieldsValue(keys[..n], outcomes[..n], i);
    }
  }

  /**
   * The handler, with the answer to each key's statement given in key order.
   * Each key is visited once, its statement issued and its entry written; the
   * response is always 200 with the filled object.
   */
  method AggregateStats(outcomes: seq<DbOutcome<int>>) returns (issued: seq<Query>, response: Response)
    requires |outcomes| == |StatKeys|
    ensures |issued| == |StatKeys|
    ensures forall i :: 0 <= i < |issued| ==> issued[i] == Query(StatStatements[i], []) && WellBound(issued[i])
    ensures response == Response(200, JObj(StatsFields(StatKeys, outcomes)))
  {
    var results: map<string, Json> := map[];
    issued := [];
    var i := 0;
    while i < |StatKeys|
      invariant 0 <= i <= |StatKeys|
      invariant results == StatsFields(StatKeys[..i], outcomes[..i])
      invariant |issued| == i
      invariant forall j :: 0 <= j < i ==> issued[j] == Query(StatStatements[j], []) && WellBound(issued[j])
    {
      var key := StatKeys[i];
      issued := issued + [Query(StatStatements[i], [])];
      match outcomes[i] {
        case DbFailed =>
          results := results[key := JNum(0)];
        case DbOk(count) =>
          results := results[key := JNum(count)];
      }
      assert results == StatsFields(StatKeys[..i], outcomes[..i])[key := JNum(CountOrZero(outcomes[i]))];
      assert StatKeys[..i + 1][..i] == StatKeys[..i];
      assert outcomes[..i + 1][..i] == outcomes[..i];
      i := i + 1;
    }
    assert StatKeys[..i] == StatKeys;
    assert outcomes[..i] == outcomes;
    response := Response(200, JObj(results));
  }

  /** The response object has exactly the four keys. */
  lemma StatsKeys(outcomes: seq<DbOutcome<int>>)
    requires |outcomes| == |StatKeys|
    ensures StatsFields(StatKeys, outcomes).Keys == {"cropRecommendations", "fertilizerAdvices", "yieldRecords", "newAlerts"}
  {
    StatsFieldsKeys(StatKeys, outcomes);
  }

  /** Each key shows its own count, or 0 when its statement failed. */
  lemma StatsValue(outcomes: seq<DbOutcome<int>>, i: nat)
    requires |outcomes| == |StatKeys| && i < |StatKeys|
    ensures outcomes[i].DbFailed? ==> Get(StatsFields(StatKeys, outcomes), StatKeys[i]) == Some(JNum(0))
    ensures outcomes[i].DbOk? ==> Get(StatsFields(StatKeys, outcomes), StatKeys[i]) == Some(JNum(outcomes[i].value))
  {
    StatsFieldsValue(StatKeys, outcomes, i);
  }

  /** One statement's outcome never changes another key's entry. */
  lemma StatsIndependent(outcomes: seq<DbOutcome<int>>, j: nat, other: DbOutcome<int>, i: nat)
    requires |outcomes| == |StatKeys| && i < |StatKeys| && j < |StatKeys| && i != j
    ensures Get(StatsFields(StatKeys, outcomes[j := other]), StatKeys[i]) == Get(StatsFields(StatKeys, outcomes), StatKeys[i])
  {
    StatsFieldsValue(StatKeys, outcomes, i);
    StatsFieldsValue(StatKeys, outcomes[j := other], i);
  }
}

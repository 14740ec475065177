/**
 * The validator overview: one row per session validator, flagged by membership in
 * the external and whitelisted lists, with the era's reward points.
 */
module ValidatorTable {
  import opened Wrappers

  datatype ValidatorRow = ValidatorRow(key: string, address: string, isExternal: bool, isWhitelisted: bool, rewardPoints: nat)

  /** `individualPoints[addr] || 0`, where a missing `individual` is `{}`. */
  function RewardPoints(individual: Option<map<string, nat>>, address: string): nat {
    if individual.Some? && address in individual.value then individual.value[address] else 0
  }

  /** `validators.map(addr => ({ ... }))`. */
  function Rows(validators: seq<string>, external: seq<string>, whitelisted: seq<string>,
                individual: Option<map<string, nat>>): (rows: seq<ValidatorRow>)
    ensures |rows| == |validators|
    ensures forall i :: 0 <= i < |rows| ==>
      && rows[i].key == validators[i] && rows[i].address == validators[i]
      && (rows[i].isExternal <==> validators[i] in external)
      && (rows[i].isWhitelisted <==> validators[i] in whitelisted)
      && rows[i].rewardPoints == RewardPoints(individual, validators[i])
  {
    seq(|validators|, i requires 0 <= i < |validators| =>
      var addr := validators[i];
      ValidatorRow(addr, addr, addr in external, addr in whitelisted, RewardPoints(individual, addr)))
  }

  /** Without an `individual` map every validator shows zero points. */
  lemma NoIndividualAllZero(validators: seq<string>, external: seq<string>, whitelisted: seq<string>)
    ensures forall row :: row in Rows(validators, external, whitelisted, None) ==> row.rewardPoints == 0
  {
    var rows := Rows(validators, external, whitelisted, None);
    forall row | row in rows ensures row.rewardPoints == 0 {
      var i :| 0 <= i < |rows| && rows[i] == row;
    }
  }

  /** Row keys are distinct exactly when the session validators are. */
  lemma KeysDistinct(validators: seq<string>, external: seq<string>, whitelisted: seq<string>,
                     individual: Option<map<string, nat>>)
    ensures var rows := Rows(validators, external, whitelisted, individual);
      (forall i, j :: 0 <= i < j < |rows| ==> rows[i].key != rows[j].key)
        <==> (forall i, j :: 0 <= i < j < |validators| ==> validators[i] != validators[j])
  {
    var rows := Rows(validators, external, whitelisted, individual);
    assert |rows| == |validators|;
    forall i | 0 <= i < |rows| ensures rows[i].key == validators[i] {
    }
  }

  /** The reward column's sorter `a.rewardPoints - b.rewardPoints`. */
  function RewardOrder(a: ValidatorRow, b: ValidatorRow): (d: int)
    ensures d < 0 <==> a.rewardPoints < b.rewardPoints
    ensures d == 0 <==> a.rewardPoints == b.rewardPoints
  {
    a.rewardPoints - b.rewardPoints
  }
}

/**
 * The collator overview: one row per registered container chain and collator
 * assigned to it, with two flags. The session's authority assignment and mapping
 * are fetched but play no part in the rows, so they are not inputs here.
 */
module CollatorTable {
  import opened Wrappers
  import opened Text

  /** A staking candidate as its JSON arrives: the table tests membership of an address
      string, which only a plain string element can equal. */
  datatype CandidateJson = JString(s: string) | JObject(candidate: string, stake: nat)

  datatype CollatorRow = CollatorRow(key: string, address: string, paraId: nat, isInvulnerable: bool, isStaking: bool)

  /** `${paraId}-${address}`. */
  function RowKey(paraId: nat, address: string): string {
    NatToString(paraId) + "-" + address
  }

  /** `activeChains[paraId.toString()] || []`, where a missing `containerChains` is `{}`. */
  function Addresses(chains: Option<map<string, seq<string>>>, paraId: nat): seq<string> {
    if chains.Some? && NatToString(paraId) in chains.value then chains.value[NatToString(paraId)] else []
  }

  function MakeRow(paraId: nat, address: string, invulnerables: seq<string>, candidates: seq<CandidateJson>): (row: CollatorRow)
    ensures row.paraId == paraId && row.address == address && row.key == RowKey(paraId, address)
    ensures row.isInvulnerable <==> address in invulnerables
    ensures row.isStaking <==> JString(address) in candidates
  {
    CollatorRow(RowKey(paraId, address), address, paraId, address in invulnerables, JString(address) in candidates)
  }

  /** The rows of one container chain, in assignment order. */
  function ChainRows(paraId: nat, addresses: seq<string>, invulnerables: seq<string>, candidates: seq<CandidateJson>): (rows: seq<CollatorRow>)
    ensures |rows| == |addresses|
  {
    seq(|addresses|, j requires 0 <= j < |addresses| => MakeRow(paraId, addresses[j], invulnerables, candidates))
  }

  /** The whole table: the chains' rows one after another, in registration order. */
  function Rows(paraIds: seq<nat>, chains: Option<map<string, seq<string>>>, invulnerables: seq<string>, candidates: seq<CandidateJson>): seq<CollatorRow>
  {
    if |paraIds| == 0 then []
    else
      var last := paraIds[|paraIds| - 1];
      Rows(paraIds[..|paraIds| - 1], chains, invulnerables, candidates)
        + ChainRows(last, Addresses(chains, last), invulnerables, candidates)
  }

  /**
   * The nested `forEach` loops of `fetchData`: for each registered paraId in turn, a row
   * for each address assigned to it.
   */
  method BuildRows(paraIds: seq<nat>, chains: Option<map<string, seq<string>>>, invulnerables: seq<string>, candidates: seq<CandidateJson>)
    returns (rows: seq<CollatorRow>)
    ensures rows == Rows(paraIds, chains, invulnerables, candidates)
  {
    rows := [];
    var i := 0;
    while i < |paraIds|
      invariant 0 <= i <= |paraIds|
      invariant rows == Rows(paraIds[..i], chains, invulnerables, candidates)
    {
      var paraId := paraIds[i];
      var addresses := Addresses(chains, paraId);
      ghost var before := rows;
      var j := 0;
      while j < |addresses|
        invariant 0 <= j <= |addresses|
        invariant rows == before + ChainRows(paraId, addresses[..j], invulnerables, candidates)
      {
        var address := addresses[j];
        assert addresses[..j + 1] == addresses[..j] + [address];
        rows := rows + [MakeRow(paraId, address, invulnerables, candidates)];
        j := j + 1;
      }
      assert addresses[..j] == addresses;
      assert paraIds[..i + 1][..i] == paraIds[..i];
      i := i + 1;
    }
    assert paraIds[..i] == paraIds;
  }

  /** A row is in the table exactly when it is the row of some registered paraId and some
      address assigned to it; each row's flags are the two membership tests. */
  lemma {:induction false} RowsMembership(paraIds: seq<nat>, chains: Option<map<string, seq<string>>>,
                                          invulnerables: seq<string>, candidates: seq<CandidateJson>, row: CollatorRow)
    ensures row in Rows(paraIds, chains, invulnerables, candidates) <==>
      exists i, j :: 0 <= i < |paraIds| && 0 <= j < |Addresses(chains, paraIds[i])|
        && row == MakeRow(paraIds[i], Addresses(chains, paraIds[i])[j], invulnerables, candidates)
  {
    if |paraIds| > 0 {
      var init := paraIds[..|paraIds| - 1];
      var last := paraIds[|paraIds| - 1];
      RowsMembership(init, chains, invulnerables, candidates, row);
      var tail := ChainRows(last, Addresses(chains, last), invulnerables, candidates);
      if row in Rows(paraIds, chains, invulnerables, candidates) {
        if row !in Rows(init, chains, invulnerables, candidates) {
          assert row in tail;
          var j :| 0 <= j < |tail| && tail[j] == row;
          assert paraIds[|paraIds| - 1] == last;
        } else {
          var i, j :| 0 <= i < |init| && 0 <= j < |Addresses(chains, init[i])|
            && row == MakeRow(init[i], Addresses(chains, init[i])[j], invulnerables, candidates);
          assert init[i] == paraIds[i];
        }
      } else {
        forall i, j | 0 <= i < |paraIds| && 0 <= j < |Addresses(chains, paraIds[i])|
          ensures row != MakeRow(paraIds[i], Addresses(chains, paraIds[i])[j], invulnerables, candidates)
        {
          if i < |init| {
            assert init[i] == paraIds[i];
          } else {
            assert tail[j] == MakeRow(last, Addresses(chains, last)[j], invulnerables, candidates);
          }
        }
      }
    }
  }

  /** Registering more chains appends their rows: the table lists chains in
      registration order. */
  lemma {:induction false} RowsAppend(ps: seq<nat>, qs: seq<nat>, chains: Option<map<string, seq<string>>>,
                                      invulnerables: seq<string>, candidates: seq<CandidateJson>)
    ensures Rows(ps + qs, chains, invulnerables, candidates)
      == Rows(ps, chains, invulnerables, candidates) + Rows(qs, chains, invulnerables, candidates)
    decreases |qs|
  {
    if |qs| == 0 {
      assert ps + qs == ps;
    } else {
      var init := qs[..|qs| - 1];
      assert (ps + qs)[..|ps + qs| - 1] == ps + init;
      RowsAppend(ps, init, chains, invulnerables, candidates);
    }
  }

  /** A chain that is not registered, or missing from the assignment, adds no rows. */
  lemma UnassignedChainNoRows(paraId: nat, chains: Option<map<string, seq<string>>>,
                              invulnerables: seq<string>, candidates: seq<CandidateJson>)
    requires chains.None? || NatToString(paraId) !in chains.value
    ensures Rows([paraId], chains, invulnerables, candidates) == []
  {
    assert [paraId][..0] == [];
  }

  /** When every candidate arrives as an object, no row is marked as staking. */
  lemma ObjectCandidatesNeverStaking(paraIds: seq<nat>, chains: Option<map<string, seq<string>>>,
                                     invulnerables: seq<string>, candidates: seq<CandidateJson>)
    requires forall k :: 0 <= k < |candidates| ==> candidates[k].JObject?
    ensures forall row :: row in Rows(paraIds, chains, invulnerables, candidates) ==> !row.isStaking
  {
    forall row | row in Rows(paraIds, chains, invulnerables, candidates)
      ensures !row.isStaking
    {
      RowsMembership(paraIds, chains, invulnerables, candidates, row);
    }
  }

  /** The first "-" of a row key follows the paraId's digits. */
  lemma FirstDash(p: nat, a: string)
    ensures var k, n := RowKey(p, a), |NatToString(p)|;
      n < |k| && k[n] == '-' && forall i :: 0 <= i < n ==> k[i] != '-'
  {
    var k, s := RowKey(p, a), NatToString(p);
    forall i | 0 <= i < |s| ensures k[i] != '-' {
      assert k[i] == s[i] && IsDecimalDigit(s[i]);
    }
  }

  /** Row keys identify their rows: a decimal paraId has no "-", so the key splits back
      into the paraId and the address. */
  lemma RowKeyInjective(p: nat, a: string, q: nat, b: string)
    requires RowKey(p, a) == RowKey(q, b)
    ensures p == q && a == b
  {
    var sp, sq := NatToString(p), NatToString(q);
    var k := RowKey(p, a);
    FirstDash(p, a);
    FirstDash(q, b);
    assert |sp| == |sq|;
    assert sp == k[..|sp|] == sq;
    NatToStringInjective(p, q);
    assert a == k[|sp| + 1..] == b;
  }

  /** The paraId column's sorter `a.paraId - b.paraId`. */
  function ParaIdOrder(a: CollatorRow, b: CollatorRow): (d: int)
    ensures d < 0 <==> a.paraId < b.paraId
    ensures d == 0 <==> a.paraId == b.paraId
  {
    a.paraId - b.paraId
  }
}

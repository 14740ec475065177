/**
 * The chain as the search panels see it: the head height is read once when a
 * search starts, and every storage read at a height is a call to a fixed
 * function. The RPC round trips behind it are not modelled.
 */
module Chain {
  import opened Wrappers
  import opened Hex

  /** The raw storage value of the probed key at each height; `None` when the key is unset. */
  type Storage = nat -> Option<seq<byte>>

  /** `(await getStorage(key, hash))?.toHex() || '0x'`: unset storage reads as "0x". */
  function ReadHex(storage: Storage, height: nat): (hex: string)
    ensures IsHex(hex)
    ensures storage(height).None? ==> hex == "0x"
  {
    match storage(height)
    case None => "0x"
    case Some(bytes) => ToHex(bytes)
  }

  /** The little-endian number a storage value is decoded as. */
  function ReadNumber(storage: Storage, height: nat): nat {
    LeHex(ReadHex(storage, height))
  }

  /** Unset storage decodes to 0; a set value decodes to its bytes read little-endian. */
  lemma ReadNumberOfStorage(storage: Storage, height: nat)
    ensures ReadNumber(storage, height) == LeValue(storage(height).GetOr([]))
  {
    DecodeToHex(storage(height).GetOr([]));
  }

  function Pow2(n: nat): (p: nat)
    ensures p >= 1
  {
    if n == 0 then 1 else 2 * Pow2(n - 1)
  }

  /**
   * The read budget of a bisection over [0, head]: halving the window with
   * `mid = (low + high) / 2` keeps `(high - low - 1) * 2^k <= head - 1` after
   * `k` steps, so a step is only taken while `2^k <= head - 1`.
   */
  ghost predicate BisectionBudget(low: nat, high: nat, steps: nat, head: nat) {
    && (high - low - 1) * Pow2(steps) <= head - 1
    && (steps > 0 ==> Pow2(steps - 1) < head)
  }

  /** One halving step keeps the budget, whichever half is kept. */
  lemma BisectionStep(low: nat, high: nat, steps: nat, head: nat)
    requires low + 1 < high && BisectionBudget(low, high, steps, head)
    ensures var mid := (low + high) / 2;
      BisectionBudget(low, mid, steps + 1, head) && BisectionBudget(mid, high, steps + 1, head)
  {
    var mid := (low + high) / 2;
    var p := Pow2(steps);
    assert 2 * (mid - low - 1) <= high - low - 1;
    assert 2 * (high - mid - 1) <= high - low - 1;
    assert (2 * (mid - low - 1)) * p <= (high - low - 1) * p;
    assert (2 * (high - mid - 1)) * p <= (high - low - 1) * p;
    assert 1 * p <= (high - low - 1) * p;
  }
}

/**
 * The storage-key panel: given a storage key and the head height, binary-search
 * the chain history either for the block where the key took its current value
 * ("last change" mode) or for the block whose little-endian value is nearest a
 * target number ("number" mode).
 */
module StorageKeyChangeFinder {
  import opened Wrappers
  import opened Hex
  import opened Chain

  /** What the panel shows when a search ends: the previous block and its value
      (absent when there is none), and the found block with the value shown for it. */
  datatype Outcome =
    | InvalidKey
    | Found(prevBlock: Option<nat>, prevHex: Option<string>, foundBlock: nat, foundHex: string)

  /** The value settles once: from the first height in [0, head] holding the head value,
      every later height holds it too. */
  ghost predicate SettlesOnce(storage: Storage, head: nat) {
    forall h: nat, h': nat :: h <= h' <= head && ReadHex(storage, h) == ReadHex(storage, head) ==>
      ReadHex(storage, h') == ReadHex(storage, head)
  }

  /** The decoded value never decreases along [0, head]. */
  ghost predicate NonDecreasing(storage: Storage, head: nat) {
    forall h: nat, h': nat :: h <= h' <= head ==> ReadNumber(storage, h) <= ReadNumber(storage, h')
  }

  /**
   * Last-change mode. With an invalid key nothing is read. When the genesis value equals
   * the head value the answer is block 0 with no previous block. Otherwise the loop keeps
   * the head value at `high` and a different value at `low`, so the found block is
   * `prev + 1`, holds the head value and its predecessor does not; when the value settles
   * once, the found block is the first height holding the head value.
   */
  method FindChange(key: string, storage: Storage, head: nat) returns (r: Outcome, ghost steps: nat)
    ensures r.InvalidKey? <==> !IsHexKey(key)
    ensures steps > 0 ==> IsHexKey(key) && ReadHex(storage, 0) != ReadHex(storage, head) && Pow2(steps - 1) < head
    ensures IsHexKey(key) && ReadHex(storage, 0) == ReadHex(storage, head) ==>
      r == Found(None, None, 0, ReadHex(storage, 0))
    ensures IsHexKey(key) && ReadHex(storage, 0) != ReadHex(storage, head) ==>
      && r.Found? && 0 < r.foundBlock <= head
      && r.prevBlock == Some(r.foundBlock - 1)
      && r.prevHex == Some(ReadHex(storage, r.foundBlock - 1))
      && r.foundHex == ReadHex(storage, r.foundBlock) == ReadHex(storage, head)
      && ReadHex(storage, r.foundBlock - 1) != ReadHex(storage, head)
    ensures r.Found? && SettlesOnce(storage, head) ==>
      forall h: nat :: h < r.foundBlock ==> ReadHex(storage, h) != ReadHex(storage, head)
  {
    steps := 0;
    if !IsHexKey(key) {
      return InvalidKey, steps;
    }
    var low: nat, high: nat := 0, head;
    var lowHex := ReadHex(storage, low);
    var highHex := ReadHex(storage, high);
    if lowHex == highHex {
      return Found(None, None, 0, lowHex), steps;
    }
    while high - low > 1
      invariant low < high <= head
      invariant BisectionBudget(low, high, steps, head)
      invariant lowHex == ReadHex(storage, low) && lowHex != ReadHex(storage, head)
      invariant highHex == ReadHex(storage, high) && highHex == ReadHex(storage, head)
      decreases high - low
    {
      var mid: nat := (low + high) / 2;
      BisectionStep(low, high, steps, head);
      steps := steps + 1;
      var midHex := ReadHex(storage, mid);
      if midHex == highHex {
        high, highHex := mid, midHex;
      } else {
        low, lowHex := mid, midHex;
      }
    }
    r := Found(Some(low), Some(lowHex), high, highHex);
  }

  /** The outcome of a number-mode search that ran its loop: `high` is the block just above
      the target and `high - 1` the one just below; the block closer to the target is
      chosen, ties going to the lower one, which is then shown with no previous block;
      the value shown is that of the chosen block. */
  ghost predicate NearestPick(storage: Storage, target: int, head: nat, r: Outcome)
    requires r.Found?
  {
    var high := if r.prevBlock.None? then r.foundBlock + 1 else r.foundBlock;
    && 0 < high <= head
    && ReadNumber(storage, high - 1) < target <= ReadNumber(storage, high)
    && (r.prevBlock.None? <==>
         target - ReadNumber(storage, high - 1) <= ReadNumber(storage, high) - target)
    && (r.prevBlock.Some? ==> r.prevBlock == Some(high - 1) && r.prevHex == Some(ReadHex(storage, high - 1)))
    && (r.prevBlock.None? ==> r.prevHex.None?)
    && r.foundHex == ReadHex(storage, r.foundBlock)
  }

  /** The final pick of number mode as the source writes it: the value shown is that of
      `high` whichever block is chosen. */
  function PickAsWritten(storage: Storage, target: int, low: nat, high: nat): (r: Outcome)
    ensures r.Found? && r.foundHex == ReadHex(storage, high)
    ensures r.foundBlock == low <==> target - ReadNumber(storage, low) <= ReadNumber(storage, high) - target || low == high
  {
    var chosen := if target - ReadNumber(storage, low) <= ReadNumber(storage, high) - target then low else high;
    var prev: Option<nat> := if chosen == low then None else Some(low);
    Found(prev, if prev.Some? then Some(ReadHex(storage, low)) else None, chosen, ReadHex(storage, high))
  }

  /** The final pick with the value shown being the chosen block's own. */
  function Pick(storage: Storage, target: int, low: nat, high: nat): (r: Outcome)
    ensures r.Found? && r.foundHex == ReadHex(storage, r.foundBlock)
    ensures r.foundBlock == low || r.foundBlock == high
    ensures r.prevBlock.None? <==> r.foundBlock == low
    ensures r.prevBlock.Some? ==> r.prevBlock == Some(low) && r.prevHex == Some(ReadHex(storage, low))
    ensures r.prevBlock.None? ==> r.prevHex.None?
    ensures r.foundBlock == low <==> target - ReadNumber(storage, low) <= ReadNumber(storage, high) - target || low == high
  {
    var chosen := if target - ReadNumber(storage, low) <= ReadNumber(storage, high) - target then low else high;
    var prev: Option<nat> := if chosen == low then None else Some(low);
    Found(prev, if prev.Some? then Some(ReadHex(storage, low)) else None, chosen, ReadHex(storage, chosen))
  }

  /** Storage holding 1 at genesis and 3 from block 1 on. */
  function StepUp(h: nat): Option<seq<byte>> {
    if h == 0 then Some([1]) else Some([3])
  }

  /** With values 1 and 3 and target 2 the tie picks block 0; the source then shows
      block 1's value beside it, while the corrected pick shows block 0's. */
  lemma ShownValueMismatch()
    ensures PickAsWritten(StepUp, 2, 0, 1).foundBlock == 0
    ensures PickAsWritten(StepUp, 2, 0, 1).foundHex != ReadHex(StepUp, 0)
    ensures Pick(StepUp, 2, 0, 1).foundHex == ReadHex(StepUp, 0)
  {
    DecodeToHex([1]);
    DecodeToHex([3]);
    assert ReadHex(StepUp, 0) == ToHex([1]);
    assert ReadHex(StepUp, 1) == ToHex([3]);
  }

  /** Where the loop stops, `low` and `high` are adjacent and bracket the target, so the
      pick is the nearest block. */
  lemma PickIsNearest(storage: Storage, target: int, head: nat, low: nat, high: nat)
    requires low < high <= head && high - low <= 1
    requires ReadNumber(storage, low) < target <= ReadNumber(storage, high)
    ensures NearestPick(storage, target, head, Pick(storage, target, low, high))
  {
    var r := Pick(storage, target, low, high);
    assert high == low + 1;
    if r.prevBlock.None? {
      assert r.foundBlock + 1 == high;
    } else {
      assert r.foundBlock == high;
    }
  }

  /** With non-decreasing values every block below the one reaching the target is below it. */
  lemma BelowTarget(storage: Storage, target: int, head: nat, low: nat, high: nat)
    requires low < high <= head && high - low <= 1
    requires ReadNumber(storage, low) < target
    requires NonDecreasing(storage, head)
    ensures forall h: nat :: h < high ==> ReadNumber(storage, h) < target
  {
    forall h: nat | h < high
      ensures ReadNumber(storage, h) < target
    {
      assert ReadNumber(storage, h) <= ReadNumber(storage, low);
    }
  }

  /**
   * Number mode. A target at or above the head value answers the head; otherwise a
   * target at or below the genesis value answers block 0; otherwise the loop keeps
   * value(low) < target <= value(high) and the nearer of the final pair is chosen.
   * When the values never decrease, `high` is the first block reaching the target. The
   * value shown is always the found block's own.
   */
  method FindNumber(key: string, target: int, storage: Storage, head: nat) returns (r: Outcome, ghost steps: nat)
    ensures r.InvalidKey? <==> !IsHexKey(key)
    ensures steps > 0 ==> IsHexKey(key) && ReadNumber(storage, 0) < target < ReadNumber(storage, head) && Pow2(steps - 1) < head
    ensures IsHexKey(key) && target >= ReadNumber(storage, head) ==>
      r == Found(None, None, head, ReadHex(storage, head))
    ensures IsHexKey(key) && target < ReadNumber(storage, head) && target <= ReadNumber(storage, 0) ==>
      r == Found(None, None, 0, ReadHex(storage, 0))
    ensures IsHexKey(key) && ReadNumber(storage, 0) < target < ReadNumber(storage, head) ==>
      r.Found? && NearestPick(storage, target, head, r)
    ensures r.Found? ==> r.foundHex == ReadHex(storage, r.foundBlock)
    ensures IsHexKey(key) && ReadNumber(storage, 0) < target < ReadNumber(storage, head) && NonDecreasing(storage, head) ==>
      r.Found? && var high := if r.prevBlock.None? then r.foundBlock + 1 else r.foundBlock;
      forall h: nat :: h < high ==> ReadNumber(storage, h) < target
  {
    steps := 0;
    if !IsHexKey(key) {
      return InvalidKey, steps;
    }
    var low: nat, high: nat := 0, head;
    var headHex, headNum := ReadHex(storage, high), ReadNumber(storage, high);
    if target >= headNum {
      return Found(None, None, high, headHex), steps;
    }
    var genHex, genNum := ReadHex(storage, 0), ReadNumber(storage, 0);
    if target <= genNum {
      return Found(None, None, 0, genHex), steps;
    }
    while high - low > 1
      invariant low < high <= head
      invariant BisectionBudget(low, high, steps, head)
      invariant ReadNumber(storage, low) < target <= ReadNumber(storage, high)
      decreases high - low
    {
      var mid: nat := (low + high) / 2;
      BisectionStep(low, high, steps, head);
      steps := steps + 1;
      var midNum := ReadNumber(storage, mid);
      if midNum < target {
        low := mid;
      } else {
        high := mid;
      }
    }
    PickIsNearest(storage, target, head, low, high);
    if NonDecreasing(storage, head) {
      BelowTarget(storage, target, head, low, high);
    }
    r := Pick(storage, target, low, high);
  }
}

/**
 * The bridge inbound panel: enumerate the blocks where a channel's nonce storage
 * changed, either within the last BLOCK_WINDOW blocks ("change" mode) or over the
 * whole chain while the nonce is within NONCE_WINDOW of the current one ("number"
 * mode). Both modes split the block window recursively and report a block when an
 * adjacent pair of heights holds different values.
 */
module SnowbridgeInboundSubmit {
  import opened Wrappers
  import opened Hex
  import opened Chain

  const BlockWindow: nat := 10_000
  const NonceWindow: nat := 5

  /** One reported change: the block and the nonce decoded from its storage value. */
  datatype ChangeItem = ChangeItem(block: nat, nonce: nat)

  datatype Mode = Change | Number

  datatype SearchError = NoChannel | NonceNotLoaded

  datatype Result<T> = Ok(value: T) | Err(error: SearchError)

  /** The nonce reported for a block: the storage value read there, decoded. */
  function ItemAt(storage: Storage, block: nat): ChangeItem {
    ChangeItem(block, NonceOf(ReadHex(storage, block)))
  }

  /** A change point: the value at `h` differs from the one just before. */
  ghost predicate IsChangePoint(storage: Storage, h: nat) {
    h > 0 && ReadHex(storage, h - 1) != ReadHex(storage, h)
  }

  // ---------------------------------------------------------------------------
  // Ordering of the results list

  /** Blocks strictly descending, so each block at most once. */
  ghost predicate StrictlyDescending(items: seq<ChangeItem>) {
    forall i, j :: 0 <= i < j < |items| ==> items[i].block > items[j].block
  }

  ghost predicate Descending(items: seq<ChangeItem>) {
    forall i, j :: 0 <= i < j < |items| ==> items[i].block >= items[j].block
  }

  /** Places `x` after every item whose block is at least its own: one step of a
      stable sort by `b.block - a.block`. */
  function InsertByBlock(items: seq<ChangeItem>, x: ChangeItem): (r: seq<ChangeItem>)
    ensures multiset(r) == multiset(items) + multiset{x}
  {
    if |items| == 0 then [x]
    else if items[0].block >= x.block then
      assert items == [items[0]] + items[1..];
      [items[0]] + InsertByBlock(items[1..], x)
    else
      [x] + items
  }

  /** `results.sort((a, b) => b.block - a.block)`: a stable sort, blocks descending. */
  function SortByBlock(items: seq<ChangeItem>): (r: seq<ChangeItem>)
    ensures multiset(r) == multiset(items)
  {
    if |items| == 0 then []
    else
      assert items == items[..|items| - 1] + [items[|items| - 1]];
      InsertByBlock(SortByBlock(items[..|items| - 1]), items[|items| - 1])
  }

  /** Every item of `InsertByBlock(items, x)` before `x` has a block at least x's. */
  lemma {:induction false} InsertKeepsDescending(items: seq<ChangeItem>, x: ChangeItem)
    requires Descending(items)
    ensures Descending(InsertByBlock(items, x))
  {
    if |items| > 0 && items[0].block >= x.block {
      var tail := items[1..];
      InsertKeepsDescending(tail, x);
      var r := InsertByBlock(items, x);
      var rt := InsertByBlock(tail, x);
      assert r == [items[0]] + rt;
      assert multiset(rt) == multiset(tail) + multiset{x};
      forall j | 0 <= j < |rt|
        ensures items[0].block >= rt[j].block
      {
        assert rt[j] in multiset(rt);
        if rt[j] != x {
          assert rt[j] in multiset(tail);
          var k :| 0 <= k < |tail| && tail[k] == rt[j];
          assert tail[k] == items[k + 1];
        }
      }
    }
  }

  /** The sort's output is in descending block order. */
  lemma {:induction false} SortDescending(items: seq<ChangeItem>)
    ensures Descending(SortByBlock(items))
  {
    if |items| > 0 {
      SortDescending(items[..|items| - 1]);
      InsertKeepsDescending(SortByBlock(items[..|items| - 1]), items[|items| - 1]);
    }
  }

  lemma {:induction false} InsertSmallest(items: seq<ChangeItem>, x: ChangeItem)
    requires forall i :: 0 <= i < |items| ==> items[i].block >= x.block
    ensures InsertByBlock(items, x) == items + [x]
  {
    if |items| > 0 {
      InsertSmallest(items[1..], x);
      assert items == [items[0]] + items[1..];
    }
  }

  /** Sorting a list that is already in descending block order leaves it unchanged, so
      the sorts after each push and at the end never reorder the walk's results. */
  lemma {:induction false} SortSorted(items: seq<ChangeItem>)
    requires Descending(items)
    ensures SortByBlock(items) == items
  {
    if |items| > 0 {
      var init := items[..|items| - 1];
      SortSorted(init);
      InsertSmallest(init, items[|items| - 1]);
      assert init + [items[|items| - 1]] == items;
    }
  }

  // ---------------------------------------------------------------------------
  // Change mode

  /** What `walk(low, high, …)` appends, in push order: nothing when the endpoint values
      agree, the high block of an adjacent pair that differs, and otherwise the upper half
      followed by the lower half. */
  function Changes(storage: Storage, low: nat, high: nat): seq<ChangeItem>
    requires low <= high
    decreases high - low
  {
    if ReadHex(storage, low) == ReadHex(storage, high) then []
    else if high - low <= 1 then [ItemAt(storage, high)]
    else
      var mid := (low + high) / 2;
      Changes(storage, mid, high) + Changes(storage, low, mid)
  }

  /** Every reported block lies in (low, high] and the blocks come strictly descending,
      so none is reported twice. */
  lemma {:induction false} ChangesOrdered(storage: Storage, low: nat, high: nat)
    requires low <= high
    ensures var items := Changes(storage, low, high);
      && StrictlyDescending(items)
      && forall i :: 0 <= i < |items| ==> low < items[i].block <= high
    decreases high - low
  {
    if ReadHex(storage, low) != ReadHex(storage, high) && high - low > 1 {
      var mid := (low + high) / 2;
      ChangesOrdered(storage, mid, high);
      ChangesOrdered(storage, low, mid);
    }
  }

  /** Every reported block is a change point and carries the nonce of its own value. */
  lemma {:induction false} ChangesSound(storage: Storage, low: nat, high: nat)
    requires low <= high
    ensures AllSound(storage, Changes(storage, low, high))
    decreases high - low
  {
    if ReadHex(storage, low) != ReadHex(storage, high) && high - low > 1 {
      var mid := (low + high) / 2;
      ChangesSound(storage, mid, high);
      ChangesSound(storage, low, mid);
      SoundAppend(storage, Changes(storage, mid, high), Changes(storage, low, mid));
    }
  }

  ghost predicate AllSound(storage: Storage, items: seq<ChangeItem>) {
    forall i :: 0 <= i < |items| ==>
      IsChangePoint(storage, items[i].block) && items[i] == ItemAt(storage, items[i].block)
  }

  lemma SoundAppend(storage: Storage, xs: seq<ChangeItem>, ys: seq<ChangeItem>)
    requires AllSound(storage, xs) && AllSound(storage, ys)
    ensures AllSound(storage, xs + ys)
  {
    forall i | 0 <= i < |xs + ys|
      ensures IsChangePoint(storage, (xs + ys)[i].block) && (xs + ys)[i] == ItemAt(storage, (xs + ys)[i].block)
    {
      if i >= |xs| {
        assert (xs + ys)[i] == ys[i - |xs|];
      }
    }
  }

  /** When the endpoint values differ, at least one change is reported. */
  lemma {:induction false} ChangesNonEmpty(storage: Storage, low: nat, high: nat)
    requires low <= high
    requires ReadHex(storage, low) != ReadHex(storage, high)
    ensures |Changes(storage, low, high)| > 0
    decreases high - low
  {
    if high - low > 1 {
      var mid := (low + high) / 2;
      if ReadHex(storage, mid) != ReadHex(storage, high) {
        ChangesNonEmpty(storage, mid, high);
      } else {
        ChangesNonEmpty(storage, low, mid);
      }
    }
  }

  /** A window whose value changes at exactly one block reports exactly that block. */
  lemma {:induction false} SingleChangeFound(storage: Storage, low: nat, high: nat, k: nat)
    requires low < k <= high && IsChangePoint(storage, k)
    requires forall h: nat :: low < h <= high && h != k ==> !IsChangePoint(storage, h)
    ensures Changes(storage, low, high) == [ItemAt(storage, k)]
    decreases high - low
  {
    SameValueBetween(storage, low, k - 1);
    SameValueBetween(storage, k, high);
    if high - low > 1 {
      var mid := (low + high) / 2;
      if k > mid {
        SameValueBetween(storage, low, mid);
        SingleChangeFound(storage, mid, high, k);
        assert Changes(storage, low, high) == Changes(storage, mid, high) + [];
      } else {
        SameValueBetween(storage, mid, high);
        SingleChangeFound(storage, low, mid, k);
        assert Changes(storage, low, high) == [] + Changes(storage, low, mid);
      }
    }
  }

  /** Without change points inside, both ends of a window hold the same value. */
  lemma {:induction false} SameValueBetween(storage: Storage, a: nat, b: nat)
    requires a <= b
    requires forall h: nat :: a < h <= b ==> !IsChangePoint(storage, h)
    ensures ReadHex(storage, a) == ReadHex(storage, b)
    decreases b - a
  {
    if a < b {
      SameValueBetween(storage, a, b - 1);
      assert !IsChangePoint(storage, b);
    }
  }

  /** Storage that changes at block 1 and changes back at block 2. */
  function Reverting(h: nat): Option<seq<byte>> {
    if h == 1 then Some([1]) else Some([0])
  }

  /** A value that changes and reverts inside a window is missed: both ends agree, so the
      window [0, 2] reports nothing although blocks 1 and 2 are change points. */
  lemma RevertMissed()
    ensures IsChangePoint(Reverting, 1) && IsChangePoint(Reverting, 2)
    ensures Changes(Reverting, 0, 2) == []
  {
    DecodeToHex([0]);
    DecodeToHex([1]);
  }

  // ---------------------------------------------------------------------------
  // Nonce mode

  /** The nonce bounds of number mode: [max(0, current - 5), max(0, current)]. */
  function LowNonceBound(current: int): nat {
    if current - NonceWindow > 0 then current - NonceWindow else 0
  }

  function HighNonceBound(current: int): nat {
    if current > 0 then current else 0
  }

  /** What `walkNonce(low, high, …)` appends, in push order: like `Changes`, except that a
      window whose high nonce is below the lower bound or whose low nonce is above the upper
      bound is skipped, and an adjacent pair is reported only when its nonce exceeds the
      lower bound. */
  function NonceChanges(storage: Storage, low: nat, high: nat, lowBound: nat, highBound: nat): seq<ChangeItem>
    requires low <= high
    decreases high - low
  {
    var lowHex, highHex := ReadHex(storage, low), ReadHex(storage, high);
    if NonceOf(highHex) < lowBound then []
    else if NonceOf(lowHex) > highBound then []
    else if lowHex == highHex then []
    else if high - low <= 1 then
      var item := ItemAt(storage, high);
      if item.nonce > lowBound then [item] else []
    else
      var mid := (low + high) / 2;
      NonceChanges(storage, mid, high, lowBound, highBound) + NonceChanges(storage, low, mid, lowBound, highBound)
  }

  /** Number mode's blocks also lie in (low, high], strictly descending. */
  lemma {:induction false} NonceChangesOrdered(storage: Storage, low: nat, high: nat, lowBound: nat, highBound: nat)
    requires low <= high
    ensures var items := NonceChanges(storage, low, high, lowBound, highBound);
      && StrictlyDescending(items)
      && forall i :: 0 <= i < |items| ==> low < items[i].block <= high
    decreases high - low
  {
    var lowHex, highHex := ReadHex(storage, low), ReadHex(storage, high);
    if NonceOf(highHex) >= lowBound && NonceOf(lowHex) <= highBound && lowHex != highHex && high - low > 1 {
      var mid := (low + high) / 2;
      NonceChangesOrdered(storage, mid, high, lowBound, highBound);
      NonceChangesOrdered(storage, low, mid, lowBound, highBound);
    }
  }

  /** A number-mode report: a change point with its own nonce, that nonce above the lower
      bound, and the nonce just before it at most the upper bound. */
  ghost predicate InNonceWindow(storage: Storage, item: ChangeItem, lowBound: nat, highBound: nat) {
    && IsChangePoint(storage, item.block)
    && item == ItemAt(storage, item.block)
    && item.nonce > lowBound
    && NonceOf(ReadHex(storage, item.block - 1)) <= highBound
  }

  ghost predicate AllInNonceWindow(storage: Storage, items: seq<ChangeItem>, lowBound: nat, highBound: nat) {
    forall i :: 0 <= i < |items| ==> InNonceWindow(storage, items[i], lowBound, highBound)
  }

  lemma NonceWindowAppend(storage: Storage, xs: seq<ChangeItem>, ys: seq<ChangeItem>, lowBound: nat, highBound: nat)
    requires AllInNonceWindow(storage, xs, lowBound, highBound)
    requires AllInNonceWindow(storage, ys, lowBound, highBound)
    ensures AllInNonceWindow(storage, xs + ys, lowBound, highBound)
  {
    forall i | 0 <= i < |xs + ys|
      ensures InNonceWindow(storage, (xs + ys)[i], lowBound, highBound)
    {
      if i >= |xs| {
        assert (xs + ys)[i] == ys[i - |xs|];
      }
    }
  }

  /** Every block number mode reports is a change point whose nonce exceeds the lower bound
      and whose predecessor's nonce is at most the upper bound. */
  lemma {:induction false} NonceChangesSound(storage: Storage, low: nat, high: nat, lowBound: nat, highBound: nat)
    requires low <= high
    ensures AllInNonceWindow(storage, NonceChanges(storage, low, high, lowBound, highBound), lowBound, highBound)
    decreases high - low
  {
    var lowHex, highHex := ReadHex(storage, low), ReadHex(storage, high);
    if NonceOf(highHex) >= lowBound && NonceOf(lowHex) <= highBound && lowHex != highHex && high - low > 1 {
      var mid := (low + high) / 2;
      NonceChangesSound(storage, mid, high, lowBound, highBound);
      NonceChangesSound(storage, low, mid, lowBound, highBound);
      NonceWindowAppend(storage, NonceChanges(storage, mid, high, lowBound, highBound),
        NonceChanges(storage, low, mid, lowBound, highBound), lowBound, highBound);
    }
  }

  // ---------------------------------------------------------------------------
  // The searches, with the shared results list

  /** Two lists whose blocks all exceed `bound` concatenate into one that does too. */
  lemma AppendAbove(xs: seq<ChangeItem>, ys: seq<ChangeItem>, bound: nat)
    requires forall i :: 0 <= i < |xs| ==> xs[i].block > bound
    requires forall i :: 0 <= i < |ys| ==> ys[i].block > bound
    ensures forall i :: 0 <= i < |xs + ys| ==> (xs + ys)[i].block > bound
  {
  }

  lemma EmptyAppend(xs: seq<ChangeItem>)
    ensures [] + xs == xs
  {
  }

  lemma AppendAssoc(xs: seq<ChangeItem>, ys: seq<ChangeItem>, zs: seq<ChangeItem>)
    ensures (xs + ys) + zs == xs + (ys + zs)
  {
  }

  /** The `results` array the recursive walks push into and sort. */
  class ChangeSearch {
    const storage: Storage
    var results: seq<ChangeItem>

    constructor (storage: Storage)
      ensures this.storage == storage && results == []
    {
      this.storage := storage;
      results := [];
    }

    /** `results.push(item); results.sort(...)`, for an item below every listed block. */
    method Push(item: ChangeItem)
      requires StrictlyDescending(results)
      requires forall i :: 0 <= i < |results| ==> results[i].block > item.block
      modifies this
      ensures results == old(results) + [item]
      ensures StrictlyDescending(results)
    {
      results := results + [item];
      SortSorted(results);
      results := SortByBlock(results);
    }

    /** `walk`: appends `Changes(storage, low, high)` to the results. */
    method Walk(low: nat, high: nat, lowHex: string, highHex: string)
      requires low <= high
      requires lowHex == ReadHex(storage, low) && highHex == ReadHex(storage, high)
      requires StrictlyDescending(results)
      requires forall i :: 0 <= i < |results| ==> results[i].block > high
      modifies this
      ensures results == old(results) + Changes(storage, low, high)
      ensures StrictlyDescending(results)
      decreases high - low
    {
      if lowHex == highHex {
        return;
      }
      if high - low <= 1 {
        var item := ChangeItem(high, NonceOf(highHex));
        Push(item);
        return;
      }
      var mid := (low + high) / 2;
      var midHex := ReadHex(storage, mid);
      Walk(mid, high, midHex, highHex);
      ChangesOrdered(storage, mid, high);
      AppendAbove(old(results), Changes(storage, mid, high), mid);
      Walk(low, mid, lowHex, midHex);
      assert Changes(storage, low, high) == Changes(storage, mid, high) + Changes(storage, low, mid);
      AppendAssoc(old(results), Changes(storage, mid, high), Changes(storage, low, mid));
    }

    /** `walkNonce`: appends `NonceChanges(storage, low, high, lowBound, highBound)`. */
    method WalkNonce(low: nat, high: nat, lowHex: string, highHex: string, lowBound: nat, highBound: nat)
      requires low <= high
      requires lowHex == ReadHex(storage, low) && highHex == ReadHex(storage, high)
      requires StrictlyDescending(results)
      requires forall i :: 0 <= i < |results| ==> results[i].block > high
      modifies this
      ensures results == old(results) + NonceChanges(storage, low, high, lowBound, highBound)
      ensures StrictlyDescending(results)
      decreases high - low
    {
      var lowNonce := NonceOf(lowHex);
      var highNonce := NonceOf(highHex);
      if highNonce < lowBound {
        return;
      }
      if lowNonce > highBound {
        return;
      }
      if lowHex == highHex {
        return;
      }
      if high - low <= 1 {
        var item := ChangeItem(high, NonceOf(highHex));
        if item.nonce > lowBound {
          Push(item);
        }
        return;
      }
      var mid := (low + high) / 2;
      var midHex := ReadHex(storage, mid);
      WalkNonce(mid, high, midHex, highHex, lowBound, highBound);
      NonceChangesOrdered(storage, mid, high, lowBound, highBound);
      AppendAbove(old(results), NonceChanges(storage, mid, high, lowBound, highBound), mid);
      WalkNonce(low, mid, lowHex, midHex, lowBound, highBound);
      assert NonceChanges(storage, low, high, lowBound, highBound)
        == NonceChanges(storage, mid, high, lowBound, highBound) + NonceChanges(storage, low, mid, lowBound, highBound);
      AppendAssoc(old(results), NonceChanges(storage, mid, high, lowBound, highBound),
        NonceChanges(storage, low, mid, lowBound, highBound));
    }
  }

  /** The first block change mode searches from. */
  function WindowStart(head: nat): nat {
    if head - BlockWindow > 0 then head - BlockWindow else 0
  }

  /**
   * `findAllChanges`. Without a channel, or in number mode before the current nonce is
   * known, it reports an error. Change mode lists the changes in
   * [max(0, head - 10000), head]; number mode lists those over [0, head] within the nonce
   * bounds. Either way the list is in strictly descending block order.
   */
  method FindAllChanges(mode: Mode, channelId: string, currentNonce: Option<int>, storage: Storage, head: nat)
    returns (r: Result<seq<ChangeItem>>)
    ensures channelId == "" <==> r == Err(NoChannel)
    ensures channelId != "" && mode == Number && currentNonce.None? <==> r == Err(NonceNotLoaded)
    ensures channelId != "" && mode == Change ==> r == Ok(Changes(storage, WindowStart(head), head))
    ensures channelId != "" && mode == Number && currentNonce.Some? ==>
      r == Ok(NonceChanges(storage, 0, head, LowNonceBound(currentNonce.value), HighNonceBound(currentNonce.value)))
    ensures r.Ok? ==> StrictlyDescending(r.value)
    ensures r.Ok? && mode == Change ==>
      forall i :: 0 <= i < |r.value| ==> WindowStart(head) < r.value[i].block <= head
  {
    if channelId == "" {
      return Err(NoChannel);
    }
    if mode == Number && currentNonce.None? {
      return Err(NonceNotLoaded);
    }
    var search := new ChangeSearch(storage);
    ghost var expected: seq<ChangeItem>;
    if mode == Change {
      var from := WindowStart(head);
      var lowHex := ReadHex(storage, from);
      var highHex := ReadHex(storage, head);
      search.Walk(from, head, lowHex, highHex);
      expected := Changes(storage, from, head);
    } else {
      var lowBound := LowNonceBound(currentNonce.value);
      var highBound := HighNonceBound(currentNonce.value);
      var lowHex := ReadHex(storage, 0);
      var highHex := ReadHex(storage, head);
      search.WalkNonce(0, head, lowHex, highHex, lowBound, highBound);
      expected := NonceChanges(storage, 0, head, lowBound, highBound);
    }
    var results := search.results;
    if mode == Change {
      ChangesOrdered(storage, WindowStart(head), head);
    }
    EmptyAppend(expected);
    assert results == expected;
    SortSorted(results);
    r := Ok(SortByBlock(results));
  }

  /** The current nonce shown for a channel: the head value's first eight bytes, little-endian. */
  function CurrentNonce(storage: Storage, head: nat): (n: nat)
    ensures n < 0x1_0000_0000_0000_0000
    ensures n == NonceOf(ReadHex(storage, head))
  {
    HeadNonceAgrees(ReadHex(storage, head));
    NonceBound(ReadHex(storage, head));
    HeadNonceOf(ReadHex(storage, head))
  }
}

/**
 * The find-block-by-date panel: turn a typed Unix time into milliseconds,
 * binary-search block timestamps for the first block at or after it, and warn
 * when the block found is more than a minute away from the target.
 */
module FindBlockByDate {
  import opened Wrappers
  import opened Text
  import opened Chain

  const SecondsLimit: int := 100_000_000_000
  const MsPerMinute: nat := 60_000
  const MsPerHour: nat := 3_600_000
  const MsPerDay: nat := 86_400_000

  /** The typed number is taken as seconds below 1e11 and as milliseconds from there on. */
  function ToMillis(n: int): (ms: int)
    ensures n < SecondsLimit ==> ms % 1000 == 0 && ms / 1000 == n
    ensures n >= SecondsLimit ==> ms == n
  {
    if n < SecondsLimit then n * 1000 else n
  }

  /** What the panel ends with: an error message, or the block found and its timestamp. */
  datatype Outcome = NoTarget | Found(block: nat, timestamp: int)

  /** Block timestamps never decrease along [0, head]. */
  ghost predicate NonDecreasing(timestamps: nat -> int, head: nat) {
    forall h: nat, h': nat :: h <= h' <= head ==> timestamps(h) <= timestamps(h')
  }

  /**
   * `handleFindBlock`. Without a target nothing is read. A target at or after the head
   * timestamp answers the head; otherwise one at or before genesis answers block 0;
   * otherwise the loop keeps ts(low) < target <= ts(high) and the final choice
   * `ts(high) >= target ? high : low` always takes `high`: the block just after the last
   * block before the target, and the first block reaching it when timestamps never
   * decrease. The timestamp reported is the chosen block's own. `probes` counts the
   * timestamp reads: one per loop step plus four.
   */
  method FindBlock(target: Option<int>, timestamps: nat -> int, head: nat) returns (r: Outcome, ghost probes: nat)
    ensures target.None? <==> r.NoTarget?
    ensures target.None? ==> probes == 0
    ensures target.Some? && target.value >= timestamps(head) ==>
      r == Found(head, timestamps(head)) && probes == 1
    ensures target.Some? && target.value < timestamps(head) && target.value <= timestamps(0) ==>
      r == Found(0, timestamps(0)) && probes == 2
    ensures target.Some? && timestamps(0) < target.value < timestamps(head) ==>
      && r.Found? && 0 < r.block <= head
      && timestamps(r.block - 1) < target.value <= timestamps(r.block)
      && r.timestamp == timestamps(r.block)
      && probes >= 4 && Pow2(probes - 4) < 2 * head
    ensures target.Some? && timestamps(0) < target.value < timestamps(head) && NonDecreasing(timestamps, head) ==>
      r.Found? && forall h: nat :: h < r.block ==> timestamps(h) < target.value
  {
    probes := 0;
    if target.None? {
      return NoTarget, probes;
    }
    var targetTs := target.value;
    var headTs := timestamps(head);
    probes := probes + 1;
    if targetTs >= headTs {
      return Found(head, headTs), probes;
    }
    var genesisTs := timestamps(0);
    probes := probes + 1;
    if targetTs <= genesisTs {
      return Found(0, genesisTs), probes;
    }
    var low: nat, high: nat := 0, head;
    ghost var steps: nat := 0;
    while high - low > 1
      invariant low < high <= head
      invariant timestamps(low) < targetTs <= timestamps(high)
      invariant BisectionBudget(low, high, steps, head) && probes == 2 + steps
      decreases high - low
    {
      var mid: nat := (low + high) / 2;
      BisectionStep(low, high, steps, head);
      steps, probes := steps + 1, probes + 1;
      var ts := timestamps(mid);
      if ts < targetTs {
        low := mid;
      } else {
        high := mid;
      }
    }
    var highTs := timestamps(high);
    var chosen := if highTs >= targetTs then high else low;
    var chosenTs := timestamps(chosen);
    probes := probes + 2;
    r := Found(chosen, chosenTs);
    if NonDecreasing(timestamps, head) {
      forall h: nat | h < high
        ensures timestamps(h) < targetTs
      {
        assert timestamps(h) <= timestamps(low);
      }
    }
  }

  /** The units of the time-difference warning. */
  datatype TimeUnit = Days | Hours | Minutes

  function UnitMillis(u: TimeUnit): nat {
    match u
    case Days => MsPerDay
    case Hours => MsPerHour
    case Minutes => MsPerMinute
  }

  function UnitSuffix(u: TimeUnit): string {
    match u
    case Days => "d"
    case Hours => "h"
    case Minutes => "m"
  }

  datatype Part = Part(amount: nat, unit: TimeUnit)

  /** "Block timestamp is {parts} {after|before} target". */
  datatype Warning = Warning(parts: seq<Part>, after: bool)

  function Abs(x: int): nat {
    if x < 0 then -x else x
  }

  /** The milliseconds the listed parts add up to. */
  function PartsMillis(parts: seq<Part>): nat {
    if |parts| == 0 then 0 else parts[0].amount * UnitMillis(parts[0].unit) + PartsMillis(parts[1..])
  }

  /** The warning shown under a result, if any: days, hours and minutes of the difference,
      each only when non-zero. */
  function TimeWarning(foundTs: int, targetTs: int): Option<Warning> {
    var diffMs := foundTs - targetTs;
    var absMs := Abs(diffMs);
    if absMs > 60000 then
      var days := absMs / MsPerDay;
      var hours := (absMs % MsPerDay) / MsPerHour;
      var minutes := (absMs % MsPerHour) / MsPerMinute;
      var parts := (if days != 0 then [Part(days, Days)] else [])
        + (if hours != 0 then [Part(hours, Hours)] else [])
        + (if minutes != 0 then [Part(minutes, Minutes)] else []);
      Some(Warning(parts, diffMs > 0))
    else
      None
  }

  function PartText(p: Part): string {
    NatToString(p.amount) + UnitSuffix(p.unit)
  }

  function PartTexts(parts: seq<Part>): (texts: seq<string>)
    ensures |texts| == |parts|
  {
    if |parts| == 0 then [] else [PartText(parts[0])] + PartTexts(parts[1..])
  }

  /** The warning's text. */
  function WarningText(w: Warning): string {
    "Block timestamp is " + Join(PartTexts(w.parts), " ") + " " + (if w.after then "after" else "before") + " target"
  }

  /** Days, hours and minutes of a duration, as the warning computes them, add up to the
      duration truncated to whole minutes. */
  lemma SplitDuration(absMs: nat)
    ensures var hours := (absMs % MsPerDay) / MsPerHour;
      var minutes := (absMs % MsPerHour) / MsPerMinute;
      && hours < 24 && minutes < 60
      && absMs - absMs % MsPerMinute == (absMs / MsPerDay) * MsPerDay + hours * MsPerHour + minutes * MsPerMinute
  {
    var days := absMs / 86_400_000;
    var r1 := absMs % 86_400_000;
    var hours := r1 / 3_600_000;
    var r2 := r1 % 3_600_000;
    assert absMs == days * 86_400_000 + r1;
    assert r1 == hours * 3_600_000 + r2;
    assert absMs == (days * 24 + hours) * 3_600_000 + r2;
    assert absMs % 3_600_000 == r2;
    var minutes := r2 / 60_000;
    assert r2 == minutes * 60_000 + r2 % 60_000;
    assert absMs == (days * 1440 + hours * 60 + minutes) * 60_000 + r2 % 60_000;
    assert absMs % 60_000 == r2 % 60_000;
  }

  /**
   * A warning is shown exactly when the difference exceeds a minute; its direction is
   * "after" exactly when the block is later than the target; its parts are non-empty,
   * in the order days, hours, minutes, each non-zero, with hours < 24 and minutes < 60;
   * and they add up to the difference truncated to whole minutes.
   */
  lemma WarningBreakdown(foundTs: int, targetTs: int)
    ensures var w := TimeWarning(foundTs, targetTs);
      && (w.Some? <==> Abs(foundTs - targetTs) > MsPerMinute)
      && (w.Some? ==>
        && (w.value.after <==> foundTs > targetTs)
        && 1 <= |w.value.parts| <= 3
        && (forall i :: 0 <= i < |w.value.parts| ==> w.value.parts[i].amount > 0)
        && (forall i, j :: 0 <= i < j < |w.value.parts| ==> UnitMillis(w.value.parts[i].unit) > UnitMillis(w.value.parts[j].unit))
        && (forall i :: 0 <= i < |w.value.parts| && w.value.parts[i].unit == Hours ==> w.value.parts[i].amount < 24)
        && (forall i :: 0 <= i < |w.value.parts| && w.value.parts[i].unit == Minutes ==> w.value.parts[i].amount < 60)
        && PartsMillis(w.value.parts) <= Abs(foundTs - targetTs) < PartsMillis(w.value.parts) + MsPerMinute)
  {
    var absMs := Abs(foundTs - targetTs);
    if absMs > 60000 {
      var days := absMs / MsPerDay;
      var hours := (absMs % MsPerDay) / MsPerHour;
      var minutes := (absMs % MsPerHour) / MsPerMinute;
      SplitDuration(absMs);
      DropZeroParts(days, hours, minutes);
      assert days != 0 || hours != 0 || minutes != 0;
    }
  }

  lemma DropZeroParts(days: nat, hours: nat, minutes: nat)
    ensures PartsMillis((if days != 0 then [Part(days, Days)] else [])
        + (if hours != 0 then [Part(hours, Hours)] else [])
        + (if minutes != 0 then [Part(minutes, Minutes)] else []))
      == days * MsPerDay + hours * MsPerHour + minutes * MsPerMinute
  {
    var d: seq<Part> := if days != 0 then [Part(days, Days)] else [];
    var h: seq<Part> := if hours != 0 then [Part(hours, Hours)] else [];
    var m: seq<Part> := if minutes != 0 then [Part(minutes, Minutes)] else [];
    PartsMillisAppend(d, h);
    PartsMillisAppend(d + h, m);
    PartsMillisSingle(Part(days, Days));
    PartsMillisSingle(Part(hours, Hours));
    PartsMillisSingle(Part(minutes, Minutes));
  }

  lemma PartsMillisSingle(p: Part)
    ensures PartsMillis([p]) == p.amount * UnitMillis(p.unit)
  {
    assert [p][1..] == [];
  }

  lemma {:induction false} PartsMillisAppend(a: seq<Part>, b: seq<Part>)
    ensures PartsMillis(a + b) == PartsMillis(a) + PartsMillis(b)
  {
    if |a| == 0 {
      assert a + b == b;
    } else {
      assert (a + b)[1..] == a[1..] + b;
      PartsMillisAppend(a[1..], b);
    }
  }
}

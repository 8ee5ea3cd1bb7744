/** The disk queue's capacity policy, in 64-bit arithmetic: room is kept for the copy of a segment
    that removing the front of the log makes, in the queue's own budget and on the file system. */
module Capacity {
  import opened Wrappers

  const MAX_INT64: int := 0x7FFF_FFFF_FFFF_FFFF

  newtype int64 = x: int | -0x8000_0000_0000_0000 <= x <= 0x7FFF_FFFF_FFFF_FFFF

  const WARNING_PERCENT: int64 := 80
  const CRITICAL_PERCENT: int64 := 90

  /** What the storage probe measures; it measures no negative sizes. */
  datatype Storage = Storage(diskBytes: int64, largestFileBytes: int64, freeBytes: int64, blockBytes: int64) {
    predicate Valid() {
      diskBytes >= 0 && largestFileBytes >= 0 && freeBytes >= 0 && blockBytes >= 0
    }
  }

  datatype State = Healthy | Warning | Critical | Blocked

  /** Addition of sizes, absent when it leaves 64 bits. */
  function AddBytes(left: int64, right: int64): (r: Option<int64>)
    ensures r == if left >= 0 && right >= 0 && left as int + right as int <= MAX_INT64 then Some(left + right) else None
  {
    if left < 0 || right < 0 || right > 0x7FFF_FFFF_FFFF_FFFF - left then None else Some(left + right)
  }

  function MultiplyBytes(value: int64, factor: int64): int64
    requires value >= 0 && factor > 0
  {
    if value > 0x7FFF_FFFF_FFFF_FFFF / factor then 0x7FFF_FFFF_FFFF_FFFF
    else Product(value as int, factor as int); value * factor
  }

  lemma Product(value: int, factor: int)
    requires factor > 0 && 0 <= value <= MAX_INT64 / factor
    ensures 0 <= value * factor <= MAX_INT64
  {
    var whole := MAX_INT64 / factor;
    assert MAX_INT64 == whole * factor + MAX_INT64 % factor;
    assert whole * factor == value * factor + (whole - value) * factor;
  }

  /** A size in whole blocks, taken one at a time, in unbounded arithmetic. */
  function Rounded(size: nat, block: nat): (r: nat)
    ensures r >= size
    decreases size
  {
    if block <= 1 || size == 0 then size
    else if size <= block then block
    else block + Rounded(size - block, block)
  }

  /** `q` full blocks and a rest. */
  lemma {:induction false} RoundedAt(q: nat, r: nat, block: nat)
    requires r < block && block > 1
    ensures q * block + r >= 0 && Rounded(q * block + r, block) == q * block + if r == 0 then 0 else block
  {
    if q == 0 {
    } else {
      assert q * block + r - block == (q - 1) * block + r;
      assert (q - 1) * block >= 0;
      RoundedAt(q - 1, r, block);
    }
  }

  lemma RoundedByRemainder(size: nat, block: nat)
    requires block > 1
    ensures Rounded(size, block) == if size % block == 0 then size else size + block - size % block
  {
    var q, r := size / block, size % block;
    assert size == q * block + r;
    RoundedAt(q, r, block);
  }

  /** The size on disk, absent when it leaves 64 bits. */
  function AllocationSize(size: int64, blockBytes: int64): Option<int64> {
    if size < 0 then None
    else if blockBytes <= 1 || size == 0 then Some(size)
    else
      var remainder := size % blockBytes;
      if remainder == 0 then Some(size) else AddBytes(size, blockBytes - remainder)
  }

  /** The checked allocation is the unbounded one wherever that fits. */
  lemma AllocationIsRounded(size: int64, blockBytes: int64)
    requires size >= 0 && blockBytes >= 0
    ensures var rounded := Rounded(size as int, blockBytes as int);
      AllocationSize(size, blockBytes) == if rounded <= MAX_INT64 then Some(rounded as int64) else None
  {
    if blockBytes > 1 {
      RoundedByRemainder(size as int, blockBytes as int);
      assert (size % blockBytes) as int == size as int % blockBytes as int;
    }
  }

  /** Rounding takes the least number of whole blocks that holds the size. */
  lemma RoundedIsLeast(size: nat, block: nat)
    requires block > 0
    ensures var blocks := if size % block == 0 then size / block else size / block + 1;
      Rounded(size, block) == blocks * block && (size > 0 ==> (blocks - 1) * block < size <= blocks * block)
  {
    var q, r := size / block, size % block;
    assert size == q * block + r;
    assert (q + 1) * block == q * block + block && (q - 1) * block == q * block - block;
    if block > 1 { RoundedAt(q, r, block); }
  }

  datatype Policy = Policy(capacityBytes: int64, minFreeBytes: int64, segmentBytes: int64) {
    /** Room for the copy of the largest segment: two segment sizes, or the largest file there is. */
    function RecoveryBytes(usage: Storage): (r: Option<int64>)
      ensures r.Some? && usage.Valid() ==> r.value >= 0
    {
      var segments := AddBytes(segmentBytes, segmentBytes);
      if segments.None? then None else
      var configured := AllocationSize(segments.value, usage.blockBytes);
      if configured.None? then None
      else if configured.value > usage.largestFileBytes then configured else Some(usage.largestFileBytes)
    }

    /** The policy lets the log grow. */
    predicate Admits(usage: Storage, growth: int64)
      requires usage.Valid()
    {
      if growth < 0 then false else
      var recovery := RecoveryBytes(usage);
      if recovery.None? || capacityBytes < recovery.value then false else
      var writeLimit := capacityBytes - recovery.value;
      if usage.diskBytes > writeLimit || growth > writeLimit - usage.diskBytes then false else
      var reserved := AddBytes(minFreeBytes, recovery.value);
      !(reserved.None? || usage.freeBytes < reserved.value || growth > usage.freeBytes - reserved.value)
    }

    /** The recovery room in unbounded arithmetic. */
    ghost function Recovery(usage: Storage): int
      requires usage.Valid() && segmentBytes >= 0
    {
      var copy := Rounded(2 * segmentBytes as int, usage.blockBytes as int);
      if copy > usage.largestFileBytes as int then copy else usage.largestFileBytes as int
    }

    /** What is asked of an append: after it, the recovery room is left in the queue's budget, and on
        the file system beside the bytes kept free for others. */
    ghost predicate LeavesRoom(usage: Storage, growth: int)
      requires usage.Valid()
    {
      && growth >= 0 && segmentBytes >= 0 && minFreeBytes >= 0
      && usage.diskBytes as int + growth + Recovery(usage) <= capacityBytes as int
      && minFreeBytes as int + Recovery(usage) + growth <= usage.freeBytes as int
    }

    /** The overflow checks never change a verdict: the policy admits exactly what leaves room in
        unbounded arithmetic. */
    lemma AdmitsIsExact(usage: Storage, growth: int64)
      requires usage.Valid()
      ensures Admits(usage, growth) <==> LeavesRoom(usage, growth as int)
    {
      if segmentBytes >= 0 && segmentBytes as int + segmentBytes as int <= MAX_INT64 {
        AllocationIsRounded(segmentBytes + segmentBytes, usage.blockBytes);
      }
    }

    /** The health of the queue. */
    function CapacityState(usage: Storage): State
      requires usage.Valid()
    {
      var minimumGrowth := if usage.blockBytes > 1 then usage.blockBytes else 1;
      if !Admits(usage, minimumGrowth) then Blocked else
      var recovery := RecoveryBytes(usage).value;
      var writeLimit := capacityBytes - recovery;
      var reserved := AddBytes(minFreeBytes, recovery).value;
      var state := RatioState(usage.diskBytes, writeLimit);
      var headroom := usage.freeBytes - reserved;
      if headroom <= MultiplyBytes(segmentBytes, 2) then Critical
      else if headroom <= MultiplyBytes(segmentBytes, 4) && state.Healthy? then Warning
      else state
    }

    /** The recovery room in 64 bits is the unbounded one wherever the policy admits anything. */
    lemma RecoveryIsExact(usage: Storage)
      requires usage.Valid() && segmentBytes >= 0 && RecoveryBytes(usage).Some?
      ensures RecoveryBytes(usage).value as int == Recovery(usage)
    {
      AllocationIsRounded(segmentBytes + segmentBytes, usage.blockBytes);
    }

    /** The health in unbounded arithmetic: the queue is blocked exactly when not even one block
        fits, and otherwise as bad as the worse of its own fill level and the file system's. */
    lemma StateIsExact(usage: Storage)
      requires usage.Valid()
      ensures CapacityState(usage) == Blocked <==>
        !LeavesRoom(usage, if usage.blockBytes > 1 then usage.blockBytes as int else 1)
      ensures CapacityState(usage) == Critical <==>
        && CapacityState(usage) != Blocked
        && (Full(usage, 90) || Headroom(usage) <= 2 * segmentBytes as int)
      ensures CapacityState(usage) == Healthy <==>
        && CapacityState(usage) != Blocked
        && !Full(usage, 80) && Headroom(usage) > 4 * segmentBytes as int
    {
      var minimumGrowth := if usage.blockBytes > 1 then usage.blockBytes else 1;
      AdmitsIsExact(usage, minimumGrowth);
      if Admits(usage, minimumGrowth) {
        RecoveryIsExact(usage);
        var limit := capacityBytes - RecoveryBytes(usage).value;
        PercentageIsExact(limit, 90);
        PercentageIsExact(limit, 80);
        ShareGrows(limit as int);
        var headroom := usage.freeBytes - AddBytes(minFreeBytes, RecoveryBytes(usage).value).value;
        SaturatedCompares(headroom, segmentBytes, 2);
        SaturatedCompares(headroom, segmentBytes, 4);
      }
    }

    /** The log fills its part of the budget, without the recovery room, to this percentage. */
    ghost predicate Full(usage: Storage, percent: int)
      requires usage.Valid()
    {
      segmentBytes >= 0 && usage.diskBytes as int >= (capacityBytes as int - Recovery(usage)) * percent / 100
    }

    /** What is left on the file system beside the bytes kept free and the recovery room. */
    ghost function Headroom(usage: Storage): int
      requires usage.Valid()
    {
      usage.freeBytes as int - minFreeBytes as int - if segmentBytes >= 0 then Recovery(usage) else 0
    }
  }

  lemma ShareGrows(limit: int)
    requires limit >= 0
    ensures limit * 80 / 100 <= limit * 90 / 100
  {
  }

  /** Saturating keeps every comparison with a 64-bit number. */
  lemma SaturatedCompares(n: int64, value: int64, factor: int64)
    requires value >= 0 && factor > 0
    ensures n <= MultiplyBytes(value, factor) <==> n as int <= value as int * factor as int
  {
    if value > 0x7FFF_FFFF_FFFF_FFFF / factor {
      var q := MAX_INT64 / factor as int;
      assert (q + 1) * factor as int > MAX_INT64;
      assert value as int * factor as int >= (q + 1) * factor as int;
    } else {
      Product(value as int, factor as int);
    }
  }

  function RatioState(used: int64, limit: int64): State
    requires limit >= 0
  {
    if used >= Percentage(limit, CRITICAL_PERCENT) then Critical
    else if used >= Percentage(limit, WARNING_PERCENT) then Warning
    else Healthy
  }

  /** A share of a size, computed in two parts so that the product stays within 64 bits. */
  function Percentage(value: int64, percent: int64): int64
    requires value >= 0 && 0 <= percent <= 100
  {
    PercentageFits(value as int, percent as int);
    value / 100 * percent + value % 100 * percent / 100
  }

  lemma PercentageFits(value: int, percent: int)
    requires 0 <= value <= MAX_INT64 && 0 <= percent <= 100
    ensures 0 <= value / 100 * percent <= value / 100 * 100
    ensures 0 <= value % 100 * percent <= value % 100 * 100
    ensures value / 100 * percent + value % 100 * percent / 100 <= value
  {
  }

  /** The two parts make the exact share, rounded down. */
  lemma PercentageIsExact(value: int64, percent: int64)
    requires value >= 0 && 0 <= percent <= 100
    ensures Percentage(value, percent) as int == value as int * percent as int / 100
  {
    var v, p := value as int, percent as int;
    PercentageFits(v, p);
    assert v * p == v / 100 * p * 100 + v % 100 * p;
    DivideOut(v / 100 * p, v % 100 * p);
  }

  lemma DivideOut(whole: int, rest: int)
    ensures (whole * 100 + rest) / 100 == whole + rest / 100
  {
  }
}

/** The range loop of `parsePorts` as Go runs it, on 64-bit ints that wrap
    around. The rest of the model counts with unbounded integers; this
    module shows where the two part ways. */
module RangeOverflow {
  import opened GoStrconv
  import opened Scanner
  import opened ScannerProps

  /** Go's `i++` on a 64-bit int: two's-complement wrap-around. */
  function Inc64(i: int): (j: int)
    requires MinInt64 <= i <= MaxInt64
    ensures MinInt64 <= j <= MaxInt64
    ensures (j - (i + 1)) % 0x1_0000_0000_0000_0000 == 0
  {
    if i == MaxInt64 then MinInt64 else i + 1
  }

  /** The ports that `for i := start; i <= end; i++ { ports = append(ports, i) }`
      appends during its first `fuel` iterations, starting from `i`. */
  function RangeLoopAsWritten(i: int, end: int, fuel: nat): (r: seq<int>)
    requires MinInt64 <= i <= MaxInt64
    ensures |r| <= fuel
    decreases fuel
  {
    if fuel == 0 || i > end then [] else [i] + RangeLoopAsWritten(Inc64(i), end, fuel - 1)
  }

  lemma RangeFront(lo: int, hi: int)
    requires lo <= hi
    ensures Range(lo, hi) == [lo] + Range(lo + 1, hi)
  {
    var r, t := Range(lo, hi), [lo] + Range(lo + 1, hi);
    assert |r| == |t|;
    forall k | 0 <= k < |r| ensures r[k] == t[k] {
      if k > 0 {
        assert t[k] == Range(lo + 1, hi)[k - 1];
      }
    }
  }

  /** When `end` is below MaxInt64 the loop as written stops and appends
      exactly start, start+1, ..., end, as the model says. */
  lemma {:induction false} AsWrittenAgreesBelowMax(i: int, end: int, fuel: nat)
    requires MinInt64 <= i <= end + 1 && end < MaxInt64
    requires fuel > end - i
    ensures RangeLoopAsWritten(i, end, fuel) == Range(i, end)
    decreases fuel
  {
    if i <= end {
      AsWrittenAgreesBelowMax(i + 1, end, fuel - 1);
      RangeFront(i, end);
    }
  }

  /** When `end` is MaxInt64 the guard `i <= end` holds for every int, so the
      loop appends on every iteration and never stops. */
  lemma {:induction false} AsWrittenNeverStopsAtMax(i: int, fuel: nat)
    requires MinInt64 <= i <= MaxInt64
    ensures |RangeLoopAsWritten(i, MaxInt64, fuel)| == fuel
    decreases fuel
  {
    if fuel > 0 {
      AsWrittenNeverStopsAtMax(Inc64(i), fuel - 1);
    }
  }

  /** The token `9223372036854775807-9223372036854775807`: after its one
      port, the loop as written wraps to MinInt64 and carries on. */
  lemma MaxRangeAsWritten()
    ensures RangeLoopAsWritten(MaxInt64, MaxInt64, 3) == [MaxInt64, MinInt64, MinInt64 + 1]
  {
    assert Inc64(MaxInt64) == MinInt64;
  }

  /** The intended result for the same token, which the model gives: a
      range whose bounds are equal yields that one port, MaxInt64 included. */
  lemma SingletonRangeCorrected(n: int)
    requires 0 <= n <= MaxInt64
    ensures ParseSpec(Itoa(n) + "-" + Itoa(n)) == Ok([n])
  {
    DecimalRangeSpec(n, n);
    assert Range(n, n) == [n];
  }
}

/** Integer conversions that the sensor drivers make on kernel event values, and the values that events carry. */
module Timestamps {
  import opened Common

  type int32 = x: int | -0x8000_0000 <= x < 0x8000_0000

  /** What sample values are divided by. */
  type Divider = d: int | d != 0 witness 1

  const HALF: int := 0x1_0000_0000

  /** (t & 0xFFFFFFFF) | ((int64_t)v << 32) */
  function WithHigh(t: int, v: int32): int {
    v * HALF + t % HALF
  }

  /** (t & 0xFFFFFFFF00000000) | ((int64_t)v & 0xFFFFFFFF) */
  function WithLow(t: int, v: int32): int {
    t / HALF * HALF + v % HALF
  }

  /** A timestamp whose halves are replaced by the ones given. */
  function Renewed(kept: int, hi: Option<int32>, lo: Option<int32>): int {
    (if hi.Some? then hi.value else kept / HALF) * HALF + (if lo.Some? then lo.value % HALF else kept % HALF)
  }

  /** A 64-bit timestamp from its signed high half and its low half. */
  function Join(hi: int32, lo: int32): int {
    hi * HALF + lo % HALF
  }

  /** The halves can arrive in either order, and nothing of the old timestamp survives. */
  lemma HalvesJoin(t: int, hi: int32, lo: int32)
    ensures WithLow(WithHigh(t, hi), lo) == Join(hi, lo) == WithHigh(WithLow(t, lo), hi)
  {
    assert (hi * HALF + t % HALF) / HALF == hi;
    assert (t / HALF * HALF + lo % HALF) % HALF == lo % HALF;
  }

  /** Joining gives back the timestamp that was split. */
  lemma JoinSplit(t: int, hi: int32, lo: int32)
    requires hi == t / HALF && lo == (if t % HALF >= HALF / 2 then t % HALF - HALF else t % HALF)
    ensures Join(hi, lo) == t
  {
  }

  /** What the status field keeps: the signed byte with the same low bits, which is the value itself when it fits. */
  lemma ToInt8Is(v: int)
    ensures -128 <= ToInt8(v) <= 127 && (ToInt8(v) - v) % 256 == 0
    ensures -128 <= v <= 127 ==> ToInt8(v) == v
  {
  }

  /** The signed 8-bit status field. */
  function ToInt8(v: int): int {
    (v + 0x80) % 0x100 - 0x80
  }

  lemma RenewedHalves(kept: int, hi: Option<int32>, lo: Option<int32>)
    ensures var t := Renewed(kept, hi, lo);
            && t / HALF == (if hi.Some? then hi.value else kept / HALF)
            && t % HALF == (if lo.Some? then lo.value % HALF else kept % HALF)
            && t == t / HALF * HALF + t % HALF
  {
  }

  /** Storing one more half renews the timestamp with that half. */
  lemma RenewedGrows(kept: int, hi: Option<int32>, lo: Option<int32>, v: int32)
    ensures WithHigh(Renewed(kept, hi, lo), v) == Renewed(kept, Some(v), lo)
    ensures WithLow(Renewed(kept, hi, lo), v) == Renewed(kept, hi, Some(v))
    ensures Renewed(kept, None, None) == kept
  {
    RenewedHalves(kept, hi, lo);
  }

  /** The last value that a body of coded values carries for a code. */
  function Last<C(==), V>(body: seq<(C, V)>, code: C): Option<V> {
    if body == [] then None
    else if body[|body| - 1].0 == code then Some(body[|body| - 1].1)
    else Last(body[..|body| - 1], code)
  }

  lemma {:induction false} LastAppends<C, V>(a: seq<(C, V)>, b: seq<(C, V)>, code: C)
    ensures Last(a + b, code) == if Last(b, code).Some? then Last(b, code) else Last(a, code)
  {
    if b == [] {
      assert a + b == a;
    } else {
      assert (a + b)[..|a + b| - 1] == a + b[..|b| - 1];
      LastAppends(a, b[..|b| - 1], code);
    }
  }
}

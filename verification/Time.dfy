/** Wrapping time stamps (scheds/include/scx/common.bpf.h:688-727). */
module Time {
  const TWO63 := 0x8000_0000_0000_0000
  const TWO64 := 0x1_0000_0000_0000_0000

  type u64 = x: int | 0 <= x < TWO64

  /** Subtraction modulo 2^64. */
  function Sub(a: u64, b: u64): u64 { if a >= b then a - b else a - b + TWO64 }

  /** (s64)(a - b) < 0 */
  predicate TimeBefore(a: u64, b: u64) { Sub(a, b) >= TWO63 }

  /** (s64)(b - a) >= 0 */
  predicate TimeBeforeEq(a: u64, b: u64) { Sub(b, a) < TWO63 }

  /** The time from one stamp to a later one, 0 if it is not later. */
  function TimeDelta(after: u64, before: u64): (d: nat)
    ensures d < TWO63 && (d > 0 <==> TimeBefore(before, after) && Sub(after, before) != TWO63)
    ensures d > 0 ==> (before + d) % TWO64 == after
  {
    if 0 < Sub(after, before) < TWO63 then Sub(after, before) else 0
  }

  /** x is one of the half range of stamps that starts at base. */
  ghost predicate InWindow(base: u64, x: u64) { Sub(x, base) < TWO63 }

  /** Inside one half range the wrapping comparisons are the order of the distances from its start. */
  lemma WindowOrder(base: u64, a: u64, b: u64)
    requires InWindow(base, a) && InWindow(base, b)
    ensures TimeBefore(a, b) <==> Sub(a, base) < Sub(b, base)
    ensures TimeBeforeEq(a, b) <==> Sub(a, base) <= Sub(b, base)
    ensures a == b <==> Sub(a, base) == Sub(b, base)
  {
  }

  /** Inside one half range the time from one stamp to another is the difference of their distances from its start. */
  lemma WindowDelta(base: u64, a: u64, b: u64)
    requires InWindow(base, a) && InWindow(base, b)
    ensures TimeDelta(b, a) == if Sub(b, base) >= Sub(a, base) then Sub(b, base) - Sub(a, base) else 0
  {
  }

  /** Outside one half range they are not an order: three stamps can each come before the next, in a circle. */
  lemma WrapsAround()
    ensures exists a: u64, b: u64, c: u64 :: TimeBefore(a, b) && TimeBefore(b, c) && TimeBefore(c, a)
  {
    assert TimeBefore(0, 0x6000_0000_0000_0000);
    assert TimeBefore(0x6000_0000_0000_0000, 0xc000_0000_0000_0000);
    assert TimeBefore(0xc000_0000_0000_0000, 0);
  }
}

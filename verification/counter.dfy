/**
 * danogl.util.Counter: a shared, mutable Java `int`. Every operation is
 * 32-bit two's-complement arithmetic, so it wraps at the int range.
 */
module Counters {
  import opened Wrappers

  datatype Counter = Counter(value: int)

  predicate Valid(c: Counter) {
    IsInt32(c.value)
  }

  /** `new Counter(initValue)`. */
  function Create(initValue: int): (c: Counter)
    requires IsInt32(initValue)
    ensures Valid(c) && c.value == initValue
  {
    Counter(initValue)
  }

  /** `new Counter()`: starts at 0. */
  function CreateDefault(): (c: Counter)
    ensures Valid(c) && c.value == 0
  {
    Create(0)
  }

  /** `increment`: one more, wrapping from the largest int to the smallest. */
  function Increment(c: Counter): (r: Counter)
    requires Valid(c)
    ensures Valid(r)
    ensures c.value < 0x7fff_ffff ==> r.value == c.value + 1
    ensures c.value == 0x7fff_ffff ==> r.value == -0x8000_0000
  {
    Counter(Wrap32(c.value + 1))
  }

  /** `decrement`: one less, wrapping from the smallest int to the largest. */
  function Decrement(c: Counter): (r: Counter)
    requires Valid(c)
    ensures Valid(r)
    ensures c.value > -0x8000_0000 ==> r.value == c.value - 1
    ensures c.value == -0x8000_0000 ==> r.value == 0x7fff_ffff
  {
    Counter(Wrap32(c.value - 1))
  }

  /** `reset`: back to 0. */
  function Reset(c: Counter): (r: Counter)
    ensures Valid(r) && r.value == 0
  {
    Counter(0)
  }

  /** `increaseBy(val)`: adds `val`, which may be negative, in 32-bit arithmetic. */
  function IncreaseBy(c: Counter, val: int): (r: Counter)
    requires Valid(c) && IsInt32(val)
    ensures Valid(r)
    ensures IsInt32(c.value + val) ==> r.value == c.value + val
    ensures c.value + val >= 0x8000_0000 ==> r.value == c.value + val - 0x1_0000_0000
    ensures c.value + val < -0x8000_0000 ==> r.value == c.value + val + 0x1_0000_0000
  {
    Wrap32Identity(if IsInt32(c.value + val) then c.value + val else 0);
    Counter(Wrap32(c.value + val))
  }

  /** Decrementing undoes incrementing, and the reverse, even across the wrap-around. */
  lemma IncrementDecrementInverse(c: Counter)
    requires Valid(c)
    ensures Decrement(Increment(c)) == c
    ensures Increment(Decrement(c)) == c
  {
  }

  /** Increasing by 1 is incrementing and by -1 is decrementing. */
  lemma IncreaseByOneIsIncrement(c: Counter)
    requires Valid(c)
    ensures IncreaseBy(c, 1) == Increment(c)
    ensures IncreaseBy(c, -1) == Decrement(c)
  {
  }
}

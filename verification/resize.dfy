/** The resize calculator that all growing containers share (e_util.h), and what it costs over
    long runs of appends and deletes. */
module Resize {

  /** The growing loop of `eel_calcresize`. */
  function Grown(base: int, n: int, requested: int): (r: int)
    requires base > 0 && n >= 0
    ensures r >= requested && r >= n
    decreases requested - n
  {
    if n >= requested then n else Grown(base, n * 3 / 2 + base, requested)
  }

  /** `eel_calcresize`, as it is configured (EEL_DEFENSIVE_REALLOC). */
  function CalcResize(base: int, current: int, requested: int): (r: int)
    requires base > 0 && current >= 0
    ensures r >= requested && r >= 0
  {
    if requested > current then Grown(base, if current != 0 then current else base, requested)
    else if requested > current / 2 then current
    else if current / 2 < base then base
    else current / 2
  }

  /** The calculation itself. It ends for every request, and no number in it needs more than 31
      bits if the request is at most 715827883. */
  method Calculate(base: int, current: int, requested: int) returns (n: int)
    requires base > 0 && current >= 0
    ensures n == CalcResize(base, current, requested) >= requested
  {
    if requested > current {
      n := if current != 0 then current else base;
      while n < requested
        invariant n >= 0
        invariant Grown(base, n, requested) == CalcResize(base, current, requested)
        decreases requested - n
      {
        assert requested <= 715827883 ==> n * 3 < 0x8000_0000;
        n := n * 3 / 2 + base;
      }
    } else {
      n := current / 2;
      if requested > n {
        n := current;
      } else if n < base {
        n := base;
      }
    }
  }

  /** The size is a little more than what was there or what was asked for, whichever is more. */
  lemma {:induction false} GrownBound(base: int, n: int, requested: int)
    requires base > 0 && n >= 0
    ensures Grown(base, n, requested) <= (if n >= requested then n else requested * 3 / 2 + base)
    decreases requested - n
  {
    if n < requested { GrownBound(base, n * 3 / 2 + base, requested); }
  }

  lemma SizeBound(base: int, current: int, requested: int)
    requires base > 0 && current >= 0 && requested >= 0
    ensures var r := CalcResize(base, current, requested);
      && (requested > current ==> r <= requested * 3 / 2 + base)
      && (requested <= current ==> r <= current || r == base)
      && (requested <= current / 2 ==> r <= current / 2 || r == base)
  {
    if requested > current { GrownBound(base, if current != 0 then current else base, requested); }
  }

  // ---------------------------------------------------------------------------------------
  // 32 bit integers
  // ---------------------------------------------------------------------------------------

  const MAX_GROWING: int := 715827882

  /** No number in the growing loop overflows an `int` of 32 bits. */
  predicate Fits(base: int, n: int, requested: int)
    requires base > 0 && n >= 0
    decreases requested - n
  {
    n >= requested
    || (n * 3 < 0x8000_0000 && n * 3 / 2 + base < 0x8000_0000 && Fits(base, n * 3 / 2 + base, requested))
  }

  /** The last size that the loop finds too small. */
  function LastTooSmall(base: int, n: int, requested: int): (r: int)
    requires base > 0 && 0 <= n < requested
    ensures n <= r < requested
    decreases requested - n
  {
    if n * 3 / 2 + base >= requested then n else LastTooSmall(base, n * 3 / 2 + base, requested)
  }

  /** The loop overflows if and only if it has to grow from a size that is too large to be
      multiplied by three. */
  lemma {:induction false} FitsIff(base: int, n: int, requested: int)
    requires 0 < base <= 0x4000_0000 && 0 <= n < requested
    ensures Fits(base, n, requested) <==> LastTooSmall(base, n, requested) <= MAX_GROWING
    decreases requested - n
  {
    if n * 3 / 2 + base < requested { FitsIff(base, n * 3 / 2 + base, requested); }
  }

  /** A buffer of `n` elements that is full can be grown for one more if and only if `n` is at most
      715827882. */
  lemma AppendFits(base: int, n: int)
    requires 0 < base <= 0x4000_0000 && n > 0
    ensures Fits(base, n, n + 1) <==> n <= MAX_GROWING
  {
    FitsIff(base, n, n + 1);
  }

  // ---------------------------------------------------------------------------------------
  // Amortised cost
  // ---------------------------------------------------------------------------------------

  /** A container with room for `capacity` elements, and how many elements have been copied from
      one buffer to another so far. */
  datatype Usage = Usage(length: nat, capacity: nat, copied: nat)

  datatype Change = Append | Delete

  predicate CanChange(u: Usage, c: Change) {
    u.length <= u.capacity && (c.Delete? ==> u.length > 0)
  }

  /** One element is added or removed. If that changes the size of the buffer, all elements
      that were there are copied. */
  function Changed(base: int, u: Usage, c: Change): (r: Usage)
    requires base > 0 && CanChange(u, c)
    ensures r.length <= r.capacity && r.length == if c.Append? then u.length + 1 else u.length - 1
  {
    var length := if c.Append? then u.length + 1 else u.length - 1;
    var capacity := CalcResize(base, u.capacity, length);
    Usage(length, capacity, u.copied + if capacity != u.capacity then u.length else 0)
  }

  ghost predicate CanRun(base: int, u: Usage, run: seq<Change>)
    requires base > 0
    decreases |run|
  {
    run == [] || (CanChange(u, run[0]) && CanRun(base, Changed(base, u, run[0]), run[1..]))
  }

  function After(base: int, u: Usage, run: seq<Change>): Usage
    requires base > 0 && CanRun(base, u, run)
    decreases |run|
  {
    if run == [] then u else After(base, Changed(base, u, run[0]), run[1..])
  }

  function Max3(a: int, b: int, c: int): int {
    if a >= b && a >= c then a else if b >= c then b else c
  }

  /** How much copying has been paid for in advance: nothing right after growing, enough for a
      copy when the buffer is full, and enough for two copies when it is about to shrink, since
      it is full again after that. */
  function Saved(base: int, u: Usage): (r: nat) {
    Max3(0, 3 * u.length - 2 * u.capacity, 4 * u.capacity - 4 * base - 6 * u.length)
  }

  /** The most that one change can cost, all things considered. */
  function Price(base: int): int {
    4 * base + 10
  }

  lemma ChangePaid(base: int, u: Usage, c: Change)
    requires base > 0 && CanChange(u, c)
    ensures var u' := Changed(base, u, c);
      u'.copied + Saved(base, u') <= u.copied + Saved(base, u) + Price(base)
  {
    if c.Append? && u.length == u.capacity && u.capacity > 0 {
      GrownOnce(base, u.capacity);
    }
  }

  /** When the buffer is full, one round of the growing loop is enough for one more. */
  lemma GrownOnce(base: int, n: int)
    requires base > 0 && n > 0
    ensures CalcResize(base, n, n + 1) == n * 3 / 2 + base
  {
    assert Grown(base, n * 3 / 2 + base, n + 1) == n * 3 / 2 + base;
  }

  /** Over any run of single appends and deletes, the elements copied by resizing are at most a
      constant for each of them, although a full buffer may shrink and grow again. */
  lemma {:induction false} CopyingIsLinear(base: int, u: Usage, run: seq<Change>)
    requires base > 0 && CanRun(base, u, run)
    ensures After(base, u, run).copied + Saved(base, After(base, u, run))
         <= u.copied + Saved(base, u) + Price(base) * |run|
    decreases |run|
  {
    hide Changed, Saved;
    if run != [] {
      ChangePaid(base, u, run[0]);
      CopyingIsLinear(base, Changed(base, u, run[0]), run[1..]);
      assert Price(base) * |run| == Price(base) + Price(base) * |run[1..]|;
    }
  }

  lemma CopyingFromEmpty(base: int, run: seq<Change>)
    requires base > 0 && CanRun(base, Usage(0, 0, 0), run)
    ensures After(base, Usage(0, 0, 0), run).copied <= Price(base) * |run|
  {
    CopyingIsLinear(base, Usage(0, 0, 0), run);
  }

  /** The branch that shrinks is not only for deletes: with a small buffer, the append after the
      one that made it grow makes it shrink. */
  lemma AppendShrinks(base: int)
    requires base >= 8
    ensures var grown := Changed(base, Usage(base, base, 0), Append);
      && grown.capacity == base * 3 / 2 + base
      && Changed(base, grown, Append).capacity == grown.capacity / 2 < grown.capacity
  {
    GrownOnce(base, base);
  }
}

/** The lock-free FIFO for one writer and one reader (sfifo.c, sfifo.h). The class models the
    functions as they are; the state machine below it models a writer and a reader that run at
    the same time, each byte copied and each position updated being a step of its own. */
module Sfifo {

  type Byte = bv8

  const MAX_BUFFER_SIZE: int := 0x7fff_ffff
  const EINVAL: int := 22
  const ENODEV: int := 19

  // ---------------------------------------------------------------------------------------
  // Arithmetic
  // ---------------------------------------------------------------------------------------

  function Pow2(k: nat): (r: nat)
    ensures r > 0
  {
    if k == 0 then 1 else 2 * Pow2(k - 1)
  }

  ghost predicate PowerOfTwo(n: int) {
    exists k: nat :: n == Pow2(k)
  }

  /** Bitwise and with a non-negative mask, for a two's complement number. */
  function And(x: int, mask: nat): nat
    decreases mask
  {
    if mask == 0 then 0 else 2 * And(x / 2, mask / 2) + (x % 2) * (mask % 2)
  }

  lemma ModUnique(x: int, d: int, q: int, r: int)
    requires d > 0 && x == d * q + r && 0 <= r < d
    ensures x % d == r && x / d == q
  {
    var t := q - x / d;
    assert d * t == d * q - d * (x / d);
    MulBound(d, t);
  }

  lemma MulBound(d: int, t: int)
    requires d > 0
    ensures t >= 1 ==> d * t >= d
    ensures t <= -1 ==> d * t <= -d
  {
  }

  /** Masking with one less than a power of two takes the remainder. */
  lemma {:induction false} MaskIsMod(x: int, k: nat)
    ensures And(x, Pow2(k) - 1) == x % Pow2(k)
    decreases k
  {
    hide And;
    if k == 0 {
      AndZero(x);
    } else {
      MaskIsMod(x / 2, k - 1);
      AndOdd(x, Pow2(k - 1));
      HalfMod(x, Pow2(k - 1));
    }
  }

  lemma AndZero(x: int)
    ensures And(x, 0) == 0
  {
  }

  lemma AndOdd(x: int, p: nat)
    requires p > 0
    ensures And(x, 2 * p - 1) == 2 * And(x / 2, p - 1) + x % 2
  {
    assert (2 * p - 1) / 2 == p - 1 && (2 * p - 1) % 2 == 1;
  }

  lemma HalfMod(x: int, p: nat)
    requires p > 0
    ensures x % (2 * p) == 2 * (x / 2 % p) + x % 2
  {
    var q, r := x / 2 / p, x / 2 % p;
    assert 2 * (x / 2) == 2 * (p * q) + 2 * r;
    ModUnique(x, 2 * p, q, 2 * r + x % 2);
  }

  /** `sfifo_used`. */
  function Used(writepos: int, readpos: int, size: nat): nat
    requires size > 0
  {
    And(writepos - readpos, size - 1)
  }

  /** `sfifo_space`. */
  function Space(writepos: int, readpos: int, size: nat): int
    requires size > 0
  {
    size - 1 - Used(writepos, readpos, size)
  }

  function Min(a: int, b: int): int {
    if a < b then a else b
  }

  // ---------------------------------------------------------------------------------------
  // The size of the buffer
  // ---------------------------------------------------------------------------------------

  /** Shifting a 32 bit integer left by one. */
  function Shl1(n: int): int {
    var d := 2 * n % 0x1_0000_0000;
    if d >= 0x8000_0000 then d - 0x1_0000_0000 else d
  }

  /** The size that `sfifo_init` has arrived at after `k` rounds of its loop. */
  function SizeAfter(k: nat): int {
    if k == 0 then 1 else Shl1(SizeAfter(k - 1))
  }

  lemma Shl1Is(n: int)
    ensures 0 <= n < 0x4000_0000 ==> Shl1(n) == 2 * n
    ensures n == 0x4000_0000 ==> Shl1(n) == -0x8000_0000
    ensures n == -0x8000_0000 ==> Shl1(n) == 0
  {
    if 0 <= n < 0x8000_0000 {
      ModUnique(2 * n, 0x1_0000_0000, 0, 2 * n);
    }
  }

  lemma {:induction false} SizeAfterIs(k: nat)
    ensures k < 31 ==> SizeAfter(k) == Pow2(k) <= 0x4000_0000
    ensures k == 31 ==> SizeAfter(k) == -0x8000_0000
    ensures k > 31 ==> SizeAfter(k) == 0
  {
    hide Shl1;
    Pow2Thirty();
    if k > 0 {
      SizeAfterIs(k - 1);
      Shl1Is(SizeAfter(k - 1));
      if k < 31 { Pow2Bound(k); }
    }
  }

  lemma Pow2Thirty()
    ensures Pow2(30) == 0x4000_0000
  {
    assert Pow2(10) == 1024;
    assert Pow2(20) == 1024 * 1024;
  }

  lemma {:induction false} Pow2Bound(k: nat)
    requires k <= 30
    ensures Pow2(k) <= 0x4000_0000
    decreases 30 - k
  {
    if k == 30 { Pow2Thirty(); } else { Pow2Bound(k + 1); }
  }

  /** `sfifo_init` leaves its loop if and only if the requested size is less than 2^30. For a
      larger size, which its check of the argument lets through, the shift overflows and the
      loop goes on for ever. */
  lemma InitTerminates(request: int)
    requires -0x8000_0000 <= request <= MAX_BUFFER_SIZE
    ensures (exists k: nat :: SizeAfter(k) > request) <==> request < 0x4000_0000
  {
    if request < 0x4000_0000 {
      SizeAfterIs(30);
      Pow2Thirty();
      assert SizeAfter(30) > request;
    } else {
      forall k: nat ensures SizeAfter(k) <= request { SizeAfterIs(k); }
    }
  }

  // ---------------------------------------------------------------------------------------
  // Positions
  // ---------------------------------------------------------------------------------------

  /** Where byte `j` of a transfer of `total` bytes that starts at position `start` goes. */
  function Slot(start: nat, total: nat, size: nat, j: nat): int {
    if start + total > size && j >= size - start then j - (size - start) else start + j
  }

  /** The position after such a transfer. It may be equal to the size. */
  function NextPos(start: nat, total: nat, size: nat): int {
    if start + total > size then total - (size - start) else start + total
  }

  function Wrap(n: int, size: nat): nat
    requires size > 0
  {
    n % size
  }

  /** A position after `n` bytes in all. */
  predicate At(pos: int, n: nat, size: nat)
    requires size > 0
  {
    pos == Wrap(n, size) || (pos == size && Wrap(n, size) == 0)
  }

  lemma SlotIs(start: nat, n: nat, total: nat, size: nat, j: nat)
    requires j < total < size && At(start, n, size)
    ensures Slot(start, total, size, j) == Wrap(n + j, size)
  {
    var q := n / size;
    assert n == size * q + n % size;
    var s := Slot(start, total, size, j);
    if n % size + j < size {
      ModUnique(n + j, size, q, n % size + j);
    } else {
      assert n + j == size * (q + 1) + (n % size + j - size);
      ModUnique(n + j, size, q + 1, n % size + j - size);
    }
  }

  lemma NextPosIs(start: nat, n: nat, total: nat, size: nat)
    requires total < size && At(start, n, size)
    ensures At(NextPos(start, total, size), n + total, size) && NextPos(start, total, size) >= 0
  {
    var q := n / size;
    assert n == size * q + n % size;
    if n % size + total < size {
      ModUnique(n + total, size, q, n % size + total);
    } else {
      assert n + total == size * (q + 1) + (n % size + total - size);
      ModUnique(n + total, size, q + 1, n % size + total - size);
    }
  }

  lemma DifferenceMod(sent: nat, got: nat, size: nat)
    requires size > 0
    ensures sent - got == size * (sent / size - got / size) + (sent % size - got % size)
  {
  }

  /** Two numbers less than `size` apart have different remainders. */
  lemma ModDistinct(a: nat, b: nat, size: nat)
    requires a < b < a + size
    ensures Wrap(a, size) != Wrap(b, size)
  {
    if a % size == b % size {
      DifferenceMod(b, a, size);
      MulBound(size, b / size - a / size);
    }
  }

  /** `sfifo_used` is the number of bytes written but not read, even when a position equals the
      size. */
  lemma UsedIs(writepos: int, readpos: int, sent: nat, got: nat, size: nat)
    requires PowerOfTwo(size) && got <= sent < got + size
    requires At(writepos, sent, size) && At(readpos, got, size)
    ensures Used(writepos, readpos, size) == sent - got
  {
    var k: nat :| size == Pow2(k);
    MaskIsMod(writepos - readpos, k);
    var d := sent - got;
    DifferenceMod(sent, got, size);
    var wrap := (if writepos == size then 1 else 0) - (if readpos == size then 1 else 0);
    var c := wrap - (sent / size - got / size);
    MulDifference(size, wrap, sent / size - got / size);
    ModUnique(writepos - readpos, size, c, d);
  }

  lemma MulDifference(s: int, a: int, b: int)
    ensures s * (a - b) == s * a - s * b
  {
  }

  // ---------------------------------------------------------------------------------------
  // The FIFO
  // ---------------------------------------------------------------------------------------

  class SFifo {
    var buffer: array?<Byte>
    var size: int
    var readpos: int
    var writepos: int

    ghost predicate Valid()
      reads this
    {
      && buffer != null && size == buffer.Length && PowerOfTwo(size)
      && 0 <= readpos <= size && 0 <= writepos <= size
    }

    /** The bytes in the FIFO, oldest first. */
    ghost function Contents(): (r: seq<Byte>)
      reads this, buffer
      requires Valid()
    {
      Queue(buffer[..], readpos, Used(writepos, readpos, size))
    }

    /** An FIFO before `sfifo_init`. */
    constructor ()
      ensures buffer == null
    {
      buffer := null;
      size, readpos, writepos := 0, 0, 0;
    }

    /** `sfifo_init`, for the sizes for which it returns: see `InitTerminates`. The buffer has
        room for all the bytes asked for. */
    method Init(request: int) returns (r: int)
      requires -0x8000_0000 <= request
      requires request < 0x4000_0000 || request > MAX_BUFFER_SIZE
      modifies this
      ensures request > MAX_BUFFER_SIZE ==> r == -EINVAL && buffer == null
      ensures request <= MAX_BUFFER_SIZE ==>
                r == 0 && Valid() && fresh(buffer) && Contents() == [] && size - 1 >= request
                && (request > 0 ==> size <= 2 * request)
    {
      buffer := null;
      size, readpos, writepos := 0, 0, 0;
      if request > MAX_BUFFER_SIZE {
        return -EINVAL;
      }
      size := 1;
      ghost var k: nat := 0;
      while size <= request
        invariant size == Pow2(k) <= 0x4000_0000 && k <= 30 && readpos == writepos == 0
        invariant k > 0 ==> size <= 2 * request
        decreases request - size
      {
        Shl1Is(size);
        Pow2Thirty();
        Pow2Bound(k + 1);
        size := Shl1(size);
        k := k + 1;
      }
      buffer := new Byte[size];
      UsedIs(0, 0, 0, 0, size);
      return 0;
    }

    /** `sfifo_flush`. */
    method Flush()
      requires Valid()
      modifies `readpos, `writepos
      ensures Valid() && Contents() == []
    {
      readpos := 0;
      writepos := 0;
      UsedIs(0, 0, 0, 0, size);
    }

    /** `memcpy` into the buffer. */
    method CopyIn(at: int, src: seq<Byte>)
      requires buffer != null && 0 <= at <= buffer.Length - |src|
      modifies buffer
      ensures buffer[..] == CopiedIn(old(buffer[..]), at, src)
    {
      var n := 0;
      while n < |src|
        invariant 0 <= n <= |src|
        invariant forall i :: 0 <= i < n ==> buffer[at + i] == src[i]
        invariant forall i :: 0 <= i < buffer.Length && !(at <= i < at + n) ==> buffer[i] == old(buffer[i])
      {
        buffer[at + n] := src[n];
        n := n + 1;
      }
    }

    /** `sfifo_write`. As many bytes as there is room for are added at the end. */
    method Write(buf: seq<Byte>, len: int) returns (r: int)
      requires 0 <= len <= |buf| && (buffer != null ==> Valid())
      modifies `writepos, if buffer != null then {buffer} else {}
      ensures buffer == null ==> r == -ENODEV && writepos == old(writepos)
      ensures buffer != null ==>
                && Valid() && 0 <= r <= len && r == Min(len, old(Space(writepos, readpos, size)))
                && Contents() == old(Contents()) + buf[..r]
      ensures buffer != null ==>
                && 0 <= r <= len && writepos == NextPos(old(writepos), r, size)
                && Written(old(buffer[..]), buffer[..], old(writepos), buf[..r])
    {
      hide Used, Queue, Written, Wrap, PowerOfTwo, CopiedIn;
      if buffer == null {
        return -ENODEV;
      }
      PowerPositive(size);
      var total := Space(writepos, readpos, size);
      ghost var was, used := buffer[..], Used(writepos, readpos, size);
      UsedInRange(writepos, readpos, size);
      var n, p := len, buf;
      if n > total {
        n := total;
      } else {
        total := n;
      }
      var i := writepos;
      ghost var data := buf[..total];
      if i + n > size {
        assert data[..size - i] == p[..size - i] && data[size - i..] == p[size - i..][..n - (size - i)];
        CopyIn(i, p[..size - i]);
        p := p[size - i..];
        n := n - (size - i);
        i := 0;
      }
      CopyIn(i, p[..n]);
      writepos := i + n;
      r := total;
      WrittenBy(was, old(writepos), data, buffer[..]);
      WrittenQueue(was, buffer[..], readpos, old(writepos), data);
    }

    /** `sfifo_read`. As many bytes as there are, up to `len`, are taken from the front. */
    method Read(len: int) returns (r: int, dst: seq<Byte>)
      requires 0 <= len && (buffer != null ==> Valid())
      modifies `readpos
      ensures buffer == null ==> r == -ENODEV && dst == [] && readpos == old(readpos)
      ensures buffer != null ==>
                && Valid() && r == Min(len, |old(Contents())|)
                && dst == old(Contents())[..r] && Contents() == old(Contents())[r..]
      ensures buffer != null ==> readpos == NextPos(old(readpos), r, size)
    {
      hide Used, Queue, Wrap, PowerOfTwo;
      dst := [];
      if buffer == null {
        return -ENODEV, dst;
      }
      PowerPositive(size);
      var total := Used(writepos, readpos, size);
      UsedInRange(writepos, readpos, size);
      var n := len;
      if n > total {
        n := total;
      } else {
        total := n;
      }
      var i := readpos;
      if i + n > size {
        dst := dst + buffer[i..size];
        n := n - (size - i);
        i := 0;
      }
      dst := dst + buffer[i..i + n];
      readpos := i + n;
      r := total;
      ReadQueue(buffer[..], old(readpos), writepos, total, dst);
    }
  }

  function CopiedIn(buffer: seq<Byte>, at: nat, src: seq<Byte>): (r: seq<Byte>)
    requires at + |src| <= |buffer|
    ensures |r| == |buffer|
  {
    buffer[..at] + src + buffer[at + |src|..]
  }

  /** `n` bytes of a ring buffer, from position `pos`. */
  function Queue(buffer: seq<Byte>, pos: nat, n: nat): (r: seq<Byte>)
    requires |buffer| > 0
    ensures |r| == n
  {
    seq(n, i => buffer[Wrap(pos + i, |buffer|)])
  }

  /** `data` has been written from position `start`, and all other bytes are as before. */
  ghost predicate Written(was: seq<Byte>, buffer: seq<Byte>, start: nat, data: seq<Byte>) {
    && |buffer| == |was| && start <= |was| && |data| <= |was|
    && (forall j :: 0 <= j < |data| ==> 0 <= Slot(start, |data|, |was|, j) < |was|
                                        && buffer[Slot(start, |data|, |was|, j)] == data[j])
    && (forall k :: 0 <= k < |was| && (forall j :: 0 <= j < |data| ==> Slot(start, |data|, |was|, j) != k)
          ==> buffer[k] == was[k])
  }

  /** What a transfer of one or two pieces puts at position `k`. */
  lemma TransferAt(was: seq<Byte>, start: nat, data: seq<Byte>, buffer: seq<Byte>, k: nat)
    requires start <= |was| && |data| < |was| && k < |was| == |buffer|
    requires buffer == Transfer(was, start, data)
    ensures buffer[k] == if start <= k < start + |data| then data[k - start]
                         else if k + |was| < start + |data| then data[k + |was| - start]
                         else was[k]
  {
  }

  function Transfer(was: seq<Byte>, start: nat, data: seq<Byte>): (r: seq<Byte>)
    requires start <= |was| && |data| < |was|
    ensures |r| == |was|
  {
    if start + |data| > |was|
    then CopiedIn(CopiedIn(was, start, data[..|was| - start]), 0, data[|was| - start..])
    else CopiedIn(was, start, data)
  }

  /** A transfer writes exactly its slots. */
  lemma WrittenBy(was: seq<Byte>, start: nat, data: seq<Byte>, buffer: seq<Byte>)
    requires start <= |was| && |data| < |was| && buffer == Transfer(was, start, data)
    ensures Written(was, buffer, start, data)
  {
    hide Transfer;
    forall k | 0 <= k < |was| && buffer[k] != was[k]
      ensures exists j :: 0 <= j < |data| && Slot(start, |data|, |was|, j) == k
    {
      TransferAt(was, start, data, buffer, k);
      var j := if start <= k < start + |data| then k - start else k + |was| - start;
      assert Slot(start, |data|, |was|, j) == k;
    }
    forall j | 0 <= j < |data|
      ensures 0 <= Slot(start, |data|, |was|, j) < |was| && buffer[Slot(start, |data|, |was|, j)] == data[j]
    {
      TransferAt(was, start, data, buffer, Slot(start, |data|, |was|, j));
    }
  }

  lemma UsedInRange(writepos: nat, readpos: nat, size: nat)
    requires PowerOfTwo(size) && writepos <= size && readpos <= size
    ensures Used(writepos, readpos, size) == (writepos - readpos) % size
  {
    var k: nat :| size == Pow2(k);
    MaskIsMod(writepos - readpos, k);
  }

  lemma WrittenQueue(was: seq<Byte>, buffer: seq<Byte>, readpos: nat, writepos: nat, data: seq<Byte>)
    requires PowerOfTwo(|was|) && readpos <= |was| && writepos <= |was|
    requires Written(was, buffer, writepos, data)
    requires Used(writepos, readpos, |was|) + |data| < |was|
    ensures var w := NextPos(writepos, |data|, |was|);
      && Used(w, readpos, |was|) == Used(writepos, readpos, |was|) + |data|
      && Queue(buffer, readpos, Used(w, readpos, |was|)) ==
         Queue(was, readpos, Used(writepos, readpos, |was|)) + data
  {
    hide Used, Slot, NextPos, Wrap, PowerOfTwo, At;
    var size, used := |was|, Used(writepos, readpos, |was|);
    var sent := readpos + used;
    SentIs(writepos, readpos, size);
    NextPosIs(writepos, sent, |data|, size);
    UsedIs(NextPos(writepos, |data|, size), readpos, sent + |data|, readpos, size);
    WrapInRange();
    var q, q' := Queue(was, readpos, used), Queue(buffer, readpos, used + |data|);
    forall i | 0 <= i < |q'| ensures q'[i] == (q + data)[i] {
      if i < used {
        forall j | 0 <= j < |data| ensures Slot(writepos, |data|, size, j) != Wrap(readpos + i, size) {
          SlotIs(writepos, sent, |data|, size, j);
          ModDistinct(readpos + i, sent + j, size);
        }
      } else {
        SlotIs(writepos, sent, |data|, size, i - used);
        assert readpos + i == sent + (i - used);
      }
    }
  }

  lemma WrapInRange()
    ensures forall n: int, size: nat :: size > 0 ==> Wrap(n, size) < size
  {
  }

  lemma UsedBounds(writepos: nat, readpos: nat, size: nat)
    requires PowerOfTwo(size) && writepos <= size && readpos <= size
    ensures Used(writepos, readpos, size) == writepos - readpos
              + (if writepos < readpos then size else if writepos - readpos == size then 0 - size else 0)
  {
    UsedInRange(writepos, readpos, size);
    var d := writepos - readpos;
    if d == size { ModUnique(d, size, 1, 0); }
    else if d >= 0 { ModUnique(d, size, 0, d); }
    else { ModUnique(d, size, -1, d + size); }
  }

  lemma WrapSmall(n: nat, size: nat)
    requires size > 0 && n <= 2 * size
    ensures Wrap(n, size) == if n < size then n else if n < 2 * size then n - size else 0
  {
    if n < size { ModUnique(n, size, 0, n); }
    else if n < 2 * size { ModUnique(n, size, 1, n - size); }
    else { ModUnique(n, size, 2, 0); }
  }

  /** A position and the number of bytes in use give the other position. */
  lemma SentIs(writepos: nat, readpos: nat, size: nat)
    requires PowerOfTwo(size) && writepos <= size && readpos <= size
    ensures At(readpos, readpos, size) && At(writepos, readpos + Used(writepos, readpos, size), size)
  {
    hide Used, Wrap, PowerOfTwo;
    assert size > 0 by { PowerPositive(size); }
    UsedBounds(writepos, readpos, size);
    WrapSmall(readpos, size);
    WrapSmall(readpos + Used(writepos, readpos, size), size);
  }

  lemma PowerPositive(size: int)
    requires PowerOfTwo(size)
    ensures size > 0
  {
  }

  lemma ReadQueue(buffer: seq<Byte>, readpos: nat, writepos: nat, total: nat, dst: seq<Byte>)
    requires PowerOfTwo(|buffer|) && readpos <= |buffer| && writepos <= |buffer|
    requires total <= Used(writepos, readpos, |buffer|) < |buffer| && |dst| == total
    requires forall j :: 0 <= j < total ==> 0 <= Slot(readpos, total, |buffer|, j) < |buffer|
                                            && dst[j] == buffer[Slot(readpos, total, |buffer|, j)]
    ensures var r, used := NextPos(readpos, total, |buffer|), Used(writepos, readpos, |buffer|);
      && r >= 0 && Used(writepos, r, |buffer|) == used - total
      && dst == Queue(buffer, readpos, used)[..total]
      && Queue(buffer, r, used - total) == Queue(buffer, readpos, used)[total..]
  {
    hide Used, Slot, NextPos, Wrap, PowerOfTwo;
    var size, used := |buffer|, Used(writepos, readpos, |buffer|);
    SentIs(writepos, readpos, size);
    NextPosIs(readpos, readpos, total, size);
    var r := NextPos(readpos, total, size);
    UsedIs(writepos, r, readpos + used, readpos + total, size);
    WrapInRange();
    forall j | 0 <= j < total ensures dst[j] == buffer[Wrap(readpos + j, size)] {
      SlotIs(readpos, readpos, total, size, j);
    }
    var q, q' := Queue(buffer, readpos, used), Queue(buffer, r, used - total);
    forall i | 0 <= i < used - total ensures q'[i] == q[total..][i] {
      SameAt(r, readpos + total, size, i);
      assert q[total + i] == buffer[Wrap(readpos + (total + i), size)];
    }
  }

  lemma SameAt(pos: nat, n: nat, size: nat, i: nat)
    requires size > 0 && At(pos, n, size)
    ensures Wrap(pos + i, size) == Wrap(n + i, size)
  {
    ModAdd(n, size, i);
    if pos == size { ModUnique(pos + i, size, 1 + i / size, i % size); }
  }

  lemma ModAdd(n: nat, size: nat, i: nat)
    requires size > 0
    ensures (n + i) % size == (n % size + i) % size
  {
    var t := (n % size + i) / size;
    MulDifference(size, n / size, -t);
    ModUnique(n + i, size, n / size + t, (n % size + i) % size);
  }

  // ---------------------------------------------------------------------------------------
  // A writer and a reader at the same time
  // ---------------------------------------------------------------------------------------

  /** Where the writer is in `sfifo_write`. It has copied `done` of the `total` bytes that it
      found room for. */
  datatype Writer = WriterIdle | Writing(data: seq<Byte>, start: nat, total: nat, done: nat)

  /** Where the reader is in `sfifo_read`. It has copied the bytes `out`. */
  datatype Reader = ReaderIdle | Reading(start: nat, total: nat, out: seq<Byte>)

  /** `written` and `delivered` record the bytes of all writes and reads that have returned. */
  datatype System = System(
    size: nat,
    buffer: seq<Byte>,
    readpos: int,
    writepos: int,
    writer: Writer,
    reader: Reader,
    written: seq<Byte>,
    delivered: seq<Byte>)

  /** Each of these happens at once. The first step of each side reads the other side's
      position; the last one makes the new position visible to the other side. */
  datatype Action = StartWrite(buf: seq<Byte>) | CopyOne | EndWrite | StartRead(len: nat) | TakeOne | EndRead

  predicate CanAct(s: System, a: Action) {
    match a
    case StartWrite(_) => s.writer.WriterIdle?
    case CopyOne => s.writer.Writing? && s.writer.done < s.writer.total
    case EndWrite => s.writer.Writing? && s.writer.done == s.writer.total
    case StartRead(_) => s.reader.ReaderIdle?
    case TakeOne => s.reader.Reading? && |s.reader.out| < s.reader.total
    case EndRead => s.reader.Reading? && |s.reader.out| == s.reader.total
  }

  ghost predicate Sound(s: System) {
    && PowerOfTwo(s.size) && |s.buffer| == s.size && s.size > 0
    && PositionsOk(s) && BufferOk(s) && WriterOk(s) && ReaderOk(s)
  }

  /** `written` and `delivered` are what the positions stand for. */
  ghost predicate PositionsOk(s: System)
    requires s.size > 0
  {
    && |s.delivered| <= |s.written| < |s.delivered| + s.size
    && s.delivered == s.written[..|s.delivered|]
    && At(s.writepos, |s.written|, s.size) && At(s.readpos, |s.delivered|, s.size)
  }

  /** The bytes that are yet to be delivered are in the buffer. */
  ghost predicate BufferOk(s: System)
    requires s.size > 0 && |s.buffer| == s.size
  {
    forall i :: |s.delivered| <= i < |s.written| ==> s.buffer[Wrap(i, s.size)] == s.written[i]
  }

  ghost predicate WriterOk(s: System)
    requires s.size > 0 && |s.buffer| == s.size
  {
    s.writer.Writing? ==>
      && s.writer.start == s.writepos
      && s.writer.done <= s.writer.total <= |s.writer.data|
      && |s.written| + s.writer.total < |s.delivered| + s.size
      && forall j :: 0 <= j < s.writer.done ==>
           s.buffer[Wrap(|s.written| + j, s.size)] == s.writer.data[j]
  }

  ghost predicate ReaderOk(s: System) {
    s.reader.Reading? ==>
      && s.reader.start == s.readpos
      && |s.reader.out| <= s.reader.total <= |s.written| - |s.delivered|
      && s.reader.out == s.written[|s.delivered|..|s.delivered| + |s.reader.out|]
  }

  /** A copy outside the buffer would be an error; `Sound` rules it out. */
  function Act(s: System, a: Action): (r: System)
    requires s.size > 0 && CanAct(s, a)
    ensures r.size == s.size
  {
    match a
    case StartWrite(buf) =>
      var total := Min(|buf|, Space(s.writepos, s.readpos, s.size));
      if total < 0 || s.writepos < 0 then s else s.(writer := Writing(buf, s.writepos, total, 0))
    case CopyOne =>
      var w := s.writer;
      var slot := Slot(w.start, w.total, s.size, w.done);
      if w.done < |w.data| && 0 <= slot < |s.buffer| then
        s.(buffer := s.buffer[slot := w.data[w.done]], writer := w.(done := w.done + 1))
      else s
    case EndWrite =>
      var w := s.writer;
      if w.total <= |w.data| then
        s.(writepos := NextPos(w.start, w.total, s.size), written := s.written + w.data[..w.total],
           writer := WriterIdle)
      else s
    case StartRead(len) =>
      if s.readpos < 0 then s
      else s.(reader := Reading(s.readpos, Min(len, Used(s.writepos, s.readpos, s.size)), []))
    case TakeOne =>
      var r := s.reader;
      var slot := Slot(r.start, r.total, s.size, |r.out|);
      if 0 <= slot < |s.buffer| then s.(reader := r.(out := r.out + [s.buffer[slot]])) else s
    case EndRead =>
      var r := s.reader;
      s.(readpos := NextPos(r.start, r.total, s.size), delivered := s.delivered + r.out,
         reader := ReaderIdle)
  }

  lemma ActionInRange(s: System)
    requires Sound(s)
    ensures s.writepos >= 0 && s.readpos >= 0
    ensures Used(s.writepos, s.readpos, s.size) == |s.written| - |s.delivered|
    ensures s.writer.Writing? && s.writer.done < s.writer.total ==>
              Slot(s.writer.start, s.writer.total, s.size, s.writer.done) == Wrap(|s.written| + s.writer.done, s.size)
    ensures s.reader.Reading? && |s.reader.out| < s.reader.total ==>
              Slot(s.reader.start, s.reader.total, s.size, |s.reader.out|)
                == Wrap(|s.delivered| + |s.reader.out|, s.size)
    ensures forall n: int :: Wrap(n, s.size) < s.size
  {
    hide Used, Slot, PowerOfTwo;
    UsedIs(s.writepos, s.readpos, |s.written|, |s.delivered|, s.size);
    WrapInRange();
    if s.writer.Writing? && s.writer.done < s.writer.total {
      SlotIs(s.writer.start, |s.written|, s.writer.total, s.size, s.writer.done);
    }
    if s.reader.Reading? && |s.reader.out| < s.reader.total {
      SlotIs(s.reader.start, |s.delivered|, s.reader.total, s.size, |s.reader.out|);
    }
  }

  lemma StartWriteSound(s: System, buf: seq<Byte>)
    requires Sound(s) && CanAct(s, StartWrite(buf))
    ensures Sound(Act(s, StartWrite(buf))) && Act(s, StartWrite(buf)).writer.Writing?
  {
    hide Used, Slot, PowerOfTwo, Wrap;
    ActionInRange(s);
  }

  lemma CopyOneSound(s: System)
    requires Sound(s) && CanAct(s, CopyOne)
    ensures Sound(Act(s, CopyOne))
  {
    hide Used, Slot, PowerOfTwo, Wrap;
    ActionInRange(s);
    var n := |s.written| + s.writer.done;
    forall i | |s.delivered| <= i < |s.written| ensures Wrap(i, s.size) != Wrap(n, s.size) {
      ModDistinct(i, n, s.size);
    }
    forall i | |s.written| <= i < n ensures Wrap(i, s.size) != Wrap(n, s.size) {
      ModDistinct(i, n, s.size);
    }
    forall j | 0 <= j < s.writer.done
      ensures Act(s, CopyOne).buffer[Wrap(|s.written| + j, s.size)] == s.writer.data[j]
    {
      assert Wrap(|s.written| + j, s.size) != Wrap(n, s.size);
    }
  }

  lemma EndWriteSound(s: System)
    requires Sound(s) && CanAct(s, EndWrite)
    ensures Sound(Act(s, EndWrite))
  {
    hide Used, Slot, NextPos, PowerOfTwo, Wrap, At, BufferOk;
    NextPosIs(s.writer.start, |s.written|, s.writer.total, s.size);
    var s' := Act(s, EndWrite);
    assert s.written[..|s.delivered|] == s'.written[..|s.delivered|];
    EndWriteFills(s);
  }

  lemma EndWriteFills(s: System)
    requires Sound(s) && CanAct(s, EndWrite)
    ensures BufferOk(Act(s, EndWrite))
  {
    hide Used, Slot, NextPos, PowerOfTwo, Wrap, At, PositionsOk, ReaderOk;
    WrapInRange();
    var s' := Act(s, EndWrite);
    forall i | |s'.delivered| <= i < |s'.written| ensures s'.buffer[Wrap(i, s.size)] == s'.written[i] {
      if i >= |s.written| {
        var j := i - |s.written|;
        assert s.buffer[Wrap(|s.written| + j, s.size)] == s.writer.data[j];
      }
    }
  }

  lemma ReadSound(s: System, a: Action)
    requires Sound(s) && CanAct(s, a) && (a.StartRead? || a.TakeOne? || a.EndRead?)
    ensures Sound(Act(s, a))
  {
    hide Used, Slot, NextPos, PowerOfTwo, Wrap, At;
    ActionInRange(s);
    if a.EndRead? {
      NextPosIs(s.reader.start, |s.delivered|, s.reader.total, s.size);
    }
  }

  lemma ActSound(s: System, a: Action)
    requires Sound(s) && CanAct(s, a)
    ensures Sound(Act(s, a)) && Act(s, a).size == s.size
  {
    hide Sound;
    match a
    case StartWrite(buf) => StartWriteSound(s, buf);
    case CopyOne => CopyOneSound(s);
    case EndWrite => EndWriteSound(s);
    case StartRead(_) => ReadSound(s, a);
    case TakeOne => ReadSound(s, a);
    case EndRead => ReadSound(s, a);
  }

  /** An interleaving of the steps of one writer and one reader. */
  ghost predicate Interleaving(s: System, run: seq<Action>)
    requires s.size > 0
    decreases |run|
  {
    run == [] || (CanAct(s, run[0]) && Interleaving(Act(s, run[0]), run[1..]))
  }

  function After(s: System, run: seq<Action>): (r: System)
    requires s.size > 0 && Interleaving(s, run)
    ensures r.size == s.size
    decreases |run|
  {
    if run == [] then s else After(Act(s, run[0]), run[1..])
  }

  /** The system after `sfifo_init`. */
  function Initial(buffer: seq<Byte>): System {
    System(|buffer|, buffer, 0, 0, WriterIdle, ReaderIdle, [], [])
  }

  lemma {:induction false} RunSound(s: System, run: seq<Action>)
    requires s.size > 0 && Sound(s) && Interleaving(s, run)
    ensures Sound(After(s, run)) && After(s, run).size == s.size
    decreases |run|
  {
    hide Sound, Act, CanAct;
    if run != [] {
      ActSound(s, run[0]);
      RunSound(Act(s, run[0]), run[1..]);
    }
  }

  /** However the steps are interleaved: what has been delivered, together with what the reader
      is taking out, is a prefix of what has been written; the bytes in use and the free ones
      are all of the buffer but one, also when a position is equal to the size; and the
      bytes being written are never those being read. */
  lemma FifoCorrect(buffer: seq<Byte>, run: seq<Action>)
    requires PowerOfTwo(|buffer|) && |buffer| > 0 && Interleaving(Initial(buffer), run)
    ensures var s := After(Initial(buffer), run);
      && s.delivered <= s.written
      && (s.reader.Reading? ==> s.delivered + s.reader.out <= s.written)
      && Used(s.writepos, s.readpos, s.size) == |s.written| - |s.delivered|
      && Used(s.writepos, s.readpos, s.size) + Space(s.writepos, s.readpos, s.size) == s.size - 1
      && 0 <= Space(s.writepos, s.readpos, s.size) && 0 <= s.writepos <= s.size && 0 <= s.readpos <= s.size
    ensures var s := After(Initial(buffer), run);
      s.writer.Writing? && s.reader.Reading? ==>
        forall j, i :: 0 <= j < s.writer.total && 0 <= i < s.reader.total ==>
          Slot(s.writer.start, s.writer.total, s.size, j) != Slot(s.reader.start, s.reader.total, s.size, i)
  {
    hide Used, Slot, PowerOfTwo, Wrap, After, Interleaving, WriterOk, BufferOk;
    var s0 := Initial(buffer);
    InitialSound(buffer);
    RunSound(s0, run);
    var s := After(s0, run);
    ActionInRange(s);
    if s.writer.Writing? && s.reader.Reading? {
      RegionsApart(s);
    }
  }

  lemma InitialSound(buffer: seq<Byte>)
    requires PowerOfTwo(|buffer|) && |buffer| > 0
    ensures Sound(Initial(buffer))
  {
    hide Wrap, PowerOfTwo;
    assert At(0, 0, |buffer|) by { WrapSmall(0, |buffer|); }
  }

  lemma RegionsApart(s: System)
    requires s.size > 0 && Sound(s) && s.writer.Writing? && s.reader.Reading?
    ensures forall j, i :: 0 <= j < s.writer.total && 0 <= i < s.reader.total ==>
              Slot(s.writer.start, s.writer.total, s.size, j) != Slot(s.reader.start, s.reader.total, s.size, i)
  {
    hide Used, Slot, PowerOfTwo, Wrap, BufferOk;
    forall j, i | 0 <= j < s.writer.total && 0 <= i < s.reader.total
      ensures Slot(s.writer.start, s.writer.total, s.size, j) != Slot(s.reader.start, s.reader.total, s.size, i)
    {
      SlotIs(s.writer.start, |s.written|, s.writer.total, s.size, j);
      SlotIs(s.reader.start, |s.delivered|, s.reader.total, s.size, i);
      ModDistinct(|s.delivered| + i, |s.written| + j, s.size);
    }
  }

  /** A write accepts exactly as many bytes as were free when it looked, although the reader may
      make more room before it is done; a read delivers as many as were there. */
  lemma WriteAccepts(s: System, buf: seq<Byte>, len: nat)
    requires Sound(s)
    ensures s.writer.WriterIdle? ==>
              Act(s, StartWrite(buf)).writer.Writing?
              && Act(s, StartWrite(buf)).writer.total == Min(|buf|, s.size - 1 - (|s.written| - |s.delivered|))
    ensures s.reader.ReaderIdle? ==>
              Act(s, StartRead(len)).reader.Reading?
              && Act(s, StartRead(len)).reader.total == Min(len, |s.written| - |s.delivered|)
  {
    hide Used, PowerOfTwo, Wrap;
    ActionInRange(s);
  }
}

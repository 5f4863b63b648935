/** The slot header word, and where slots lie in the scratch area. */
module Layout {
  import opened Words

  // The header: bit 31 flags truncation, bits 0 to 30 hold the length.

  const LEN_MASK: u32 := 0x7FFF_FFFF
  const TRUNCATED: u32 := 0x8000_0000

  function HeaderLen(hdr: u32): nat {
    BitAnd(hdr, LEN_MASK)
  }

  predicate HeaderTruncated(hdr: u32) {
    BitAnd(hdr, TRUNCATED) != 0
  }

  lemma HeaderFields(hdr: u32)
    ensures HeaderLen(hdr) == hdr % 0x8000_0000
    ensures HeaderTruncated(hdr) <==> hdr >= 0x8000_0000
  {
    Pow2Values();
    MaskIsMod(hdr, 31);
    TopBit(hdr);
  }

  lemma TopBit(hdr: u32)
    ensures BitAnd(hdr, TRUNCATED) == if hdr >= 0x8000_0000 then 0x8000_0000 else 0
  {
    Pow2Values();
    AndSingleBit(hdr, 31);
    assert hdr / 0x8000_0000 == if hdr >= 0x8000_0000 then 1 else 0;
  }

  /** The header word says: this many bytes, truncated or not. */
  predicate HeaderSays(hdr: nat, len: nat, truncated: bool) {
    hdr % 0x8000_0000 == len && (hdr >= 0x8000_0000 <==> truncated)
  }

  /** The header word `rb_publish_ex` writes. */
  function Encode(len: u32, truncated: bool): nat {
    if truncated then BitOr(BitAnd(len, LEN_MASK), TRUNCATED) else BitAnd(len, LEN_MASK)
  }

  lemma EncodeSays(len: u32, truncated: bool)
    ensures Encode(len, truncated) < WORD
    ensures HeaderSays(Encode(len, truncated), len % 0x8000_0000, truncated)
  {
    hide BitAnd, BitOr;
    EncodeIsSum(len);
  }

  lemma EncodeIsSum(len: u32)
    ensures BitAnd(len, LEN_MASK) == len % 0x8000_0000
    ensures BitOr(BitAnd(len, LEN_MASK), TRUNCATED) == BitAnd(len, LEN_MASK) + 0x8000_0000
  {
    Pow2Values();
    HeaderFields(len);
    OrHighBit(BitAnd(len, LEN_MASK), 31);
  }

  lemma Decode(hdr: u32, len: nat, truncated: bool)
    requires HeaderSays(hdr, len, truncated)
    ensures HeaderLen(hdr) == len && HeaderTruncated(hdr) == truncated
  {
    HeaderFields(hdr);
  }

  /** Only one word says it. */
  lemma WordIsUnique(h0: u32, h1: u32, len: nat, truncated: bool)
    requires HeaderSays(h0, len, truncated) && HeaderSays(h1, len, truncated)
    ensures h0 == h1
  {
    assert h0 == 0x8000_0000 * (h0 / 0x8000_0000) + len;
    assert h1 == 0x8000_0000 * (h1 / 0x8000_0000) + len;
  }

  /** Reading a header back gives the flag that was written, and the length that was written
      if and only if it fits in 31 bits. */
  lemma HeaderRoundTrip(len: u32, truncated: bool)
    ensures Encode(len, truncated) < WORD
    ensures HeaderTruncated(Encode(len, truncated)) == truncated
    ensures HeaderLen(Encode(len, truncated)) == len <==> len < 0x8000_0000
  {
    hide Encode, HeaderLen, HeaderTruncated, HeaderSays;
    EncodeSays(len, truncated);
    Decode(Encode(len, truncated), len % 0x8000_0000, truncated);
  }

  // Slots

  /** `RB_ALIGN_UP`: the bits below the alignment are cleared, so what they select is
      subtracted. */
  function AlignUp(x: nat, a: nat): int
    requires a >= 1
  {
    (x + (a - 1)) - BitAnd(x + (a - 1), a - 1)
  }

  /** The least multiple of the alignment that is not below `x`. */
  lemma AlignUpIsCeiling(x: nat, a: nat) returns (k: nat)
    requires IsPow2(a)
    ensures AlignUp(x, a) == a * k && AlignUp(x, a) % a == 0
    ensures x <= AlignUp(x, a) < x + a
  {
    var e := Log2(a);
    var y := x + (a - 1);
    k := MaskSplits(y, e);
    assert AlignUp(x, a) == a * k;
    MultipleMod(a, k);
  }

  lemma MultipleMod(a: int, k: int)
    requires a >= 1
    ensures (a * k) % a == 0
  {
    ModUnique(a * k, a, k, 0);
  }

  /** Two multiples of `a` are equal or at least `a` apart. */
  lemma MultiplesApart(a: nat, k: int, w: int)
    ensures a * k == a * w || a * k <= a * w - a || a * k >= a * w + a
  {
    var d := w - k;
    assert a * w - a * k == a * d;
    assert d >= 1 ==> a * d >= a;
    assert d <= -1 ==> a * d <= 0 - a;
  }

  /** An alignment the library can be built with: a power of two from 4 up. */
  predicate Alignment(a: nat) {
    IsPow2(a) && 4 <= a < WORD
  }

  /** `slot_stride_for`: rounded up in `size_t`, then cast to 32 bits. */
  function Stride(slotSize: u32, a: nat): u32
    requires a >= 1
  {
    AlignUp(slotSize, a) % WORD
  }

  lemma WordIsAligned(a: nat) returns (w: nat)
    requires Alignment(a)
    ensures WORD == a * w
  {
    var k := Log2(a);
    Pow2Values();
    if k > 32 {
      Pow2Grows(32, k);
      assert false;
    }
    Pow2Sum(k, 32 - k);
    w := Pow2(32 - k);
  }

  /** The cast loses nothing if and only if the slot size is at least one alignment unit
      below 2^32; otherwise the stride is zero. */
  lemma StrideIsExact(slotSize: u32, a: nat)
    requires Alignment(a) && slotSize >= 1
    ensures slotSize <= WORD - a <==> Stride(slotSize, a) == AlignUp(slotSize, a)
    ensures slotSize > WORD - a <==> Stride(slotSize, a) == 0
    ensures slotSize <= WORD - a ==> slotSize <= Stride(slotSize, a) && Stride(slotSize, a) % a == 0
  {
    var k := AlignUpIsCeiling(slotSize, a);
    var w := WordIsAligned(a);
    MultiplesApart(a, k, w);
    CastOf(AlignUp(slotSize, a));
  }

  lemma CastOf(y: nat)
    requires y <= WORD
    ensures y % WORD == if y == WORD then 0 else y
  {
  }

  /** Slot `i` occupies these bytes of the scratch area. */
  function SlotStart(stride: nat, i: nat): nat {
    i * stride
  }

  /** Every slot is inside the scratch area that `rb_init` demands, aligned, and clear of
      every other slot. */
  ghost predicate SlotsLaidOut(slots: nat, slotSize: nat, stride: nat, a: nat, scratch: nat)
    requires a >= 1
  {
    && (forall i: nat :: i < slots ==>
          SlotStart(stride, i) + slotSize <= scratch && SlotStart(stride, i) % a == 0)
    && (forall i: nat, j: nat :: i < j < slots ==> SlotStart(stride, i) + slotSize <= SlotStart(stride, j))
  }

  lemma SlotFits(slots: nat, slotSize: nat, stride: nat, i: nat, j: nat)
    requires i < j <= slots && slotSize <= stride
    ensures SlotStart(stride, i) + slotSize <= SlotStart(stride, j) <= slots * stride
  {
    MulLe(i + 1, j, stride);
    MulLe(j, slots, stride);
  }

  lemma MulLe(i: nat, j: nat, s: nat)
    requires i <= j
    ensures i * s <= j * s
  {
    var d := j - i;
    assert d * s >= 0;
    assert j * s == i * s + d * s;
  }

  lemma SlotIsAligned(stride: nat, a: nat, i: nat)
    requires a >= 1 && stride % a == 0
    ensures SlotStart(stride, i) % a == 0
  {
    var k := stride / a;
    assert stride == a * k;
    assert i * stride == a * (i * k);
    MultipleMod(a, i * k);
  }

  /** The layout is sound for every scratch area that `rb_init` accepts if and only if the
      stride survives its cast. */
  lemma LayoutIsSound(slots: u32, slotSize: u32, a: nat)
    requires Alignment(a) && slots >= 1 && slotSize >= 1
    ensures slotSize <= WORD - a <==>
            forall scratch: nat :: scratch >= 1 && scratch >= slots * Stride(slotSize, a) ==>
              SlotsLaidOut(slots, slotSize, Stride(slotSize, a), a, scratch)
  {
    StrideIsExact(slotSize, a);
    var stride := Stride(slotSize, a);
    if slotSize <= WORD - a {
      forall scratch: nat | scratch >= 1 && scratch >= slots * stride
        ensures SlotsLaidOut(slots, slotSize, stride, a, scratch)
      {
        forall i: nat | i < slots
          ensures SlotStart(stride, i) + slotSize <= scratch && SlotStart(stride, i) % a == 0
        {
          SlotFits(slots, slotSize, stride, i, i + 1);
          SlotIsAligned(stride, a, i);
        }
        forall i: nat, j: nat | i < j < slots
          ensures SlotStart(stride, i) + slotSize <= SlotStart(stride, j)
        {
          SlotFits(slots, slotSize, stride, i, j);
        }
      }
    } else {
      assert slots * stride == 0;
      assert !SlotsLaidOut(slots, slotSize, stride, a, 1) by {
        assert SlotStart(stride, 0) + slotSize > 1;
      }
    }
  }

  /** What the pointer-entry build recovers from an entry, or nothing on an error return. */
  datatype Recovered = Bad | Slot(index: nat)

  function RecoverSlot(entry: nat, scratch: nat, stride: nat, slots: nat): Recovered {
    if entry < scratch then Bad
    else if stride == 0 || (entry - scratch) % stride != 0 then Bad
    else
      var index := Wrap((entry - scratch) / stride);
      if index >= slots then Bad else Slot(index)
  }

  /** The address of a slot leads back to its index; no error return is taken. */
  lemma PointerEntryRoundTrip(scratch: nat, stride: nat, slots: u32, i: nat)
    requires stride >= 1 && i < slots
    ensures RecoverSlot(scratch + SlotStart(stride, i), scratch, stride, slots) == Slot(i)
  {
    assert i * stride == stride * i + 0;
    ModUnique(i * stride, stride, i, 0);
  }

  /** The cast of the quotient loses whole laps of 2^32 slots. */
  lemma LapIsLost(scratch: nat, stride: nat, slots: u32, i: nat, k: nat)
    requires stride >= 1 && i < slots
    ensures RecoverSlot(scratch + SlotStart(stride, i + WORD * k), scratch, stride, slots) == Slot(i)
  {
    var d := i + WORD * k;
    assert d * stride == stride * d + 0;
    ModUnique(d * stride, stride, d, 0);
    ModUnique(d, WORD, k, i);
  }

  lemma RecoveredFrom(entry: nat, scratch: nat, stride: nat, slots: u32, i: nat) returns (k: nat)
    requires RecoverSlot(entry, scratch, stride, slots) == Slot(i)
    ensures stride >= 1 && i < slots && entry == scratch + SlotStart(stride, i + WORD * k)
    ensures entry < scratch + slots * stride ==> k == 0
  {
    var d := (entry - scratch) / stride;
    k := d / WORD;
    assert entry - scratch == stride * d;
    assert d == i + WORD * k;
    if entry < scratch + slots * stride { QuotientBelow(d, slots, stride); }
  }

  /** And only slot addresses do: an index comes back exactly for the address of that slot, or for
      one whole laps further on; inside the scratch area, exactly for the address of that slot. */
  lemma RecoveredExactly(entry: nat, scratch: nat, stride: nat, slots: u32, i: nat)
    ensures RecoverSlot(entry, scratch, stride, slots) == Slot(i) <==>
            stride >= 1 && i < slots && exists k: nat :: entry == scratch + SlotStart(stride, i + WORD * k)
    ensures entry < scratch + slots * stride ==>
              (RecoverSlot(entry, scratch, stride, slots) == Slot(i) <==>
               stride >= 1 && i < slots && entry == scratch + SlotStart(stride, i))
  {
    hide RecoverSlot, SlotStart;
    if RecoverSlot(entry, scratch, stride, slots) == Slot(i) {
      var k := RecoveredFrom(entry, scratch, stride, slots, i);
    }
    if stride >= 1 && i < slots {
      if k: nat :| entry == scratch + SlotStart(stride, i + WORD * k) {
        LapIsLost(scratch, stride, slots, i, k);
      }
      PointerEntryRoundTrip(scratch, stride, slots, i);
    }
  }

  lemma QuotientBelow(d: nat, n: nat, s: nat)
    requires s * d < n * s
    ensures d < n
  {
    if d >= n { MulLe(n, d, s); }
  }

  // The shared-memory layout of the IPC examples

  const CACHE_LINE := 64

  function IpcScratchOffset(control: nat): int {
    AlignUp(control, CACHE_LINE)
  }

  /** `ipc_scratch_size_for`: computed in `size_t`, without the cast of `slot_stride_for`. */
  function IpcScratchSize(slots: nat, msgSize: nat, hdrSize: nat, a: nat): int
    requires a >= 1
  {
    slots * AlignUp(msgSize + hdrSize, a)
  }

  /** The IPC arithmetic yields exactly the bytes `rb_init` demands for slots of that
      message size, if and only if the stride survives its cast; the scratch area starts
      aligned, past the control block. */
  lemma IpcAgreesWithInit(slots: u32, msgSize: nat, hdrSize: nat, a: nat, control: nat)
    requires Alignment(a) && slots >= 1 && hdrSize >= 4 && msgSize + hdrSize < WORD
    requires CACHE_LINE % a == 0
    ensures IpcScratchSize(slots, msgSize, hdrSize, a) == slots * Stride(msgSize + hdrSize, a) <==>
            msgSize + hdrSize <= WORD - a
    ensures control <= IpcScratchOffset(control) && IpcScratchOffset(control) % a == 0
  {
    StrideIsExact(msgSize + hdrSize, a);
    var k := AlignUpIsCeiling(msgSize + hdrSize, a);
    PositiveProduct(slots, AlignUp(msgSize + hdrSize, a));
    LineIsPow2();
    var m := AlignUpIsCeiling(control, CACHE_LINE);
    LineMultiple(a, m);
  }

  /** `ipc_region_size`: the control block and the slots, these without rounding. */
  function IpcRegionSize(control: nat, slots: nat, slotSize: nat): int {
    IpcScratchOffset(control) + slots * slotSize
  }

  /** The region leaves room for the bytes `rb_init` demands, behind the control block. */
  predicate IpcRegionFits(control: nat, slots: nat, slotSize: u32, a: nat)
    requires a >= 1
  {
    IpcRegionSize(control, slots, slotSize) - IpcScratchOffset(control) >= slots * Stride(slotSize, a)
  }

  /** The fixed-size region is large enough if and only if the slot size needs no rounding (or
      the stride has been cast to zero, so that nothing is demanded). */
  lemma IpcRegionFitsExactly(control: nat, slots: u32, slotSize: u32, a: nat)
    requires Alignment(a) && slots >= 1 && slotSize >= 1
    ensures IpcRegionFits(control, slots, slotSize, a) <==> slotSize % a == 0 || slotSize > WORD - a
  {
    hide AlignUp, IsPow2;
    StrideIsExact(slotSize, a);
    ScaledLe(slots, Stride(slotSize, a), slotSize);
    if slotSize <= WORD - a {
      RoundingIsIdle(slotSize, a);
    }
  }

  lemma ScaledLe(n: nat, x: nat, y: nat)
    requires n >= 1
    ensures n * x <= n * y <==> x <= y
  {
    var d := y - x;
    assert n * y == n * x + n * d;
    assert d >= 0 ==> n * d >= 0;
    assert d <= -1 ==> n * d <= 0 - n;
  }

  /** Rounding up leaves exactly the multiples alone. */
  lemma RoundingIsIdle(x: nat, a: nat)
    requires IsPow2(a)
    ensures AlignUp(x, a) == x <==> x % a == 0
  {
    hide AlignUp, IsPow2;
    var k := AlignUpIsCeiling(x, a);
    if x % a == 0 {
      var w := x / a;
      assert x == a * w;
      MultiplesApart(a, k, w);
    }
  }

  /** An example: slots of 100 bytes at an alignment of 16. */
  lemma IpcRegionTooSmall(control: nat, slots: u32)
    requires slots >= 1
    ensures !IpcRegionFits(control, slots, 100, 16)
  {
    assert Pow2(4) == 16;
    Pow2Passes(4);
    IpcRegionFitsExactly(control, slots, 100, 16);
  }

  lemma PositiveProduct(x: nat, y: nat)
    requires x >= 1 && y >= 1
    ensures x * y >= 1
  {
  }

  lemma LineMultiple(a: nat, m: nat)
    requires a >= 1 && CACHE_LINE % a == 0
    ensures (CACHE_LINE * m) % a == 0
  {
    var k := CACHE_LINE / a;
    assert CACHE_LINE == a * k;
    assert CACHE_LINE * m == a * (k * m);
    MultipleMod(a, k * m);
  }

  lemma LineIsPow2()
    ensures IsPow2(CACHE_LINE)
  {
    assert Pow2(3) == 8;
    Pow2Sum(3, 3);
    Pow2Passes(6);
  }
}

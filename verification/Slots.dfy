/** Which scratch slot a position uses, and when two live positions can meet in one. */
module Slots {
  import opened Words

  /** `slots_mask` as `rb_init` computes it: zero stands for "use the remainder". */
  function SlotsMask(slots: u32): u32
    requires slots >= 1
  {
    if IsPow2(slots) then slots - 1 else 0
  }

  /** `slot_index_for`: the mask when there is one, the remainder otherwise. */
  function SlotIndex(slots: u32, slotsMask: u32, position: u32): nat
    requires slots >= 1
  {
    if slotsMask != 0 then BitAnd(position, slotsMask) else position % slots
  }

  /** The slot of an unbounded position: its register image, then the remainder. */
  function SlotOf(slots: nat, position: nat): (s: nat)
    requires slots >= 1
    ensures s < slots
  {
    Wrap(position) % slots
  }

  /** Both branches of `slot_index_for` compute the same remainder. */
  lemma SlotIndexIsSlotOf(slots: u32, position: nat)
    requires slots >= 1
    ensures SlotIndex(slots, SlotsMask(slots), Wrap(position)) == SlotOf(slots, position)
  {
    if IsPow2(slots) {
      var k := Log2(slots);
      MaskIsMod(Wrap(position), k);
    }
  }

  /** `position & mask` is the slot of the position in an array of `capacity` cells. */
  lemma MaskIsSlotOf(capacity: u32, position: nat)
    requires IsPow2(capacity)
    ensures BitAnd(Wrap(position), capacity - 1) == SlotOf(capacity, position)
  {
    var k := Log2(capacity);
    MaskIsMod(Wrap(position), k);
  }

  /** The slots divide the range of the counters. */
  predicate Divides(slots: nat)
    requires slots >= 1
  {
    WORD % slots == 0
  }

  /** The condition under which the counter wrap cannot make live positions share a slot. */
  predicate SlotsSafe(slots: nat, limit: nat)
    requires slots >= 1
  {
    WORD % slots == 0 || WORD % slots >= limit
  }

  /** The `n` positions from `lo` on use pairwise different slots. */
  ghost predicate WindowDistinct(slots: nat, lo: nat, n: nat)
    requires slots >= 1
  {
    forall p: nat, q: nat :: lo <= p < q < lo + n ==> SlotOf(slots, p) != SlotOf(slots, q)
  }

  lemma RemainderAdds(a: int, n: int, k: int)
    requires n > 0
    ensures (a + n * k) % n == a % n
  {
    assert a == n * (a / n) + a % n;
    assert a + n * k == n * (a / n + k) + a % n;
    ModUnique(a + n * k, n, a / n + k, a % n);
  }

  /** Two positions closer than the limit never share a slot of a safe geometry. */
  lemma CloseIsDistinct(slots: nat, limit: nat, p: nat, q: nat)
    requires 1 <= limit <= slots
    requires SlotsSafe(slots, limit)
    requires p < q < p + limit
    requires slots < WORD
    ensures SlotOf(slots, p) != SlotOf(slots, q)
  {
    if SlotOf(slots, p) == SlotOf(slots, q) {
      var j := SharedSlot(slots, p, q);
      LapStep(p, q);
      if q / WORD == p / WORD {
        ProductInRange(slots, j);
      } else {
        assert WORD == slots * -j + (q - p);
        ModUnique(WORD, slots, -j, q - p);
      }
    }
  }

  lemma SharedSlot(slots: nat, p: nat, q: nat) returns (j: int)
    requires slots >= 1 && SlotOf(slots, p) == SlotOf(slots, q)
    ensures Wrap(q) - Wrap(p) == slots * j
  {
    j := Wrap(q) / slots - Wrap(p) / slots;
    assert Wrap(q) == slots * (Wrap(q) / slots) + SlotOf(slots, q);
    assert Wrap(p) == slots * (Wrap(p) / slots) + SlotOf(slots, p);
  }

  /** No multiple of `n` lies strictly between zero and `n`. */
  lemma ProductInRange(n: nat, j: int)
    ensures !(0 < n * j < n)
  {
    assert j >= 1 ==> n * j >= n;
    assert j <= 0 ==> n * j <= 0;
  }

  lemma LapStep(p: nat, q: nat)
    requires p < q < p + WORD
    ensures q / WORD == p / WORD ==> Wrap(q) - Wrap(p) == q - p
    ensures q / WORD != p / WORD ==> Wrap(p) - Wrap(q) == WORD - (q - p)
  {
    assert p == WORD * (p / WORD) + Wrap(p);
    assert q == WORD * (q / WORD) + Wrap(q);
  }

  /** If the slots divide the counter range a whole lap of positions uses different slots. */
  lemma LapIsDistinct(slots: nat, p: nat, q: nat)
    requires 1 <= slots < WORD && Divides(slots) && p < q < p + slots
    ensures SlotOf(slots, p) != SlotOf(slots, q)
  {
    CloseIsDistinct(slots, slots, p, q);
  }

  /** One lap of the slots later the same slot comes up, if the slots divide 2^32. */
  lemma NextLapSameSlot(slots: nat, p: nat)
    requires 1 <= slots < WORD && Divides(slots)
    ensures SlotOf(slots, p + slots) == SlotOf(slots, p)
  {
    var k := WORD / slots;
    var l, l' := p / WORD, (p + slots) / WORD;
    assert WORD == slots * k;
    assert p == WORD * l + Wrap(p) && p + slots == WORD * l' + Wrap(p + slots);
    var d := 1 - k * (l' - l);
    assert Wrap(p + slots) == Wrap(p) + slots * d by {
      assert WORD * (l' - l) == slots * (k * (l' - l));
    }
    RemainderAdds(Wrap(p), slots, d);
  }

  lemma WindowIsDistinct(slots: nat, limit: nat, lo: nat, n: nat)
    requires 1 <= limit <= slots < WORD && n <= limit
    requires SlotsSafe(slots, limit)
    ensures WindowDistinct(slots, lo, n)
  {
    forall p: nat, q: nat | lo <= p < q < lo + n
      ensures SlotOf(slots, p) != SlotOf(slots, q)
    {
      CloseIsDistinct(slots, limit, p, q);
    }
  }

  /** Slot exclusivity, exactly: every window of `limit` consecutive positions uses
      different slots, at every value of the wrapping counters, if and only if 2^32 modulo
      `slots` is zero or at least `limit`. */
  lemma SlotExclusivity(slots: nat, limit: nat)
    requires 1 <= limit <= slots < WORD
    ensures SlotsSafe(slots, limit) <==> forall lo: nat :: WindowDistinct(slots, lo, limit)
  {
    if SlotsSafe(slots, limit) {
      forall lo: nat ensures WindowDistinct(slots, lo, limit) {
        WindowIsDistinct(slots, limit, lo, limit);
      }
    } else {
      Collision(slots, limit);
      assert !WindowDistinct(slots, WORD - 1, limit);
    }
  }

  /** In an unsafe geometry the last position before the wrap shares its slot with the
      position `2^32 mod slots` later, and both fit in one window. */
  lemma Collision(slots: nat, limit: nat)
    requires 1 <= limit <= slots < WORD
    requires !SlotsSafe(slots, limit)
    ensures 1 <= WORD % slots < limit
    ensures SlotOf(slots, WORD - 1) == SlotOf(slots, WORD - 1 + WORD % slots)
  {
    var r := WORD % slots;
    assert Wrap(WORD - 1) == WORD - 1;
    assert Wrap(WORD - 1 + r) == r - 1;
    assert WORD - 1 == (r - 1) + slots * (WORD / slots);
    RemainderAdds(r - 1, slots, WORD / slots);
  }

  /** Every power-of-two number of slots is safe, whatever the limit. */
  lemma Pow2SlotsAreSafe(slots: nat, limit: nat)
    requires IsPow2(slots) && slots < WORD
    ensures WORD % slots == 0
    ensures SlotsSafe(slots, limit)
  {
    var k := Log2(slots);
    Pow2Values();
    if k > 32 {
      Pow2Grows(32, k);
      assert false;
    }
    Pow2Sum(k, 32 - k);
    RemainderAdds(0, slots, Pow2(32 - k));
  }
}

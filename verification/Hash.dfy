/** The hash that the offload worker computes of each payload. */
module Hash {
  import opened Words

  const START: u32 := 0x811c9dc5
  const PRIME: u32 := 0x01000193

  /** The prime's inverse modulo 2^32, by which a multiplication can be undone. */
  const INVERSE: u32 := 0x359c449b

  function BitXor(a: nat, b: nat): nat {
    if a == 0 && b == 0 then 0
    else (if a % 2 != b % 2 then 1 else 0) + 2 * BitXor(a / 2, b / 2)
  }

  function Mix(h: u32, b: Byte): u32 {
    Wrap(BitXor(h, b) * PRIME)
  }

  /** FNV-1a over the bytes, last byte outermost. */
  function Fnv(data: seq<Byte>): u32 {
    if data == [] then START else Mix(Fnv(data[..|data| - 1]), data[|data| - 1])
  }

  lemma {:induction false} XorZero(a: nat)
    ensures BitXor(a, 0) == a
  {
    if a > 0 { XorZero(a / 2); }
  }

  lemma {:induction false} XorStaysBelow(a: nat, b: nat, k: nat)
    requires a < Pow2(k) && b < Pow2(k)
    ensures BitXor(a, b) < Pow2(k)
    decreases k
  {
    if k > 0 {
      XorStaysBelow(a / 2, b / 2, k - 1);
    }
  }

  lemma {:induction false} XorIsInjective(a: nat, b: nat, a': nat, b': nat)
    requires BitXor(a, b) == BitXor(a', b')
    ensures a == a' <==> b == b'
    decreases a + b + a' + b'
  {
    if a + b > 0 && a' + b' > 0 {
      XorIsInjective(a / 2, b / 2, a' / 2, b' / 2);
    } else if a + b > 0 {
      XorIsInjective(a / 2, b / 2, 0, 0);
    } else if a' + b' > 0 {
      XorIsInjective(0, 0, a' / 2, b' / 2);
    }
  }

  lemma TimesPrimeIsInjective(x: u32, y: u32)
    requires Wrap(x * PRIME) == Wrap(y * PRIME)
    ensures x == y
  {
    assert PRIME * INVERSE == 1 + 3513497 * WORD;
    var k := (x * PRIME) / WORD - (y * PRIME) / WORD;
    assert (x - y) * PRIME == k * WORD;
    assert x - y == (k * INVERSE - (x - y) * 3513497) * WORD;
  }

  /** Two hash states are mixed to the same only if they agree exactly where the bytes do. */
  lemma MixTellsApart(h: u32, b: Byte, h': u32, b': Byte)
    requires Mix(h, b) == Mix(h', b')
    ensures h == h' <==> b == b'
  {
    Pow2Values();
    XorStaysBelow(h, b, 32);
    XorStaysBelow(h', b', 32);
    hide BitXor;
    TimesPrimeIsInjective(BitXor(h, b), BitXor(h', b'));
    XorIsInjective(h, b, h', b');
  }

  /** What has been hashed so far is never forgotten: the same bytes after it do not make two
      different hashes meet. */
  lemma {:induction false} FnvRemembers(s: seq<Byte>, t: seq<Byte>, after: seq<Byte>)
    ensures Fnv(s + after) == Fnv(t + after) <==> Fnv(s) == Fnv(t)
    decreases |after|
  {
    if after == [] {
      assert s + after == s && t + after == t;
    } else {
      var rest, b := after[..|after| - 1], after[|after| - 1];
      FnvRemembers(s, t, rest);
      assert (s + after)[..|s + after| - 1] == s + rest && (t + after)[..|t + after| - 1] == t + rest;
      if Fnv(s + after) == Fnv(t + after) {
        MixTellsApart(Fnv(s + rest), b, Fnv(t + rest), b);
      }
    }
  }

  /** Two payloads that differ in one byte have different hashes, whichever byte it is. */
  lemma OneByteChangesTheHash(before: seq<Byte>, b: Byte, b': Byte, after: seq<Byte>)
    requires b != b'
    ensures Fnv(before + [b] + after) != Fnv(before + [b'] + after)
  {
    assert (before + [b])[..|before|] == before == (before + [b'])[..|before|];
    if Fnv(before + [b]) == Fnv(before + [b']) {
      MixTellsApart(Fnv(before), b, Fnv(before), b');
    }
    FnvRemembers(before + [b], before + [b'], after);
  }

  /** Published values of 32-bit FNV-1a: of the empty string and of "a". */
  lemma KnownHashes()
    ensures Fnv([]) == 0x811c9dc5 && Fnv([97]) == 0xe40c292c
  {
    XorZero(0x102393b);
    assert BitXor(0x2047277, 1) == 0x2047276;
    assert BitXor(0x408e4ee, 3) == 0x408e4ed;
    assert BitXor(0x811c9dc, 6) == 0x811c9da;
    assert BitXor(0x102393b8, 12) == 0x102393b4;
    assert BitXor(0x20472771, 24) == 0x20472769;
    assert BitXor(0x408e4ee2, 48) == 0x408e4ed2;
    assert BitXor(0x811c9dc5, 97) == 0x811c9da4;
    assert [97][..0] == [];
  }

  /** `zo_fast_hash`. */
  method FastHash(data: seq<Byte>) returns (h: u32)
    ensures h == Fnv(data)
  {
    h := START;
    for i := 0 to |data|
      invariant h == Fnv(data[..i])
    {
      assert data[..i + 1][..i] == data[..i];
      h := Mix(h, data[i]);
    }
    assert data[..|data|] == data;
  }
}

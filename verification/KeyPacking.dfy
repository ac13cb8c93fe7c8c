/**
 Packing expanded keys into bytes, most significant bit first (crates/cli/examples/diff_roots.rs,
 crates/trie/src/path.rs).
 */
module KeyPacking {
  import opened Options
  import opened Trie

  // ----- one byte

  function Mask(j: nat): (m: bv8)
    requires j < 8
  {
    0x80 >> j
  }

  predicate TestBit(b: bv8, j: nat)
    requires j < 8
  {
    (b >> (7 - j)) & 1 != 0
  }

  /** Testing a bit is testing its mask. */
  lemma {:induction false} TestIsMask(b: bv8, j: nat)
    requires j < 8
    ensures TestBit(b, j) == (b & Mask(j) != 0)
  {
    if j == 0 {} else if j == 1 {} else if j == 2 {} else if j == 3 {}
    else if j == 4 {} else if j == 5 {} else if j == 6 {} else {}
  }

  lemma {:induction false} MasksDistinct(i: nat, j: nat)
    requires i < 8 && j < 8
    ensures Mask(i) != 0 && (i != j ==> Mask(i) & Mask(j) == 0)
  {
    if i == 0 { MaskTable(j); } else if i == 1 { MaskTable(j); } else if i == 2 { MaskTable(j); }
    else if i == 3 { MaskTable(j); } else if i == 4 { MaskTable(j); } else if i == 5 { MaskTable(j); }
    else if i == 6 { MaskTable(j); } else { MaskTable(j); }
  }

  lemma {:induction false} MaskTable(j: nat)
    requires j < 8
    ensures Mask(j) == [0x80, 0x40, 0x20, 0x10, 0x08, 0x04, 0x02, 0x01][j]
  {
    if j == 0 {} else if j == 1 {} else if j == 2 {} else if j == 3 {}
    else if j == 4 {} else if j == 5 {} else if j == 6 {} else {}
  }

  lemma {:induction false} OrMask(b: bv8, m: bv8, n: bv8)
    ensures m == n ==> (b | m) & n == n
    ensures m & n == 0 ==> (b | m) & n == b & n
  {
  }

  /** Setting one bit sets that bit and leaves the others. */
  lemma {:induction false} SetThenTest(b: bv8, i: nat, j: nat)
    requires i < 8 && j < 8
    ensures TestBit(b | Mask(j), i) == (i == j || TestBit(b, i))
  {
    hide TestBit, Mask;
    TestIsMask(b, i);
    TestIsMask(b | Mask(j), i);
    MasksDistinct(j, i);
    OrMask(b, Mask(j), Mask(i));
  }

  lemma {:induction false} ZeroTests(j: nat)
    requires j < 8
    ensures !TestBit(0, j)
  {
    if j == 0 {} else if j == 1 {} else if j == 2 {} else if j == 3 {}
    else if j == 4 {} else if j == 5 {} else if j == 6 {} else {}
  }

  lemma {:induction false} ByteExt(a: bv8, b: bv8)
    requires forall j: nat :: j < 8 ==> TestBit(a, j) == TestBit(b, j)
    ensures a == b
  {
    assert TestBit(a, 0) == TestBit(b, 0) && TestBit(a, 1) == TestBit(b, 1) && TestBit(a, 2) == TestBit(b, 2)
        && TestBit(a, 3) == TestBit(b, 3);
    assert TestBit(a, 4) == TestBit(b, 4) && TestBit(a, 5) == TestBit(b, 5) && TestBit(a, 6) == TestBit(b, 6)
        && TestBit(a, 7) == TestBit(b, 7);
  }

  // ----- whole keys

  /** The byte holding bits `base`..`base + 7` of a key, of which only the first `n` are taken. */
  function ByteAt(bits: Key, base: nat, n: nat): (b: bv8)
    requires n <= 8
  {
    if n == 0 then 0
    else
      var rest := ByteAt(bits, base, n - 1);
      if base + n - 1 < |bits| && bits[base + n - 1] then rest | Mask(n - 1) else rest
  }

  function Packed(bits: Key): (bytes: Bytes)
    ensures |bytes| == (|bits| + 7) / 8
  {
    seq((|bits| + 7) / 8, i requires 0 <= i => ByteAt(bits, 8 * i, 8))
  }

  function BitOf(bits: Key, k: nat): (b: bool) {
    k < |bits| && bits[k]
  }

  lemma {:induction false} ByteAtTests(bits: Key, base: nat, n: nat, j: nat)
    requires n <= 8 && j < 8
    ensures TestBit(ByteAt(bits, base, n), j) == (j < n && BitOf(bits, base + j))
  {
    hide TestBit, Mask;
    if n == 0 {
      ZeroTests(j);
    } else {
      ByteAtTests(bits, base, n - 1, j);
      SetThenTest(ByteAt(bits, base, n - 1), j, n - 1);
    }
  }

  /** `decode`: the first `n` bits of packed bytes. */
  function Unpacked(bytes: Bytes, n: nat): (bits: Key)
    requires n <= 8 * |bytes|
    ensures |bits| == n
  {
    seq(n, k requires 0 <= k < n => TestBit(bytes[k / 8], k % 8))
  }

  lemma {:induction false} PackedTests(bits: Key, k: nat)
    requires k < 8 * |Packed(bits)|
    ensures TestBit(Packed(bits)[k / 8], k % 8) == BitOf(bits, k)
  {
    hide TestBit, ByteAt;
    ByteAtTests(bits, 8 * (k / 8), 8, k % 8);
  }

  /** Unpacking as many bits as were packed gives them back. */
  lemma {:induction false} PackRoundTrip(bits: Key)
    ensures |bits| <= 8 * |Packed(bits)| && Unpacked(Packed(bits), |bits|) == bits
  {
    hide TestBit, ByteAt;
    forall k | 0 <= k < |bits| ensures Unpacked(Packed(bits), |bits|)[k] == bits[k] {
      PackedTests(bits, k);
    }
  }

  /** Two keys pack to the same bytes exactly when they fill as many bytes and agree once padded with zero bits. */
  lemma {:induction false} PackedSameIff(a: Key, b: Key)
    ensures Packed(a) == Packed(b) <==> (|a| + 7) / 8 == (|b| + 7) / 8 && forall k: nat :: BitOf(a, k) == BitOf(b, k)
  {
    hide TestBit, ByteAt;
    if Packed(a) == Packed(b) {
      forall k: nat ensures BitOf(a, k) == BitOf(b, k) {
        if k < 8 * |Packed(a)| {
          PackedTests(a, k);
          PackedTests(b, k);
        }
      }
    }
    if (|a| + 7) / 8 == (|b| + 7) / 8 && forall k: nat :: BitOf(a, k) == BitOf(b, k) {
      forall i | 0 <= i < |Packed(a)| ensures Packed(a)[i] == Packed(b)[i] {
        forall j: nat | j < 8 ensures TestBit(Packed(a)[i], j) == TestBit(Packed(b)[i], j) {
          ByteAtTests(a, 8 * i, 8, j);
          ByteAtTests(b, 8 * i, 8, j);
        }
        ByteExt(Packed(a)[i], Packed(b)[i]);
      }
    }
  }

  /** On whole-byte keys packing is injective. */
  lemma {:induction false} PackedInjective(a: Key, b: Key)
    requires |a| % 8 == 0 && |b| % 8 == 0 && Packed(a) == Packed(b)
    ensures a == b
  {
    hide TestBit, ByteAt, Packed;
    PackRoundTrip(a);
    PackRoundTrip(b);
    PackedSameIff(a, b);
    assert |a| == |b|;
  }

  /** The byte holds the bits of the key from `base` on. */
  ghost predicate Shows(b: bv8, bits: Key, base: nat) {
    forall j: nat :: j < 8 ==> TestBit(b, j) == BitOf(bits, base + j)
  }

  lemma {:induction false} ShowsNext(b: bv8, bits: Key, k: nat, i: nat)
    requires k < |bits| && Shows(b, bits[..k], 8 * i)
    ensures Shows(if k / 8 == i && bits[k] then b | Mask(k % 8) else b, bits[..k + 1], 8 * i)
  {
    hide TestBit, Mask;
    var c := if k / 8 == i && bits[k] then b | Mask(k % 8) else b;
    forall j: nat | j < 8 ensures TestBit(c, j) == BitOf(bits[..k + 1], 8 * i + j) {
      SetThenTest(b, j, k % 8);
      assert 8 * i + j == k <==> i == k / 8 && j == k % 8;
    }
  }

  /** `pack`: set the bits one at a time in a zeroed buffer. */
  method Pack(bits: Key) returns (bytes: Bytes)
    ensures bytes == Packed(bits)
  {
    hide TestBit, Mask, Shows;
    var out := new bv8[(|bits| + 7) / 8](_ => 0);
    forall i: nat ensures Shows(0, bits[..0], 8 * i) { NothingShown(8 * i); }
    for k := 0 to |bits|
      invariant forall i :: 0 <= i < out.Length ==> Shows(out[i], bits[..k], 8 * i)
    {
      forall i | 0 <= i < out.Length
        ensures Shows(if k / 8 == i && bits[k] then out[i] | Mask(k % 8) else out[i], bits[..k + 1], 8 * i)
      {
        ShowsNext(out[i], bits, k, i);
      }
      if bits[k] {
        out[k / 8] := out[k / 8] | Mask(k % 8);
      }
    }
    bytes := out[..];
    assert bits[..|bits|] == bits;
    forall i | 0 <= i < |bytes| ensures bytes[i] == Packed(bits)[i] {
      ShownByte(bytes[i], bits, i);
    }
  }

  lemma {:induction false} NothingShown(base: nat)
    ensures Shows(0, [], base)
  {
    hide TestBit;
    forall j: nat | j < 8 ensures !TestBit(0, j) { ZeroTests(j); }
  }

  lemma {:induction false} ShownByte(b: bv8, bits: Key, i: nat)
    requires Shows(b, bits, 8 * i)
    ensures b == ByteAt(bits, 8 * i, 8)
  {
    hide TestBit, ByteAt;
    forall j: nat | j < 8 ensures TestBit(b, j) == TestBit(ByteAt(bits, 8 * i, 8), j) {
      ByteAtTests(bits, 8 * i, 8, j);
    }
    ByteExt(b, ByteAt(bits, 8 * i, 8));
  }
}

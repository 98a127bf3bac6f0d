/**
  OCB2 as its draft writes it: an equation for every block and for the tag, in terms of the cipher, the
  exclusive-or of bytes, doubling and numbers, without the recursion of the implementation.
 */
module Ocb2Equations {
  import opened Ocb2

  // ----- blocks as numbers

  function ByteNumber(x: bv8): nat {
    x as nat
  }

  /** The number a byte string is, its first byte being the most significant. */
  function Number(s: seq<bv8>): nat {
    if s == [] then 0 else 256 * Number(s[..|s| - 1]) + ByteNumber(s[|s| - 1])
  }

  lemma SameByte(x: bv8, y: bv8)
    requires ByteNumber(x) == ByteNumber(y)
    ensures x == y
  {
  }

  lemma ByteBound(x: bv8)
    ensures ByteNumber(x) < 256
  {
  }

  lemma DigitsApart(p: nat, x: nat, q: nat, y: nat)
    requires 256 * p + x == 256 * q + y && x < 256 && y < 256
    ensures p == q && x == y
  {
  }

  lemma {:induction false} NumberInjective(a: seq<bv8>, b: seq<bv8>)
    requires |a| == |b| && Number(a) == Number(b)
    ensures a == b
    decreases |a|
  {
    if a != [] {
      var front, front', x, y := a[..|a| - 1], b[..|b| - 1], a[|a| - 1], b[|b| - 1];
      ByteBound(x);
      ByteBound(y);
      DigitsApart(Number(front), ByteNumber(x), Number(front'), ByteNumber(y));
      SameByte(x, y);
      NumberInjective(front, front');
      LastApart(a);
      LastApart(b);
    }
  }

  lemma LastApart(s: seq<bv8>)
    requires s != []
    ensures s == s[..|s| - 1] + [s[|s| - 1]]
  {
  }

  lemma {:induction false} NumberOfZeros(s: seq<bv8>)
    requires forall i :: 0 <= i < |s| ==> s[i] == 0
    ensures Number(s) == 0
    decreases |s|
  {
    if s != [] {
      NumberOfZeros(s[..|s| - 1]);
    }
  }

  lemma OneUp(x: bv8)
    requires ByteNumber(x) < 255
    ensures ByteNumber(x + 1) == ByteNumber(x) + 1
  {
  }

  lemma {:induction false} LowByteIs(n: nat)
    requires n < 256
    ensures ByteNumber(LowByte(n)) == n
  {
    if n > 0 {
      LowByteIs(n - 1);
      OneUp(LowByte(n - 1));
    }
  }

  /** The length block is the length of the last block in bits, as a number. */
  lemma LengthIsInBits(n: nat)
    requires n <= 16
    ensures Number(LengthBlock(n)) == 8 * n
  {
    var s, x := LengthBlock(n), LowByte(8 * n);
    assert s[..15] == ZERO[..15] && s[15] == x;
    NumberOfZeros(s[..15]);
    LowByteIs(8 * n);
  }

  // ----- exclusive-or and doubling

  lemma XorAt(a: Block, b: Block, i: nat)
    requires i < 16
    ensures Xor(a, b)[i] == a[i] ^ b[i]
  {
  }

  /** An offset is doubled as often as is said. */
  lemma {:induction false} DoubledSteps(delta: Block, n: nat)
    ensures Doubled(delta, 0) == delta && Doubled(delta, n + 1) == Times2(Doubled(delta, n))
    decreases n
  {
    if n > 0 {
      DoubledSteps(Times2(delta), n - 1);
    }
  }

  // ----- the last block

  /** A message has so many blocks before its last one, which has 1 to 16 bytes, or none if the message is empty. */
  predicate BlocksBeforeLast(n: nat, m: nat) {
    if n == 0 then m == 0 else 16 * m < n <= 16 * m + 16
  }

  lemma {:induction false} SealedLast(c: Cipher, delta: Block, src: seq<bv8>, m: nat)
    requires BlocksBeforeLast(|src|, m)
    ensures Sealed(c, delta, src)[16 * m..] == Masked(c, Doubled(delta, m + 1), src[16 * m..])
    decreases m
  {
    var d := Times2(delta);
    if m == 0 {
      assert Doubled(delta, 1) == Doubled(d, 0) == d;
      assert src[0..] == src && Sealed(c, delta, src)[0..] == Sealed(c, delta, src);
    } else {
      SealedLast(c, d, src[16..], m - 1);
      assert Sealed(c, delta, src)[16..] == Sealed(c, d, src[16..]);
      assert Sealed(c, delta, src)[16 * m..] == Sealed(c, delta, src)[16..][16 * (m - 1)..];
      assert src[16 * m..] == src[16..][16 * (m - 1)..];
    }
  }

  lemma LengthBlockIs(length: Block, n: nat)
    requires n <= 16 && Number(length) == 8 * n
    ensures length == LengthBlock(n)
  {
    LengthIsInBits(n);
    NumberInjective(length, LengthBlock(n));
  }

  lemma XorPrefixAt(p: Block, last: seq<bv8>, rest: seq<bv8>, i: nat)
    requires i < |last| <= 16 && |last| + |rest| == 16
    ensures Xor(p, last + rest)[i] == last[i] ^ p[i]
  {
    XorAt(p, last + rest, i);
    assert (last + rest)[i] == last[i];
  }

  lemma MaskedAt(c: Cipher, d: Block, last: seq<bv8>, i: nat)
    requires i < |last| <= 16
    ensures Masked(c, d, last)[i] == last[i] ^ c.E(Xor(LengthBlock(|last|), d))[i]
  {
    var p := Pad(c, d, |last|);
    XorPrefixAt(p, last, p[|last|..], i);
  }

  /**
    The draft's equation for the last block, of any length: each byte is that of the message, exclusive-or
    that of E(length xor 2^(m+1) L), where length is the number of bits of the block and L is E(nonce).
   */
  lemma LastBlockEquation(c: Cipher, nonce: Block, src: seq<bv8>, m: nat, length: Block, i: nat)
    requires BlocksBeforeLast(|src|, m) && Number(length) == 8 * (|src| - 16 * m) && 16 * m + i < |src|
    ensures Ciphertext(c, nonce, src)[16 * m + i]
         == src[16 * m + i] ^ c.E(Xor(length, Doubled(c.E(nonce), m + 1)))[i]
  {
    SealedLast(c, c.E(nonce), src, m);
    LengthBlockIs(length, |src| - 16 * m);
    MaskedAt(c, Doubled(c.E(nonce), m + 1), src[16 * m..], i);
    assert Ciphertext(c, nonce, src)[16 * m + i] == Ciphertext(c, nonce, src)[16 * m..][i];
  }

  // ----- the tag

  /** The exclusive-or of the first m blocks of a message. */
  function SumOfBlocks(src: seq<bv8>, m: nat): Block
    requires 16 * m <= |src|
  {
    if m == 0 then ZERO else Xor(SumOfBlocks(src, m - 1), src[16 * (m - 1)..16 * m])
  }

  lemma SliceOfTail<X>(src: seq<X>, a: nat, b: nat)
    requires 16 <= a <= b <= |src|
    ensures src[a..b] == src[16..][a - 16..b - 16]
  {
    var s, r := src[a..b], src[16..][a - 16..b - 16];
    assert forall i :: 0 <= i < b - a ==> r[i] == src[16..][a - 16 + i] == src[a + i] == s[i];
  }

  lemma {:induction false} SumFromFront(src: seq<bv8>, m: nat)
    requires 0 < m && 16 * m <= |src|
    ensures SumOfBlocks(src, m) == Xor(src[..16], SumOfBlocks(src[16..], m - 1))
    decreases m
  {
    var first: Block := src[..16];
    if m == 1 {
      assert src[0..16] == first;
      XorZero(first);
      XorTwice(ZERO, first);
    } else {
      var rest: Block := src[16 * (m - 1)..16 * m];
      SumFromFront(src, m - 1);
      SliceOfTail(src, 16 * (m - 1), 16 * m);
      XorAssociative(first, SumOfBlocks(src[16..], m - 2), rest);
    }
  }

  lemma ChecksumStep(c: Cipher, delta: Block, src: seq<bv8>)
    requires |src| > 16
    ensures Checksum(c, delta, src) == Xor(src[..16], Checksum(c, Times2(delta), src[16..]))
    ensures LastOffset(delta, |src|) == LastOffset(Times2(delta), |src[16..]|)
  {
  }

  lemma {:induction false} ChecksumIsSum(c: Cipher, delta: Block, src: seq<bv8>, m: nat)
    requires BlocksBeforeLast(|src|, m)
    ensures Checksum(c, delta, src) == Xor(SumOfBlocks(src, m), Completed(c, Doubled(delta, m + 1), src[16 * m..]))
    ensures LastOffset(delta, |src|) == Doubled(delta, m + 1)
    decreases m
  {
    var d := Times2(delta);
    if m == 0 {
      assert Doubled(delta, 1) == Doubled(d, 0) == d;
      assert src[0..] == src;
      XorZero(Completed(c, d, src));
    } else {
      var first: Block, rest := src[..16], src[16..];
      ChecksumStep(c, delta, src);
      ChecksumIsSum(c, d, rest, m - 1);
      assert src[16 * m..] == rest[16 * (m - 1)..];
      SumFromFront(src, m);
      XorAssociative(first, SumOfBlocks(rest, m - 1), Completed(c, Doubled(delta, m + 1), src[16 * m..]));
    }
  }

  /**
    The draft's equation for the tag: E(3 * 2^(m+1) L xor the sum of the message's blocks), the last of them
    completed by the end of E(length xor 2^(m+1) L).
   */
  lemma TagEquation(c: Cipher, nonce: Block, src: seq<bv8>, m: nat, length: Block)
    requires BlocksBeforeLast(|src|, m) && Number(length) == 8 * (|src| - 16 * m)
    ensures var d, r := Doubled(c.E(nonce), m + 1), |src| - 16 * m;
            var last := src[16 * m..] + c.E(Xor(length, d))[r..];
            Tag(c, nonce, src) == c.E(Xor(Xor(Times2(d), d), Xor(SumOfBlocks(src, m), last)))
  {
    ChecksumIsSum(c, c.E(nonce), src, m);
    LengthBlockIs(length, |src| - 16 * m);
  }
}

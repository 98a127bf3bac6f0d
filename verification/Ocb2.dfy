/**
  OCB2 authenticated encryption over 16-byte blocks (draft-krovetz-ocb-00).

  The block cipher is a parameter: any permutation of the 16-byte blocks. The
  in-place loops of the implementation are methods over arrays; each is proved
  against a function on sequences, and the laws are proved about the functions.
 */
module Ocb2 {

  type Block = b: seq<bv8> | |b| == 16 witness [0, 0, 0, 0, 0, 0, 0, 0, 0, 0, 0, 0, 0, 0, 0, 0]

  /** A keyed block cipher: its encryption and decryption directions. */
  datatype Cipher = Cipher(E: Block -> Block, D: Block -> Block)

  ghost predicate Permutation(c: Cipher) {
    && (forall b: Block :: c.D(c.E(b)) == b)
    && (forall b: Block :: c.E(c.D(b)) == b)
  }

  const ZERO: Block := [0, 0, 0, 0, 0, 0, 0, 0, 0, 0, 0, 0, 0, 0, 0, 0]

  function Xor(a: Block, b: Block): Block {
    seq(16, i requires 0 <= i < 16 => a[i] ^ b[i])
  }

  /** Byte i of the doubled block. */
  function Times2At(b: Block, i: nat): bv8
    requires i < 16
  {
    if i < 15 then (b[i] << 1) | ((b[i + 1] >> 7) & 1)
    else (b[15] << 1) ^ (((b[0] >> 7) & 1) * 135)
  }

  function Times2(b: Block): Block {
    seq(16, i requires 0 <= i < 16 => Times2At(b, i))
  }

  function Times3(b: Block): Block {
    Xor(Times2(b), b)
  }

  // ----- the field GF(2^128)

  /** Bit j of a byte, bit 0 being the least significant. */
  predicate Bit(x: bv8, j: nat)
    requires j < 8
  {
    if j == 0 then x & 1 != 0
    else if j == 1 then x & 2 != 0
    else if j == 2 then x & 4 != 0
    else if j == 3 then x & 8 != 0
    else if j == 4 then x & 16 != 0
    else if j == 5 then x & 32 != 0
    else if j == 6 then x & 64 != 0
    else x & 128 != 0
  }

  /** The coefficient of x^e in the polynomial over GF(2) that the block names, its first bit naming x^127. */
  predicate Coefficient(b: Block, e: nat)
    requires e < 128
  {
    Bit(b[15 - e / 8], e % 8)
  }

  lemma ShiftedByte(x: bv8, next: bv8, j: nat)
    requires j < 8
    ensures Bit((x << 1) | ((next >> 7) & 1), j) == if j == 0 then Bit(next, 7) else Bit(x, j - 1)
  {
  }

  lemma ReducedByte(x: bv8, top: bv8, j: nat)
    requires j < 8
    ensures Bit((x << 1) ^ (((top >> 7) & 1) * 135), j)
        == ((j > 0 && Bit(x, j - 1)) != (Bit(top, 7) && j in {0, 1, 2, 7}))
  {
    assert (top >> 7) & 1 == if Bit(top, 7) then 1 else 0;
  }

  /**
    times2 multiplies by x modulo x^128 + x^7 + x^2 + x + 1: every coefficient moves up by one and the
    one that leaves at the top comes back at x^7, x^2, x and 1.
   */
  lemma Times2IsDoubling(b: Block, e: nat)
    requires e < 128
    ensures Coefficient(Times2(b), e)
        == ((e > 0 && Coefficient(b, e - 1)) != (Coefficient(b, 127) && e in {0, 1, 2, 7}))
  {
    var i, j := 15 - e / 8, e % 8;
    assert Times2(b)[i] == Times2At(b, i);
    if i < 15 {
      ShiftedByte(b[i], b[i + 1], j);
      assert j == 0 ==> (e - 1) / 8 == e / 8 - 1 && (e - 1) % 8 == 7;
    } else {
      ReducedByte(b[15], b[0], j);
    }
  }

  lemma Times2Linear(a: Block, b: Block)
    ensures Times2(Xor(a, b)) == Xor(Times2(a), Times2(b))
  {
    var l, r := Times2(Xor(a, b)), Xor(Times2(a), Times2(b));
    forall i | 0 <= i < 16 ensures l[i] == r[i] {
    }
  }

  lemma Rejoin(x: bv8, y: bv8)
    requires x << 1 == y << 1 && (x >> 7) & 1 == (y >> 7) & 1
    ensures x == y
  {
  }

  /** times2 loses nothing: distinct offsets stay distinct. */
  lemma Times2Injective(a: Block, b: Block)
    requires Times2(a) == Times2(b)
    ensures a == b
  {
    forall i | 0 <= i < 16 ensures a[i] == b[i] {
      assert Times2(a)[15] == Times2(b)[15] && Times2(a)[i] == Times2(b)[i];
      assert i > 0 ==> Times2(a)[i - 1] == Times2(b)[i - 1];
      Rejoin(a[i], b[i]);
    }
  }

  // ----- the mode as functions

  lemma XorZero(a: Block)
    ensures Xor(ZERO, a) == a
  {
  }

  lemma XorTwice(a: Block, b: Block)
    ensures Xor(a, Xor(a, b)) == b
    ensures Xor(Xor(b, a), a) == b
    ensures Xor(a, b) == Xor(b, a)
  {
  }

  lemma XorAssociative(a: Block, b: Block, c: Block)
    ensures Xor(Xor(a, b), c) == Xor(a, Xor(b, c))
  {
  }

  /** The low byte of a number, by counting up to it. */
  function LowByte(n: nat): bv8 {
    if n == 0 then 0 else LowByte(n - 1) + 1
  }

  /** The length in bits of the last, possibly short, block, as a big-endian block. */
  function LengthBlock(n: nat): Block
    requires n <= 16
  {
    ZERO[..15] + [LowByte(8 * n)]
  }

  function Pad(c: Cipher, delta: Block, n: nat): Block
    requires n <= 16
  {
    c.E(Xor(LengthBlock(n), delta))
  }

  /** The last block completed with bytes of the pad, as the checksum takes it. */
  function Completed(c: Cipher, delta: Block, last: seq<bv8>): Block
    requires |last| <= 16
  {
    last + Pad(c, delta, |last|)[|last|..]
  }

  function Masked(c: Cipher, delta: Block, last: seq<bv8>): seq<bv8>
    requires |last| <= 16
  {
    Xor(Pad(c, delta, |last|), Completed(c, delta, last))[..|last|]
  }

  /** The ciphertext of src when the offset before its first block is delta. */
  function Sealed(c: Cipher, delta: Block, src: seq<bv8>): (r: seq<bv8>)
    ensures |r| == |src|
    decreases |src|
  {
    var d := Times2(delta);
    if |src| <= 16 then Masked(c, d, src)
    else Xor(d, c.E(Xor(d, src[..16]))) + Sealed(c, d, src[16..])
  }

  /** The plaintext of ct when the offset before its first block is delta. */
  function Opened(c: Cipher, delta: Block, ct: seq<bv8>): (r: seq<bv8>)
    ensures |r| == |ct|
    decreases |ct|
  {
    var d := Times2(delta);
    if |ct| <= 16 then Masked(c, d, ct)
    else Xor(d, c.D(Xor(d, ct[..16]))) + Opened(c, d, ct[16..])
  }

  function Checksum(c: Cipher, delta: Block, src: seq<bv8>): Block
    decreases |src|
  {
    var d := Times2(delta);
    if |src| <= 16 then Completed(c, d, src)
    else Xor(src[..16], Checksum(c, d, src[16..]))
  }

  /** The offset of the last block of a message of n bytes. */
  function LastOffset(delta: Block, n: nat): Block
    decreases n
  {
    if n <= 16 then Times2(delta) else LastOffset(Times2(delta), n - 16)
  }

  function Ciphertext(c: Cipher, nonce: Block, src: seq<bv8>): seq<bv8> {
    Sealed(c, c.E(nonce), src)
  }

  function Plaintext(c: Cipher, nonce: Block, ct: seq<bv8>): seq<bv8> {
    Opened(c, c.E(nonce), ct)
  }

  function Tag(c: Cipher, nonce: Block, src: seq<bv8>): Block {
    c.E(Xor(Times3(LastOffset(c.E(nonce), |src|)), Checksum(c, c.E(nonce), src)))
  }

  /** Decryption's verdict: the tag recomputed from the plaintext, cut to the length of the one given. */
  predicate Accepts(c: Cipher, nonce: Block, ct: seq<bv8>, tag: seq<bv8>)
    requires |tag| <= 16
  {
    Tag(c, nonce, Plaintext(c, nonce, ct))[..|tag|] == tag
  }

  lemma MaskedTwice(c: Cipher, d: Block, last: seq<bv8>)
    requires |last| <= 16
    ensures Masked(c, d, Masked(c, d, last)) == last
  {
    var m := Masked(c, d, last);
    var p := Pad(c, d, |last|);
    forall i | 0 <= i < |last| ensures Masked(c, d, m)[i] == last[i] {
      assert m[i] == p[i] ^ last[i];
    }
  }

  lemma {:induction false} OpenedSealed(c: Cipher, delta: Block, src: seq<bv8>)
    requires Permutation(c)
    ensures Opened(c, delta, Sealed(c, delta, src)) == src
    decreases |src|
  {
    var d := Times2(delta);
    if |src| <= 16 {
      MaskedTwice(c, d, src);
    } else {
      var block: Block := src[..16];
      var ct := Sealed(c, delta, src);
      assert ct[..16] == Xor(d, c.E(Xor(d, block))) && ct[16..] == Sealed(c, d, src[16..]);
      XorTwice(d, c.E(Xor(d, block)));
      XorTwice(d, block);
      OpenedSealed(c, d, src[16..]);
    }
  }

  lemma {:induction false} SealedOpened(c: Cipher, delta: Block, ct: seq<bv8>)
    requires Permutation(c)
    ensures Sealed(c, delta, Opened(c, delta, ct)) == ct
    decreases |ct|
  {
    var d := Times2(delta);
    if |ct| <= 16 {
      MaskedTwice(c, d, ct);
    } else {
      var block: Block := ct[..16];
      var src := Opened(c, delta, ct);
      assert src[..16] == Xor(d, c.D(Xor(d, block))) && src[16..] == Opened(c, d, ct[16..]);
      XorTwice(d, c.D(Xor(d, block)));
      XorTwice(d, block);
      SealedOpened(c, d, ct[16..]);
    }
  }

  /** Round trip: any length, any nonce, any truncation of the tag. */
  lemma RoundTrip(c: Cipher, nonce: Block, src: seq<bv8>, t: nat)
    requires Permutation(c) && t <= 16
    ensures Plaintext(c, nonce, Ciphertext(c, nonce, src)) == src
    ensures Accepts(c, nonce, Ciphertext(c, nonce, src), Tag(c, nonce, src)[..t])
  {
    OpenedSealed(c, c.E(nonce), src);
  }

  /** Nothing else is accepted: a ciphertext and tag pass exactly when they are some message's own. */
  lemma AcceptsOnlySealed(c: Cipher, nonce: Block, ct: seq<bv8>, tag: seq<bv8>)
    requires Permutation(c) && |tag| <= 16
    ensures Accepts(c, nonce, ct, tag) <==>
            exists src :: Ciphertext(c, nonce, src) == ct && Tag(c, nonce, src)[..|tag|] == tag
  {
    SealedOpened(c, c.E(nonce), ct);
    assert Ciphertext(c, nonce, Plaintext(c, nonce, ct)) == ct;
    forall src | Ciphertext(c, nonce, src) == ct ensures src == Plaintext(c, nonce, ct) {
      OpenedSealed(c, c.E(nonce), src);
    }
  }

  /** The offset after n doublings. */
  function Doubled(delta: Block, n: nat): Block
    decreases n
  {
    if n == 0 then delta else Doubled(Times2(delta), n - 1)
  }

  /** The draft's block equation: block k, unless it is the last, is E(M[k] xor 2^k L) xor 2^k L. */
  lemma {:induction false} BlockEquation(c: Cipher, delta: Block, src: seq<bv8>, k: nat)
    requires 16 * k + 16 < |src|
    ensures Sealed(c, delta, src)[16 * k..16 * k + 16]
         == Xor(Doubled(delta, k + 1), c.E(Xor(Doubled(delta, k + 1), src[16 * k..16 * k + 16])))
    decreases k
  {
    var d := Times2(delta);
    var ct := Sealed(c, delta, src);
    if k == 0 {
      assert Doubled(delta, 1) == Doubled(d, 0) == d;
      assert ct[0..16] == Xor(d, c.E(Xor(d, src[..16])));
    } else {
      BlockEquation(c, d, src[16..], k - 1);
      assert ct[16..] == Sealed(c, d, src[16..]);
      assert ct[16 * k..16 * k + 16] == ct[16..][16 * (k - 1)..16 * (k - 1) + 16];
      assert src[16 * k..16 * k + 16] == src[16..][16 * (k - 1)..16 * (k - 1) + 16];
    }
  }

  // ----- the in-place implementation

  /** Doubles the block in place: each byte is overwritten after its neighbour below has read it. */
  method Times2InPlace(block: array<bv8>)
    requires block.Length == 16
    modifies block
    ensures block[..] == Times2(old(block[..]))
  {
    ghost var was: Block := block[..];
    var carry := (block[0] >> 7) & 1;
    for i := 0 to 15
      invariant forall k :: 0 <= k < i ==> block[k] == Times2At(was, k)
      invariant forall k :: i <= k < 16 ==> block[k] == was[k]
    {
      block[i] := (block[i] << 1) | ((block[i + 1] >> 7) & 1);
    }
    block[15] := (block[15] << 1) ^ (carry * 135);
  }

  /** Multiplies by x + 1 in place. */
  method Times3InPlace(block: array<bv8>)
    requires block.Length == 16
    modifies block
    ensures block[..] == Times3(old(block[..]))
  {
    ghost var was: Block := block[..];
    var carry := (block[0] >> 7) & 1;
    for i := 0 to 15
      invariant forall k :: 0 <= k < i ==> block[k] == Times2At(was, k) ^ was[k]
      invariant forall k :: i <= k < 16 ==> block[k] == was[k]
    {
      block[i] := block[i] ^ ((block[i] << 1) | ((block[i + 1] >> 7) & 1));
    }
    block[15] := block[15] ^ ((block[15] << 1) ^ (carry * 135));
  }

  /** Copies a sequence over the bytes of dst from an offset on. */
  method CopyInto(dst: array<bv8>, at: nat, src: seq<bv8>)
    requires at + |src| <= dst.Length
    modifies dst
    ensures dst[at..at + |src|] == src
    ensures dst[..at] == old(dst[..at]) && dst[at + |src|..] == old(dst[at + |src|..])
  {
    for i := 0 to |src|
      invariant forall k :: 0 <= k < i ==> dst[at + k] == src[k]
      invariant forall k :: 0 <= k < at || at + i <= k < dst.Length ==> dst[k] == old(dst[k])
    {
      dst[at + i] := src[i];
    }
  }

  method SetBlock(dst: array<bv8>, src: Block)
    requires dst.Length == 16
    modifies dst
    ensures dst[..] == src
  {
    CopyInto(dst, 0, src);
    assert dst[..] == dst[0..16];
  }

  /** Overwrites a block with the exclusive-or of two blocks, either of which may be its own old value. */
  method XorInto(dst: array<bv8>, a: Block, b: Block)
    requires dst.Length == 16
    modifies dst
    ensures dst[..] == Xor(a, b)
  {
    for i := 0 to 16
      invariant forall k :: 0 <= k < i ==> dst[k] == a[k] ^ b[k]
    {
      dst[i] := a[i] ^ b[i];
    }
  }

  /** One full block of encryption: doubles the offset, writes the block's ciphertext, sums the block. */
  method SealBlock(c: Cipher, delta: array<bv8>, tmp: array<bv8>, checksum: array<bv8>, dst: array<bv8>,
                   off: nat, block: Block)
    requires delta.Length == tmp.Length == checksum.Length == 16 && off + 16 <= dst.Length
    requires delta != tmp && delta != checksum && tmp != checksum && dst != delta && dst != tmp && dst != checksum
    modifies delta, tmp, checksum, dst
    ensures delta[..] == Times2(old(delta[..]))
    ensures dst[off..off + 16] == Xor(delta[..], c.E(Xor(delta[..], block)))
    ensures dst[..off] == old(dst[..off]) && dst[off + 16..] == old(dst[off + 16..])
    ensures checksum[..] == Xor(old(checksum[..]), block)
  {
    Times2InPlace(delta);
    XorInto(tmp, delta[..], block);
    SetBlock(tmp, c.E(tmp[..]));
    CopyInto(dst, off, Xor(delta[..], tmp[..]));
    XorInto(checksum, checksum[..], block);
  }

  /** One full block of decryption; the checksum is taken over the plaintext just written. */
  method OpenBlock(c: Cipher, delta: array<bv8>, tmp: array<bv8>, checksum: array<bv8>, plain: array<bv8>,
                   off: nat, block: Block)
    requires delta.Length == tmp.Length == checksum.Length == 16 && off + 16 <= plain.Length
    requires delta != tmp && delta != checksum && tmp != checksum
    requires plain != delta && plain != tmp && plain != checksum
    modifies delta, tmp, checksum, plain
    ensures delta[..] == Times2(old(delta[..]))
    ensures plain[off..off + 16] == Xor(delta[..], c.D(Xor(delta[..], block)))
    ensures plain[..off] == old(plain[..off]) && plain[off + 16..] == old(plain[off + 16..])
    ensures checksum[..] == Xor(old(checksum[..]), Xor(delta[..], c.D(Xor(delta[..], block))))
  {
    Times2InPlace(delta);
    XorInto(tmp, delta[..], block);
    SetBlock(tmp, c.D(tmp[..]));
    CopyInto(plain, off, Xor(delta[..], tmp[..]));
    XorInto(checksum, checksum[..], plain[off..off + 16]);
  }

  /** Doubles the offset and makes the pad of the last block. */
  method MakePad(c: Cipher, delta: array<bv8>, tmp: array<bv8>, pad: array<bv8>, remain: nat)
    requires delta.Length == tmp.Length == pad.Length == 16 && remain <= 16
    requires delta != tmp && delta != pad && tmp != pad
    modifies delta, tmp, pad
    ensures delta[..] == Times2(old(delta[..]))
    ensures pad[..] == Pad(c, delta[..], remain)
  {
    Times2InPlace(delta);
    SetBlock(tmp, LengthBlock(remain));
    XorInto(tmp, tmp[..], delta[..]);
    SetBlock(pad, c.E(tmp[..]));
  }

  /** Sums the completed last block and writes its ciphertext. */
  method SealLast(c: Cipher, delta: array<bv8>, tmp: array<bv8>, checksum: array<bv8>, dst: array<bv8>,
                  off: nat, last: seq<bv8>)
    requires delta.Length == tmp.Length == checksum.Length == 16 && |last| <= 16 && off + |last| <= dst.Length
    requires delta != tmp && delta != checksum && tmp != checksum && dst != delta && dst != tmp && dst != checksum
    modifies delta, tmp, checksum, dst
    ensures delta[..] == Times2(old(delta[..]))
    ensures checksum[..] == Xor(old(checksum[..]), Completed(c, delta[..], last))
    ensures dst[off..off + |last|] == Masked(c, delta[..], last)
    ensures dst[..off] == old(dst[..off]) && dst[off + |last|..] == old(dst[off + |last|..])
  {
    var pad := new bv8[16];
    MakePad(c, delta, tmp, pad, |last|);
    CopyInto(tmp, 0, last);
    CopyInto(tmp, |last|, pad[|last|..]);
    assert tmp[..] == Completed(c, delta[..], last);
    XorInto(checksum, checksum[..], tmp[..]);
    XorInto(tmp, pad[..], tmp[..]);
    CopyInto(dst, off, tmp[..|last|]);
  }

  lemma ZeroFilled(last: seq<bv8>, pad: Block)
    requires |last| <= 16
    ensures var n := |last|;
            var x := Xor(last + ZERO[n..], pad);
            x[..n] == Xor(pad, last + pad[n..])[..n] && x == x[..n] + pad[n..]
  {
    var n := |last|;
    var x, y := Xor(last + ZERO[n..], pad), Xor(pad, last + pad[n..]);
    forall i | 0 <= i < n ensures x[i] == y[i] {
      assert (last + ZERO[n..])[i] == last[i] == (last + pad[n..])[i];
    }
    forall i | n <= i < 16 ensures x[i] == pad[i] {
      assert (last + ZERO[n..])[i] == 0;
    }
  }

  /** Masking the zero-filled last block gives the plaintext completed by the pad. */
  lemma LastOpened(c: Cipher, delta: Block, last: seq<bv8>, pad: Block)
    requires |last| <= 16 && pad == Pad(c, delta, |last|)
    ensures Xor(last + ZERO[|last|..], pad)[..|last|] == Masked(c, delta, last)
    ensures Xor(last + ZERO[|last|..], pad) == Completed(c, delta, Masked(c, delta, last))
  {
    ZeroFilled(last, pad);
  }

  /** Recovers the last block by masking it, zero-filled, with the pad; sums it as encryption did. */
  method OpenLast(c: Cipher, delta: array<bv8>, tmp: array<bv8>, checksum: array<bv8>, plain: array<bv8>,
                  off: nat, last: seq<bv8>)
    requires delta.Length == tmp.Length == checksum.Length == 16 && |last| <= 16 && off + |last| <= plain.Length
    requires delta != tmp && delta != checksum && tmp != checksum
    requires plain != delta && plain != tmp && plain != checksum
    modifies delta, tmp, checksum, plain
    ensures delta[..] == Times2(old(delta[..]))
    ensures checksum[..] == Xor(old(checksum[..]), Completed(c, delta[..], Masked(c, delta[..], last)))
    ensures plain[off..off + |last|] == Masked(c, delta[..], last)
    ensures plain[..off] == old(plain[..off]) && plain[off + |last|..] == old(plain[off + |last|..])
  {
    var pad := new bv8[16];
    MakePad(c, delta, tmp, pad, |last|);
    SetBlock(tmp, ZERO);
    CopyInto(tmp, 0, last);
    assert tmp[..] == last + ZERO[|last|..];
    LastOpened(c, delta[..], last, pad[..]);
    XorInto(tmp, tmp[..], pad[..]);
    XorInto(checksum, checksum[..], tmp[..]);
    CopyInto(plain, off, tmp[..|last|]);
  }

  method FinalTag(c: Cipher, delta: array<bv8>, checksum: array<bv8>) returns (tag: Block)
    requires delta.Length == checksum.Length == 16 && delta != checksum
    modifies delta
    ensures tag == c.E(Xor(Times3(old(delta[..])), checksum[..]))
  {
    Times3InPlace(delta);
    var tmp := new bv8[16];
    XorInto(tmp, delta[..], checksum[..]);
    tag := c.E(tmp[..]);
  }

  /** What the encryption loop has done after off bytes: out is written, delta and sum are carried on. */
  ghost predicate Sealing(c: Cipher, start: Block, src: seq<bv8>, off: nat, delta: Block, sum: Block, out: seq<bv8>) {
    && off <= |src|
    && Sealed(c, start, src) == out + Sealed(c, delta, src[off..])
    && Checksum(c, start, src) == Xor(sum, Checksum(c, delta, src[off..]))
    && LastOffset(start, |src|) == LastOffset(delta, |src| - off)
  }

  lemma SealingStarts(c: Cipher, start: Block, src: seq<bv8>)
    ensures Sealing(c, start, src, 0, start, ZERO, [])
  {
    assert src[0..] == src;
    XorZero(Checksum(c, start, src));
  }

  lemma SealingSteps(c: Cipher, start: Block, src: seq<bv8>, off: nat, delta: Block, sum: Block, out: seq<bv8>)
    requires Sealing(c, start, src, off, delta, sum, out) && off + 16 < |src|
    ensures var d, block: Block := Times2(delta), src[off..off + 16];
            Sealing(c, start, src, off + 16, d, Xor(sum, block), out + Xor(d, c.E(Xor(d, block))))
  {
    var rest := src[off..];
    assert rest[..16] == src[off..off + 16] && rest[16..] == src[off + 16..];
    XorAssociative(sum, rest[..16], Checksum(c, Times2(delta), rest[16..]));
  }

  lemma SealingEnds(c: Cipher, start: Block, src: seq<bv8>, off: nat, delta: Block, sum: Block, out: seq<bv8>)
    requires Sealing(c, start, src, off, delta, sum, out) && |src| <= off + 16
    ensures var d := Times2(delta);
            && Sealed(c, start, src) == out + Masked(c, d, src[off..])
            && Checksum(c, start, src) == Xor(sum, Completed(c, d, src[off..]))
            && LastOffset(start, |src|) == d
  {
  }

  /** The loop over the blocks before the last, from a fresh offset and checksum. */
  method SealBlocks(c: Cipher, delta: array<bv8>, tmp: array<bv8>, checksum: array<bv8>, dst: array<bv8>,
                    src: seq<bv8>, ghost start: Block) returns (off: nat)
    requires delta.Length == tmp.Length == checksum.Length == 16 && |src| <= dst.Length
    requires delta != tmp && delta != checksum && tmp != checksum
    requires dst != delta && dst != tmp && dst != checksum
    requires delta[..] == start && checksum[..] == ZERO
    modifies delta, tmp, checksum, dst
    ensures off <= |src| <= off + 16
    ensures Sealing(c, start, src, off, delta[..], checksum[..], dst[..off])
    ensures dst[|src|..] == old(dst[|src|..])
  {
    off := 0;
    var remain := |src|;
    assert dst[..0] == [];
    SealingStarts(c, start, src);
    while remain > 16
      invariant 0 <= off && 0 <= remain && off + remain == |src|
      invariant Sealing(c, start, src, off, delta[..], checksum[..], dst[..off])
      invariant dst[|src|..] == old(dst[|src|..])
    {
      SealingSteps(c, start, src, off, delta[..], checksum[..], dst[..off]);
      SealBlock(c, delta, tmp, checksum, dst, off, src[off..off + 16]);
      remain := remain - 16;
      off := off + 16;
      assert dst[..off] == dst[..off - 16] + dst[off - 16..off];
    }
  }

  /**
    Encrypts src into dst and its tag, cut to the tag's length, into tag. As the copies of the original
    demand, dst is as long as src, or longer when the last block is full.
   */
  method Encrypt(c: Cipher, dst: array<bv8>, src: seq<bv8>, nonce: Block, tag: array<bv8>)
    requires dst.Length == |src| || (|src| > 0 && |src| % 16 == 0 && dst.Length > |src|)
    requires tag.Length <= 16 && tag != dst
    modifies dst, tag
    ensures dst[..|src|] == Ciphertext(c, nonce, src)
    ensures dst[|src|..] == old(dst[|src|..])
    ensures tag[..] == Tag(c, nonce, src)[..tag.Length]
  {
    ghost var start: Block := c.E(nonce);
    var delta, checksum, tmp := new bv8[16], new bv8[16](i => 0), new bv8[16];
    SetBlock(delta, c.E(nonce));
    assert checksum[..] == ZERO;
    var off := SealBlocks(c, delta, tmp, checksum, dst, src, start);
    SealingEnds(c, start, src, off, delta[..], checksum[..], dst[..off]);
    SealLast(c, delta, tmp, checksum, dst, off, src[off..]);
    assert dst[..|src|] == dst[..off] + dst[off..|src|];
    var full := FinalTag(c, delta, checksum);
    CopyInto(tag, 0, full[..tag.Length]);
    assert tag[..] == tag[0..tag.Length];
  }

  /** What the decryption loop has done after off bytes of the plaintext src. */
  ghost predicate Opening(c: Cipher, start: Block, ct: seq<bv8>, off: nat, delta: Block, sum: Block, out: seq<bv8>) {
    && off <= |ct|
    && Opened(c, start, ct) == out + Opened(c, delta, ct[off..])
    && Checksum(c, start, Opened(c, start, ct)) == Xor(sum, Checksum(c, delta, Opened(c, delta, ct[off..])))
    && LastOffset(start, |ct|) == LastOffset(delta, |ct| - off)
  }

  lemma OpeningStarts(c: Cipher, start: Block, ct: seq<bv8>)
    ensures Opening(c, start, ct, 0, start, ZERO, [])
  {
    assert ct[0..] == ct;
    XorZero(Checksum(c, start, Opened(c, start, ct)));
  }

  lemma OpeningSteps(c: Cipher, start: Block, ct: seq<bv8>, off: nat, delta: Block, sum: Block, out: seq<bv8>)
    requires Opening(c, start, ct, off, delta, sum, out) && off + 16 < |ct|
    ensures var d, block: Block := Times2(delta), ct[off..off + 16];
            var plain := Xor(d, c.D(Xor(d, block)));
            Opening(c, start, ct, off + 16, d, Xor(sum, plain), out + plain)
  {
    var d, rest := Times2(delta), ct[off..];
    assert rest[..16] == ct[off..off + 16] && rest[16..] == ct[off + 16..];
    var left := Opened(c, delta, rest);
    assert left[..16] == Xor(d, c.D(Xor(d, rest[..16]))) && left[16..] == Opened(c, d, rest[16..]);
    XorAssociative(sum, left[..16], Checksum(c, d, left[16..]));
  }

  lemma OpeningEnds(c: Cipher, start: Block, ct: seq<bv8>, off: nat, delta: Block, sum: Block, out: seq<bv8>)
    requires Opening(c, start, ct, off, delta, sum, out) && |ct| <= off + 16
    ensures var d := Times2(delta);
            && Opened(c, start, ct) == out + Masked(c, d, ct[off..])
            && Checksum(c, start, Opened(c, start, ct)) == Xor(sum, Completed(c, d, Masked(c, d, ct[off..])))
            && LastOffset(start, |ct|) == d
  {
  }

  /** The loop over the blocks before the last, from a fresh offset and checksum. */
  method OpenBlocks(c: Cipher, delta: array<bv8>, tmp: array<bv8>, checksum: array<bv8>, plain: array<bv8>,
                    encrypted: seq<bv8>, ghost start: Block) returns (off: nat)
    requires delta.Length == tmp.Length == checksum.Length == 16 && |encrypted| <= plain.Length
    requires delta != tmp && delta != checksum && tmp != checksum
    requires plain != delta && plain != tmp && plain != checksum
    requires delta[..] == start && checksum[..] == ZERO
    modifies delta, tmp, checksum, plain
    ensures off <= |encrypted| <= off + 16
    ensures Opening(c, start, encrypted, off, delta[..], checksum[..], plain[..off])
    ensures plain[|encrypted|..] == old(plain[|encrypted|..])
  {
    off := 0;
    var remain := |encrypted|;
    assert plain[..0] == [];
    OpeningStarts(c, start, encrypted);
    while remain > 16
      invariant 0 <= off && 0 <= remain && off + remain == |encrypted|
      invariant Opening(c, start, encrypted, off, delta[..], checksum[..], plain[..off])
      invariant plain[|encrypted|..] == old(plain[|encrypted|..])
    {
      OpeningSteps(c, start, encrypted, off, delta[..], checksum[..], plain[..off]);
      OpenBlock(c, delta, tmp, checksum, plain, off, encrypted[off..off + 16]);
      off := off + 16;
      remain := remain - 16;
      assert plain[..off] == plain[..off - 16] + plain[off - 16..off];
    }
  }

  /** Decrypts into plain, as long as the ciphertext or longer, and checks the possibly truncated tag. */
  method Decrypt(c: Cipher, plain: array<bv8>, encrypted: seq<bv8>, nonce: Block, tag: seq<bv8>) returns (ok: bool)
    requires plain.Length >= |encrypted| && |tag| <= 16
    modifies plain
    ensures plain[..|encrypted|] == Plaintext(c, nonce, encrypted)
    ensures plain[|encrypted|..] == old(plain[|encrypted|..])
    ensures ok == Accepts(c, nonce, encrypted, tag)
  {
    ghost var start: Block := c.E(nonce);
    var delta, checksum, tmp := new bv8[16], new bv8[16](i => 0), new bv8[16];
    SetBlock(delta, c.E(nonce));
    assert checksum[..] == ZERO;
    var off := OpenBlocks(c, delta, tmp, checksum, plain, encrypted, start);
    OpeningEnds(c, start, encrypted, off, delta[..], checksum[..], plain[..off]);
    OpenLast(c, delta, tmp, checksum, plain, off, encrypted[off..]);
    assert plain[..|encrypted|] == plain[..off] + plain[off..|encrypted|];
    var full := FinalTag(c, delta, checksum);
    ok := full[..|tag|] == tag;
  }
}

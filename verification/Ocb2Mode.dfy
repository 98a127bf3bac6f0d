/** OCB2 with a 16-byte nonce and a tag of three bytes, as the crypt state uses it. */
module Ocb2Mode {
  import opened Prelude
  import opened Counter
  import opened CryptState
  import Ocb2
  import Ocb2Equations

  function ToByte(x: bv8): byte {
    x as byte
  }

  /** The eight bits of a byte, by counting up to it. */
  function ToBits(x: byte): bv8 {
    if x == 0 then 0 else ToBits(x - 1) + 1
  }

  lemma OneUp(x: bv8)
    requires x as int < 255
    ensures (x + 1) as int == x as int + 1
  {
  }

  lemma {:induction false} ByteBits(x: byte)
    ensures ToByte(ToBits(x)) == x
    decreases x
  {
    if x > 0 {
      ByteBits(x - 1);
      OneUp(ToBits(x - 1));
    }
  }

  lemma SameBits(x: bv8, y: bv8)
    requires x as int == y as int
    ensures x == y
  {
  }

  lemma BitsByte(x: bv8)
    ensures ToBits(ToByte(x)) == x
  {
    ByteBits(ToByte(x));
    SameBits(ToBits(ToByte(x)), x);
  }

  function Bits(s: seq<byte>): (r: seq<bv8>)
    ensures |r| == |s| && forall i :: 0 <= i < |s| ==> r[i] == ToBits(s[i])
  {
    seq(|s|, i requires 0 <= i < |s| => ToBits(s[i]))
  }

  function Bytes(s: seq<bv8>): (r: seq<byte>)
    ensures |r| == |s| && forall i :: 0 <= i < |s| ==> r[i] == ToByte(s[i])
  {
    seq(|s|, i requires 0 <= i < |s| => ToByte(s[i]))
  }

  lemma BytesOfBits(s: seq<byte>)
    ensures Bytes(Bits(s)) == s
  {
    forall i | 0 <= i < |s| ensures Bytes(Bits(s))[i] == s[i] {
      ByteBits(s[i]);
    }
  }

  lemma BitsOfBytes(s: seq<bv8>)
    ensures Bits(Bytes(s)) == s
  {
    forall i | 0 <= i < |s| ensures Bits(Bytes(s))[i] == s[i] {
      BitsByte(s[i]);
    }
  }

  /** The tag in front, then the ciphertext. */
  function Seal(c: Ocb2.Cipher, nonce: seq<byte>, plain: seq<byte>): seq<byte> {
    if |nonce| != 16 then []
    else Bytes(Ocb2.Tag(c, Bits(nonce), Bits(plain))[..3] + Ocb2.Ciphertext(c, Bits(nonce), Bits(plain)))
  }

  function Open(c: Ocb2.Cipher, nonce: seq<byte>, body: seq<byte>): Option<seq<byte>> {
    if |nonce| != 16 || |body| <= 3 then None
    else if Ocb2.Accepts(c, Bits(nonce), Bits(body)[3..], Bits(body)[..3]) then
      Some(Bytes(Ocb2.Plaintext(c, Bits(nonce), Bits(body)[3..])))
    else None
  }

  function ModeOf(c: Ocb2.Cipher): Mode {
    Mode(16, 3, (n, p) => Seal(c, n, p), (n, b) => Open(c, n, b))
  }

  /** The bits of a byte are those of the number it is. */
  lemma SameNumber(s: seq<byte>, i: nat)
    requires i < |s|
    ensures Ocb2Equations.ByteNumber(Bits(s)[i]) == s[i]
  {
    ByteBits(s[i]);
  }

  /** On the wire: three bytes of the tag, then the ciphertext. Nonces have 16 bytes. */
  lemma SealLayout(c: Ocb2.Cipher, nonce: seq<byte>, plain: seq<byte>)
    requires |nonce| == 16
    ensures ModeOf(c).nonceSize == 16 && ModeOf(c).overhead == 3
    ensures var body := ModeOf(c).encrypt(nonce, plain);
            && |body| == 3 + |plain|
            && Bits(body[..3]) == Ocb2.Tag(c, Bits(nonce), Bits(plain))[..3]
            && Bits(body[3..]) == Ocb2.Ciphertext(c, Bits(nonce), Bits(plain))
  {
    var tag, ct := Ocb2.Tag(c, Bits(nonce), Bits(plain))[..3], Ocb2.Ciphertext(c, Bits(nonce), Bits(plain));
    var body := Seal(c, nonce, plain);
    BitsOfBytes(tag + ct);
    assert Bits(body) == tag + ct;
    assert Bits(body[..3]) == Bits(body)[..3] && Bits(body[3..]) == Bits(body)[3..];
  }

  lemma OpensSealed(c: Ocb2.Cipher, nonce: seq<byte>, plain: seq<byte>)
    requires Ocb2.Permutation(c) && |nonce| == 16 && |plain| > 0
    ensures |Seal(c, nonce, plain)| == |plain| + 3
    ensures Open(c, nonce, Seal(c, nonce, plain)) == Some(plain)
  {
    var n: Ocb2.Block, p := Bits(nonce), Bits(plain);
    var tag, ct := Ocb2.Tag(c, n, p)[..3], Ocb2.Ciphertext(c, n, p);
    BitsOfBytes(tag + ct);
    assert (tag + ct)[..3] == tag && (tag + ct)[3..] == ct;
    Ocb2.RoundTrip(c, n, p, 3);
    BytesOfBits(plain);
  }

  /** Nothing opens but what was sealed, and as nothing but what was sealed. */
  lemma OpensOnlySealed(c: Ocb2.Cipher, nonce: seq<byte>, body: seq<byte>, plain: seq<byte>)
    requires Ocb2.Permutation(c)
    ensures Open(c, nonce, body) == Some(plain) <==> |nonce| == 16 && |body| > 3 && body == Seal(c, nonce, plain)
  {
    if |nonce| == 16 && |body| > 3 {
      if body == Seal(c, nonce, plain) {
        OpensSealed(c, nonce, plain);
      }
      if Open(c, nonce, body) == Some(plain) {
        SealsOpened(c, nonce, body, plain);
      }
    }
  }

  lemma SealsOpened(c: Ocb2.Cipher, nonce: seq<byte>, body: seq<byte>, plain: seq<byte>)
    requires Ocb2.Permutation(c) && |nonce| == 16 && |body| > 3 && Open(c, nonce, body) == Some(plain)
    ensures body == Seal(c, nonce, plain)
  {
    var n: Ocb2.Block, tag, ct := Bits(nonce), Bits(body)[..3], Bits(body)[3..];
    Ocb2.AcceptsOnlySealed(c, n, ct, tag);
    Ocb2.SealedOpened(c, c.E(n), ct);
    BitsOfBytes(Ocb2.Plaintext(c, n, ct));
    assert tag + ct == Bits(body);
    BytesOfBits(body);
  }

  /** OCB2 over any block permutation keeps the promise the crypt state relies on. */
  lemma Ocb2IsLawful(c: Ocb2.Cipher)
    requires Ocb2.Permutation(c)
    ensures Lawful(ModeOf(c))
  {
    var m := ModeOf(c);
    forall n, p | |n| == 16 && |p| > 0
      ensures |m.encrypt(n, p)| == |p| + 3 && m.decrypt(n, m.encrypt(n, p)) == Some(p)
    {
      OpensSealed(c, n, p);
    }
  }

  /** Two peers over OCB2, sharing a key and a first nonce, understand each other packet after packet. */
  lemma PeersOverOcb2(c: Ocb2.Cipher, sender: Peer, receiver: Peer, plains: seq<seq<byte>>)
    requires Ocb2.Permutation(c) && Fits(ModeOf(c), sender) && Fits(ModeOf(c), receiver)
    requires sender.encryptIV == receiver.decryptIV && receiver.good < UINT32
    requires forall p :: p in plains ==> |p| > 0
    ensures var (outcomes, s, r) := Converse(ModeOf(c), sender, receiver, plains);
            && (forall i :: 0 <= i < |plains| ==> outcomes[i] == Decrypted(plains[i]))
            && s.encryptIV == r.decryptIV
  {
    Ocb2IsLawful(c);
    PeersStayInSync(ModeOf(c), sender, receiver, plains);
  }
}

/**
  The crypt state as the object the server keeps for each client: nonces and history are buffers updated
  in place, and a nonce that turns out wrong is put back from a saved copy.
 */
module CryptEndpoint {
  import opened Counter
  import opened CryptState

  lemma {:induction false} IncrementAt(s: seq<byte>, j: nat, k: nat)
    requires j <= |s| && k < |s|
    requires (forall i :: 0 <= i < j ==> s[i] == 255) && (j < |s| ==> s[j] != 255)
    ensures Increment(s)[k] == if k < j then 0 else if k == j then s[j] + 1 else s[k]
    decreases k
  {
    if j > 0 && k > 0 {
      IncrementAt(s[1..], j - 1, k - 1);
    }
  }

  lemma {:induction false} CodeBorrowAt(s: seq<byte>, j: nat, k: nat)
    requires j <= |s| && k < |s|
    requires (forall i :: 0 <= i < j ==> s[i] == 1) && (j < |s| ==> s[j] != 1)
    ensures CodeBorrow(s)[k] == if k < j then 0 else if k > j then s[k] else if s[k] == 0 then 255 else s[k] - 1
    decreases k
  {
    if j > 0 && k > 0 {
      CodeBorrowAt(s[1..], j - 1, k - 1);
    }
  }

  /** Adds one to the counter in iv[from..], carrying past bytes that wrap to zero. */
  method CarryUp(iv: array<byte>, from: nat)
    requires from <= iv.Length
    modifies iv
    ensures iv[..from] == old(iv[..from]) && iv[from..] == Increment(old(iv[from..]))
  {
    ghost var was := iv[from..];
    var i := from;
    while i < iv.Length
      invariant from <= i <= iv.Length
      invariant forall k :: from <= k < i ==> old(iv[k]) == 255 && iv[k] == 0
      invariant forall k :: 0 <= k < from || i <= k < iv.Length ==> iv[k] == old(iv[k])
    {
      iv[i] := if iv[i] == 255 then 0 else iv[i] + 1;
      if iv[i] > 0 {
        break;
      }
      i := i + 1;
    }
    forall k | 0 <= k < |was| ensures iv[from + k] == Increment(was)[k] {
      IncrementAt(was, i - from, k);
    }
  }

  /** Takes one from the counter in iv[from..]; stops after the first byte that is not zero afterwards. */
  method BorrowDown(iv: array<byte>, from: nat)
    requires from <= iv.Length
    modifies iv
    ensures iv[..from] == old(iv[..from]) && iv[from..] == CodeBorrow(old(iv[from..]))
  {
    ghost var was := iv[from..];
    var i := from;
    while i < iv.Length
      invariant from <= i <= iv.Length
      invariant forall k :: from <= k < i ==> old(iv[k]) == 1 && iv[k] == 0
      invariant forall k :: 0 <= k < from || i <= k < iv.Length ==> iv[k] == old(iv[k])
    {
      iv[i] := if iv[i] == 0 then 255 else iv[i] - 1;
      if iv[i] > 0 {
        break;
      }
      i := i + 1;
    }
    forall k | 0 <= k < |was| ensures iv[from + k] == CodeBorrow(was)[k] {
      CodeBorrowAt(was, i - from, k);
    }
  }

  method Copy(src: array<byte>) returns (dst: array<byte>)
    ensures fresh(dst) && dst[..] == src[..]
  {
    dst := new byte[src.Length];
    for i := 0 to src.Length
      invariant dst[..i] == src[..i]
    {
      dst[i] := src[i];
    }
  }

  class Endpoint {
    const mode: Mode
    var encryptIV: array<byte>
    var decryptIV: array<byte>
    var decryptHistory: array<byte>
    var good: nat
    var late: nat
    var lost: nat

    ghost predicate Valid()
      reads this
    {
      && encryptIV.Length == decryptIV.Length == mode.nonceSize && mode.nonceSize >= 3
      && decryptHistory.Length == 256
      && encryptIV != decryptIV && encryptIV != decryptHistory && decryptIV != decryptHistory
    }

    ghost function View(): (s: Peer)
      requires Valid()
      reads this, encryptIV, decryptIV, decryptHistory
      ensures Fits(mode, s)
    {
      Peer(encryptIV[..], decryptIV[..], decryptHistory[..], good, late, lost)
    }

    constructor (mode: Mode, encryptIV: array<byte>, decryptIV: array<byte>)
      requires encryptIV.Length == decryptIV.Length == mode.nonceSize && mode.nonceSize >= 3 && encryptIV != decryptIV
      ensures Valid() && this.mode == mode && fresh(decryptHistory)
      ensures this.encryptIV == encryptIV && this.decryptIV == decryptIV
      ensures View() == Peer(encryptIV[..], decryptIV[..], seq(256, i => 0), 0, 0, 0)
    {
      this.mode, this.encryptIV, this.decryptIV := mode, encryptIV, decryptIV;
      decryptHistory := new byte[256](i => 0);
      good, late, lost := 0, 0, 0;
    }

    /** Steps the nonce and writes its low byte, the tag and the ciphertext. Empty plaintexts panic. */
    method Encrypt(src: seq<byte>) returns (dst: seq<byte>)
      requires Valid() && |src| > 0
      modifies encryptIV
      ensures Valid()
      ensures (dst, View()) == Send(mode, old(View()), src)
    {
      CarryUp(encryptIV, 0);
      assert encryptIV[..] == encryptIV[0..] && old(encryptIV[0..]) == old(encryptIV[..]);
      dst := [encryptIV[0]] + mode.encrypt(encryptIV[..], src);
    }

    /**
      Guesses the nonce, in place, from the byte on the wire. Answers whether a branch matched, whether
      the packet came in order, whether the old nonce is to be restored, and the packets lost.
     */
    method Guess(ivbyte: byte) returns (matched: bool, inOrder: bool, restore: bool, skipped: nat)
      requires Valid()
      modifies decryptIV
      ensures Valid()
      ensures var g := Reconstruct(old(decryptIV[..]), ivbyte);
              && matched == !g.NoMatch? && (matched ==> inOrder == g.Next? && restore == g.Late?)
              && decryptIV[..] == (if matched then g.iv else old(decryptIV[..]))
              && skipped == (if g.Ahead? then g.lost else 0)
    {
      ghost var was := decryptIV[..];
      assert was[1..] == decryptIV[1..];
      var last := decryptIV[0];
      matched, inOrder, restore, skipped := true, false, false, 0;
      if (last as int + 1) % 256 == ivbyte {
        inOrder := true;
        decryptIV[0] := ivbyte;
        if ivbyte < last {
          CarryUp(decryptIV, 1);
        }
      } else {
        var diff := (ivbyte as int - last) % 256;
        if diff > 128 {
          diff := diff - 256;
        }
        if ivbyte < last && -30 < diff < 0 {
          decryptIV[0] := ivbyte;
          restore := true;
        } else if ivbyte > last && -30 < diff < 0 {
          decryptIV[0] := ivbyte;
          BorrowDown(decryptIV, 1);
          restore := true;
        } else if ivbyte > last && diff > 0 {
          skipped := ivbyte - last - 1;
          decryptIV[0] := ivbyte;
        } else if ivbyte < last && diff > 0 {
          skipped := 256 - last + ivbyte - 1;
          decryptIV[0] := ivbyte;
          CarryUp(decryptIV, 1);
        } else {
          matched := false;
        }
      }
      assert decryptIV[..] == [decryptIV[0]] + decryptIV[1..];
    }

    /**
      Decrypts a packet for a buffer of the given size. Any error leaves nonces, history and counters as
      they were, whatever the branches did to the nonce buffer in between.
     */
    method Decrypt(space: nat, src: seq<byte>) returns (outcome: Outcome)
      requires Valid()
      modifies this`decryptIV, this`good, this`late, this`lost, decryptIV, decryptHistory
      ensures Valid() && (decryptIV == old(decryptIV) || fresh(decryptIV))
      ensures (outcome, View()) == Receive(mode, old(View()), src, space)
      ensures !outcome.Decrypted? && !outcome.Panicked? ==> View() == old(View())
    {
      if |src| < 1 + mode.overhead {
        return TooShort;
      }
      if space < |src| - (1 + mode.overhead) {
        return NoSpace;
      }
      var saved := Copy(decryptIV);
      var matched, inOrder, restore, skipped := Guess(src[0]);
      if !matched {
        return NoMatchingByte;
      }
      if !inOrder && decryptHistory[decryptIV[0]] == decryptIV[1] {
        decryptIV := saved;
      }
      if |src| - 1 <= mode.overhead {
        return Panicked;
      }
      match mode.decrypt(decryptIV[..], src[1..]) {
        case None =>
          decryptIV := saved;
          return TagMismatch;
        case Some(plain) =>
          decryptHistory[decryptIV[0]] := decryptIV[1];
          if restore {
            decryptIV := saved;
          }
          good := Counted(good, 1);
          if restore {
            late := Counted(late, 1);
          }
          lost := if restore then 1 else skipped;
          return Decrypted(plain);
      }
    }
  }
}

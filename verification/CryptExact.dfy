/** What sending and receiving do, exactly and by cases, and what the caller gets over whole runs. */
module CryptExact {
  import opened Prelude
  import opened Counter
  import opened CryptState

  /** The distance is the difference of the bytes, modulo 256. */
  lemma DistanceIs(last: byte, b: byte)
    ensures Distance(last, b) == (b as int - last) % 256
  {
  }

  /** A sender at counter v makes a packet of the low byte of v + 1 and what the mode encrypts under it. */
  lemma SendExact(m: Mode, s: Peer, v: int, plain: seq<byte>)
    requires Fits(m, s) && s.encryptIV == At(v, m.nonceSize)
    ensures Send(m, s, plain)
         == ([(v + 1) % 256] + m.encrypt(At(v + 1, m.nonceSize), plain), s.(encryptIV := At(v + 1, m.nonceSize)))
  {
    AtIncrement(v, m.nonceSize);
  }

  // ----- receiving

  /** What is received if a nonce is tried: a mismatch, or the plaintext and the statistics. */
  function Tried(m: Mode, s: Peer, body: seq<byte>, nonce: seq<byte>, held: seq<byte>, late: bool, lost: nat)
    : (Outcome, Peer)
    requires |nonce| >= 2 && |s.history| == 256
  {
    match m.decrypt(nonce, body)
    case None => (TagMismatch, s)
    case Some(p) =>
      (Decrypted(p), s.(decryptIV := held, history := s.history[nonce[0] := nonce[1]],
                        good := (s.good + 1) % 0x1_0000_0000,
                        late := if late then (s.late + 1) % 0x1_0000_0000 else s.late, lost := lost))
  }

  /** The nonce is in the history: its slot holds its second byte. */
  predicate InHistory(s: Peer, nonce: seq<byte>)
    requires |nonce| >= 2 && |s.history| == 256
  {
    s.history[nonce[0]] == nonce[1]
  }

  lemma AttemptIs(m: Mode, s: Peer, iv: seq<byte>, body: seq<byte>, late: bool, lost: nat)
    requires Fits(m, s) && |iv| == m.nonceSize && |body| > m.overhead
    ensures Attempt(m, s, iv, body, late, lost)
         == Tried(m, s, body, iv, if late then s.decryptIV else iv, late, if late then 1 else lost)
  {
  }

  /**
    A packet d ahead of the receiver's counter v, d up to 128. The counter v + d is tried, or v again if it
    is not the next one and is in the history. If the mode decrypts the packet under the one tried, the
    caller gets exactly that plaintext, the counter stays there, and d - 1 packets are lost.
   */
  lemma ReceiveAhead(m: Mode, s: Peer, v: int, b: byte, body: seq<byte>, space: nat, d: int)
    requires Fits(m, s) && s.decryptIV == At(v, m.nonceSize) && |body| > m.overhead && space + m.overhead >= |body|
    requires d == (b - v) % 256 && 1 <= d <= 128
    ensures var w := At(v + d, m.nonceSize);
            var tried := if d != 1 && InHistory(s, w) then At(v, m.nonceSize) else w;
            Receive(m, s, [b] + body, space) == Tried(m, s, body, tried, tried, false, d - 1)
  {
    var n := m.nonceSize;
    var w := At(v + d, n);
    var tried := if d != 1 && InHistory(s, w) then At(v, n) else w;
    assert ([b] + body)[1..] == body;
    LowOf(v, n, b, d);
    GuessedAhead(v, n, b);
    AttemptIs(m, s, tried, body, false, d - 1);
  }

  lemma LowOf(v: int, n: nat, b: byte, d: int)
    requires n >= 1 && d == (b - v) % 256
    ensures At(v, n)[0] == v % 256 && Distance(v % 256, b) == d
  {
    DistanceIs(v % 256, b);
    SameDifference(b, v);
  }

  lemma SameDifference(b: int, v: int)
    ensures (b - v) % 256 == (b - v % 256) % 256
  {
    ModUnique(b - v, 256, (b - v % 256) / 256 - v / 256, (b - v % 256) % 256);
  }

  /**
    A packet e behind, e up to 29. The nonce rebuilt is tried, or the one held if that is in the history. If
    the packet decrypts, the caller gets exactly that plaintext, the counter stays where it was, the packet
    counts as late, and one as lost.
   */
  lemma ReceiveLate(m: Mode, s: Peer, b: byte, body: seq<byte>, space: nat, e: int)
    requires Fits(m, s) && |body| > m.overhead && space + m.overhead >= |body|
    requires e == (s.decryptIV[0] as int - b) % 256 && 1 <= e <= 29
    ensures var w := [b] + if b < s.decryptIV[0] then s.decryptIV[1..] else CodeBorrow(s.decryptIV[1..]);
            var tried := if InHistory(s, w) then s.decryptIV else w;
            Receive(m, s, [b] + body, space) == Tried(m, s, body, tried, s.decryptIV, true, 1)
  {
    var w := [b] + if b < s.decryptIV[0] then s.decryptIV[1..] else CodeBorrow(s.decryptIV[1..]);
    var tried := if InHistory(s, w) then s.decryptIV else w;
    assert ([b] + body)[1..] == body;
    DistanceIs(s.decryptIV[0], b);
    AttemptIs(m, s, tried, body, true, 0);
  }

  /** What is refused before anything is tried: packets too short or too big for the buffer, and bytes out of reach. */
  lemma ReceiveRefused(m: Mode, s: Peer, packet: seq<byte>, space: nat)
    requires Fits(m, s)
    ensures |packet| < 1 + m.overhead <==> Receive(m, s, packet, space) == (TooShort, s)
    ensures |packet| >= 1 + m.overhead ==>
              (space < |packet| - 1 - m.overhead <==> Receive(m, s, packet, space) == (NoSpace, s))
    ensures |packet| >= 1 + m.overhead && space >= |packet| - 1 - m.overhead ==>
              var d := (packet[0] as int - s.decryptIV[0]) % 256;
              (d == 0 || 128 < d < 227 <==> Receive(m, s, packet, space) == (NoMatchingByte, s))
  {
    if |packet| >= 1 {
      DistanceIs(s.decryptIV[0], packet[0]);
      TryAnswers(m, s, Reconstruct(s.decryptIV, packet[0]), packet[1..]);
    }
  }

  lemma TryAnswers(m: Mode, s: Peer, g: Guess, body: seq<byte>)
    requires Fits(m, s) && (!g.NoMatch? ==> |g.iv| == m.nonceSize)
    ensures var o := Try(m, s, g, body).0; !o.TooShort? && !o.NoSpace? && (o.NoMatchingByte? <==> g.NoMatch?)
    ensures g.NoMatch? ==> Try(m, s, g, body) == (NoMatchingByte, s)
  {
  }

  /** A packet that carries no ciphertext, its byte within reach, is the mode's to panic on, the nonce being edited. */
  lemma ReceiveEmpty(m: Mode, s: Peer, packet: seq<byte>, space: nat)
    requires Fits(m, s) && |packet| == 1 + m.overhead
    ensures var d := (packet[0] as int - s.decryptIV[0]) % 256;
            var (o, t) := Receive(m, s, packet, space);
            && o == (if d == 0 || 128 < d < 227 then NoMatchingByte else Panicked)
            && t == s.(decryptIV := t.decryptIV) && (d == 1 ==> t.decryptIV[0] == packet[0])
  {
    DistanceIs(s.decryptIV[0], packet[0]);
  }

  // ----- over whole runs

  /** Under an ideal mode, whatever is accepted is what the packet decrypts to under its own nonce. */
  lemma AcceptedIsOwn(m: Mode, s: Peer, n: seq<byte>, body: seq<byte>)
    requires Fits(m, s) && |n| == m.nonceSize && |body| > m.overhead
    requires forall w :: |w| == m.nonceSize && m.decrypt(w, body).Some? ==> w == n
    ensures var p := [n[0]] + body;
            var o := Receive(m, s, p, |p|).0;
            o.Decrypted? ==> m.decrypt(n, body) == Some(o.plain)
  {
    assert ([n[0]] + body)[1..] == body;
  }

  /** An outcome yields what the packet decrypts to under its own nonce, if it yields anything. */
  ghost predicate YieldsOwn(m: Mode, x: Sender, o: Outcome, k: int) {
    o.Decrypted? ==> m.decrypt(x.nonce(k), x.body(k)) == Some(o.plain)
  }

  ghost predicate AllYieldOwn(m: Mode, x: Sender, outcomes: seq<Outcome>, arrivals: seq<nat>) {
    && |outcomes| == |arrivals|
    && forall i :: 0 <= i < |arrivals| ==> YieldsOwn(m, x, outcomes[i], arrivals[i])
  }

  lemma YieldsOneMore(m: Mode, x: Sender, outcomes: seq<Outcome>, front: seq<nat>, o: Outcome, k: nat)
    requires AllYieldOwn(m, x, outcomes, front) && YieldsOwn(m, x, o, k)
    ensures AllYieldOwn(m, x, outcomes + [o], front + [k])
  {
  }

  lemma LastYieldsOwn(m: Mode, x: Sender, s: Peer, front: seq<nat>, k: nat, before: seq<Outcome>, t: Peer)
    returns (o: Outcome)
    requires Authentic(m, x) && Fits(m, s) && 1 <= k <= x.count && Feed(m, s, Packets(x, front)) == (before, t)
    ensures Feed(m, s, Packets(x, front + [k])).0 == before + [o] && YieldsOwn(m, x, o, k)
  {
    var p := [x.nonce(k)[0]] + x.body(k);
    FeedOneMore(m, s, x, front, k, t);
    o := Receive(m, t, p, |p|).0;
    AcceptedIsOwn(m, t, x.nonce(k), x.body(k));
  }

  /** Every arrival accepted, in whatever order and after whatever else, yields the plaintext of that arrival. */
  lemma {:induction false} AcceptedYieldsOwn(m: Mode, x: Sender, s: Peer, arrivals: seq<nat>)
    requires Authentic(m, x) && AllSent(x, arrivals) && Fits(m, s)
    ensures AllYieldOwn(m, x, Feed(m, s, Packets(x, arrivals)).0, arrivals)
    decreases |arrivals|
  {
    if arrivals != [] {
      var front, k := arrivals[..|arrivals| - 1], arrivals[|arrivals| - 1];
      assert front + [k] == arrivals;
      AcceptedYieldsOwn(m, x, s, front);
      var (before, t) := Feed(m, s, Packets(x, front));
      var o := LastYieldsOwn(m, x, s, front, k, before, t);
      YieldsOneMore(m, x, before, front, o, k);
    }
  }

  /** So with a lawful mode the caller gets what was sent, packet by packet. */
  lemma AcceptedYieldsSent(m: Mode, x: Sender, sent: int -> seq<byte>, s: Peer, arrivals: seq<nat>, i: nat)
    requires Lawful(m) && Authentic(m, x) && AllSent(x, arrivals) && Fits(m, s) && i < |arrivals|
    requires forall k :: 1 <= k <= x.count ==> |sent(k)| > 0 && x.body(k) == m.encrypt(x.nonce(k), sent(k))
    ensures var o := Feed(m, s, Packets(x, arrivals)).0[i];
            o.Decrypted? ==> o == Decrypted(sent(arrivals[i]))
  {
    AcceptedYieldsOwn(m, x, s, arrivals);
    assert YieldsOwn(m, x, Feed(m, s, Packets(x, arrivals)).0[i], arrivals[i]);
  }
}

/**
  The datagram crypt state: both ends keep a counter as nonce, the wire carries
  its low byte only, and the receiver rebuilds the rest.
 */
module CryptState {
  import opened Prelude
  import opened Counter
  import opened ReplayWindow

  const UINT32: nat := 0x1_0000_0000

  /**
    An authenticated mode as functions of nonce and message. Encryption yields tag and ciphertext
    together; decryption yields nothing on a tag mismatch.
   */
  datatype Mode = Mode(
    nonceSize: nat,
    overhead: nat,
    encrypt: (seq<byte>, seq<byte>) -> seq<byte>,
    decrypt: (seq<byte>, seq<byte>) -> Option<seq<byte>>)

  /** What one mode promises for messages that are not empty. */
  ghost predicate Lawful(m: Mode) {
    && m.nonceSize >= 3
    && forall n, p :: |n| == m.nonceSize && |p| > 0 ==>
         && |m.encrypt(n, p)| == |p| + m.overhead
         && m.decrypt(n, m.encrypt(n, p)) == Some(p)
  }

  // ----- rebuilding the nonce

  datatype Guess =
    | NoMatch
    | Next(iv: seq<byte>)
    | Ahead(iv: seq<byte>, lost: nat)
    | Late(iv: seq<byte>)

  /** How far the byte on the wire lies ahead of the last one, from 0 to 255. */
  function Distance(last: byte, b: byte): nat {
    if b >= last then b - last else b as int - last + 256
  }

  /**
    The nonce to try, from the last nonce and the byte on the wire. A byte 128 or less ahead moves
    forward, one 29 or less behind moves backward, crossing a round of the low byte when it must.
   */
  function Reconstruct(iv: seq<byte>, b: byte): (g: Guess)
    requires |iv| >= 1
    ensures !g.NoMatch? ==> |g.iv| == |iv| && g.iv[0] == b
  {
    var d := Distance(iv[0], b);
    if d == 1 then Next(Forward(iv, b))
    else if 2 <= d <= 128 then Ahead(Forward(iv, b), d - 1)
    else if d >= 227 then Late(Backward(iv, b))
    else NoMatch
  }

  function Forward(iv: seq<byte>, b: byte): (r: seq<byte>)
    requires |iv| >= 1
    ensures |r| == |iv| && r[0] == b
  {
    [b] + if b > iv[0] then iv[1..] else Increment(iv[1..])
  }

  function Backward(iv: seq<byte>, b: byte): (r: seq<byte>)
    requires |iv| >= 1
    ensures |r| == |iv| && r[0] == b
  {
    [b] + if b < iv[0] then iv[1..] else CodeBorrow(iv[1..])
  }

  lemma Carry(v: int, d: int, b: byte, c: int)
    requires v % 256 + d == b + 256 * c
    ensures (v + d) % 256 == b && (v + d) / 256 == v / 256 + c
  {
    ModUnique(v + d, 256, v / 256 + c, b);
  }

  /** Forward, up to 128 packets, the nonce rebuilt is exactly the sender's. */
  lemma GuessedAhead(v: int, n: nat, b: byte)
    requires n >= 1 && 1 <= Distance(v % 256, b) <= 128
    ensures var d := Distance(v % 256, b);
            Reconstruct(At(v, n), b) == if d == 1 then Next(At(v + d, n)) else Ahead(At(v + d, n), d - 1)
  {
    var d, x := Distance(v % 256, b), v % 256;
    Carry(v, d, b, if b >= x then 0 else 1);
    AtIncrement(v / 256, n - 1);
  }

  /** Backward, up to 29 packets, the two low bytes of the nonce rebuilt are the sender's. */
  lemma GuessedLate(v: int, n: nat, b: byte)
    requires n >= 2 && Distance(v % 256, b) >= 227
    ensures var e, r := 256 - Distance(v % 256, b), Reconstruct(At(v, n), b);
            r.Late? && |r.iv| == n && r.iv[0] == (v - e) % 256 && r.iv[1] == ((v - e) / 256) % 256
  {
    var e, x := 256 - Distance(v % 256, b), v % 256;
    Carry(v, -e, b, if b >= x then -1 else 0);
    if b >= x {
      var q := v / 256;
      Carry(q, -1, if q % 256 == 0 then 255 else q % 256 - 1, if q % 256 == 0 then -1 else 0);
    }
  }

  lemma LateExact(v: int, n: nat, b: byte)
    requires n >= 3 && Distance(v % 256, b) >= 227
    ensures var e, r := 256 - Distance(v % 256, b), Reconstruct(At(v, n), b);
            r.Late? && (r.iv == At(v - e, n) <==> b < v % 256 || At(v, n)[1] >= 2)
  {
    var e, x, q := 256 - Distance(v % 256, b), v % 256, v / 256;
    Digits(v, n, x, q);
    if b < x {
      Digits(v - e, n, b, q);
      assert ([x] + At(q, n - 1))[1..] == At(q, n - 1);
    } else {
      Digits(v - e, n, b, q - 1);
      CodeBorrowExact(q, n - 1);
      assert ([x] + At(q, n - 1))[1..] == At(q, n - 1);
      SameTail(b, CodeBorrow(At(q, n - 1)), At(q - 1, n - 1));
    }
  }

  lemma SameTail(b: byte, s: seq<byte>, t: seq<byte>)
    ensures [b] + s == [b] + t <==> s == t
  {
    if [b] + s == [b] + t {
      assert s == ([b] + s)[1..] && t == ([b] + t)[1..];
    }
  }

  /**
    Nonce reconstruction: the nonce is the counter v in n bytes, whatever v. For a byte d ahead, d up to
    128, the nonce tried is the counter v + d. For a byte e behind, e up to 29, it is v - e if and only if
    no borrow is needed or byte 1 is at least 2. Every other byte is refused.
   */
  lemma ReconstructionExact(v: int, n: nat, b: byte)
    requires n >= 3
    ensures var iv, d := At(v, n), Distance(v % 256, b);
            var e, r := 256 - d, Reconstruct(iv, b);
            && (1 <= d <= 128 ==> !r.NoMatch? && r.iv == At(v + d, n))
            && (d == 1 <==> r.Next?)
            && (r.Ahead? <==> 2 <= d <= 128) && (r.Ahead? ==> r.lost == d - 1)
            && (r.Late? <==> 1 <= e <= 29)
            && (r.Late? ==> (r.iv == At(v - e, n) <==> b < iv[0] || iv[1] >= 2))
  {
    var d := Distance(v % 256, b);
    if 1 <= d <= 128 {
      GuessedAhead(v, n, b);
    } else if d >= 227 {
      LateExact(v, n, b);
    }
  }

  // ----- sending and receiving

  /** One end of a connection: its two nonces, the replay history and the statistics. */
  datatype Peer = Peer(
    encryptIV: seq<byte>,
    decryptIV: seq<byte>,
    history: seq<byte>,
    good: nat,
    late: nat,
    lost: nat)

  predicate Fits(m: Mode, s: Peer) {
    |s.encryptIV| == |s.decryptIV| == m.nonceSize && m.nonceSize >= 3 && |s.history| == 256
  }

  datatype Outcome = Decrypted(plain: seq<byte>) | TooShort | NoSpace | NoMatchingByte | TagMismatch | Panicked

  /** Decryption under one nonce, and the bookkeeping that follows a success. */
  function Attempt(m: Mode, s: Peer, iv: seq<byte>, body: seq<byte>, late: bool, lost: nat): (r: (Outcome, Peer))
    requires Fits(m, s) && |iv| == m.nonceSize
    ensures Fits(m, r.1)
  {
    if |body| <= m.overhead then (Panicked, s.(decryptIV := iv))
    else match m.decrypt(iv, body)
      case None => (TagMismatch, s)
      case Some(p) =>
        (Decrypted(p), s.(decryptIV := if late then s.decryptIV else iv,
                          history := s.history[iv[0] := iv[1]],
                          good := Counted(s.good, 1),
                          late := if late then Counted(s.late, 1) else s.late,
                          lost := if late then 1 else lost))
  }

  /** The nonce to try, unless a replay hit falls back to the old one, and the attempt. */
  function Try(m: Mode, s: Peer, g: Guess, body: seq<byte>): (r: (Outcome, Peer))
    requires Fits(m, s) && (!g.NoMatch? ==> |g.iv| == m.nonceSize)
    ensures Fits(m, r.1)
  {
    match g
    case NoMatch => (NoMatchingByte, s)
    case Next(iv) => Attempt(m, s, iv, body, false, 0)
    case Ahead(iv, lost) => Attempt(m, s, Unreplayed(s, iv), body, false, lost)
    case Late(iv) => Attempt(m, s, Unreplayed(s, iv), body, true, 0)
  }

  /** The whole of decryption, into a buffer of the given size. */
  function Receive(m: Mode, s: Peer, packet: seq<byte>, space: nat): (r: (Outcome, Peer))
    requires Fits(m, s)
    ensures Fits(m, r.1)
  {
    if |packet| < 1 + m.overhead then (TooShort, s)
    else if space < |packet| - (1 + m.overhead) then (NoSpace, s)
    else Try(m, s, Reconstruct(s.decryptIV, packet[0]), packet[1..])
  }

  function Unreplayed(s: Peer, iv: seq<byte>): seq<byte>
    requires |iv| >= 2 && |s.history| == 256
  {
    if s.history[iv[0]] == iv[1] then s.decryptIV else iv
  }

  function Send(m: Mode, s: Peer, plain: seq<byte>): (r: (seq<byte>, Peer))
    requires Fits(m, s)
    ensures Fits(m, r.1)
  {
    var iv := Increment(s.encryptIV);
    ([iv[0]] + m.encrypt(iv, plain), s.(encryptIV := iv))
  }

  /** The outcomes of a sequence of packets, in order, and the state after them. */
  function Feed(m: Mode, s: Peer, packets: seq<seq<byte>>): (r: (seq<Outcome>, Peer))
    requires Fits(m, s)
    ensures |r.0| == |packets| && Fits(m, r.1)
  {
    if packets == [] then ([], s)
    else
      var (outcomes, t) := Feed(m, s, packets[..|packets| - 1]);
      var packet := packets[|packets| - 1];
      var (o, u) := Receive(m, t, packet, |packet|);
      (outcomes + [o], u)
  }

  // ----- in-order delivery

  lemma NextNonce(iv: seq<byte>)
    requires |iv| >= 1
    ensures Reconstruct(iv, Increment(iv)[0]) == Next(Increment(iv))
  {
  }

  /** One plaintext sent and its packet received at once. */
  function Exchange(m: Mode, sender: Peer, receiver: Peer, plain: seq<byte>): (r: (Outcome, Peer, Peer))
    requires Fits(m, sender) && Fits(m, receiver)
    ensures Fits(m, r.1) && Fits(m, r.2)
  {
    var (packet, s) := Send(m, sender, plain);
    var (o, r) := Receive(m, receiver, packet, |packet|);
    (o, s, r)
  }

  function Converse(m: Mode, sender: Peer, receiver: Peer, plains: seq<seq<byte>>): (r: (seq<Outcome>, Peer, Peer))
    requires Fits(m, sender) && Fits(m, receiver)
    ensures |r.0| == |plains| && Fits(m, r.1) && Fits(m, r.2)
    decreases |plains|
  {
    if plains == [] then ([], sender, receiver)
    else
      var (o, s, r) := Exchange(m, sender, receiver, plains[0]);
      var (rest, s', r') := Converse(m, s, r, plains[1..]);
      ([o] + rest, s', r')
  }

  lemma InOrderStep(m: Mode, sender: Peer, receiver: Peer, plain: seq<byte>)
    requires Lawful(m) && Fits(m, sender) && Fits(m, receiver) && |plain| > 0
    requires sender.encryptIV == receiver.decryptIV
    ensures var (o, s, r) := Exchange(m, sender, receiver, plain);
            && o == Decrypted(plain) && r.decryptIV == s.encryptIV == Increment(receiver.decryptIV)
            && r.good == Counted(receiver.good, 1) && r.late == receiver.late && r.lost == 0
  {
    var iv := Increment(sender.encryptIV);
    NextNonce(sender.encryptIV);
    var packet := [iv[0]] + m.encrypt(iv, plain);
    assert packet[1..] == m.encrypt(iv, plain);
  }

  /** All was decrypted to what was sent, the nonces of both ends agree, and all count as good. */
  ghost predicate InSync(receiver: Peer, plains: seq<seq<byte>>, outcomes: seq<Outcome>, s: Peer, r: Peer) {
    && |outcomes| == |plains| && (forall i :: 0 <= i < |plains| ==> outcomes[i] == Decrypted(plains[i]))
    && s.encryptIV == r.decryptIV
    && r.good == Counted(receiver.good, |plains|) && r.late == receiver.late
  }

  lemma InSyncFirst(receiver: Peer, next: Peer, plains: seq<seq<byte>>, rest: seq<Outcome>, s: Peer, r: Peer)
    requires plains != [] && InSync(next, plains[1..], rest, s, r)
    requires next.good == Counted(receiver.good, 1) && next.late == receiver.late
    ensures InSync(receiver, plains, [Decrypted(plains[0])] + rest, s, r)
  {
    CountOneMore(receiver.good, |plains| - 1);
  }

  /**
    Peers stay in sync: packets delivered in order all decrypt to what was sent, the nonces of both
    ends agree in the end, hence after every packet, and the receiver counts them all as good.
   */
  lemma {:induction false} PeersStayInSync(m: Mode, sender: Peer, receiver: Peer, plains: seq<seq<byte>>)
    requires Lawful(m) && Fits(m, sender) && Fits(m, receiver)
    requires sender.encryptIV == receiver.decryptIV && receiver.good < UINT32
    requires forall p :: p in plains ==> |p| > 0
    ensures var (outcomes, s, r) := Converse(m, sender, receiver, plains);
            InSync(receiver, plains, outcomes, s, r)
    decreases |plains|
  {
    if plains != [] {
      InOrderStep(m, sender, receiver, plains[0]);
      var (o, s, r) := Exchange(m, sender, receiver, plains[0]);
      PeersStayInSync(m, s, r, plains[1..]);
      var (rest, s', r') := Converse(m, s, r, plains[1..]);
      InSyncFirst(receiver, r, plains, rest, s', r');
    }
  }

  /** A 32-bit counter, n events later. */
  function Counted(start: nat, n: nat): nat {
    (start + n) % UINT32
  }

  lemma CountOneMore(start: nat, n: nat)
    ensures Counted(Counted(start, 1), n) == Counted(start, n + 1)
  {
  }

  // ----- at most once

  /** The packets one sender has made: the nonce of each, and the tag and ciphertext. */
  datatype Sender = Sender(nonce: int -> seq<byte>, body: int -> seq<byte>, count: nat)

  /** The ideal of authentication: no packet of the sender decrypts under a nonce other than its own. */
  ghost predicate Authentic(m: Mode, x: Sender) {
    && m.nonceSize >= 3
    && (forall k :: |x.nonce(k)| == m.nonceSize)
    && (forall k :: 1 <= k <= x.count ==> |x.body(k)| > m.overhead)
    && (forall k, w :: 1 <= k <= x.count && |w| == m.nonceSize && m.decrypt(w, x.body(k)).Some? ==> w == x.nonce(k))
  }

  predicate AllSent(x: Sender, arrivals: seq<nat>) {
    forall i :: 0 <= i < |arrivals| ==> 1 <= arrivals[i] <= x.count
  }

  function Packet(x: Sender, k: int): seq<byte>
    requires |x.nonce(k)| >= 1
  {
    [x.nonce(k)[0]] + x.body(k)
  }

  function Packets(x: Sender, arrivals: seq<nat>): (r: seq<seq<byte>>)
    requires forall k :: |x.nonce(k)| >= 1
    ensures |r| == |arrivals|
  {
    if arrivals == [] then []
    else Packets(x, arrivals[..|arrivals| - 1]) + [Packet(x, arrivals[|arrivals| - 1])]
  }

  /** What a packet with nonce n does to the receiver, given the nonce guessed for it. */
  ghost predicate Handled(s: Peer, s': Peer, g: Guess, n: seq<byte>, accepted: bool)
    requires |n| >= 2 && |s.history| == 256
  {
    if accepted then
      && !g.NoMatch? && g.iv == n
      && (g.Next? || s.history[n[0]] != n[1])
      && s'.history == s.history[n[0] := n[1]]
      && s'.decryptIV == (if g.Late? then s.decryptIV else n)
    else s' == s
  }

  /** A packet that decrypts was tried under its own nonce, so it was not taken for a replay. */
  lemma TriedUnderOwnNonce(m: Mode, s: Peer, g: Guess, body: seq<byte>, n: seq<byte>)
    requires Fits(m, s) && |n| == m.nonceSize && |body| > m.overhead
    requires !g.NoMatch? ==> |g.iv| == m.nonceSize && s.decryptIV != n
    requires forall w :: |w| == m.nonceSize && m.decrypt(w, body).Some? ==> w == n
    ensures var (o, s') := Try(m, s, g, body);
            Handled(s, s', g, n, o.Decrypted?)
  {
  }

  lemma AcceptedUnderOwnNonce(m: Mode, s: Peer, n: seq<byte>, body: seq<byte>)
    requires Fits(m, s) && |n| == m.nonceSize && |body| > m.overhead
    requires forall w :: |w| == m.nonceSize && m.decrypt(w, body).Some? ==> w == n
    ensures var p := [n[0]] + body;
            var (o, s') := Receive(m, s, p, |p|);
            Handled(s, s', Reconstruct(s.decryptIV, n[0]), n, o.Decrypted?)
  {
    assert ([n[0]] + body)[1..] == body;
    assert s.decryptIV == n ==> Reconstruct(s.decryptIV, n[0]).NoMatch?;
    TriedUnderOwnNonce(m, s, Reconstruct(s.decryptIV, n[0]), body, n);
  }

  /** How the branches reach the nonce n of a packet from the nonce held. */
  function HitOf(held: seq<byte>, n: seq<byte>): Hit
    requires |held| >= 1 && |n| >= 1
  {
    match Reconstruct(held, n[0])
    case NoMatch => Miss
    case Late(iv) => if iv == n then Hit.Backward else Miss
    case Next(iv) => if iv == n then Hit.Forward else Miss
    case Ahead(iv, _) => if iv == n then Hit.Forward else Miss
  }

  function NumberingOf(x: Sender): Numbering
    requires forall k :: |x.nonce(k)| >= 2
  {
    Numbering((r, k) => HitOf(x.nonce(r), x.nonce(k)), k => x.nonce(k)[0], k => x.nonce(k)[1])
  }

  /** The packet number the receiver holds after accepting k. */
  function NextAt(x: Sender, r: nat, k: nat): nat
    requires forall k :: |x.nonce(k)| >= 2
  {
    if HitOf(x.nonce(r), x.nonce(k)) == Hit.Forward then k else r
  }

  lemma HandledInWindow(x: Sender, s: Peer, s': Peer, r: nat, k: nat)
    requires (forall k :: |x.nonce(k)| >= 2) && |s.history| == 256 && s.decryptIV == x.nonce(r)
    requires Handled(s, s', Reconstruct(s.decryptIV, x.nonce(k)[0]), x.nonce(k), true)
    ensures s'.decryptIV == x.nonce(NextAt(x, r, k))
    ensures Accepts(NumberingOf(x), Receiver(r, s.history), Receiver(NextAt(x, r, k), s'.history), k)
  {
  }

  lemma FedOneMore(m: Mode, x: Sender, s: Peer, arrivals: seq<nat>)
    returns (before: (seq<Outcome>, Peer), o: Outcome, t: Peer)
    requires Authentic(m, x) && Fits(m, s) && AllSent(x, arrivals) && arrivals != []
    ensures before == Feed(m, s, Packets(x, arrivals[..|arrivals| - 1])) && |before.0| == |arrivals| - 1
    ensures Feed(m, s, Packets(x, arrivals)) == (before.0 + [o], t)
    ensures Fits(m, before.1)
    ensures var n := x.nonce(arrivals[|arrivals| - 1]);
            Handled(before.1, t, Reconstruct(before.1.decryptIV, n[0]), n, o.Decrypted?)
  {
    var ps, k := Packets(x, arrivals), arrivals[|arrivals| - 1];
    assert ps[..|ps| - 1] == Packets(x, arrivals[..|arrivals| - 1]);
    before := Feed(m, s, ps[..|ps| - 1]);
    var result := Receive(m, before.1, ps[|ps| - 1], |ps[|ps| - 1]|);
    o, t := result.0, result.1;
    AcceptedUnderOwnNonce(m, before.1, x.nonce(k), x.body(k));
  }

  function Accepted(outcomes: seq<Outcome>): (r: seq<bool>)
    ensures |r| == |outcomes|
  {
    seq(|outcomes|, i requires 0 <= i < |outcomes| => outcomes[i].Decrypted?)
  }

  lemma AppendedRun(g: Numbering, limit: nat, arrivals: seq<nat>, accepted: seq<bool>, ws: seq<Receiver>, ok: bool,
                    w: Receiver)
    requires |arrivals| == |accepted| + 1 && Run(g, limit, arrivals[..|accepted|], accepted, ws)
    requires 1 <= arrivals[|accepted|] <= limit && |ws[|accepted|].marks| == 256
    requires if ok then Accepts(g, ws[|accepted|], w, arrivals[|accepted|]) else w == ws[|accepted|]
    ensures Run(g, limit, arrivals, accepted + [ok], ws + [w])
  {
  }

  /** The windows that the outcomes of some arrivals and the state after them amount to. */
  ghost predicate InWindow(x: Sender, arrivals: seq<nat>, fed: (seq<Outcome>, Peer), windows: seq<Receiver>)
    requires forall k :: |x.nonce(k)| >= 2
  {
    && Run(NumberingOf(x), x.count, arrivals, Accepted(fed.0), windows)
    && windows[|arrivals|].marks == fed.1.history
    && fed.1.decryptIV == x.nonce(windows[|arrivals|].at)
  }

  lemma StartsInWindow(x: Sender, s: Peer)
    requires (forall k :: |x.nonce(k)| >= 2) && |s.history| == 256 && s.decryptIV == x.nonce(0)
    ensures InWindow(x, [], ([], s), [Receiver(0, s.history)])
  {
  }

  lemma StaysInWindow(x: Sender, arrivals: seq<nat>, before: (seq<Outcome>, Peer), o: Outcome, t: Peer,
                      ws: seq<Receiver>) returns (windows: seq<Receiver>)
    requires (forall k :: |x.nonce(k)| >= 2) && |arrivals| == |before.0| + 1 && |before.1.history| == 256
    requires InWindow(x, arrivals[..|arrivals| - 1], before, ws) && AllSent(x, arrivals)
    requires var n := x.nonce(arrivals[|arrivals| - 1]);
             Handled(before.1, t, Reconstruct(before.1.decryptIV, n[0]), n, o.Decrypted?)
    ensures InWindow(x, arrivals, (before.0 + [o], t), windows)
  {
    var last := |arrivals| - 1;
    var w := ws[last];
    if o.Decrypted? {
      HandledInWindow(x, before.1, t, w.at, arrivals[last]);
      windows := ws + [Receiver(NextAt(x, w.at, arrivals[last]), t.history)];
    } else {
      windows := ws + [w];
    }
    AppendedRun(NumberingOf(x), x.count, arrivals, Accepted(before.0), ws, o.Decrypted?, windows[last + 1]);
    assert Accepted(before.0 + [o]) == Accepted(before.0) + [o.Decrypted?];
  }

  /** A run of Receive over packets of one sender is a run of the replay window. */
  lemma {:induction false} RunOfWindow(m: Mode, x: Sender, s: Peer, arrivals: seq<nat>)
    returns (windows: seq<Receiver>)
    requires Authentic(m, x) && Fits(m, s) && s.decryptIV == x.nonce(0) && AllSent(x, arrivals)
    ensures InWindow(x, arrivals, Feed(m, s, Packets(x, arrivals)), windows)
    decreases |arrivals|
  {
    if arrivals == [] {
      windows := [Receiver(0, s.history)];
      StartsInWindow(x, s);
    } else {
      var ws := RunOfWindow(m, x, s, arrivals[..|arrivals| - 1]);
      var before, o, t := FedOneMore(m, x, s, arrivals);
      windows := StaysInWindow(x, arrivals, before, o, t, ws);
    }
  }

  // ----- the sender counts

  lemma LowBytesOf(v: int, n: nat)
    requires n >= 2
    ensures At(v, n)[0] == v % 256 && At(v, n)[1] == (v / 256) % 256
  {
    assert At(v, n)[1] == At(v / 256, n - 1)[0];
  }

  lemma HitsForward(base: int, n: nat, r: nat, k: nat)
    requires n >= 3 && HitOf(At(base + r, n), At(base + k, n)) == Hit.Forward
    requires r + 256 < Range(n) && k + 256 < Range(n)
    ensures 1 <= k - r <= 128
  {
    var b := At(base + k, n)[0];
    var d := Distance((base + r) % 256, b);
    LowBytesOf(base + r, n);
    GuessedAhead(base + r, n, b);
    AtInjective(base + k, base + r + d, n);
  }

  lemma HitsBackward(base: int, n: nat, r: int, k: int)
    requires n >= 3 && HitOf(At(base + r, n), At(base + k, n)) == Hit.Backward
    ensures 1 <= r - k <= 29 || k >= r + 65507 || r >= k + 65537
  {
    var b := At(base + k, n)[0];
    LowBytesOf(base + r, n);
    var e := 256 - Distance((base + r) % 256, b);
    assert 1 <= e <= 29;
    GuessedLate(base + r, n, b);
    LowBytesOf(base + k, n);
    TwoLowBytes(base + k, base + r - e);
    FarApart(k, r - e);
  }

  lemma TwoLowBytes(v: int, w: int)
    requires v % 256 == w % 256 && (v / 256) % 256 == (w / 256) % 256
    ensures (v - w) % 65536 == 0
  {
    assert v - w == 65536 * (v / 256 / 256 - w / 256 / 256);
  }

  lemma FarApart(k: int, j: int)
    requires (k - j) % 65536 == 0
    ensures k == j || k >= j + 65536 || j >= k + 65536
  {
  }

  lemma SlotsDiffer(base: int, n: nat, j: int, k: int)
    requires n >= 2 && 0 < k - j < 256
    ensures At(base + k, n)[0] != At(base + j, n)[0]
  {
    LowBytesOf(base + k, n);
    LowBytesOf(base + j, n);
    if (base + k) % 256 == (base + j) % 256 {
      SameResidue(base + k, base + j, 256);
    }
  }

  /** The sender numbers its packets by counting up from base. */
  ghost predicate Counts(x: Sender, base: int, n: nat) {
    forall k :: x.nonce(k) == At(base + k, n)
  }

  lemma ForwardIsNear(x: Sender, base: int, n: nat, r: int, k: int)
    requires n >= 3 && Counts(x, base, n) && x.count + 256 < Range(n) && 0 <= r <= x.count && 0 <= k <= x.count
    requires HitOf(x.nonce(r), x.nonce(k)) == Hit.Forward
    ensures 1 <= k - r <= 128
  {
    HitsForward(base, n, r, k);
  }

  lemma BackwardIsNearOrFar(x: Sender, base: int, n: nat, r: int, k: int)
    requires n >= 3 && Counts(x, base, n) && HitOf(x.nonce(r), x.nonce(k)) == Hit.Backward
    ensures 1 <= r - k <= 29 || k >= r + 65507 || r >= k + 65537
  {
    HitsBackward(base, n, r, k);
  }

  lemma OneLatePerSlot(x: Sender, base: int, n: nat, r: int, j: int, k: int)
    requires n >= 3 && Counts(x, base, n) && x.count + 256 < Range(n) && 0 <= j <= x.count && 0 <= k <= x.count
    requires HitOf(x.nonce(r), x.nonce(j)) == HitOf(x.nonce(r), x.nonce(k)) == Hit.Backward
    requires x.nonce(j)[0] == x.nonce(k)[0]
    ensures j == k
  {
    assert x.nonce(j) == x.nonce(k);
    AtInjective(base + j, base + k, n);
  }

  lemma CountingSound(x: Sender, base: int, n: nat)
    requires n >= 3 && Counts(x, base, n) && x.count + 256 < Range(n)
    ensures Sound(NumberingOf(x), x.count)
  {
    var g := NumberingOf(x);
    forall r, k | 0 <= r <= x.count && 0 <= k <= x.count && g.hit(r, k) == Hit.Forward ensures 1 <= k - r <= 128 {
      ForwardIsNear(x, base, n, r, k);
    }
    forall r, k | 0 <= r <= x.count && 0 <= k <= x.count && g.hit(r, k) == Hit.Backward
      ensures 1 <= r - k <= 29 || k >= r + 65507 || r >= k + 65537
    {
      BackwardIsNearOrFar(x, base, n, r, k);
    }
    forall j, k | 0 < k - j < 256 ensures g.slot(k) != g.slot(j) {
      SlotsDiffer(base, n, j, k);
    }
    forall r, j, k | 0 <= j <= x.count && 0 <= k <= x.count && g.hit(r, j) == g.hit(r, k) == Hit.Backward
                     && g.slot(j) == g.slot(k)
      ensures j == k
    {
      OneLatePerSlot(x, base, n, r, j, k);
    }
  }

  /** No packet of the sender is accepted at two places of the arrivals. */
  ghost predicate NoneTwice(m: Mode, x: Sender, s: Peer, arrivals: seq<nat>)
    requires Fits(m, s) && forall k :: |x.nonce(k)| >= 1
  {
    var outcomes := Feed(m, s, Packets(x, arrivals)).0;
    forall i, j :: 0 <= i < j < |arrivals| && outcomes[i].Decrypted? && outcomes[j].Decrypted? ==>
      arrivals[i] != arrivals[j]
  }

  /**
    At most once: whatever is lost, reordered or repeated, with lateness below the greatest bound and any
    initial history, no packet is accepted twice, although in-order packets skip the replay check.
   */
  lemma AtMostOnce(m: Mode, x: Sender, base: int, s: Peer, arrivals: seq<nat>)
    requires Authentic(m, x) && Counts(x, base, m.nonceSize) && x.count + 256 < Range(m.nonceSize)
    requires Fits(m, s) && s.decryptIV == x.nonce(0)
    requires AllSent(x, arrivals) && BoundedLateness(arrivals, MAX_LATENESS)
    ensures NoneTwice(m, x, s, arrivals)
  {
    var outcomes := Feed(m, s, Packets(x, arrivals)).0;
    forall i, j | 0 <= i < j < |arrivals| && outcomes[i].Decrypted? && outcomes[j].Decrypted?
      ensures arrivals[i] != arrivals[j]
    {
      var windows := RunOfWindow(m, x, s, arrivals);
      CountingSound(x, base, m.nonceSize);
      NoneAcceptedTwice(NumberingOf(x), x.count, arrivals, Accepted(outcomes), windows, i, j);
    }
  }

  // ----- why lateness must be bounded so

  /** Every packet of the sender decrypts under its own nonce. */
  ghost predicate Readable(m: Mode, x: Sender) {
    && (forall k :: 1 <= k <= x.count ==> |x.body(k)| > m.overhead)
    && (forall k :: 1 <= k <= x.count ==> m.decrypt(x.nonce(k), x.body(k)).Some?)
  }

  /** Each nonce of the sender is the increment of the one before. */
  ghost predicate CountsUp(x: Sender, n: nat) {
    && (forall k :: |x.nonce(k)| == n)
    && (forall j, k :: k == j + 1 ==> x.nonce(k) == Increment(x.nonce(j)))
  }

  lemma CountingUp(x: Sender, base: int, n: nat)
    requires Counts(x, base, n)
    ensures CountsUp(x, n)
  {
    forall j, k | k == j + 1 ensures x.nonce(k) == Increment(x.nonce(j)) {
      AtIncrement(base + j, n);
    }
  }

  /** The receiver has accepted all that was fed to it and holds the nonce of packet k. */
  ghost predicate AllAccepted(m: Mode, x: Sender, s: Peer, arrivals: seq<nat>, k: int) {
    && Fits(m, s) && (forall j :: |x.nonce(j)| == m.nonceSize)
    && var fed := Feed(m, s, Packets(x, arrivals));
       fed.1.decryptIV == x.nonce(k) && forall i :: 0 <= i < |fed.0| ==> fed.0[i].Decrypted?
  }

  /** The receiver once all has been fed to it. */
  ghost function After(m: Mode, x: Sender, s: Peer, arrivals: seq<nat>): (t: Peer)
    requires Fits(m, s) && forall j :: |x.nonce(j)| == m.nonceSize
    ensures Fits(m, t)
  {
    Feed(m, s, Packets(x, arrivals)).1
  }

  /** A packet whose guess is its nonce is accepted, unless it is checked against the history and found there. */
  lemma GuessIsAccepted(m: Mode, s: Peer, n: seq<byte>, body: seq<byte>)
    requires Fits(m, s) && |n| == m.nonceSize && |body| > m.overhead && m.decrypt(n, body).Some?
    requires var g := Reconstruct(s.decryptIV, n[0]);
             !g.NoMatch? && g.iv == n && (g.Next? || s.history[n[0]] != n[1])
    ensures var p := [n[0]] + body;
            var (o, t) := Receive(m, s, p, |p|);
            && o.Decrypted? && t.history == s.history[n[0] := n[1]]
            && t.decryptIV == if Reconstruct(s.decryptIV, n[0]).Late? then s.decryptIV else n
  {
    assert ([n[0]] + body)[1..] == body;
  }

  lemma FeedOneMore(m: Mode, s: Peer, x: Sender, arrivals: seq<nat>, k: nat, t: Peer)
    requires Fits(m, s) && (forall k :: |x.nonce(k)| >= 1)
    requires Feed(m, s, Packets(x, arrivals)).1 == t
    ensures var before, after := Feed(m, s, Packets(x, arrivals)), Feed(m, s, Packets(x, arrivals + [k]));
            var p := [x.nonce(k)[0]] + x.body(k);
            Fits(m, t) && after == (before.0 + [Receive(m, t, p, |p|).0], Receive(m, t, p, |p|).1)
  {
    var ps := Packets(x, arrivals + [k]);
    assert (arrivals + [k])[..|arrivals|] == arrivals;
    assert ps[..|ps| - 1] == Packets(x, arrivals);
  }

  /** One more packet is accepted after those fed, and the receiver then holds the nonce of packet j. */
  lemma OneMoreAccepted(m: Mode, x: Sender, s: Peer, arrivals: seq<nat>, k: nat, i: int, j: int)
    requires AllAccepted(m, x, s, arrivals, i)
    requires var t, p := After(m, x, s, arrivals), [x.nonce(k)[0]] + x.body(k);
             Receive(m, t, p, |p|).0.Decrypted? && Receive(m, t, p, |p|).1.decryptIV == x.nonce(j)
    ensures AllAccepted(m, x, s, arrivals + [k], j)
    ensures var t, p := After(m, x, s, arrivals), [x.nonce(k)[0]] + x.body(k);
            After(m, x, s, arrivals + [k]) == Receive(m, t, p, |p|).1
  {
    FeedOneMore(m, s, x, arrivals, k, After(m, x, s, arrivals));
  }

  lemma NextReceived(m: Mode, t: Peer, n: seq<byte>, body: seq<byte>)
    requires Fits(m, t) && n == Increment(t.decryptIV) && |body| > m.overhead && m.decrypt(n, body).Some?
    ensures var p := [n[0]] + body; Receive(m, t, p, |p|).0.Decrypted? && Receive(m, t, p, |p|).1.decryptIV == n
  {
    NextNonce(t.decryptIV);
    GuessIsAccepted(m, t, n, body);
  }

  lemma NextAccepted(m: Mode, x: Sender, s: Peer, arrivals: seq<nat>, k: nat)
    requires Readable(m, x) && CountsUp(x, m.nonceSize) && 1 <= k <= x.count
    requires AllAccepted(m, x, s, arrivals, k - 1)
    ensures AllAccepted(m, x, s, arrivals + [k], k)
  {
    NextReceived(m, After(m, x, s, arrivals), x.nonce(k), x.body(k));
    OneMoreAccepted(m, x, s, arrivals, k, k - 1, k);
  }

  /** The packets from k on, q of them. */
  function Onwards(k: nat, q: nat): (r: seq<nat>)
    ensures |r| == q && forall i :: 0 <= i < q ==> r[i] == k + i
  {
    if q == 0 then [] else Onwards(k, q - 1) + [k + q - 1]
  }

  /** If each packet is good after the one before it, so are all that follow in order. */
  lemma {:induction false} OnwardsGood(good: (seq<nat>, nat) -> bool, count: nat, arrivals: seq<nat>, k: nat, q: nat)
    requires good(arrivals, k) && k + q <= count
    requires forall a, j: nat :: 1 <= j <= count && good(a, j - 1) ==> good(a + [j], j)
    ensures good(arrivals + Onwards(k + 1, q), k + q)
    decreases q
  {
    if q == 0 {
      assert arrivals + [] == arrivals;
    } else {
      OnwardsGood(good, count, arrivals, k, q - 1);
      assert good(arrivals + Onwards(k + 1, q - 1) + [k + q], k + q);
      assert arrivals + Onwards(k + 1, q - 1) + [k + q] == arrivals + Onwards(k + 1, q);
    }
  }

  ghost function Accepting(m: Mode, x: Sender, s: Peer): (seq<nat>, nat) -> bool {
    (a: seq<nat>, j: nat) => AllAccepted(m, x, s, a, j)
  }

  lemma NextAccepting(m: Mode, x: Sender, s: Peer, good: (seq<nat>, nat) -> bool, a: seq<nat>, j: nat)
    requires Readable(m, x) && CountsUp(x, m.nonceSize) && 1 <= j <= x.count
    requires good == Accepting(m, x, s) && good(a, j - 1)
    ensures good(a + [j], j)
  {
    NextAccepted(m, x, s, a, j);
  }

  lemma OnwardsAccepting(m: Mode, x: Sender, s: Peer, good: (seq<nat>, nat) -> bool, arrivals: seq<nat>, k: nat, q: nat)
    requires Readable(m, x) && CountsUp(x, m.nonceSize) && k + q <= x.count
    requires good == Accepting(m, x, s) && good(arrivals, k)
    ensures good(arrivals + Onwards(k + 1, q), k + q)
  {
    forall a, j: nat | 1 <= j <= x.count && good(a, j - 1) ensures good(a + [j], j) {
      NextAccepting(m, x, s, good, a, j);
    }
    OnwardsGood(good, x.count, arrivals, k, q);
  }

  lemma AcceptingIs(m: Mode, x: Sender, s: Peer, good: (seq<nat>, nat) -> bool, a: seq<nat>, j: nat)
    requires good == Accepting(m, x, s)
    ensures good(a, j) <==> AllAccepted(m, x, s, a, j)
  {
  }

  lemma OnwardsIs(good: (seq<nat>, nat) -> bool, arrivals: seq<nat>, k: nat, q: nat, all: seq<nat>, last: nat)
    requires good(arrivals + Onwards(k + 1, q), k + q) && k + q == last && all == arrivals + Onwards(k + 1, q)
    ensures good(all, last)
  {
  }

  /** Whatever came before, the packets that follow in order are all accepted. */
  lemma OnwardsAccepted(m: Mode, x: Sender, s: Peer, arrivals: seq<nat>, k: nat, q: nat, all: seq<nat>, last: nat)
    requires Readable(m, x) && CountsUp(x, m.nonceSize) && k + q == last <= x.count
    requires Accepting(m, x, s)(arrivals, k) && all == arrivals + Onwards(k + 1, q)
    ensures Accepting(m, x, s)(all, last)
  {
    var good := Accepting(m, x, s);
    OnwardsAccepting(m, x, s, good, arrivals, k, q);
    OnwardsIs(good, arrivals, k, q, all, last);
  }

  lemma LowTwoBytes(q: int, a: byte, b: byte, n: nat)
    requires n >= 2
    ensures At(65536 * q + 256 * a + b, n) == [b, a] + At(q, n - 2)
  {
    Digits(65536 * q + 256 * a + b, n, b, 256 * q + a);
    Digits(256 * q + a, n - 1, a, q);
    assert [b] + ([a] + At(q, n - 2)) == [b, a] + At(q, n - 2);
  }

  /** From a counter with two zero bytes, a byte of 227 or more is taken for a packet 65536 too far ahead. */
  lemma WrongGuess(t: seq<byte>, b: byte)
    requires b >= 227
    ensures Reconstruct([0, 0] + t, b) == Late([b, 255] + t)
  {
    var iv := [0, 0] + t;
    assert iv[1..] == [0] + t;
    BorrowStops(0, t);
    assert [b] + ([255] + t) == [b, 255] + t;
  }

  /** A jump ahead within the round. */
  lemma JumpGuess(t: seq<byte>, j: byte)
    requires 1 <= j <= 128
    ensures var g := Reconstruct([0, 0] + t, j); (g.Next? || g.Ahead?) && g.iv == [j, 0] + t
  {
    var iv := [0, 0] + t;
    assert iv[1..] == [0] + t;
    assert [j] + ([0] + t) == [j, 0] + t;
  }

  /** Where the sender starts, and what its packets 1 to 128 and 65507 to 65535 have for nonces. */
  ghost predicate StartsRound(x: Sender, t: seq<byte>) {
    && x.nonce(0) == [0, 0] + t
    && (forall j: byte :: 1 <= j <= 128 ==> x.nonce(j) == [j, 0] + t)
    && (forall b: byte :: 227 <= b ==> x.nonce(65280 + b) == [b, 255] + t)
  }

  lemma StartingRound(x: Sender, q: int, n: nat)
    requires n >= 2 && Counts(x, 65536 * q, n)
    ensures StartsRound(x, At(q, n - 2))
  {
    LowTwoBytes(q, 0, 0, n);
    forall j: byte | 1 <= j <= 128 ensures x.nonce(j) == [j, 0] + At(q, n - 2) {
      LowTwoBytes(q, 0, j, n);
    }
    forall b: byte | 227 <= b ensures x.nonce(65280 + b) == [b, 255] + At(q, n - 2) {
      LowTwoBytes(q, 255, b, n);
    }
  }

  lemma NothingFed(m: Mode, x: Sender, s: Peer)
    requires Fits(m, s) && (forall j :: |x.nonce(j)| == m.nonceSize) && s.decryptIV == x.nonce(0)
    ensures AllAccepted(m, x, s, [], 0) && After(m, x, s, []) == s
  {
  }

  /** A packet far too early, taken for a late one. */
  lemma EarlyAccepted(m: Mode, x: Sender, t: seq<byte>, s: Peer, b: byte, k: nat)
    requires Readable(m, x) && CountsUp(x, m.nonceSize) && StartsRound(x, t) && b >= 227 && k == 65280 + b <= x.count
    requires Fits(m, s) && s.decryptIV == x.nonce(0) && s.history[b] != 255
    ensures AllAccepted(m, x, s, [k], 0) && After(m, x, s, [k]).history == s.history[b := 255]
  {
    WrongGuess(t, b);
    GuessIsAccepted(m, s, x.nonce(k), x.body(k));
    NothingFed(m, x, s);
    OneMoreAccepted(m, x, s, [], k, 0, 0);
    assert [] + [k] == [k];
  }

  /** Then a jump ahead. */
  lemma JumpAccepted(m: Mode, x: Sender, t: seq<byte>, s: Peer, k: nat, j: byte)
    requires Readable(m, x) && CountsUp(x, m.nonceSize) && StartsRound(x, t) && 1 <= j <= 128 && j <= x.count
    requires AllAccepted(m, x, s, [k], 0) && After(m, x, s, [k]).history[j] != 0
    ensures AllAccepted(m, x, s, [k, j], j)
  {
    JumpGuess(t, j);
    GuessIsAccepted(m, After(m, x, s, [k]), x.nonce(j), x.body(j));
    OneMoreAccepted(m, x, s, [k], j, 0, j);
    assert [k] + [j] == [k, j];
  }

  /** All accepted, and one packet among them twice. */
  lemma AcceptedTwice(m: Mode, x: Sender, s: Peer, arrivals: seq<nat>, k: int)
    requires |arrivals| >= 2 && arrivals[0] == arrivals[|arrivals| - 1] && AllAccepted(m, x, s, arrivals, k)
    requires forall j :: |x.nonce(j)| >= 1
    ensures !NoneTwice(m, x, s, arrivals)
  {
  }

  /** Packet k first, then those from j on to k in order. */
  function EarlyThenFrom(k: nat, j: nat): (r: seq<nat>)
    requires 1 <= j <= k
    ensures |r| == k - j + 2 && r[0] == k && forall i :: 1 <= i < |r| ==> r[i] == j + i - 1
  {
    [k] + Onwards(j, k - j + 1)
  }

  lemma EarlyThenFromSent(x: Sender, k: nat, j: nat)
    requires 1 <= j <= k <= x.count
    ensures AllSent(x, EarlyThenFrom(k, j)) && BoundedLateness(EarlyThenFrom(k, j), k - j + 1)
  {
  }

  lemma EarlyThenJump(k: nat, j: nat)
    requires 1 <= j < k
    ensures EarlyThenFrom(k, j) == [k, j] + Onwards(j + 1, k - j)
  {
  }

  lemma FromOneAccepted(m: Mode, x: Sender, t: seq<byte>, s: Peer, b: byte, k: nat)
    requires Readable(m, x) && CountsUp(x, m.nonceSize) && StartsRound(x, t) && b >= 227 && k == 65280 + b <= x.count
    requires Fits(m, s) && s.decryptIV == x.nonce(0) && s.history[b] != 255
    ensures AllAccepted(m, x, s, EarlyThenFrom(k, 1), k)
  {
    EarlyAccepted(m, x, t, s, b, k);
    AcceptingIs(m, x, s, Accepting(m, x, s), [k], 0);
    OnwardsAccepted(m, x, s, [k], 0, k, EarlyThenFrom(k, 1), k);
    AcceptingIs(m, x, s, Accepting(m, x, s), EarlyThenFrom(k, 1), k);
  }

  lemma FromJumpAccepted(m: Mode, x: Sender, t: seq<byte>, s: Peer, b: byte, k: nat, j: byte)
    requires Readable(m, x) && CountsUp(x, m.nonceSize) && StartsRound(x, t) && b >= 227 && k == 65280 + b <= x.count
    requires 1 <= j <= 128 && Fits(m, s) && s.decryptIV == x.nonce(0) && s.history[b] != 255 && s.history[j] != 0
    ensures AllAccepted(m, x, s, EarlyThenFrom(k, j), k)
  {
    EarlyAccepted(m, x, t, s, b, k);
    JumpAccepted(m, x, t, s, k, j);
    EarlyThenJump(k, j);
    AcceptingIs(m, x, s, Accepting(m, x, s), [k, j], j);
    OnwardsAccepted(m, x, s, [k, j], j, k - j, EarlyThenFrom(k, j), k);
    AcceptingIs(m, x, s, Accepting(m, x, s), EarlyThenFrom(k, j), k);
  }

  /**
    A receiver that is new, so its history is zero, is no exception: a packet from 65507 to 65535 and then
    1, 2, 3, ... in order, and that packet is accepted twice.
   */
  lemma TwiceWithoutBound(m: Mode, x: Sender, q: int, s: Peer, b: byte, k: nat)
    requires Readable(m, x) && Counts(x, 65536 * q, m.nonceSize) && b >= 227 && k == 65280 + b <= x.count
    requires Fits(m, s) && s.decryptIV == x.nonce(0) && s.history[b] != 255
    ensures var arrivals := EarlyThenFrom(k, 1);
            AllSent(x, arrivals) && BoundedLateness(arrivals, k) && !NoneTwice(m, x, s, arrivals)
  {
    var n := m.nonceSize;
    CountingUp(x, 65536 * q, n);
    StartingRound(x, q, n);
    FromOneAccepted(m, x, At(q, n - 2), s, b, k);
    AcceptedTwice(m, x, s, EarlyThenFrom(k, 1), k);
    EarlyThenFromSent(x, k, 1);
  }

  /** A jump to packet j first saves j - 1 positions of lateness, and the packet is accepted twice all the same. */
  lemma TwiceAfterJump(m: Mode, x: Sender, q: int, s: Peer, b: byte, k: nat, j: byte)
    requires Readable(m, x) && Counts(x, 65536 * q, m.nonceSize) && b >= 227 && k == 65280 + b <= x.count
    requires 1 <= j <= 128 && Fits(m, s) && s.decryptIV == x.nonce(0) && s.history[b] != 255 && s.history[j] != 0
    ensures var arrivals := EarlyThenFrom(k, j);
            AllSent(x, arrivals) && BoundedLateness(arrivals, k - j + 1) && !NoneTwice(m, x, s, arrivals)
  {
    var n := m.nonceSize;
    CountingUp(x, 65536 * q, n);
    StartingRound(x, q, n);
    FromJumpAccepted(m, x, At(q, n - 2), s, b, k, j);
    AcceptedTwice(m, x, s, EarlyThenFrom(k, j), k);
    EarlyThenFromSent(x, k, j);
  }

  /** At most once, for every receiver that starts at the sender's counter and all arrivals within a bound. */
  ghost predicate OnceWithin(m: Mode, x: Sender, bound: int)
    requires forall k :: |x.nonce(k)| >= 1
  {
    forall s, arrivals ::
      Fits(m, s) && s.decryptIV == x.nonce(0) && AllSent(x, arrivals) && BoundedLateness(arrivals, bound) ==>
        NoneTwice(m, x, s, arrivals)
  }

  lemma OnceIfWithin(m: Mode, x: Sender, base: int, bound: int)
    requires Authentic(m, x) && Counts(x, base, m.nonceSize) && x.count + 256 < Range(m.nonceSize)
    requires bound <= MAX_LATENESS
    ensures OnceWithin(m, x, bound)
  {
    forall s, arrivals | Fits(m, s) && s.decryptIV == x.nonce(0) && AllSent(x, arrivals)
                         && BoundedLateness(arrivals, bound)
      ensures NoneTwice(m, x, s, arrivals)
    {
      AtMostOnce(m, x, base, s, arrivals);
    }
  }

  lemma TwiceIfBeyond(m: Mode, x: Sender, q: int, bound: int)
    requires Readable(m, x) && Counts(x, 65536 * q, m.nonceSize) && m.nonceSize >= 3 && 65507 <= x.count
    requires bound > MAX_LATENESS
    ensures !OnceWithin(m, x, bound)
  {
    var s := Peer(x.nonce(0), x.nonce(0), seq(256, _ => 1), 0, 0, 0);
    var b, k, j := 227, 65507, 128;
    TwiceAfterJump(m, x, q, s, b, k, j);
    assert BoundedLateness(EarlyThenFrom(k, j), bound);
  }

  /**
    The bound is exact: for a sender that starts where two bytes of the counter are zero and has packets
    enough, at most once holds within a bound on lateness if and only if the bound is at most 65379.
   */
  lemma OnceIffWithinBound(m: Mode, x: Sender, q: int, bound: int)
    requires Authentic(m, x) && Readable(m, x) && Counts(x, 65536 * q, m.nonceSize)
    requires 65507 <= x.count && x.count + 256 < Range(m.nonceSize)
    ensures OnceWithin(m, x, bound) <==> bound <= MAX_LATENESS
  {
    if bound <= MAX_LATENESS {
      OnceIfWithin(m, x, 65536 * q, bound);
    } else {
      TwiceIfBeyond(m, x, q, bound);
    }
  }
}

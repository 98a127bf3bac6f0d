/**
  Why the receiver accepts no packet twice, told in packet numbers. What the byte-level branches can do
  is captured by a numbering: which packets the nonce rebuilt from packet r's can hit, and which history
  entry a packet uses.
 */
module ReplayWindow {
  import opened Counter

  /** How the branches of decryption reach packet k's nonce from packet r's, if they do. */
  datatype Hit = Miss | Forward | Backward

  datatype Numbering = Numbering(hit: (int, int) -> Hit, slot: int -> byte, mark: int -> byte)

  /**
    Forward reaches the next 128 packets. Backward reaches the last 29 or, through a borrow that went
    wrong, packets at least 65507 away, and no two packets with the same low byte.
   */
  ghost predicate Sound(g: Numbering, limit: nat) {
    && (forall r, k :: 0 <= r <= limit && 0 <= k <= limit && g.hit(r, k) == Forward ==> 1 <= k - r <= 128)
    && (forall r, k :: 0 <= r <= limit && 0 <= k <= limit && g.hit(r, k) == Backward ==>
          1 <= r - k <= 29 || k >= r + 65507 || r >= k + 65537)
    && (forall j, k :: 0 < k - j < 256 ==> g.slot(k) != g.slot(j))
    && (forall r, j, k ::
          (0 <= j <= limit && 0 <= k <= limit && g.hit(r, j) == g.hit(r, k) == Backward && g.slot(j) == g.slot(k))
          ==> j == k)
  }

  /** The packet whose nonce the receiver holds, and the history, by low byte. */
  datatype Receiver = Receiver(at: nat, marks: seq<byte>)

  predicate Remembers(g: Numbering, w: Receiver, a: int)
    requires |w.marks| == 256
  {
    w.marks[g.slot(a)] == g.mark(a)
  }

  /** Accepting packet k: forward without a look at the history, backward only if it is not in it. */
  ghost predicate Accepts(g: Numbering, w: Receiver, w': Receiver, k: nat)
    requires |w.marks| == 256
  {
    && w'.marks == w.marks[g.slot(k) := g.mark(k)]
    && match g.hit(w.at, k)
       case Miss => false
       case Forward => w'.at == k
       case Backward => w'.at == w.at && !Remembers(g, w, k)
  }

  /** The greatest bound on lateness that rules out accepting a packet twice. */
  const MAX_LATENESS := 65379

  /**
    The receiver after some arrivals, the highest of them top. While top is near, every accepted packet
    is at most the current one and the last 29 are remembered. Once top is far ahead, the receiver may
    have accepted packets beyond the current one through a wrong borrow; each of those is remembered,
    and no packet near the current one can arrive any more.
   */
  ghost predicate Tracks(g: Numbering, limit: nat, w: Receiver, top: nat, accepted: set<nat>) {
    && Sound(g, limit) && |w.marks| == 256
    && w.at <= top <= limit
    && (forall a :: a in accepted ==> 1 <= a <= top)
    && (top < w.at + 65507 ==>
          forall a :: a in accepted ==> a <= w.at && (w.at <= a + 29 ==> Remembers(g, w, a)))
    && (forall a :: a in accepted && a > w.at ==> Remembers(g, w, a) && g.hit(w.at, a) == Backward)
  }

  /** Forward acceptance: the packet is above everything accepted before. */
  lemma AcceptForward(g: Numbering, limit: nat, w: Receiver, w': Receiver, top: nat, accepted: set<nat>, k: nat)
    requires Tracks(g, limit, w, top, accepted) && 1 <= k <= limit && k + MAX_LATENESS > top
    requires Accepts(g, w, w', k) && g.hit(w.at, k) == Forward
    ensures k !in accepted
    ensures Tracks(g, limit, w', if k > top then k else top, accepted + {k})
  {
    assert 1 <= k - w.at <= 128 && top < w.at + 65507;
    forall a | a in accepted + {k} && k <= a + 29 ensures Remembers(g, w', a) {
      assert a != k ==> g.slot(k) != g.slot(a);
    }
  }

  /** Backward acceptance: an accepted packet would have been remembered. */
  lemma AcceptBackward(g: Numbering, limit: nat, w: Receiver, w': Receiver, top: nat, accepted: set<nat>, k: nat)
    requires Tracks(g, limit, w, top, accepted) && 1 <= k <= limit && k + MAX_LATENESS > top
    requires Accepts(g, w, w', k) && g.hit(w.at, k) == Backward
    ensures k !in accepted
    ensures Tracks(g, limit, w', if k > top then k else top, accepted + {k})
  {
    if k < w.at {
      assert 1 <= w.at - k <= 29 && top < w.at + 65507;
      forall a | a in accepted + {k} && w.at <= a + 29 ensures Remembers(g, w', a) {
        assert a < k ==> g.slot(k) != g.slot(a);
        assert a > k ==> g.slot(a) != g.slot(k);
      }
    } else {
      forall a | a in accepted + {k} && a > w.at ensures Remembers(g, w', a) {
      }
    }
  }

  lemma AcceptsOnce(g: Numbering, limit: nat, w: Receiver, w': Receiver, top: nat, accepted: set<nat>, k: nat)
    requires Tracks(g, limit, w, top, accepted) && 1 <= k <= limit && k + MAX_LATENESS > top
    requires Accepts(g, w, w', k)
    ensures k !in accepted
    ensures Tracks(g, limit, w', if k > top then k else top, accepted + {k})
  {
    if g.hit(w.at, k) == Forward {
      AcceptForward(g, limit, w, w', top, accepted, k);
    } else {
      AcceptBackward(g, limit, w, w', top, accepted, k);
    }
  }

  /** A run of the receiver over arrivals: what it accepts and the windows it goes through. */
  ghost predicate Run(g: Numbering, limit: nat, arrivals: seq<nat>, accepted: seq<bool>, windows: seq<Receiver>) {
    && |arrivals| == |accepted| == |windows| - 1
    && (forall i :: 0 <= i < |arrivals| ==> 1 <= arrivals[i] <= limit && |windows[i].marks| == 256)
    && (forall i :: 0 <= i < |arrivals| ==>
          if accepted[i] then Accepts(g, windows[i], windows[i + 1], arrivals[i]) else windows[i + 1] == windows[i])
    && windows[0].at == 0 && |windows[0].marks| == 256
  }

  /** No packet arrives with one before it that is bound or more positions ahead. */
  ghost predicate BoundedLateness(arrivals: seq<nat>, bound: int) {
    forall i, j :: 0 <= i < j < |arrivals| ==> arrivals[i] < arrivals[j] + bound
  }

  /** The packets accepted among the first n arrivals. */
  ghost function AcceptedSet(arrivals: seq<nat>, accepted: seq<bool>, n: nat): set<nat>
    requires n <= |arrivals| == |accepted|
  {
    set i | 0 <= i < n && accepted[i] :: arrivals[i]
  }

  ghost function Highest(arrivals: seq<nat>, n: nat): nat
    requires n <= |arrivals|
  {
    if n == 0 then 0
    else if arrivals[n - 1] > Highest(arrivals, n - 1) then arrivals[n - 1]
    else Highest(arrivals, n - 1)
  }

  lemma {:induction false} HighestNear(arrivals: seq<nat>, n: nat, k: nat)
    requires n <= |arrivals| && forall i :: 0 <= i < n ==> arrivals[i] < k + MAX_LATENESS
    ensures Highest(arrivals, n) < k + MAX_LATENESS
  {
    if n > 0 {
      HighestNear(arrivals, n - 1, k);
    }
  }

  lemma AcceptedOneMore(arrivals: seq<nat>, accepted: seq<bool>, n: nat)
    requires 0 < n <= |arrivals| == |accepted|
    ensures AcceptedSet(arrivals, accepted, n)
         == AcceptedSet(arrivals, accepted, n - 1) + if accepted[n - 1] then {arrivals[n - 1]} else {}
  {
  }

  /** Along the run the window stays on track, and nothing is accepted that was accepted before. */
  lemma {:induction false} RunStaysOnTrack(g: Numbering, limit: nat, arrivals: seq<nat>, accepted: seq<bool>,
                                           windows: seq<Receiver>, n: nat)
    requires Sound(g, limit) && Run(g, limit, arrivals, accepted, windows) && BoundedLateness(arrivals, MAX_LATENESS)
    requires n <= |arrivals|
    ensures Tracks(g, limit, windows[n], Highest(arrivals, n), AcceptedSet(arrivals, accepted, n))
    ensures forall j :: 0 <= j < n && accepted[j] ==> arrivals[j] !in AcceptedSet(arrivals, accepted, j)
    decreases n
  {
    if n > 0 {
      RunStaysOnTrack(g, limit, arrivals, accepted, windows, n - 1);
      var k := arrivals[n - 1];
      HighestNear(arrivals, n - 1, k);
      AcceptedOneMore(arrivals, accepted, n);
      if accepted[n - 1] {
        AcceptsOnce(g, limit, windows[n - 1], windows[n], Highest(arrivals, n - 1),
                    AcceptedSet(arrivals, accepted, n - 1), k);
      }
    }
  }

  lemma NoneAcceptedTwice(g: Numbering, limit: nat, arrivals: seq<nat>, accepted: seq<bool>, windows: seq<Receiver>,
                          i: nat, j: nat)
    requires Sound(g, limit) && Run(g, limit, arrivals, accepted, windows) && BoundedLateness(arrivals, MAX_LATENESS)
    requires i < j < |arrivals| && accepted[i] && accepted[j]
    ensures arrivals[i] != arrivals[j]
  {
    RunStaysOnTrack(g, limit, arrivals, accepted, windows, |arrivals|);
    assert arrivals[i] in AcceptedSet(arrivals, accepted, j);
  }
}

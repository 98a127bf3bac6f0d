/**
  Who does hear whom: what resolving a board does exactly, when those who join a board's room come to hear
  each other, and that they go on doing so.
 */
module BoardHearing {
  import opened Prelude
  import T = ChannelTree
  import R = VoiceRooms
  import ChannelExact
  import opened BoardIsolation

  // ----- resolving a board

  /** Some room is of the client's board, however spelt, and on a channel that still exists. */
  ghost predicate LiveRoom(ids: Directory, w: World, u: T.Client, r: R.Room) {
    r in w.rooms.Values && R.Trim(r.board) == BoardOf(ids, u) && r.channel in w.tree.live
  }

  lemma LiveRoomIff(ids: Directory, w: World, u: T.Client)
    requires Inv(ids, w) && Scoped(ids, u)
    ensures var b := BoardOf(ids, u);
            (exists r :: LiveRoom(ids, w, u, r)) <==> b in w.rooms && w.rooms[b].channel in w.tree.live
  {
    var b := BoardOf(ids, u);
    if r :| LiveRoom(ids, w, u, r) {
      var x :| x in w.rooms && w.rooms[x] == r;
      assert x == b;
    }
    if b in w.rooms && w.rooms[b].channel in w.tree.live {
      assert LiveRoom(ids, w, u, w.rooms[b]);
    }
  }

  /** Then the client is sent to that channel, and nothing else changes. */
  lemma ResolveJoins(ids: Directory, w: World, u: T.Client, r: R.Room)
    requires Inv(ids, w) && Enabled(ids, w, ResolveBoard(u)) && LiveRoom(ids, w, u, r)
    ensures Next(ids, w, ResolveBoard(u))
         == w.(resolved := w.resolved[u := r.channel], pending := w.pending[u := r.channel])
  {
    var b :| b in w.rooms && w.rooms[b] == r;
    assert b == BoardOf(ids, u);
  }

  /** Otherwise exactly one channel is made, temporary and below the root, and the client is sent there. */
  lemma ResolveMakes(ids: Directory, w: World, u: T.Client)
    requires Inv(ids, w) && Enabled(ids, w, ResolveBoard(u)) && forall r :: !LiveRoom(ids, w, u, r)
    ensures var w', c := Next(ids, w, ResolveBoard(u)), w.tree.next;
            && w' == w.(tree := w'.tree, active := w.active + {c}, resolved := w.resolved[u := c],
                        pending := w.pending[u := c], owner := w.owner[c := BoardOf(ids, u)])
            && c !in w.tree.children && w'.tree.live == w.tree.live + {c}
            && w'.tree.parent == w.tree.parent[c := T.ROOT] && w'.tree.temporary == w.tree.temporary + {c}
            && w'.tree.members == w.tree.members[c := {}] && w'.tree.at == w.tree.at
  {
    LiveRoomIff(ids, w, u);
    ChannelExact.CreateExact(w.tree, T.ROOT, true);
  }

  // ----- being heard

  /** The client is in the channel that its board's room is on. */
  predicate Tuned(ids: Directory, w: World, u: T.Client) {
    && u in w.tree.at && BoardOf(ids, u) in w.rooms
    && w.rooms[BoardOf(ids, u)].channel == w.tree.at[u]
  }

  /** Exactly then the others of its board hear it. */
  lemma TunedIsHeard(ids: Directory, w: World, u: T.Client, v: T.Client)
    requires Inv(ids, w) && Scoped(ids, u) && BoardOf(ids, v) == BoardOf(ids, u)
    ensures Hears(ids, w, v, u) <==> Tuned(ids, w, u)
  {
    HeardByOwnBoard(ids, w, v, u);
  }

  /** What a client without a board says is heard by those without one, and by the board whose room is there. */
  lemma HeardWithoutBoard(ids: Directory, w: World, target: T.Client, sender: T.Client)
    requires Inv(ids, w) && !Scoped(ids, sender)
    ensures Hears(ids, w, target, sender) <==>
              || !Scoped(ids, target)
              || (&& sender in w.tree.at && BoardOf(ids, target) in w.rooms
                  && w.rooms[BoardOf(ids, target)].channel == w.tree.at[sender])
  {
    var b := BoardOf(ids, target);
    if Scoped(ids, target) && Hears(ids, w, target, sender) {
      OwnRoom(ids, w.rooms, w.owner, target, w.tree.at[sender]);
    }
    if Scoped(ids, target) && b in w.rooms {
      assert R.SameBoard(ids.who(target), Some(w.rooms[b]));
    }
  }

  // ----- joining, step after step

  lemma JoinStep(ids: Directory, w: World, u: T.Client)
    requires Inv(ids, w) && Enabled(ids, w, JoinRoom(u))
    ensures var w', b := Next(ids, w, JoinRoom(u)), BoardOf(ids, u);
            && w' == w.(rooms := w'.rooms) && b in w'.rooms
            && w'.rooms[b].channel == (if b in w.rooms then w.rooms[b].channel else w.resolved[u])
            && R.Trim(ids.who(u).value.user) in w'.rooms[b].participants
  {
    R.JoinFiled(w.rooms, ids.who(u).value, w.resolved[u]);
  }

  /** The client was sent to channel c by authentication and has yet to join and to enter. */
  predicate SentTo(w: World, u: T.Client, c: int) {
    u in w.resolved && w.resolved[u] == c && u in w.pending && w.pending[u] == c && c in w.tree.members
  }

  lemma ResolveStep(ids: Directory, w: World, u: T.Client) returns (c: int)
    requires Inv(ids, w) && Enabled(ids, w, ResolveBoard(u))
    ensures var w', b := Next(ids, w, ResolveBoard(u)), BoardOf(ids, u);
            && SentTo(w', u, c) && w'.rooms == w.rooms
            && (b in w.rooms ==> (w.rooms[b].channel == c <==> w.rooms[b].channel in w.tree.live))
  {
    var b := BoardOf(ids, u);
    LiveRoomIff(ids, w, u);
    if b in w.rooms && w.rooms[b].channel in w.tree.live {
      c := w.rooms[b].channel;
      ResolveJoins(ids, w, u, w.rooms[b]);
    } else {
      c := w.tree.next;
      ResolveMakes(ids, w, u);
    }
  }

  lemma EnterStep(ids: Directory, w: World, u: T.Client, c: int)
    requires u in w.pending && w.pending[u] == c && c in w.tree.members
    ensures Enabled(ids, w, EnterPending(u))
    ensures var w' := Next(ids, w, EnterPending(u));
            && w' == w.(tree := w'.tree, pending := w.pending - {u}) && u in w'.tree.at && w'.tree.at[u] == c
            && c in w'.tree.members && u in w'.tree.members[c]
  {
  }

  lemma JoinAndEnter(ids: Directory, w: World, u: T.Client, c: int) returns (w1: World, w2: World)
    requires Inv(ids, w) && Scoped(ids, u) && R.JoinRefused(ids.who(u).value).None? && SentTo(w, u, c)
    ensures Steps(ids, w, JoinRoom(u), w1) && Steps(ids, w1, EnterPending(u), w2)
    ensures Tuned(ids, w2, u) <==> (BoardOf(ids, u) in w.rooms ==> w.rooms[BoardOf(ids, u)].channel == c)
  {
    w1 := Next(ids, w, JoinRoom(u));
    JoinStep(ids, w, u);
    EnterStep(ids, w1, u, c);
    w2 := Next(ids, w1, EnterPending(u));
  }

  /**
    A client that resolves, joins and enters, one step after the other, is heard by its board if and only if
    its board had no room, or one whose channel still existed. Otherwise the room stays on a channel that is
    gone, and the client is alone in a new one.
   */
  lemma HeardIffRoomWasLive(ids: Directory, w: World, u: T.Client) returns (w1: World, w2: World, w3: World)
    requires Inv(ids, w) && Scoped(ids, u) && R.JoinRefused(ids.who(u).value).None?
    ensures Steps(ids, w, ResolveBoard(u), w1) && Steps(ids, w1, JoinRoom(u), w2) && Steps(ids, w2, EnterPending(u), w3)
    ensures Tuned(ids, w3, u) <==> (BoardOf(ids, u) in w.rooms ==> w.rooms[BoardOf(ids, u)].channel in w.tree.live)
  {
    MayResolve(ids, w, u);
    w1 := Next(ids, w, ResolveBoard(u));
    NextKeepsInv(ids, w, ResolveBoard(u));
    var c := ResolveStep(ids, w, u);
    w2, w3 := JoinAndEnter(ids, w1, u, c);
  }

  lemma MayResolve(ids: Directory, w: World, u: T.Client)
    requires Inv(ids, w) && Scoped(ids, u) && R.JoinRefused(ids.who(u).value).None?
    ensures Enabled(ids, w, ResolveBoard(u))
  {
  }

  // ----- among other steps

  /** The step sends the client somewhere else. */
  predicate Redirects(e: Event, u: T.Client) {
    || e == ResolveBoard(u) || (e.ResolveOther? && e.u == u) || (e.AllowMove? && e.u == u) || e == EnterPending(u)
    || (e.CreateChannel? && e.u == u && e.temporary) || (e.SendAway? && e.u == u)
  }

  /** The step takes the client off its channel, or puts it into one. */
  predicate Displaces(e: Event, u: T.Client) {
    (e.LeaveNoted? && e.u == u) || e == EnterPending(u)
  }

  lemma Undirected(ids: Directory, w: World, e: Event, u: T.Client)
    requires Enabled(ids, w, e) && !Redirects(e, u)
    ensures var w' := Next(ids, w, e);
            && (u in w.pending ==> u in w'.pending && w'.pending[u] == w.pending[u])
            && (u in w.resolved ==> u in w'.resolved && w'.resolved[u] == w.resolved[u])
  {
  }

  lemma Undisplaced(ids: Directory, w: World, e: Event, u: T.Client)
    requires Enabled(ids, w, e) && !Displaces(e, u)
    ensures var w' := Next(ids, w, e);
            u in w.tree.at ==> u in w'.tree.at && w'.tree.at[u] == w.tree.at[u]
  {
    if !OfClients(e) {
      ChannelStepsKeepRooms(ids, w, e);
    }
  }

  /** A room that stays keeps its channel, and a new one is made by joining, on the channel resolved. */
  lemma RoomsStay(ids: Directory, w: World, e: Event, b: string)
    requires Inv(ids, w) && Enabled(ids, w, e) && b in Next(ids, w, e).rooms
    ensures var w' := Next(ids, w, e);
            if b in w.rooms then w'.rooms[b].channel == w.rooms[b].channel
            else e.JoinRoom? && BoardOf(ids, e.u) == b && e.u in w.resolved && w'.rooms[b].channel == w.resolved[e.u]
  {
    if e.JoinRoom? {
      R.JoinFiled(w.rooms, ids.who(e.u).value, w.resolved[e.u]);
    } else if e.LeaveRoom? {
      R.LeaveFiled(w.rooms, ids.who(e.u).value.board, ids.who(e.u).value.user);
    }
  }

  // ----- over runs

  /** Somebody joins for the board while it has no room, and so makes one. */
  predicate MakesRoom(ids: Directory, w: World, e: Event, b: string) {
    e.JoinRoom? && BoardOf(ids, e.u) == b && b !in w.rooms
  }

  /** From step r to step j nobody else makes a room for the board, and the client is not sent elsewhere. */
  ghost predicate Unhindered(ids: Directory, worlds: seq<World>, events: seq<Event>, u: T.Client, r: nat, j: nat) {
    forall k :: r < k < j && k < |events| && k < |worlds| ==>
      !Redirects(events[k], u) && !MakesRoom(ids, worlds[k], events[k], BoardOf(ids, u))
  }

  /** The client is on its way to c, and if its board has a room, the room is there. */
  predicate OnTheWay(ids: Directory, w: World, u: T.Client, c: int) {
    && u in w.resolved && w.resolved[u] == c && u in w.pending && w.pending[u] == c
    && (BoardOf(ids, u) in w.rooms ==> w.rooms[BoardOf(ids, u)].channel == c)
  }

  lemma OnTheWayStays(ids: Directory, w: World, e: Event, u: T.Client, c: int)
    requires Inv(ids, w) && Enabled(ids, w, e) && OnTheWay(ids, w, u, c) && !Redirects(e, u)
    requires !MakesRoom(ids, w, e, BoardOf(ids, u))
    ensures OnTheWay(ids, Next(ids, w, e), u, c)
  {
    Undirected(ids, w, e, u);
    if BoardOf(ids, u) in Next(ids, w, e).rooms {
      RoomsStay(ids, w, e, BoardOf(ids, u));
    }
  }

  /** What each step of a stretch carries on holds at its end. */
  lemma {:induction false} CarriedOver(holds: World -> bool, worlds: seq<World>, i: nat, n: nat)
    requires i <= n < |worlds| && holds(worlds[i])
    requires forall k: nat {:trigger worlds[k]} :: i <= k < n && holds(worlds[k]) ==> holds(worlds[k + 1])
    ensures holds(worlds[n])
    decreases n
  {
    if i < n {
      CarriedOver(holds, worlds, i, n - 1);
      assert holds(worlds[n - 1]);
    }
  }

  lemma RunStep(ids: Directory, worlds: seq<World>, events: seq<Event>, k: nat)
    requires Run(ids, worlds, events) && k < |events|
    ensures |worlds| == |events| + 1 && Inv(ids, worlds[k]) && Steps(ids, worlds[k], events[k], worlds[k + 1])
  {
    RunKeepsInv(ids, worlds, events, k);
    RunSteps(ids, worlds, events, k);
  }

  lemma OnTheWayAt(ids: Directory, worlds: seq<World>, events: seq<Event>, u: T.Client, c: int, k: nat)
    requires Run(ids, worlds, events) && k < |events| && k < |worlds| && OnTheWay(ids, worlds[k], u, c)
    requires !Redirects(events[k], u) && !MakesRoom(ids, worlds[k], events[k], BoardOf(ids, u))
    ensures k + 1 < |worlds| && OnTheWay(ids, worlds[k + 1], u, c)
  {
    RunStep(ids, worlds, events, k);
    OnTheWayStays(ids, worlds[k], events[k], u, c);
  }

  lemma OnTheWayTill(ids: Directory, worlds: seq<World>, events: seq<Event>, u: T.Client, c: int, r: nat, j: nat)
    requires Run(ids, worlds, events) && r < j < |worlds| && OnTheWay(ids, worlds[r + 1], u, c)
    requires Unhindered(ids, worlds, events, u, r, j)
    ensures OnTheWay(ids, worlds[j], u, c)
  {
    forall k: nat | r + 1 <= k < j && OnTheWay(ids, worlds[k], u, c) ensures OnTheWay(ids, worlds[k + 1], u, c) {
      OnTheWayAt(ids, worlds, events, u, c, k);
    }
    CarriedOver(w => OnTheWay(ids, w, u, c), worlds, r + 1, j);
  }

  /** From world i to world n the board has a room. */
  ghost predicate RoomKept(worlds: seq<World>, b: string, i: nat, n: nat) {
    n < |worlds| && forall k: nat {:trigger worlds[k].rooms} :: i <= k <= n ==> b in worlds[k].rooms
  }

  /** The room is there, and the client is to enter. */
  predicate Expected(ids: Directory, w: World, u: T.Client, c: int) {
    u in w.pending && w.pending[u] == c && BoardOf(ids, u) in w.rooms && w.rooms[BoardOf(ids, u)].channel == c
  }

  lemma ExpectedStays(ids: Directory, w: World, e: Event, u: T.Client, c: int)
    requires Inv(ids, w) && Enabled(ids, w, e) && Expected(ids, w, u, c) && !Redirects(e, u)
    requires BoardOf(ids, u) in Next(ids, w, e).rooms
    ensures Expected(ids, Next(ids, w, e), u, c)
  {
    Undirected(ids, w, e, u);
    RoomsStay(ids, w, e, BoardOf(ids, u));
  }

  lemma ExpectedAt(ids: Directory, worlds: seq<World>, events: seq<Event>, u: T.Client, c: int, k: nat)
    requires Run(ids, worlds, events) && k < |events| && |worlds| == |events| + 1 && Expected(ids, worlds[k], u, c)
    requires !Redirects(events[k], u) && BoardOf(ids, u) in worlds[k + 1].rooms
    ensures Expected(ids, worlds[k + 1], u, c)
  {
    RunStep(ids, worlds, events, k);
    ExpectedStays(ids, worlds[k], events[k], u, c);
  }

  lemma ExpectedTill(ids: Directory, worlds: seq<World>, events: seq<Event>, u: T.Client, c: int, j: nat, e: nat)
    requires Run(ids, worlds, events) && j < e < |worlds| && Expected(ids, worlds[j + 1], u, c)
    requires |worlds| == |events| + 1 && forall k :: j < k < e ==> !Redirects(events[k], u)
    requires RoomKept(worlds, BoardOf(ids, u), j + 1, e)
    ensures Expected(ids, worlds[e], u, c)
  {
    forall k: nat | j + 1 <= k < e && Expected(ids, worlds[k], u, c) ensures Expected(ids, worlds[k + 1], u, c) {
      ExpectedAt(ids, worlds, events, u, c, k);
    }
    CarriedOver(w => Expected(ids, w, u, c), worlds, j + 1, e);
  }

  lemma TunedStays(ids: Directory, w: World, e: Event, u: T.Client)
    requires Inv(ids, w) && Enabled(ids, w, e) && Tuned(ids, w, u) && !Displaces(e, u)
    requires BoardOf(ids, u) in Next(ids, w, e).rooms
    ensures Tuned(ids, Next(ids, w, e), u)
  {
    Undisplaced(ids, w, e, u);
    RoomsStay(ids, w, e, BoardOf(ids, u));
  }

  lemma TunedAt(ids: Directory, worlds: seq<World>, events: seq<Event>, u: T.Client, k: nat)
    requires Run(ids, worlds, events) && k < |events| && |worlds| == |events| + 1 && Tuned(ids, worlds[k], u)
    requires !Displaces(events[k], u) && BoardOf(ids, u) in worlds[k + 1].rooms
    ensures Tuned(ids, worlds[k + 1], u)
  {
    RunStep(ids, worlds, events, k);
    TunedStays(ids, worlds[k], events[k], u);
  }

  lemma TunedTill(ids: Directory, worlds: seq<World>, events: seq<Event>, u: T.Client, i: nat, n: nat)
    requires Run(ids, worlds, events) && i <= n < |worlds| && Tuned(ids, worlds[i], u)
    requires |worlds| == |events| + 1 && forall k :: i <= k < n ==> !Displaces(events[k], u)
    requires RoomKept(worlds, BoardOf(ids, u), i, n)
    ensures Tuned(ids, worlds[n], u)
  {
    forall k: nat | i <= k < n && Tuned(ids, worlds[k], u) ensures Tuned(ids, worlds[k + 1], u) {
      TunedAt(ids, worlds, events, u, k);
    }
    CarriedOver(w => Tuned(ids, w, u), worlds, i, n);
  }

  /**
    A client is admitted: it resolves at r, joins at j and enters at e, among any other steps. At r the channel
    of its board's room, if there is one, exists; from r to j nobody else makes a room for the board; it is not
    sent elsewhere in between, nor taken off or put anywhere up to n; and once it joined the room is not given up.
   */
  ghost predicate Admitted(ids: Directory, worlds: seq<World>, events: seq<Event>, u: T.Client, r: nat, j: nat, e: nat, n: nat)
    requires |worlds| == |events| + 1
  {
    && r < j < e < n < |worlds|
    && events[r] == ResolveBoard(u) && events[j] == JoinRoom(u) && events[e] == EnterPending(u)
    && (BoardOf(ids, u) in worlds[r].rooms ==> worlds[r].rooms[BoardOf(ids, u)].channel in worlds[r].tree.live)
    && Unhindered(ids, worlds, events, u, r, j)
    && (forall k :: j < k < e ==> !Redirects(events[k], u))
    && (forall k :: e < k < n ==> !Displaces(events[k], u))
    && RoomKept(worlds, BoardOf(ids, u), j + 1, n)
  }

  lemma AdmittedIsOnTheWay(ids: Directory, worlds: seq<World>, events: seq<Event>, u: T.Client, r: nat) returns (c: int)
    requires Run(ids, worlds, events) && r < |events| && |worlds| == |events| + 1 && events[r] == ResolveBoard(u)
    requires BoardOf(ids, u) in worlds[r].rooms ==> worlds[r].rooms[BoardOf(ids, u)].channel in worlds[r].tree.live
    ensures OnTheWay(ids, worlds[r + 1], u, c)
  {
    RunKeepsInv(ids, worlds, events, r);
    RunSteps(ids, worlds, events, r);
    c := ResolveStep(ids, worlds[r], u);
  }

  lemma JoinedIsExpected(ids: Directory, worlds: seq<World>, events: seq<Event>, u: T.Client, j: nat, c: int)
    requires Run(ids, worlds, events) && j < |events| && |worlds| == |events| + 1 && events[j] == JoinRoom(u)
    requires OnTheWay(ids, worlds[j], u, c)
    ensures Expected(ids, worlds[j + 1], u, c)
  {
    RunKeepsInv(ids, worlds, events, j);
    RunSteps(ids, worlds, events, j);
    JoinStep(ids, worlds[j], u);
  }

  lemma EnteredIsTuned(ids: Directory, worlds: seq<World>, events: seq<Event>, u: T.Client, e: nat, c: int)
    requires Run(ids, worlds, events) && e < |events| && |worlds| == |events| + 1 && events[e] == EnterPending(u)
    requires Expected(ids, worlds[e], u, c)
    ensures Tuned(ids, worlds[e + 1], u)
  {
    RunSteps(ids, worlds, events, e);
    EnterStep(ids, worlds[e], u, c);
  }

  lemma AdmittedIsTuned(ids: Directory, worlds: seq<World>, events: seq<Event>, u: T.Client, r: nat, j: nat, e: nat, n: nat)
    requires Run(ids, worlds, events) && |worlds| == |events| + 1 && Admitted(ids, worlds, events, u, r, j, e, n)
    ensures Tuned(ids, worlds[n], u)
  {
    var c := AdmittedIsOnTheWay(ids, worlds, events, u, r);
    OnTheWayTill(ids, worlds, events, u, c, r, j);
    JoinedIsExpected(ids, worlds, events, u, j, c);
    ExpectedTill(ids, worlds, events, u, c, j, e);
    EnteredIsTuned(ids, worlds, events, u, e, c);
    TunedTill(ids, worlds, events, u, e + 1, n);
  }

  /** Two clients of one board that are admitted, in whatever interleaving, hear each other. */
  lemma BoardMatesHearEachOther(ids: Directory, worlds: seq<World>, events: seq<Event>, n: nat,
                                u: T.Client, r: nat, j: nat, e: nat, v: T.Client, r': nat, j': nat, e': nat)
    requires Run(ids, worlds, events) && |worlds| == |events| + 1
    requires Scoped(ids, u) && BoardOf(ids, v) == BoardOf(ids, u)
    requires Admitted(ids, worlds, events, u, r, j, e, n) && Admitted(ids, worlds, events, v, r', j', e', n)
    ensures Hears(ids, worlds[n], v, u) && Hears(ids, worlds[n], u, v)
  {
    AdmittedIsTuned(ids, worlds, events, u, r, j, e, n);
    AdmittedIsTuned(ids, worlds, events, v, r', j', e', n);
    RunKeepsInv(ids, worlds, events, n);
    TunedIsHeard(ids, worlds[n], u, v);
    TunedIsHeard(ids, worlds[n], v, u);
  }

  /**
    Why no other may make the room in between, which the one handler of authentications sees to: of two clients
    of a board without a room that both resolve before either joins, the one that joins second is not heard.
   */
  lemma RaceMutes(ids: Directory, w: World, u: T.Client, v: T.Client)
    returns (w1: World, w2: World, w3: World, w4: World, w5: World)
    requires Inv(ids, w) && Scoped(ids, u) && BoardOf(ids, v) == BoardOf(ids, u) && u != v
    requires R.JoinRefused(ids.who(u).value).None? && ids.who(v).Some? && R.JoinRefused(ids.who(v).value).None?
    requires BoardOf(ids, u) !in w.rooms
    ensures Steps(ids, w, ResolveBoard(u), w1) && Steps(ids, w1, ResolveBoard(v), w2)
    ensures Steps(ids, w2, JoinRoom(u), w3) && Steps(ids, w3, JoinRoom(v), w4) && Steps(ids, w4, EnterPending(v), w5)
    ensures !Hears(ids, w5, u, v)
  {
    var c, d := w.tree.next, w.tree.next + 1;
    w1 := ResolvedApart(ids, w, u);
    w2 := ResolvedApart(ids, w1, v);
    assert SentTo(w2, v, d) && w2.resolved[u] == c;
    w3 := Next(ids, w2, JoinRoom(u));
    NextKeepsInv(ids, w2, JoinRoom(u));
    JoinStep(ids, w2, u);
    w4, w5 := JoinAndEnter(ids, w3, v, d);
    StepKeepsInv(ids, w3, JoinRoom(v), w4);
    StepKeepsInv(ids, w4, EnterPending(v), w5);
    TunedIsHeard(ids, w5, v, u);
  }

  lemma ResolvedApart(ids: Directory, w: World, u: T.Client) returns (w': World)
    requires Inv(ids, w) && Scoped(ids, u) && R.JoinRefused(ids.who(u).value).None? && BoardOf(ids, u) !in w.rooms
    ensures Steps(ids, w, ResolveBoard(u), w') && Inv(ids, w') && w'.rooms == w.rooms
    ensures SentTo(w', u, w.tree.next) && w'.tree.next == w.tree.next + 1
    ensures w'.resolved == w.resolved[u := w.tree.next]
  {
    MayResolve(ids, w, u);
    LiveRoomIff(ids, w, u);
    ResolveMakes(ids, w, u);
    w' := Next(ids, w, ResolveBoard(u));
    NextKeepsInv(ids, w, ResolveBoard(u));
  }

  // ----- who participates

  /** Every participant is some client of the board that may join voice. */
  ghost predicate MayAllJoin(ids: Directory, rooms: R.Rooms) {
    forall b, x :: b in rooms && x in rooms[b].participants ==> exists u :: MayBe(ids, u, b, x)
  }

  ghost predicate MayBe(ids: Directory, u: T.Client, b: string, x: string) {
    && ids.who(u).Some? && ids.who(u).value.joinVoice
    && R.Trim(ids.who(u).value.board) == b && R.Trim(ids.who(u).value.user) == x
  }

  lemma JoinerMayJoin(ids: Directory, rooms: R.Rooms, u: T.Client, channel: int)
    requires R.Filed(rooms) && ids.who(u).Some? && R.JoinRefused(ids.who(u).value).None? && MayAllJoin(ids, rooms)
    ensures MayAllJoin(ids, R.Join(rooms, ids.who(u).value, channel))
  {
    var id := ids.who(u).value;
    var after := R.Join(rooms, id, channel);
    R.JoinFiled(rooms, id, channel);
    forall b, x | b in after && x in after[b].participants ensures exists v :: MayBe(ids, v, b, x) {
      if b == R.Trim(id.board) && x == R.Trim(id.user) {
        assert MayBe(ids, u, b, x);
      } else {
        assert b in rooms && x in rooms[b].participants;
      }
    }
  }

  lemma LeaversLeave(ids: Directory, rooms: R.Rooms, board: string, user: string)
    requires R.Filed(rooms) && MayAllJoin(ids, rooms)
    ensures MayAllJoin(ids, R.Leave(rooms, board, user))
  {
    R.LeaveFiled(rooms, board, user);
  }

  lemma OtherStepsKeepRooms(ids: Directory, w: World, e: Event)
    requires Enabled(ids, w, e) && !e.JoinRoom? && !e.LeaveRoom?
    ensures Next(ids, w, e).rooms == w.rooms
  {
    if !OfClients(e) {
      ChannelStepsKeepRooms(ids, w, e);
    } else if e.ResolveBoard? {
      ResolvingKeepsRooms(ids, w, e);
    }
  }

  lemma ResolvingKeepsRooms(ids: Directory, w: World, e: Event)
    requires Enabled(ids, w, e) && e.ResolveBoard?
    ensures Next(ids, w, e).rooms == w.rooms
  {
  }

  lemma ChannelStepsKeepRooms(ids: Directory, w: World, e: Event)
    requires Enabled(ids, w, e) && !OfClients(e)
    ensures Next(ids, w, e).rooms == w.rooms && Next(ids, w, e).tree.at == w.tree.at
  {
  }

  lemma JoinersMayJoin(ids: Directory, w: World, e: Event)
    requires Inv(ids, w) && Enabled(ids, w, e) && MayAllJoin(ids, w.rooms)
    ensures MayAllJoin(ids, Next(ids, w, e).rooms)
  {
    if e.JoinRoom? {
      JoinerMayJoin(ids, w.rooms, e.u, w.resolved[e.u]);
    } else if e.LeaveRoom? {
      LeaversLeave(ids, w.rooms, ids.who(e.u).value.board, ids.who(e.u).value.user);
    } else {
      OtherStepsKeepRooms(ids, w, e);
    }
  }

  lemma MayAllJoinAt(ids: Directory, worlds: seq<World>, events: seq<Event>, k: nat)
    requires Run(ids, worlds, events) && k + 1 < |worlds| && MayAllJoin(ids, worlds[k].rooms)
    ensures MayAllJoin(ids, worlds[k + 1].rooms)
  {
    RunStep(ids, worlds, events, k);
    JoinersMayJoin(ids, worlds[k], events[k]);
  }

  /** Over every run nobody gets to participate who may not join. */
  lemma OnlyTheAllowedJoin(ids: Directory, worlds: seq<World>, events: seq<Event>, n: nat)
    requires Run(ids, worlds, events) && n < |worlds| && MayAllJoin(ids, worlds[0].rooms)
    ensures MayAllJoin(ids, worlds[n].rooms)
  {
    forall k: nat | 0 <= k < n && MayAllJoin(ids, worlds[k].rooms) ensures MayAllJoin(ids, worlds[k + 1].rooms) {
      MayAllJoinAt(ids, worlds, events, k);
    }
    CarriedOver((w: World) => MayAllJoin(ids, w.rooms), worlds, 0, n);
  }

  // ----- what the other steps do

  /** Steps of clients: what they change, and that nothing else is. */
  lemma ClientSteps(ids: Directory, w: World, e: Event)
    requires Inv(ids, w) && Enabled(ids, w, e)
    ensures var w' := Next(ids, w, e);
            match e
            case ResolveOther(u, c) => w' == w.(pending := w.pending[u := c])
            case AllowMove(u, c) => w' == w.(pending := w.pending[u := c])
            case SendAway(u, c, target) => w' == w.(pending := w.pending[u := target])
            case NoteChannel(u) => w' == w.(noted := w.noted + multiset{(u, w.tree.at[u])})
            case AddTarget(u, c) => w' == w.(targets := w.targets + {(u, c)})
            case LeaveRoom(u) =>
              && w' == w.(rooms := w'.rooms)
              && (forall b :: b in w'.rooms && b == BoardOf(ids, u) && R.Trim(ids.who(u).value.user) != "" ==>
                    R.Trim(ids.who(u).value.user) !in w'.rooms[b].participants)
            case LeaveNoted(u, c) =>
              && u !in w'.tree.at && w'.tree.at == w.tree.at - {u}
              && w'.tree == w.tree.(members := w'.tree.members, at := w'.tree.at) && w'.rooms == w.rooms
              && (forall v :: v in w'.tree.members[c] <==> v in w.tree.members[c] && ids.session(v) != ids.session(u))
              && (forall x :: x in w.tree.members && x != c ==> w'.tree.members[x] == w.tree.members[x])
            case EnterPending(u) =>
              var c := w.pending[u];
              && w'.tree.at == w.tree.at[u := c] && w'.pending == w.pending - {u}
              && w'.tree == w.tree.(members := w'.tree.members, at := w'.tree.at) && w'.rooms == w.rooms
              && (forall v :: v in w'.tree.members[c] <==>
                    v == u || (v in w.tree.members[c] && ids.session(v) != ids.session(u)))
              && (forall x :: x in w.tree.members && x != c ==> w'.tree.members[x] == w.tree.members[x])
            case _ => true
  {
    if e.LeaveRoom? {
      R.LeaveFiled(w.rooms, ids.who(e.u).value.board, ids.who(e.u).value.user);
    }
  }

  /** Steps of channels: the tree is what the operation makes of it, and the creator is to enter a temporary channel. */
  lemma ChannelSteps(ids: Directory, w: World, e: Event)
    requires Inv(ids, w) && Enabled(ids, w, e)
    ensures var w' := Next(ids, w, e);
            match e
            case CreateChannel(u, p, temporary) =>
              var c := w.tree.next;
              && w' == w.(tree := w'.tree, active := w.active + {c}, pending := w'.pending)
              && w'.pending == (if temporary then w.pending[u := c] else w.pending)
              && w'.tree.parent == w.tree.parent[c := p] && w'.tree.live == w.tree.live + {c}
              && (c in w'.tree.temporary <==> temporary)
            case Reparent(c, p) =>
              w' == w.(tree := w'.tree) && w'.tree.parent == w.tree.parent[c := p] && w'.tree.links == w.tree.links
            case Link(a, b) =>
              && w' == w.(tree := w.tree.(links := w'.tree.links))
              && b in w'.tree.links[a] && a in w'.tree.links[b]
            case Unlink(a, b) =>
              && w' == w.(tree := w.tree.(links := w'.tree.links))
              && b !in w'.tree.links[a] && a !in w'.tree.links[b]
            case BeginRemove(c) =>
              && w' == w.(tree := w.tree.(links := w'.tree.links), active := w.active - {c})
              && (forall x :: x in w'.active ==> c !in w'.tree.links[x])
            case FinishRemove(c) =>
              && w' == w.(tree := w'.tree) && w'.tree.live == w.tree.live - {c}
              && w'.tree.parent == w.tree.parent && c !in w'.tree.children[w.tree.parent[c]]
            case _ => true
  {
    match e
    case CreateChannel(u, p, temporary) => ChannelExact.CreateExact(w.tree, p, temporary);
    case Reparent(c, p) => T.MoveKeeps(w.tree, w.active, c, p);
    case Link(a, b) => ChannelExact.LinkExact(w.tree, a, b, a, b);
    case Unlink(a, b) => ChannelExact.LinkExact(w.tree, a, b, a, b);
    case BeginRemove(c) => T.UnlinkedForms(w.tree, w.active, c);
    case _ =>
  }
}

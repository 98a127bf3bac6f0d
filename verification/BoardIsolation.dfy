/**
  Board isolation as a protocol: with enforcement on, what a board-scoped client says reaches clients of
  its own board only, however authentication, moves, channel edits, removals and disconnects interleave.
  Whatever the server does under separate locks, or without one, is a step of its own.
 */
module BoardIsolation {
  import opened Prelude
  import opened T = ChannelTree
  import R = VoiceRooms

  /**
    A client is a connection. Who it is, is fixed when it authenticates. Its session number is given to
    another connection once it disconnects, even before it has left its channel and its room.
   */
  datatype Directory = Directory(who: Client -> Option<R.Identity>, session: Client -> nat)

  /** The board a client is confined to, trimmed, or "". */
  function BoardOf(ids: Directory, u: Client): string {
    if ids.who(u).Some? then R.Trim(ids.who(u).value.board) else ""
  }

  predicate Scoped(ids: Directory, u: Client) {
    BoardOf(ids, u) != ""
  }

  /**
    The server: its channels, those not being removed, the voice rooms; the channels that authentication
    chose, that clients are about to enter and that they are about to be taken off; the channels whisper
    targets name; and, for the proof, the board that every board channel was made for.
   */
  datatype World = World(
    tree: Tree,
    active: set<int>,
    rooms: R.Rooms,
    resolved: map<Client, int>,
    pending: map<Client, int>,
    noted: multiset<(Client, int)>,
    targets: set<(Client, int)>,
    owner: map<int, string>)

  /** A server that starts, or restarts from a snapshot, with nobody connected. */
  function Start(t: Tree): World {
    World(t, t.live, map[], map[], map[], multiset{}, {}, map[])
  }

  datatype Event =
    | ResolveBoard(u: Client)                            // authentication: find or make the board's channel
    | ResolveOther(u: Client, c: int)                    // authentication without a board
    | JoinRoom(u: Client)                                // authentication: take a place in the board's room
    | AllowMove(u: Client, c: int)                       // a move that passed the checks
    | NoteChannel(u: Client)                             // entering or disconnecting: read the client's channel
    | LeaveNoted(u: Client, c: int)                      // take the client off the channel read
    | EnterPending(u: Client)                            // put the client into the channel it is to enter
    | LeaveRoom(u: Client)                               // disconnection, last part
    | AddTarget(u: Client, c: int)                       // name a channel in a whisper target
    | CreateChannel(u: Client, p: int, temporary: bool)  // the creator is to enter a temporary channel
    | Reparent(c: int, p: int)
    | Link(a: int, b: int)
    | Unlink(a: int, b: int)
    | BeginRemove(c: int)
    | SendAway(u: Client, c: int, target: int)           // removal: a client listed is to enter a channel above
    | FinishRemove(c: int)

  /** Some room on the channel belongs to the client's board. */
  ghost predicate OwnRoomOn(ids: Directory, rooms: R.Rooms, u: Client, c: int) {
    exists b :: b in rooms && rooms[b].channel == c && R.SameBoard(ids.who(u), Some(rooms[b]))
  }

  /** A channel a handler may work on, with all its fields. In a consistent state that is any active one. */
  predicate Usable(w: World, c: int) {
    && c in w.active && c in w.tree.children && c in w.tree.links && c in w.tree.members
    && (c in w.tree.parent ==> w.tree.parent[c] in w.tree.children)
  }

  /** A channel whose removal has begun. */
  predicate Leaving(w: World, c: int) {
    && c in w.tree.live && c !in w.active && c in w.tree.children && c in w.tree.members
    && c in w.tree.parent && w.tree.parent[c] in w.tree.children
  }

  ghost predicate Enabled(ids: Directory, w: World, e: Event) {
    match e
    case ResolveBoard(u) => Scoped(ids, u) && ids.who(u).value.joinVoice && Usable(w, ROOT)
    case ResolveOther(u, c) => !Scoped(ids, u) && Usable(w, c)
    case JoinRoom(u) => u in w.resolved && Scoped(ids, u) && R.JoinRefused(ids.who(u).value).None?
    case AllowMove(u, c) => Usable(w, c) && (Scoped(ids, u) ==> OwnRoomOn(ids, w.rooms, u, c))
    case NoteChannel(u) => u in w.tree.at
    case LeaveNoted(u, c) => (u, c) in w.noted && c in w.tree.members
    case EnterPending(u) => u in w.pending && w.pending[u] in w.tree.members
    case LeaveRoom(u) => ids.who(u).Some?
    case AddTarget(u, c) => Usable(w, c) && (Scoped(ids, u) ==> OwnRoomOn(ids, w.rooms, u, c))
    case CreateChannel(u, p, temporary) => Usable(w, p) && p !in w.tree.temporary
    case Reparent(c, p) =>
      Usable(w, c) && Usable(w, p) && c in w.tree.parent && p !in w.tree.temporary && !Above(w.tree.parent, c, p)
    case Link(a, b) => Usable(w, a) && Usable(w, b)
    case Unlink(a, b) => Usable(w, a) && Usable(w, b)
    case BeginRemove(c) => Usable(w, c) && c != ROOT
    case SendAway(u, c, target) =>
      && Leaving(w, c) && u in w.tree.members[c]
      && target in w.tree.members && StrictlyAbove(w.tree.parent, target, c)
    case FinishRemove(c) => Leaving(w, c) && w.tree.children[c] == {}
  }

  // ----- the lists of clients

  /** A channel lists its clients by session number: the entry of that number goes, whosever it is. */
  function Without(ids: Directory, listed: set<Client>, u: Client): set<Client> {
    set v | v in listed && ids.session(v) != ids.session(u)
  }

  /** Taking a client off a channel, without a look at where it is now. */
  function Out(ids: Directory, t: Tree, u: Client, c: int): Tree
    requires c in t.members
  {
    t.(members := t.members[c := Without(ids, t.members[c], u)], at := t.at - {u})
  }

  /** Putting a client into a channel; an entry of the same session number is overwritten. */
  function In(ids: Directory, t: Tree, u: Client, c: int): Tree
    requires c in t.members
  {
    t.(members := t.members[c := Without(ids, t.members[c], u) + {u}], at := t.at[u := c])
  }

  // ----- the steps

  ghost function Next(ids: Directory, w: World, e: Event): World
    requires Enabled(ids, w, e)
  {
    match e
    case ResolveBoard(u) => Resolve(w, BoardOf(ids, u), u)
    case ResolveOther(u, c) => w.(pending := w.pending[u := c])
    case JoinRoom(u) => w.(rooms := R.Join(w.rooms, ids.who(u).value, w.resolved[u]))
    case AllowMove(u, c) => w.(pending := w.pending[u := c])
    case NoteChannel(u) => w.(noted := w.noted + multiset{(u, w.tree.at[u])})
    case LeaveNoted(u, c) => w.(tree := Out(ids, w.tree, u, c), noted := w.noted - multiset{(u, c)})
    case EnterPending(u) => w.(tree := In(ids, w.tree, u, w.pending[u]), pending := w.pending - {u})
    case LeaveRoom(u) => w.(rooms := R.Leave(w.rooms, ids.who(u).value.board, ids.who(u).value.user))
    case AddTarget(u, c) => w.(targets := w.targets + {(u, c)})
    case CreateChannel(u, p, temporary) =>
      var c := w.tree.next;
      w.(tree := Create(w.tree, p, temporary), active := w.active + {c},
         pending := if temporary then w.pending[u := c] else w.pending)
    case Reparent(c, p) => w.(tree := Move(w.tree, c, p))
    case Link(a, b) => w.(tree := LinkChannels(w.tree, a, b))
    case Unlink(a, b) => w.(tree := UnlinkChannels(w.tree, a, b))
    case BeginRemove(c) => w.(tree := Unlinked(w.tree, c), active := w.active - {c})
    case SendAway(u, c, target) => w.(pending := w.pending[u := target])
    case FinishRemove(c) => w.(tree := Detached(w.tree, c))
  }

  /** The board's room is joined where it is, if its channel still exists; else a channel is made for it. */
  function Resolve(w: World, board: string, u: Client): World
    requires ROOT in w.tree.children
  {
    if board in w.rooms && w.rooms[board].channel in w.tree.live then
      var c := w.rooms[board].channel;
      w.(resolved := w.resolved[u := c], pending := w.pending[u := c])
    else WithBoardChannel(w, board, u)
  }

  // ----- the invariant

  /** Rooms lead only to channels made for their board. */
  predicate RoomsOwned(rooms: R.Rooms, owner: map<int, string>) {
    R.Filed(rooms) && forall b :: b in rooms ==> rooms[b].channel in owner && owner[rooms[b].channel] == b
  }

  /** Authentication sends a scoped client to a channel made for its board. */
  predicate Directed(ids: Directory, resolved: map<Client, int>, owner: map<int, string>) {
    forall u :: u in resolved && Scoped(ids, u) ==> resolved[u] in owner && owner[resolved[u]] == BoardOf(ids, u)
  }

  /** Clients are in channels that were created, scoped ones never in a channel made for another board. */
  predicate Kept(ids: Directory, places: map<Client, int>, owner: map<int, string>, created: set<int>) {
    && (forall u :: u in places ==> places[u] in created)
    && (forall u :: u in places && Scoped(ids, u) && places[u] in owner ==> owner[places[u]] == BoardOf(ids, u))
  }

  /** A scoped client whispers to channels made for its board only. */
  ghost predicate Targeted(ids: Directory, targets: set<(Client, int)>, owner: map<int, string>) {
    forall u, c :: (u, c) in targets && Scoped(ids, u) ==> c in owner && owner[c] == BoardOf(ids, u)
  }

  /** Board channels are temporary, and temporary channels were created. */
  predicate OwnedAreTemporary(owner: map<int, string>, temporary: set<int>, created: set<int>) {
    owner.Keys <= temporary <= created
  }

  /** What isolation rests on, apart from the shape of the channels. */
  ghost predicate Confined(ids: Directory, w: World) {
    && OwnedAreTemporary(w.owner, w.tree.temporary, w.tree.children.Keys)
    && RoomsOwned(w.rooms, w.owner)
    && Kept(ids, w.tree.at, w.owner, w.tree.children.Keys)
    && Kept(ids, w.pending, w.owner, w.tree.children.Keys)
    && Directed(ids, w.resolved, w.owner)
    && Targeted(ids, w.targets, w.owner)
  }

  ghost predicate Inv(ids: Directory, w: World) {
    Formed(w.tree, w.active) && ROOT in w.active && Confined(ids, w)
  }

  /** Any consistent channels will do to start from. */
  lemma StartInv(ids: Directory, t: Tree)
    requires T.Inv(t) && t.at == map[]
    ensures Inv(ids, Start(t))
  {
  }

  // ----- every step keeps it

  lemma OwnRoom(ids: Directory, rooms: R.Rooms, owner: map<int, string>, u: Client, c: int)
    requires RoomsOwned(rooms, owner) && OwnRoomOn(ids, rooms, u, c)
    ensures c in owner && owner[c] == BoardOf(ids, u) && BoardOf(ids, u) in rooms && rooms[BoardOf(ids, u)].channel == c
  {
    var b :| b in rooms && rooms[b].channel == c && R.SameBoard(ids.who(u), Some(rooms[b]));
    assert BoardOf(ids, u) == R.Trim(b) == b;
  }

  lemma KeptOne(ids: Directory, places: map<Client, int>, owner: map<int, string>, created: set<int>, u: Client, c: int)
    requires Kept(ids, places, owner, created) && c in created
    requires Scoped(ids, u) && c in owner ==> owner[c] == BoardOf(ids, u)
    ensures Kept(ids, places[u := c], owner, created)
  {
  }

  lemma KeptLess(ids: Directory, places: map<Client, int>, owner: map<int, string>, created: set<int>, u: Client)
    requires Kept(ids, places, owner, created)
    ensures Kept(ids, places - {u}, owner, created)
  {
  }

  /** A new channel was no place before, so making it a board's changes nothing for those who are somewhere. */
  lemma KeptNew(ids: Directory, places: map<Client, int>, owner: map<int, string>, created: set<int>, c: int, board: string)
    requires Kept(ids, places, owner, created) && c !in created
    ensures Kept(ids, places, owner, created + {c}) && Kept(ids, places, owner[c := board], created + {c})
  {
  }

  lemma OwnersNew(ids: Directory, rooms: R.Rooms, resolved: map<Client, int>, targets: set<(Client, int)>,
                  owner: map<int, string>, c: int, board: string)
    requires RoomsOwned(rooms, owner) && Directed(ids, resolved, owner) && Targeted(ids, targets, owner) && c !in owner
    ensures var more := owner[c := board];
            RoomsOwned(rooms, more) && Directed(ids, resolved, more) && Targeted(ids, targets, more)
  {
  }

  /** The world after a channel is made for a client's board. */
  function WithBoardChannel(w: World, board: string, u: Client): World
    requires ROOT in w.tree.children
  {
    var c := w.tree.next;
    w.(tree := Create(w.tree, ROOT, true), active := w.active + {c},
       resolved := w.resolved[u := c], pending := w.pending[u := c], owner := w.owner[c := board])
  }

  lemma NewBoardChannelConfined(ids: Directory, w: World, u: Client)
    requires Confined(ids, w) && Scoped(ids, u) && ROOT in w.tree.children && w.tree.next !in w.tree.children
    ensures Confined(ids, WithBoardChannel(w, BoardOf(ids, u), u))
  {
    var t, c, board := w.tree, w.tree.next, BoardOf(ids, u);
    var created := t.children.Keys;
    CreateColumns(t, ROOT, true);
    KeptNew(ids, t.at, w.owner, created, c, board);
    KeptNew(ids, w.pending, w.owner, created, c, board);
    KeptOne(ids, w.pending, w.owner[c := board], created + {c}, u, c);
    OwnersNew(ids, w.rooms, w.resolved, w.targets, w.owner, c, board);
  }

  lemma NewBoardChannelKeeps(ids: Directory, w: World, u: Client)
    requires Inv(ids, w) && Scoped(ids, u)
    ensures Inv(ids, WithBoardChannel(w, BoardOf(ids, u), u))
  {
    CreateForms(w.tree, w.active, ROOT, true);
    NewBoardChannelConfined(ids, w, u);
  }

  lemma CreateColumns(t: Tree, p: int, temporary: bool)
    requires p in t.children
    ensures var t' := Create(t, p, temporary);
            && t'.children.Keys == t.children.Keys + {t.next} && t'.at == t.at && t'.next == t.next + 1
            && t'.temporary == if temporary then t.temporary + {t.next} else t.temporary
  {
  }

  lemma ResolveKeeps(ids: Directory, w: World, u: Client)
    requires Inv(ids, w) && Scoped(ids, u)
    ensures Inv(ids, Resolve(w, BoardOf(ids, u), u))
  {
    var board := BoardOf(ids, u);
    if board in w.rooms && w.rooms[board].channel in w.tree.live {
      KeptOne(ids, w.pending, w.owner, w.tree.children.Keys, u, w.rooms[board].channel);
    } else {
      NewBoardChannelKeeps(ids, w, u);
    }
  }

  lemma JoinKeeps(ids: Directory, w: World, u: Client)
    requires Inv(ids, w) && Enabled(ids, w, JoinRoom(u))
    ensures Inv(ids, Next(ids, w, JoinRoom(u)))
  {
    R.JoinFiled(w.rooms, ids.who(u).value, w.resolved[u]);
  }

  /** A channel a client may enter is no other board's; that holds of one with a room of its own board. */
  lemma AllowMoveKeeps(ids: Directory, w: World, u: Client, c: int)
    requires Inv(ids, w) && Enabled(ids, w, AllowMove(u, c))
    ensures Inv(ids, Next(ids, w, AllowMove(u, c)))
  {
    if Scoped(ids, u) {
      OwnRoom(ids, w.rooms, w.owner, u, c);
    }
    KeptOne(ids, w.pending, w.owner, w.tree.children.Keys, u, c);
  }

  lemma AddTargetKeeps(ids: Directory, w: World, u: Client, c: int)
    requires Inv(ids, w) && Enabled(ids, w, AddTarget(u, c))
    ensures Inv(ids, Next(ids, w, AddTarget(u, c)))
  {
    if Scoped(ids, u) {
      OwnRoom(ids, w.rooms, w.owner, u, c);
    }
  }

  /** Lists of clients are no part of the shape of the channels. */
  lemma FormedAnyhow(t: Tree, active: set<int>, members: map<int, set<Client>>, places: map<Client, int>)
    requires Formed(t, active) && members.Keys == t.members.Keys
    ensures Formed(t.(members := members, at := places), active)
  {
  }

  lemma EnterPendingKeeps(ids: Directory, w: World, u: Client)
    requires Inv(ids, w) && Enabled(ids, w, EnterPending(u))
    ensures Inv(ids, Next(ids, w, EnterPending(u)))
  {
    var c, created := w.pending[u], w.tree.children.Keys;
    var t' := In(ids, w.tree, u, c);
    FormedAnyhow(w.tree, w.active, t'.members, t'.at);
    KeptOne(ids, w.tree.at, w.owner, created, u, c);
    KeptLess(ids, w.pending, w.owner, created, u);
  }

  /** Taken off a channel it may have left long ago, a client is nowhere, which is harmless. */
  lemma LeaveNotedKeeps(ids: Directory, w: World, u: Client, c: int)
    requires Inv(ids, w) && Enabled(ids, w, LeaveNoted(u, c))
    ensures Inv(ids, Next(ids, w, LeaveNoted(u, c)))
  {
    var t' := Out(ids, w.tree, u, c);
    FormedAnyhow(w.tree, w.active, t'.members, t'.at);
    KeptLess(ids, w.tree.at, w.owner, w.tree.children.Keys, u);
  }

  lemma LeaveRoomKeeps(ids: Directory, w: World, u: Client)
    requires Inv(ids, w) && Enabled(ids, w, LeaveRoom(u))
    ensures Inv(ids, Next(ids, w, LeaveRoom(u)))
  {
    R.LeaveFiled(w.rooms, ids.who(u).value.board, ids.who(u).value.user);
  }

  lemma CreateChannelKeeps(ids: Directory, w: World, u: Client, p: int, temporary: bool)
    requires Inv(ids, w) && Enabled(ids, w, CreateChannel(u, p, temporary))
    ensures Inv(ids, Next(ids, w, CreateChannel(u, p, temporary)))
  {
    var t, c := w.tree, w.tree.next;
    CreateForms(t, w.active, p, temporary);
    CreateColumns(t, p, temporary);
    KeptNew(ids, t.at, w.owner, t.children.Keys, c, "");
    KeptNew(ids, w.pending, w.owner, t.children.Keys, c, "");
    KeptOne(ids, w.pending, w.owner, t.children.Keys + {c}, u, c);
  }

  /** A channel with another below it is not a board channel. */
  lemma AboveIsUnowned(parent: map<int, int>, temporary: set<int>, target: int, c: int)
    requires TemporaryAreLeaves(temporary, parent) && StrictlyAbove(parent, target, c)
    ensures target !in temporary
  {
    if target != parent[c] {
      var k: nat :| Climbs(parent, parent[c], target, k);
      var y := LastBelow(parent, target, parent[c], k);
    }
  }

  lemma SendAwayKeeps(ids: Directory, w: World, u: Client, c: int, target: int)
    requires Inv(ids, w) && Enabled(ids, w, SendAway(u, c, target))
    ensures Inv(ids, Next(ids, w, SendAway(u, c, target)))
  {
    AboveIsUnowned(w.tree.parent, w.tree.temporary, target, c);
    KeptOne(ids, w.pending, w.owner, w.tree.children.Keys, u, target);
  }

  /** The edits of the channels leave alone what isolation rests on. */
  lemma EditConfined(ids: Directory, w: World, t: Tree, active: set<int>)
    requires Inv(ids, w) && Formed(t, active) && ROOT in active
    requires t.temporary == w.tree.temporary && t.children.Keys == w.tree.children.Keys && t.at == w.tree.at
    ensures Inv(ids, w.(tree := t, active := active))
  {
  }

  lemma RemoveKeeps(ids: Directory, w: World, e: Event)
    requires Inv(ids, w) && Enabled(ids, w, e) && (e.BeginRemove? || e.FinishRemove?)
    ensures Inv(ids, Next(ids, w, e))
  {
    match e
    case BeginRemove(c) =>
      UnlinkedForms(w.tree, w.active, c);
      EditConfined(ids, w, Unlinked(w.tree, c), w.active - {c});
    case FinishRemove(c) =>
      DetachedForms(w.tree, w.active, c);
      assert Detached(w.tree, c).children.Keys == w.tree.children.Keys;
      EditConfined(ids, w, Detached(w.tree, c), w.active);
  }

  lemma EditKeeps(ids: Directory, w: World, e: Event)
    requires Inv(ids, w) && Enabled(ids, w, e) && (e.Reparent? || e.Link? || e.Unlink?)
    ensures Inv(ids, Next(ids, w, e))
  {
    match e
    case Reparent(c, p) =>
      MoveKeeps(w.tree, w.active, c, p);
      assert Move(w.tree, c, p).children.Keys == w.tree.children.Keys;
      EditConfined(ids, w, Move(w.tree, c, p), w.active);
    case Link(a, b) =>
      LinkKeeps(w.tree, w.active, a, b);
      EditConfined(ids, w, LinkChannels(w.tree, a, b), w.active);
    case Unlink(a, b) =>
      LinkKeeps(w.tree, w.active, a, b);
      EditConfined(ids, w, UnlinkChannels(w.tree, a, b), w.active);
  }

  predicate OfClients(e: Event) {
    || e.ResolveBoard? || e.ResolveOther? || e.JoinRoom? || e.AllowMove?
    || e.NoteChannel? || e.LeaveNoted? || e.EnterPending? || e.LeaveRoom? || e.AddTarget?
  }

  lemma ResolveOtherKeeps(ids: Directory, w: World, u: Client, c: int)
    requires Inv(ids, w) && Enabled(ids, w, ResolveOther(u, c))
    ensures Inv(ids, Next(ids, w, ResolveOther(u, c)))
  {
    KeptOne(ids, w.pending, w.owner, w.tree.children.Keys, u, c);
  }

  lemma ClientStepKeeps(ids: Directory, w: World, e: Event)
    requires Inv(ids, w) && Enabled(ids, w, e) && OfClients(e)
    ensures Inv(ids, Next(ids, w, e))
  {
    match e
    case ResolveBoard(u) => ResolveKeeps(ids, w, u);
    case ResolveOther(u, c) => ResolveOtherKeeps(ids, w, u, c);
    case JoinRoom(u) => JoinKeeps(ids, w, u);
    case AllowMove(u, c) => AllowMoveKeeps(ids, w, u, c);
    case NoteChannel(u) =>
    case LeaveNoted(u, c) => LeaveNotedKeeps(ids, w, u, c);
    case EnterPending(u) => EnterPendingKeeps(ids, w, u);
    case LeaveRoom(u) => LeaveRoomKeeps(ids, w, u);
    case AddTarget(u, c) => AddTargetKeeps(ids, w, u, c);
  }

  lemma ChannelStepKeeps(ids: Directory, w: World, e: Event)
    requires Inv(ids, w) && Enabled(ids, w, e) && !OfClients(e)
    ensures Inv(ids, Next(ids, w, e))
  {
    match e
    case CreateChannel(u, p, temporary) => CreateChannelKeeps(ids, w, u, p, temporary);
    case Reparent(c, p) => EditKeeps(ids, w, e);
    case Link(a, b) => EditKeeps(ids, w, e);
    case Unlink(a, b) => EditKeeps(ids, w, e);
    case BeginRemove(c) => RemoveKeeps(ids, w, e);
    case SendAway(u, c, target) => SendAwayKeeps(ids, w, u, c, target);
    case FinishRemove(c) => RemoveKeeps(ids, w, e);
  }

  /** Every step of the protocol, from any consistent state, leads to a consistent state. */
  lemma NextKeepsInv(ids: Directory, w: World, e: Event)
    requires Inv(ids, w) && Enabled(ids, w, e)
    ensures Inv(ids, Next(ids, w, e))
  {
    if OfClients(e) {
      ClientStepKeeps(ids, w, e);
    } else {
      ChannelStepKeeps(ids, w, e);
    }
  }

  /** In a consistent state the guards ask no more of a channel than to be there. */
  lemma GuardsAreExact(ids: Directory, w: World, c: int)
    requires Inv(ids, w)
    ensures Usable(w, c) <==> c in w.active
    ensures Leaving(w, c) <==> c in w.tree.live && c !in w.active
  {
  }

  // ----- what steps add to ids and owners

  /** A step creates at most one channel, with the next id, and gives boards only channels it creates. */
  ghost predicate Grows(w: World, w': World) {
    && w.tree.next <= w'.tree.next && w.tree.children.Keys <= w'.tree.children.Keys
    && w'.tree.live <= w.tree.live + {w.tree.next} && (w.tree.next in w'.tree.live ==> w.tree.next < w'.tree.next)
    && OwnersGrow(w.owner, w'.owner, w.tree.children.Keys)
  }

  /** Channels keep their board, and of the channels there are none gets one. */
  ghost predicate OwnersGrow(owner: map<int, string>, owner': map<int, string>, created: set<int>) {
    && (forall c :: c in owner ==> c in owner' && owner'[c] == owner[c])
    && (forall c :: c in owner' && c !in owner ==> c !in created)
  }

  lemma SameGrows(w: World, w': World)
    requires SameIds(w, w') && w.tree.next !in w.tree.live
    ensures Grows(w, w')
  {
  }

  lemma CreateGrows(w: World, w': World, p: int, temporary: bool)
    requires p in w.tree.children && w'.tree == Create(w.tree, p, temporary)
    requires OwnersGrow(w.owner, w'.owner, w.tree.children.Keys)
    ensures Grows(w, w')
  {
    CreateColumns(w.tree, p, temporary);
  }

  lemma ResolveGrows(w: World, board: string, u: Client)
    requires ROOT in w.tree.children && w.tree.next !in w.tree.live && w.tree.next !in w.owner
    requires w.tree.next !in w.tree.children
    ensures Grows(w, Resolve(w, board, u))
  {
    if board in w.rooms && w.rooms[board].channel in w.tree.live {
      SameGrows(w, Resolve(w, board, u));
    } else {
      CreateGrows(w, Resolve(w, board, u), ROOT, true);
    }
  }

  lemma StepGrows(ids: Directory, w: World, e: Event)
    requires Inv(ids, w) && Enabled(ids, w, e)
    ensures Grows(w, Next(ids, w, e))
  {
    if e.ResolveBoard? {
      ResolveGrows(w, BoardOf(ids, e.u), e.u);
    } else if e.CreateChannel? {
      CreateGrows(w, Next(ids, w, e), e.p, e.temporary);
    } else {
      if OfClients(e) {
        ClientStepSameIds(ids, w, e);
      } else {
        ChannelStepSameIds(ids, w, e);
      }
      SameGrows(w, Next(ids, w, e));
    }
  }

  /** The step makes no channel. */
  predicate SameIds(w: World, w': World) {
    && w'.tree.next == w.tree.next && w'.tree.children.Keys == w.tree.children.Keys
    && w'.tree.live <= w.tree.live && w'.owner == w.owner
  }

  lemma ClientStepSameIds(ids: Directory, w: World, e: Event)
    requires Enabled(ids, w, e) && OfClients(e) && !e.ResolveBoard?
    ensures SameIds(w, Next(ids, w, e))
  {
  }

  lemma ChannelStepSameIds(ids: Directory, w: World, e: Event)
    requires Enabled(ids, w, e) && !OfClients(e) && !e.CreateChannel?
    ensures SameIds(w, Next(ids, w, e))
  {
    match e
    case Reparent(c, p) => assert Move(w.tree, c, p).children.Keys == w.tree.children.Keys;
    case FinishRemove(c) => assert Detached(w.tree, c).children.Keys == w.tree.children.Keys;
    case _ =>
  }

  /** Over many steps: no channel that appears reuses an id, and channels keep their board. */
  ghost predicate GrowsFar(w: World, w': World) {
    && w.tree.next <= w'.tree.next && w.tree.children.Keys <= w'.tree.children.Keys
    && (forall c :: c in w'.tree.live && c !in w.tree.live ==> c !in w.tree.children)
    && OwnersGrow(w.owner, w'.owner, w.tree.children.Keys)
  }

  lemma GrowsFurther(w: World, w1: World, w2: World)
    requires GrowsFar(w, w1) && Grows(w1, w2) && forall c :: c in w.tree.children ==> c < w.tree.next
    ensures GrowsFar(w, w2)
  {
  }

  lemma {:induction false} GrowingWorlds(worlds: seq<World>, i: nat, j: nat)
    requires i <= j < |worlds| && forall k :: 0 <= k < |worlds| - 1 ==> Grows(worlds[k], worlds[k + 1])
    requires forall c :: c in worlds[i].tree.children ==> c < worlds[i].tree.next
    ensures GrowsFar(worlds[i], worlds[j])
    decreases j - i
  {
    if i < j {
      GrowingWorlds(worlds, i, j - 1);
      assert Grows(worlds[j - 1], worlds[j - 1 + 1]);
      GrowsFurther(worlds[i], worlds[j - 1], worlds[j]);
    }
  }

  // ----- runs

  ghost predicate Steps(ids: Directory, w: World, e: Event, w': World) {
    Enabled(ids, w, e) && w' == Next(ids, w, e)
  }

  /** Event i leads from one world to the next. */
  ghost predicate Leads(step: (World, Event, World) -> bool, worlds: seq<World>, events: seq<Event>, i: int)
    requires |worlds| == |events| + 1 && 0 <= i < |events|
  {
    step(worlds[i], events[i], worlds[i + 1])
  }

  ghost predicate Chain(step: (World, Event, World) -> bool, worlds: seq<World>, events: seq<Event>) {
    |worlds| == |events| + 1 && forall i :: 0 <= i < |events| ==> Leads(step, worlds, events, i)
  }

  /** A run of the server from any consistent state: any events, in any order, each enabled when it happens. */
  ghost predicate Run(ids: Directory, worlds: seq<World>, events: seq<Event>) {
    worlds != [] && Inv(ids, worlds[0]) && Chain((w, e, w') => Steps(ids, w, e, w'), worlds, events)
  }

  lemma RunSteps(ids: Directory, worlds: seq<World>, events: seq<Event>, i: nat)
    requires Run(ids, worlds, events) && i < |events|
    ensures |worlds| == |events| + 1 && Steps(ids, worlds[i], events[i], worlds[i + 1])
  {
    assert Leads((w, e, w') => Steps(ids, w, e, w'), worlds, events, i);
  }

  lemma StepKeepsInv(ids: Directory, w: World, e: Event, w': World)
    requires Inv(ids, w) && Steps(ids, w, e, w')
    ensures Inv(ids, w')
  {
    NextKeepsInv(ids, w, e);
  }

  lemma {:induction false} RunKeepsInv(ids: Directory, worlds: seq<World>, events: seq<Event>, n: nat)
    requires Run(ids, worlds, events) && n < |worlds|
    ensures Inv(ids, worlds[n])
    decreases n
  {
    if n > 0 {
      RunKeepsInv(ids, worlds, events, n - 1);
      RunSteps(ids, worlds, events, n - 1);
      StepKeepsInv(ids, worlds[n - 1], events[n - 1], worlds[n]);
    }
  }

  lemma StepOfRunGrows(ids: Directory, worlds: seq<World>, events: seq<Event>, n: nat)
    requires Run(ids, worlds, events) && n < |events|
    ensures Grows(worlds[n], worlds[n + 1])
  {
    RunKeepsInv(ids, worlds, events, n);
    RunSteps(ids, worlds, events, n);
    StepGrows(ids, worlds[n], events[n]);
  }

  lemma IdsBelowNext(ids: Directory, worlds: seq<World>, events: seq<Event>, n: nat)
    requires Run(ids, worlds, events) && n < |worlds|
    ensures forall c :: c in worlds[n].tree.children ==> c < worlds[n].tree.next
  {
    RunKeepsInv(ids, worlds, events, n);
  }

  /** Ids are never reused: channels that appear later have ids that no channel had before; nor do boards move. */
  lemma IdsNeverReused(ids: Directory, worlds: seq<World>, events: seq<Event>, i: nat, j: nat)
    requires Run(ids, worlds, events) && i <= j < |worlds|
    ensures GrowsFar(worlds[i], worlds[j])
  {
    forall k | 0 <= k < |worlds| - 1 ensures Grows(worlds[k], worlds[k + 1]) {
      StepOfRunGrows(ids, worlds, events, k);
    }
    IdsBelowNext(ids, worlds, events, i);
    GrowingWorlds(worlds, i, j);
  }

  /** Over whole runs the channels stay a tree with consistent links, also amid removals; temporary ones are leaves. */
  lemma ChannelsStayFormed(ids: Directory, worlds: seq<World>, events: seq<Event>, n: nat)
    requires Run(ids, worlds, events) && n < |worlds|
    ensures Formed(worlds[n].tree, worlds[n].active)
    ensures var t := worlds[n].tree;
            forall p, x :: p in t.children && x in t.children[p] ==> p !in t.temporary
  {
    RunKeepsInv(ids, worlds, events, n);
    var t := worlds[n].tree;
    forall p, x | p in t.children && x in t.children[p] ensures p !in t.temporary {
      ParentsAreLasting(t, worlds[n].active, p, x);
    }
  }

  // ----- who hears whom

  function ChannelOf(w: World, u: Client): Option<int> {
    if u in w.tree.at then Some(w.tree.at[u]) else None
  }

  /**
    Whether the server passes on to target what sender says, having read the sender's channel: freely
    between clients without a board; else only through a room on that channel, to clients of its board.
   */
  ghost predicate Passes(ids: Directory, rooms: R.Rooms, target: Client, sender: Client, channel: Option<int>) {
    || (!Scoped(ids, target) && !Scoped(ids, sender))
    || (channel.Some? && OwnRoomOn(ids, rooms, target, channel.value))
  }

  ghost predicate Hears(ids: Directory, w: World, target: Client, sender: Client) {
    Passes(ids, w.rooms, target, sender, ChannelOf(w, sender))
  }

  /** A room on a channel that the sender was in, at that time or earlier, is of the sender's board. */
  lemma RoomOfSender(ids: Directory, w: World, w': World, target: Client, sender: Client)
    requires Confined(ids, w) && RoomsOwned(w'.rooms, w'.owner) && OwnersGrow(w.owner, w'.owner, w.tree.children.Keys)
    requires Scoped(ids, sender) && Passes(ids, w'.rooms, target, sender, ChannelOf(w, sender))
    ensures BoardOf(ids, target) == BoardOf(ids, sender)
  {
    var c := w.tree.at[sender];
    OwnRoom(ids, w'.rooms, w'.owner, target, c);
    assert c in w.owner;
  }

  /**
    Board isolation over whole runs: the sender's channel is read in one state and the rooms are consulted
    in the same or any later one, and still only clients of the sender's board are passed anything.
   */
  lemma BoardsStayApart(ids: Directory, worlds: seq<World>, events: seq<Event>, i: nat, j: nat,
                        target: Client, sender: Client)
    requires Run(ids, worlds, events) && i <= j < |worlds| && Scoped(ids, sender)
    requires Passes(ids, worlds[j].rooms, target, sender, ChannelOf(worlds[i], sender))
    ensures BoardOf(ids, target) == BoardOf(ids, sender)
  {
    RunKeepsInv(ids, worlds, events, i);
    RunKeepsInv(ids, worlds, events, j);
    IdsNeverReused(ids, worlds, events, i, j);
    RoomOfSender(ids, worlds[i], worlds[j], target, sender);
  }

  /** Exactly when a scoped sender is heard: by its own board, from the channel of its board's room. */
  lemma HeardByOwnBoard(ids: Directory, w: World, target: Client, sender: Client)
    requires Inv(ids, w) && Scoped(ids, sender)
    ensures Hears(ids, w, target, sender) <==>
              && BoardOf(ids, target) == BoardOf(ids, sender)
              && sender in w.tree.at && BoardOf(ids, sender) in w.rooms
              && w.rooms[BoardOf(ids, sender)].channel == w.tree.at[sender]
  {
    if Hears(ids, w, target, sender) {
      OwnRoom(ids, w.rooms, w.owner, target, w.tree.at[sender]);
    } else if BoardOf(ids, target) == BoardOf(ids, sender) && BoardOf(ids, sender) in w.rooms {
      assert R.Trim(w.rooms[BoardOf(ids, sender)].board) == BoardOf(ids, target);
    }
  }

  // ----- delivery

  /** Those of some candidates to whom a packet goes: they pass the board check and may receive voice. */
  ghost function Recipients(ids: Directory, rooms: R.Rooms, channel: Option<int>, candidates: set<Client>,
                            sender: Client, mayReceive: Client -> bool): set<Client> {
    set u | u in candidates && Passes(ids, rooms, u, sender, channel) && mayReceive(u)
  }

  /** Speaking: the candidates are the others that the sender's channel lists. */
  ghost function SpokenTo(ids: Directory, w: World, sender: Client, mayReceive: Client -> bool): set<Client> {
    if sender in w.tree.at && w.tree.at[sender] in w.tree.members then
      Recipients(ids, w.rooms, ChannelOf(w, sender), w.tree.members[w.tree.at[sender]] - {sender}, sender, mayReceive)
    else {}
  }

  /**
    Whoever the candidates are, the list of a channel or the audience of a whisper, computed just now or
    cached before anything else happened: the recipients are of the sender's board.
   */
  lemma DeliveryStaysOnBoard(ids: Directory, worlds: seq<World>, events: seq<Event>, i: nat, j: nat,
                             candidates: set<Client>, sender: Client, mayReceive: Client -> bool)
    requires Run(ids, worlds, events) && i <= j < |worlds| && Scoped(ids, sender)
    ensures forall u :: u in Recipients(ids, worlds[j].rooms, ChannelOf(worlds[i], sender), candidates, sender, mayReceive)
              ==> BoardOf(ids, u) == BoardOf(ids, sender)
  {
    forall u | u in Recipients(ids, worlds[j].rooms, ChannelOf(worlds[i], sender), candidates, sender, mayReceive)
      ensures BoardOf(ids, u) == BoardOf(ids, sender)
    {
      BoardsStayApart(ids, worlds, events, i, j, u, sender);
    }
  }

  /** What a scoped client says goes exactly to the others of its board in its channel, if the board's room is there. */
  lemma SpokenToExact(ids: Directory, w: World, sender: Client, mayReceive: Client -> bool, u: Client)
    requires Inv(ids, w) && Scoped(ids, sender)
    ensures u in SpokenTo(ids, w, sender, mayReceive) <==>
              && sender in w.tree.at && u in w.tree.members[w.tree.at[sender]] && u != sender && mayReceive(u)
              && BoardOf(ids, u) == BoardOf(ids, sender)
              && BoardOf(ids, sender) in w.rooms && w.rooms[BoardOf(ids, sender)].channel == w.tree.at[sender]
  {
    HeardByOwnBoard(ids, w, u, sender);
  }

  /** Over whole runs a scoped client's whisper targets name channels of its own board only. */
  lemma TargetsStayOnBoard(ids: Directory, worlds: seq<World>, events: seq<Event>, n: nat, u: Client, c: int)
    requires Run(ids, worlds, events) && n < |worlds| && (u, c) in worlds[n].targets && Scoped(ids, u)
    ensures c in worlds[n].owner && worlds[n].owner[c] == BoardOf(ids, u)
  {
    RunKeepsInv(ids, worlds, events, n);
  }

  // ----- where clients are

  ghost predicate Placement(w: World) {
    Placed(w.tree.live, w.tree.members, w.tree.at)
  }

  /** Nobody else in the channel has the client's session number, and the client is in no other channel. */
  predicate Alone(ids: Directory, t: Tree, u: Client, c: int)
    requires c in t.members
  {
    && (u in t.at ==> t.at[u] == c)
    && (forall v :: v in t.members[c] && v != u ==> ids.session(v) != ids.session(u))
  }

  /** The step does not disturb the places of clients. */
  predicate Orderly(ids: Directory, w: World, e: Event) {
    match e
    case LeaveNoted(u, c) => c in w.tree.members && Alone(ids, w.tree, u, c)
    case EnterPending(u) =>
      && u in w.pending && w.pending[u] in w.tree.members
      && w.pending[u] in w.tree.live && Alone(ids, w.tree, u, w.pending[u])
    case FinishRemove(c) => c in w.tree.members && w.tree.members[c] == {}
    case _ => true
  }

  lemma OutPlaced(ids: Directory, t: Tree, u: Client, c: int)
    requires Placed(t.live, t.members, t.at) && c in t.members
    ensures var t' := Out(ids, t, u, c); Placed(t'.live, t'.members, t'.at) <==> Alone(ids, t, u, c)
  {
    var t' := Out(ids, t, u, c);
    if u in t.at && t.at[u] != c {
      assert u in t'.members[t.at[u]] && u !in t'.at;
    } else if v :| v in t.members[c] && v != u && ids.session(v) == ids.session(u) {
      assert v in t'.at && t'.at[v] == c && v !in t'.members[c];
    }
  }

  lemma InPlaced(ids: Directory, t: Tree, u: Client, c: int)
    requires Placed(t.live, t.members, t.at) && c in t.members
    ensures var t' := In(ids, t, u, c);
            Placed(t'.live, t'.members, t'.at) <==> c in t.live && Alone(ids, t, u, c)
  {
    var t' := In(ids, t, u, c);
    if u in t.at && t.at[u] != c {
      assert u in t'.members[t.at[u]] && t'.at[u] == c;
    } else if v :| v in t.members[c] && v != u && ids.session(v) == ids.session(u) {
      assert v in t'.at && t'.at[v] == c && v !in t'.members[c];
    } else if c !in t.live {
      assert t'.at[u] == c && u in t'.at;
    }
  }

  lemma DetachedPlaced(t: Tree, c: int)
    requires Placed(t.live, t.members, t.at) && c in t.members && c in t.parent && t.parent[c] in t.children
    ensures var t' := Detached(t, c); Placed(t'.live, t'.members, t'.at) <==> t.members[c] == {}
  {
    if t.members[c] == {} {
      PlacedDetached(t.live, t.members, t.at, c);
    } else {
      var u :| u in t.members[c];
      assert u in t.at && t.at[u] == c;
    }
  }

  lemma CreatePlaced(t: Tree, p: int, temporary: bool)
    requires Placed(t.live, t.members, t.at) && p in t.children && t.next !in t.members
    ensures var t' := Create(t, p, temporary); Placed(t'.live, t'.members, t'.at)
  {
    PlacedWithNew(t.live, t.members, t.at, t.next);
  }

  /**
    From a state where every client is in the one channel that lists it, a step leads to such a state
    exactly if it is orderly.
   */
  lemma PlacementExact(ids: Directory, w: World, e: Event)
    requires Inv(ids, w) && Enabled(ids, w, e) && Placement(w)
    ensures Placement(Next(ids, w, e)) <==> Orderly(ids, w, e)
  {
    match e
    case LeaveNoted(u, c) => OutPlaced(ids, w.tree, u, c);
    case EnterPending(u) => InPlaced(ids, w.tree, u, w.pending[u]);
    case FinishRemove(c) => DetachedPlaced(w.tree, c);
    case CreateChannel(u, p, temporary) => CreatePlaced(w.tree, p, temporary);
    case ResolveBoard(u) => CreatePlaced(w.tree, ROOT, true);
    case _ =>
  }

  lemma StepStaysPlaced(ids: Directory, w: World, e: Event, w': World)
    requires Inv(ids, w) && Steps(ids, w, e, w') && Placement(w) && Orderly(ids, w, e)
    ensures Placement(w')
  {
    PlacementExact(ids, w, e);
  }

  lemma RunStaysPlaced(ids: Directory, worlds: seq<World>, events: seq<Event>, k: nat)
    requires Run(ids, worlds, events) && k + 1 < |worlds| && k < |events|
    requires Placement(worlds[k]) && Orderly(ids, worlds[k], events[k])
    ensures Placement(worlds[k + 1])
  {
    RunKeepsInv(ids, worlds, events, k);
    RunSteps(ids, worlds, events, k);
    StepStaysPlaced(ids, worlds[k], events[k], worlds[k + 1]);
  }

  /** Over whole runs clients stay in the one channel that lists them as long as every step is orderly. */
  lemma {:induction false} ClientsStayPlaced(ids: Directory, worlds: seq<World>, events: seq<Event>, n: nat)
    requires Run(ids, worlds, events) && n < |worlds| && Placement(worlds[0])
    requires forall i :: 0 <= i < n ==> Orderly(ids, worlds[i], events[i])
    ensures Placement(worlds[n])
    decreases n
  {
    if n > 0 {
      ClientsStayPlaced(ids, worlds, events, n - 1);
      RunStaysPlaced(ids, worlds, events, n - 1);
    }
  }

  /**
    A run that is not orderly, from any state with a client in one channel and allowed into another: the
    client disconnects and its channel is read, it is moved meanwhile, and then taken off the channel read.
   */
  function StaleLeave(u: Client, a: int, b: int): seq<Event> {
    [NoteChannel(u), AllowMove(u, b), NoteChannel(u), LeaveNoted(u, a), EnterPending(u), LeaveNoted(u, a)]
  }

  function Noting(w: World, u: Client, a: int): World {
    w.(noted := w.noted + multiset{(u, a)})
  }

  function Allowing(w: World, u: Client, b: int): World {
    w.(pending := w.pending[u := b])
  }

  function Taking(ids: Directory, w: World, u: Client, a: int): World
    requires a in w.tree.members
  {
    w.(tree := Out(ids, w.tree, u, a), noted := w.noted - multiset{(u, a)})
  }

  function Putting(ids: Directory, w: World, u: Client, b: int): World
    requires b in w.tree.members
  {
    w.(tree := In(ids, w.tree, u, b), pending := w.pending - {u})
  }

  lemma NoteStep(ids: Directory, w: World, u: Client, a: int)
    requires u in w.tree.at && w.tree.at[u] == a
    ensures Steps(ids, w, NoteChannel(u), Noting(w, u, a))
  {
  }

  lemma AllowStep(ids: Directory, w: World, u: Client, b: int)
    requires Usable(w, b) && (Scoped(ids, u) ==> OwnRoomOn(ids, w.rooms, u, b))
    ensures Steps(ids, w, AllowMove(u, b), Allowing(w, u, b))
  {
  }

  lemma TakeStep(ids: Directory, w: World, u: Client, a: int)
    requires (u, a) in w.noted && a in w.tree.members
    ensures Steps(ids, w, LeaveNoted(u, a), Taking(ids, w, u, a))
  {
  }

  lemma PutStep(ids: Directory, w: World, u: Client, b: int)
    requires u in w.pending && w.pending[u] == b && b in w.tree.members
    ensures Steps(ids, w, EnterPending(u), Putting(ids, w, u, b))
  {
  }

  /** In the end the second channel lists the client, and the client knows of no channel. */
  lemma StaleTree(ids: Directory, t: Tree, u: Client, a: int, b: int)
    requires a in t.members && b in t.members && a != b
    ensures var t' := Out(ids, In(ids, Out(ids, t, u, a), u, b), u, a);
            u in t'.members[b] && u !in t'.at && !Placed(t'.live, t'.members, t'.at)
  {
  }

  lemma ThreeSteps(step: (World, Event, World) -> bool, w: World, e1: Event, w1: World, e2: Event, w2: World,
                   e3: Event, w3: World)
    requires step(w, e1, w1) && step(w1, e2, w2) && step(w2, e3, w3)
    ensures Chain(step, [w, w1, w2, w3], [e1, e2, e3])
  {
    forall i | 0 <= i < 3 ensures Leads(step, [w, w1, w2, w3], [e1, e2, e3], i) {
    }
  }

  lemma ChainsJoin(step: (World, Event, World) -> bool, ws: seq<World>, es: seq<Event>, ws': seq<World>, es': seq<Event>)
    requires Chain(step, ws, es) && Chain(step, ws', es') && ws[|ws| - 1] == ws'[0]
    ensures Chain(step, ws + ws'[1..], es + es')
  {
    var all, events := ws + ws'[1..], es + es';
    forall i | 0 <= i < |events| ensures Leads(step, all, events, i) {
      if i < |es| {
        assert Leads(step, ws, es, i);
      } else {
        assert Leads(step, ws', es', i - |es|);
        assert all[i] == ws'[i - |es|];
      }
    }
  }

  /** The channel is read, the move allowed, the channel read again. */
  lemma NotedTwice(ids: Directory, w: World, u: Client, a: int, b: int) returns (ws: seq<World>)
    requires u in w.tree.at && w.tree.at[u] == a && Usable(w, b)
    requires Scoped(ids, u) ==> OwnRoomOn(ids, w.rooms, u, b)
    ensures Chain((w, e, w') => Steps(ids, w, e, w'), ws, [NoteChannel(u), AllowMove(u, b), NoteChannel(u)])
    ensures ws[0] == w && ws[3].tree == w.tree && ws[3].noted[(u, a)] >= 2 && u in ws[3].pending && ws[3].pending[u] == b
  {
    var w1 := Noting(w, u, a);
    var w2 := Allowing(w1, u, b);
    var w3 := Noting(w2, u, a);
    NoteStep(ids, w, u, a);
    AllowStep(ids, w1, u, b);
    NoteStep(ids, w2, u, a);
    ws := [w, w1, w2, w3];
    ThreeSteps((w, e, w') => Steps(ids, w, e, w'), w, NoteChannel(u), w1, AllowMove(u, b), w2, NoteChannel(u), w3);
  }

  /** The client is taken off, put in, and taken off again where it no longer is. */
  lemma TakenTwice(ids: Directory, w: World, u: Client, a: int, b: int) returns (ws: seq<World>)
    requires a in w.tree.members && b in w.tree.members && a != b
    requires w.noted[(u, a)] >= 2 && u in w.pending && w.pending[u] == b
    ensures Chain((w, e, w') => Steps(ids, w, e, w'), ws, [LeaveNoted(u, a), EnterPending(u), LeaveNoted(u, a)])
    ensures ws[0] == w
    ensures b in ws[3].tree.members && u in ws[3].tree.members[b] && u !in ws[3].tree.at && !Placement(ws[3])
  {
    var w1 := Taking(ids, w, u, a);
    var w2 := Putting(ids, w1, u, b);
    var w3 := Taking(ids, w2, u, a);
    TakeStep(ids, w, u, a);
    PutStep(ids, w1, u, b);
    TakeStep(ids, w2, u, a);
    ws := [w, w1, w2, w3];
    ThreeSteps((w, e, w') => Steps(ids, w, e, w'), w, LeaveNoted(u, a), w1, EnterPending(u), w2, LeaveNoted(u, a), w3);
    StaleTree(ids, w.tree, u, a, b);
  }

  lemma StaleLeaveUnsettles(ids: Directory, w: World, u: Client, a: int, b: int) returns (ws: seq<World>)
    requires Inv(ids, w) && u in w.tree.at && w.tree.at[u] == a && a != b && Usable(w, b)
    requires Scoped(ids, u) ==> OwnRoomOn(ids, w.rooms, u, b)
    ensures |ws| == 7 && ws[0] == w && Run(ids, ws, StaleLeave(u, a, b))
    ensures b in ws[6].tree.members && u in ws[6].tree.members[b] && u !in ws[6].tree.at && !Placement(ws[6])
  {
    assert a in w.tree.members;
    var first := NotedTwice(ids, w, u, a, b);
    var second := TakenTwice(ids, first[3], u, a, b);
    var es, es' := [NoteChannel(u), AllowMove(u, b), NoteChannel(u)], [LeaveNoted(u, a), EnterPending(u), LeaveNoted(u, a)];
    ChainsJoin((w, e, w') => Steps(ids, w, e, w'), first, es, second, es');
    assert es + es' == StaleLeave(u, a, b);
    ws := first + second[1..];
  }

  /** Where clients are where they should be and session numbers differ, the two steps of entering are one. */
  lemma OutAndInIsEnter(ids: Directory, t: Tree, u: Client, c: int)
    requires Placed(t.live, t.members, t.at) && u in t.at && c in t.members && t.at[u] != c
    requires Alone(ids, t, u, t.at[u])
    requires forall v :: v in t.members[c] && v != u ==> ids.session(v) != ids.session(u)
    ensures In(ids, Out(ids, t, u, t.at[u]), u, c) == Enter(t, u, c)
  {
    var a := t.at[u];
    assert u in t.members[a] && u !in t.members[c];
    assert Without(ids, t.members[a], u) == t.members[a] - {u};
    assert Without(ids, t.members[c], u) == t.members[c];
    assert (t.at - {u})[u := c] == t.at[u := c];
  }

  // ----- the checks as the server makes them

  /** An answer that the search for a room on a channel may give; there is none without a channel. */
  ghost predicate Found(w: World, c: Option<int>, found: Option<R.Room>) {
    if found.Some? then c.Some? && R.OnChannel(w.rooms, c.value, found.value)
    else c.Some? ==> forall b :: b in w.rooms ==> w.rooms[b].channel != c.value
  }

  predicate CanReceiveFromClient(ids: Directory, target: Client, sender: Client, found: Option<R.Room>) {
    if !Scoped(ids, target) && !Scoped(ids, sender) then true
    else if found.None? then false
    else R.SameBoard(ids.who(target), found)
  }

  predicate CanMoveBoardScopedClient(ids: Directory, u: Client, found: Option<R.Room>) {
    if !Scoped(ids, u) then true
    else if found.None? then false
    else R.SameBoard(ids.who(u), found)
  }

  /** A client that is nowhere may be named in a whisper target unchecked. */
  predicate CanAccessVoiceTargetChannel(ids: Directory, u: Client, c: Option<int>, found: Option<R.Room>) {
    if c.None? || !Scoped(ids, u) then true
    else if found.None? then false
    else R.SameBoard(ids.who(u), found)
  }

  /** In a consistent state a channel has one room at most. */
  lemma OneRoomPerChannel(ids: Directory, w: World, a: string, b: string)
    requires Inv(ids, w) && a in w.rooms && b in w.rooms && w.rooms[a].channel == w.rooms[b].channel
    ensures a == b
  {
    assert w.owner[w.rooms[a].channel] == a;
  }

  /** Whatever room the search comes upon, the checks answer what the protocol says. */
  lemma ChecksAreExact(ids: Directory, w: World, target: Client, sender: Client, c: int, found: Option<R.Room>)
    requires Inv(ids, w)
    ensures Found(w, ChannelOf(w, sender), found) ==>
              (CanReceiveFromClient(ids, target, sender, found) <==> Hears(ids, w, target, sender))
    ensures Found(w, Some(c), found) ==>
              (CanMoveBoardScopedClient(ids, target, found) <==>
                (Scoped(ids, target) ==> OwnRoomOn(ids, w.rooms, target, c)))
    ensures Found(w, Some(c), found) ==>
              (CanAccessVoiceTargetChannel(ids, sender, Some(c), found) <==>
                (Scoped(ids, sender) ==> OwnRoomOn(ids, w.rooms, sender, c)))
  {
    if Found(w, ChannelOf(w, sender), found) && sender in w.tree.at {
      SearchIsExact(ids, w, target, w.tree.at[sender], found);
    }
    if Found(w, Some(c), found) {
      SearchIsExact(ids, w, target, c, found);
      SearchIsExact(ids, w, sender, c, found);
    }
  }

  lemma SearchIsExact(ids: Directory, w: World, u: Client, c: int, found: Option<R.Room>)
    requires Inv(ids, w) && Found(w, Some(c), found)
    ensures OwnRoomOn(ids, w.rooms, u, c) <==> found.Some? && R.SameBoard(ids.who(u), found)
  {
    if OwnRoomOn(ids, w.rooms, u, c) {
      var b :| b in w.rooms && w.rooms[b].channel == c && R.SameBoard(ids.who(u), Some(w.rooms[b]));
      if found.Some? {
        var a :| a in w.rooms && w.rooms[a] == found.value && found.value.channel == c;
        OneRoomPerChannel(ids, w, a, b);
      }
    }
  }
}

/** Whispering: the audience of a voice target, computed once and kept until the caches are cleared. */
module VoiceTarget {
  import opened Prelude
  import opened ChannelTree
  import opened Worklist
  import ChannelServer

  /** A channel named in a voice target, and how far beyond it the voice goes. */
  datatype TargetChannel = TargetChannel(id: int, subChannels: bool, links: bool, onlyGroup: string)

  /**
    The server as one client sees it when it sends: the channels, who is connected, where the sender may
    whisper, and who is in which group of a channel.
   */
  datatype Scene = Scene(
    tree: Tree,
    connected: set<Client>,
    mayWhisper: int -> bool,
    inGroup: (int, string, Client) -> bool)

  // ----- the audience

  /** The channels a target covers: itself or its link closure, and its subtree if asked. */
  ghost predicate Covers(t: Tree, target: TargetChannel, c: int) {
    && target.id in t.live && c in t.live
    && (|| (if target.links then Reachable(t.links, target.id, c) else c == target.id)
        || (target.subChannels && c in Subtree(t, target.id) && c != target.id))
  }

  ghost predicate Reaches(s: Scene, target: TargetChannel, u: Client) {
    && u in s.tree.at && Covers(s.tree, target, s.tree.at[u]) && s.mayWhisper(s.tree.at[u])
    && (target.onlyGroup == "" || s.inGroup(s.tree.at[u], target.onlyGroup, u))
  }

  /** Everybody the target channels reach, except the sender. */
  ghost function FromChannels(s: Scene, channels: seq<TargetChannel>, sender: Client): set<Client> {
    set u | u in s.tree.at && u != sender && exists i :: 0 <= i < |channels| && Reaches(s, channels[i], u)
  }

  /** The listed sessions that are connected and not reached already, except the sender. */
  ghost function Direct(s: Scene, channels: seq<TargetChannel>, sessions: seq<Client>, sender: Client): set<Client> {
    set u | u in sessions && u in s.connected && u != sender && u !in FromChannels(s, channels, sender)
  }

  /**
    Who hears a whisper to channels: whoever some channel lists that the sender may whisper to and that a target
    leads to, by its links or as itself, or by going down from it, with the group asked for.
   */
  lemma AudienceIs(s: Scene, channels: seq<TargetChannel>, sender: Client, u: Client)
    requires Inv(s.tree)
    ensures u in FromChannels(s, channels, sender) <==>
              && u != sender
              && exists i, c :: 0 <= i < |channels| && Covered(s.tree, channels[i], c) && u in s.tree.members[c]
                   && s.mayWhisper(c) && (channels[i].onlyGroup == "" || s.inGroup(c, channels[i].onlyGroup, u))
  {
    forall target, c ensures Covers(s.tree, target, c) <==> Covered(s.tree, target, c) {
      CoversIs(s.tree, target, c);
    }
    if u in FromChannels(s, channels, sender) {
      var i :| 0 <= i < |channels| && Reaches(s, channels[i], u);
      assert Covered(s.tree, channels[i], s.tree.at[u]);
    }
    if i, c :| 0 <= i < |channels| && Covered(s.tree, channels[i], c) && u in s.tree.members[c]
               && s.mayWhisper(c) && (channels[i].onlyGroup == "" || s.inGroup(c, channels[i].onlyGroup, u)) {
      assert Reaches(s, channels[i], u);
    }
  }

  /** A channel a target leads to, along links or children. */
  ghost predicate Covered(t: Tree, target: TargetChannel, c: int) {
    && target.id in t.live && c in t.members
    && (|| (!target.links && c == target.id)
        || (target.links && Reachable(t.links, target.id, c))
        || (target.subChannels && Reachable(t.children, target.id, c)))
  }

  lemma CoversIs(t: Tree, target: TargetChannel, c: int)
    requires Inv(t)
    ensures Covers(t, target, c) <==> Covered(t, target, c)
  {
    if target.id in t.live {
      ChannelServer.BelowIsReachable(t, t.live, target.id, c);
      if Reachable(t.links, target.id, c) {
        ReachedIsLive(t, target.id, c);
      }
    }
  }

  lemma SomeOf<T>(s: set<T>) returns (b: T)
    requires s != {}
    ensures b in s
  {
    b :| b in s;
  }

  /** A target that asks for links leads back to its own channel exactly if that has any. */
  lemma LinklessTarget(t: Tree, target: TargetChannel)
    requires Inv(t) && target.id in t.live && target.links
    ensures Covers(t, target, target.id) <==> t.links[target.id] != {}
    ensures t.links[target.id] == {} && !target.subChannels ==> forall c :: !Covers(t, target, c)
  {
    var a := target.id;
    if t.links[a] != {} {
      var b := SomeOf(t.links[a]);
      assert Walk(t.links, [a, b, a]);
    }
    forall c | Reachable(t.links, a, c) ensures t.links[a] != {} {
      var p :| Walk(t.links, p) && p[0] == a && p[|p| - 1] == c;
      assert p[0 + 1] in t.links[p[0]];
    }
  }

  /** The two parts of an audience never overlap, and together they are those reached and those listed. */
  lemma AudienceDisjoint(s: Scene, channels: seq<TargetChannel>, sessions: seq<Client>, sender: Client)
    ensures FromChannels(s, channels, sender) !! Direct(s, channels, sessions, sender)
    ensures sender !in FromChannels(s, channels, sender) + Direct(s, channels, sessions, sender)
    ensures forall u :: u in FromChannels(s, channels, sender) + Direct(s, channels, sessions, sender) <==>
              u in FromChannels(s, channels, sender) || (u != sender && u in sessions && u in s.connected)
  {
  }

  /** The channels of one target, as the server collects them. */
  method CollectChannels(server: ChannelServer.Server, target: TargetChannel) returns (channels: set<int>)
    requires Inv(server.t) && target.id in server.t.live
    ensures forall c :: c in channels <==> Covers(server.t, target, c)
  {
    ghost var t := server.t;
    if target.links {
      channels := server.AllLinks(target.id);
      forall c | c in channels ensures c in t.live {
        ReachedIsLive(t, target.id, c);
      }
    } else {
      channels := {target.id};
    }
    if target.subChannels {
      var sub := server.AllSubChannels(target.id);
      channels := channels + sub;
    }
  }

  lemma ReachedIsLive(t: Tree, a: int, c: int)
    requires Inv(t) && a in t.live && Reachable(t.links, a, c)
    ensures c in t.live
  {
    var p :| Walk(t.links, p) && p[0] == a && p[|p| - 1] == c;
    ClosedHoldsWalk(t.links, a, t.live, p, |p| - 1);
  }

  class Target {
    var sessions: seq<Client>
    var channels: seq<TargetChannel>
    var directCache: Option<set<Client>>
    var fromChannelsCache: Option<set<Client>>

    ghost predicate Valid()
      reads this
    {
      && (directCache.Some? <==> fromChannelsCache.Some?)
      && (directCache.Some? ==> directCache.value !! fromChannelsCache.value)
    }

    /** The audience cached: those reached through channels, and those listed. */
    ghost function State(): Cache
      requires Valid()
      reads this
    {
      if directCache.Some? then Some((fromChannelsCache.value, directCache.value)) else None
    }

    constructor (sessions: seq<Client>, channels: seq<TargetChannel>)
      ensures Valid() && State().None? && this.sessions == sessions && this.channels == channels
    {
      this.sessions, this.channels := sessions, channels;
      directCache, fromChannelsCache := None, None;
    }

    method ClearCache()
      modifies this`directCache, this`fromChannelsCache
      ensures Valid() && State() == None
    {
      directCache, fromChannelsCache := None, None;
    }

    /** The audience by walking targets, channels and members. */
    method ComputeAudience(server: ChannelServer.Server, s: Scene, sender: Client)
      returns (direct: set<Client>, fromChannels: set<Client>)
      requires server.t == s.tree && Inv(s.tree)
      ensures fromChannels == FromChannels(s, channels, sender)
      ensures direct == Direct(s, channels, sessions, sender)
    {
      fromChannels := {};
      for i := 0 to |channels|
        invariant forall u :: u in fromChannels <==> exists j :: 0 <= j < i && Reaches(s, channels[j], u)
      {
        var target := channels[i];
        if target.id in s.tree.live {
          var reached := MembersOf(server, s, target);
          fromChannels := fromChannels + reached;
        }
      }
      direct := {};
      for i := 0 to |sessions|
        invariant forall u :: u in direct <==> u in sessions[..i] && u in s.connected && u !in fromChannels
      {
        if sessions[i] in s.connected && sessions[i] !in fromChannels {
          direct := direct + {sessions[i]};
        }
      }
      assert sessions[..|sessions|] == sessions;
      direct, fromChannels := direct - {sender}, fromChannels - {sender};
    }

    /** The members of a target's channels whom the sender may whisper to and who are in the group asked for. */
    static method MembersOf(server: ChannelServer.Server, s: Scene, target: TargetChannel) returns (r: set<Client>)
      requires server.t == s.tree && Inv(s.tree) && target.id in s.tree.live
      ensures forall u :: u in r <==> Reaches(s, target, u)
    {
      var todo := CollectChannels(server, target);
      ghost var all := todo;
      r := {};
      while todo != {}
        invariant todo <= all
        invariant forall u :: u in r <==> Reaches(s, target, u) && s.tree.at[u] !in todo
        decreases todo
      {
        var c := Pick(todo);
        if s.mayWhisper(c) {
          var more := set u | u in s.tree.members[c] && (target.onlyGroup == "" || s.inGroup(c, target.onlyGroup, u));
          r := r + more;
        }
        todo := todo - {c};
      }
    }

    /**
      Sends to the audience, computing it only when it is not cached. Every member is attempted once;
      those the receive checks turn down are skipped.
     */
    method SendVoiceBroadcast(server: ChannelServer.Server, s: Scene, sender: Client, passes: Client -> bool)
      returns (attempted: seq<Client>, sent: set<Client>)
      requires Valid() && server.t == s.tree && Inv(s.tree)
      modifies this`directCache, this`fromChannelsCache
      ensures Valid() && State() == Some(UsedBy(old(State()), s, channels, sessions, sender))
      ensures var (from, direct) := UsedBy(old(State()), s, channels, sessions, sender);
              && multiset(attempted) == multiset(from + direct)
              && sent == set u | u in from + direct && passes(u)
    {
      AudienceDisjoint(s, channels, sessions, sender);
      if directCache.None? || fromChannelsCache.None? {
        var d, f := ComputeAudience(server, s, sender);
        directCache, fromChannelsCache := Some(d), Some(f);
      }
      attempted, sent := AttemptBoth(fromChannelsCache.value, directCache.value, passes);
    }

    /** First those reached through channels, then those listed. */
    static method AttemptBoth(from: set<Client>, direct: set<Client>, passes: Client -> bool)
      returns (attempted: seq<Client>, sent: set<Client>)
      requires from !! direct
      ensures multiset(attempted) == multiset(from + direct)
      ensures sent == set u | u in from + direct && passes(u)
    {
      var a1, s1 := Attempt(from, passes);
      var a2, s2 := Attempt(direct, passes);
      attempted, sent := a1 + a2, s1 + s2;
      assert multiset(from + direct) == multiset(from) + multiset(direct);
    }

    static method Attempt(clients: set<Client>, passes: Client -> bool)
      returns (attempted: seq<Client>, sent: set<Client>)
      ensures multiset(attempted) == multiset(clients)
      ensures sent == set u | u in clients && passes(u)
    {
      attempted, sent := [], {};
      var todo := clients;
      while todo != {}
        invariant todo <= clients && multiset(attempted) == multiset(clients - todo)
        invariant sent == set u | u in clients - todo && passes(u)
        decreases todo
      {
        var u := Pick(todo);
        assert clients - (todo - {u}) == (clients - todo) + {u};
        attempted := attempted + [u];
        if passes(u) {
          sent := sent + {u};
        }
        todo := todo - {u};
      }
      assert clients - todo == clients;
    }
  }

  // ----- series of calls

  type Cache = Option<(set<Client>, set<Client>)>

  /** The audience a send uses, which is then the cached one. */
  ghost function UsedBy(cache: Cache, s: Scene, channels: seq<TargetChannel>, sessions: seq<Client>, sender: Client)
    : (set<Client>, set<Client>)
  {
    if cache.Some? then cache.value
    else (FromChannels(s, channels, sender), Direct(s, channels, sessions, sender))
  }

  /** A call on a target: a send, with the server as it is then, or a clearing of its caches. */
  datatype Call = Send(s: Scene) | Clear

  /** The cache a target has after a series of calls, each doing what its method says. */
  ghost function CacheAfter(cache: Cache, calls: seq<Call>, channels: seq<TargetChannel>, sessions: seq<Client>,
                            sender: Client): Cache
  {
    if calls == [] then cache
    else
      var before := CacheAfter(cache, calls[..|calls| - 1], channels, sessions, sender);
      match calls[|calls| - 1]
      case Send(s) => Some(UsedBy(before, s, channels, sessions, sender))
      case Clear => None
  }

  /** The audience of the send at position i of a series. */
  ghost function AudienceAt(cache: Cache, calls: seq<Call>, i: nat, channels: seq<TargetChannel>,
                            sessions: seq<Client>, sender: Client): (set<Client>, set<Client>)
    requires i < |calls| && calls[i].Send?
  {
    UsedBy(CacheAfter(cache, calls[..i], channels, sessions, sender), calls[i].s, channels, sessions, sender)
  }

  /** Right after a clearing, or on a target with nothing cached, a send computes its audience afresh. */
  lemma AudienceIsFresh(cache: Cache, calls: seq<Call>, i: nat, channels: seq<TargetChannel>, sessions: seq<Client>,
                        sender: Client)
    requires i < |calls| && calls[i].Send? && (if i == 0 then cache.None? else calls[i - 1].Clear?)
    ensures AudienceAt(cache, calls, i, channels, sessions, sender)
         == (FromChannels(calls[i].s, channels, sender), Direct(calls[i].s, channels, sessions, sender))
  {
    if i > 0 {
      assert calls[..i][i - 1] == calls[i - 1];
    }
  }

  /** However the server changes, a send uses the audience of any earlier one since the caches were cleared. */
  lemma {:induction false} AudienceIsKept(cache: Cache, calls: seq<Call>, i: nat, j: nat, channels: seq<TargetChannel>,
                                          sessions: seq<Client>, sender: Client)
    requires i < j < |calls| && calls[j].Send? && forall k :: i <= k < j ==> calls[k].Send?
    ensures AudienceAt(cache, calls, j, channels, sessions, sender)
         == AudienceAt(cache, calls, i, channels, sessions, sender)
    decreases j - i
  {
    assert calls[..j][..j - 1] == calls[..j - 1] && calls[..j][j - 1] == calls[j - 1];
    if i < j - 1 {
      AudienceIsKept(cache, calls, i, j - 1, channels, sessions, sender);
    }
  }
}

/** The server's channel operations as it performs them: loops over lists and a recursive removal. */
module ChannelServer {
  import opened Prelude
  import opened ChannelTree
  import opened Worklist
  import ChannelExact
  import opened ChannelRefuge

  /** The ids of a list that belong to live channels. */
  function Among(ids: seq<int>, live: set<int>): set<int> {
    set x | x in ids && x in live
  }

  lemma SameSet(s: set<int>, ids: seq<int>, live: set<int>)
    requires forall x :: x in s <==> x in ids && x in live
    ensures s == Among(ids, live)
  {
    assert forall x :: x in s ==> x in ids && x in Among(ids, live);
    assert forall x :: x in Among(ids, live) ==> x in s;
  }

  class Server {
    var t: Tree

    constructor ()
      ensures Inv(t) && t == Initial()
    {
      t := Initial();
      new;
      InitialInv();
    }

    /** A channel below p for a client that the permission and certificate checks permit it, unless p is temporary. */
    method CreateChannel(p: int, temporary: bool, permitted: bool) returns (c: int, ok: bool)
      requires Inv(t) && p in t.live
      modifies this
      ensures Inv(t) && ok == (permitted && p !in old(t).temporary)
      ensures ok ==> c == old(t).next && c !in old(t).children && t == Create(old(t), p, temporary)
      ensures ok ==> t.parent == old(t).parent[c := p] && t.children[p] == old(t).children[p] + {c}
      ensures ok ==> (c in t.temporary <==> temporary)
      ensures !ok ==> t == old(t)
    {
      if !permitted || p in t.temporary {
        return 0, false;
      }
      CreateKeeps(t, t.live, p, temporary);
      ChannelExact.CreateExact(t, p, temporary);
      c, ok := t.next, true;
      t := Create(t, p, temporary);
    }

    /**
      Moves channel c below p. Refused when nothing would change, when p lies in the subtree of c, found
      by climbing from p, when p is temporary, or when the client is not permitted, a channel of that name
      below p included.
     */
    method Reparent(c: int, p: int, permitted: bool) returns (ok: bool)
      requires Inv(t) && c in t.live && p in t.live
      modifies this
      ensures Inv(t)
      ensures ok == (!Above(old(t).parent, c, p) && !(c in old(t).parent && old(t).parent[c] == p)
                     && p !in old(t).temporary && permitted)
      ensures t == if ok then Move(old(t), c, p) else old(t)
    {
      if c in t.parent && t.parent[c] == p {
        return false;
      }
      var above := IsAbove(c, p);
      if above || p in t.temporary || !permitted {
        return false;
      }
      MoveKeeps(t, t.live, c, p);
      t := Move(t, c, p);
      return true;
    }

    /** The link additions of a message; ids of no channel are skipped. */
    method AddLinks(c: int, add: seq<int>)
      requires Inv(t) && c in t.live
      modifies this
      ensures Inv(t) && t == old(t).(links := Joined(old(t).links, c, Among(add, old(t).live)))
    {
      ghost var ids: set<int> := {};
      NoneJoined(t.links, c);
      for i := 0 to |add|
        invariant Inv(t) && t == old(t).(links := Joined(old(t).links, c, ids))
        invariant forall x :: x in ids <==> x in add[..i] && x in old(t).live
      {
        assert add[..i + 1] == add[..i] + [add[i]];
        if add[i] in t.live {
          LinkKeeps(t, t.live, c, add[i]);
          JoinedOneMore(old(t).links, c, ids, add[i]);
          t := LinkChannels(t, c, add[i]);
          ids := ids + {add[i]};
        }
      }
      assert add[..|add|] == add;
      SameSet(ids, add, old(t).live);
    }

    /** The link removals of a message. */
    method RemoveLinks(c: int, remove: seq<int>)
      requires Inv(t) && c in t.live
      modifies this
      ensures Inv(t) && t == old(t).(links := Parted(old(t).links, c, Among(remove, old(t).live)))
    {
      ghost var ids: set<int> := {};
      NoneJoined(t.links, c);
      for i := 0 to |remove|
        invariant Inv(t) && t == old(t).(links := Parted(old(t).links, c, ids))
        invariant forall x :: x in ids <==> x in remove[..i] && x in old(t).live
      {
        assert remove[..i + 1] == remove[..i] + [remove[i]];
        if remove[i] in t.live {
          LinkKeeps(t, t.live, c, remove[i]);
          PartedOneMore(old(t).links, c, ids, remove[i]);
          t := UnlinkChannels(t, c, remove[i]);
          ids := ids + {remove[i]};
        }
      }
      assert remove[..|remove|] == remove;
      SameSet(ids, remove, old(t).live);
    }

    /**
      The link edits of a message: refused as a whole when the client may not link the channel, or any live
      channel to be added; otherwise additions first, then removals.
     */
    method EditLinks(c: int, add: seq<int>, remove: seq<int>, mayLink: int -> bool) returns (ok: bool)
      requires Inv(t) && c in t.live
      modifies this
      ensures Inv(t)
      ensures ok == ((add == [] && remove == [])
                     || (mayLink(c) && forall x :: x in add && x in old(t).live ==> mayLink(x)))
      ensures t == if ok then old(t).(links := Parted(Joined(old(t).links, c, Among(add, old(t).live)),
                                                      c, Among(remove, old(t).live)))
                   else old(t)
    {
      if add == [] && remove == [] {
        NoneJoined(t.links, c);
        SameSet({}, add, t.live);
        return true;
      }
      if !mayLink(c) {
        return false;
      }
      for i := 0 to |add|
        invariant t == old(t) && forall x :: x in add[..i] && x in t.live ==> mayLink(x)
      {
        var x: int := add[i];
        if x in t.live && !mayLink(x) {
          assert x in add && x in old(t).live;
          return false;
        }
        assert add[..i + 1] == add[..i] + [add[i]];
      }
      assert add[..|add|] == add;
      AddLinks(c, add);
      RemoveLinks(c, remove);
      ok := true;
    }

    /** Climbs from x to the root looking for c. */
    method IsAbove(c: int, x: int) returns (found: bool)
      requires Inv(t) && x in t.live
      ensures found == Above(t.parent, c, x)
    {
      var iter := x;
      ghost var k: nat :| Climbs(t.parent, x, ROOT, k);
      while iter != c && iter in t.parent
        invariant Climbs(t.parent, iter, ROOT, k)
        invariant Above(t.parent, c, iter) == Above(t.parent, c, x)
        decreases k
      {
        if Above(t.parent, c, iter) {
          AboveCases(t.parent, c, iter);
        }
        if Above(t.parent, c, t.parent[iter]) {
          AboveParent(t.parent, c, iter);
        }
        iter := t.parent[iter];
        k := k - 1;
      }
      found := iter == c;
      if found {
        AboveSelf(t.parent, c);
      } else if Above(t.parent, c, iter) {
        AboveCases(t.parent, c, iter);
      }
    }

    /** Takes c off the lists of its links, one after the other. */
    method UnlinkAll(c: int)
      requires c in t.links && t.links[c] <= t.links.Keys
      modifies this
      ensures t == Unlinked(old(t), c)
    {
      var todo: set<int> := t.links[c];
      ghost var all := todo;
      while todo != {}
        invariant todo <= all && t == old(t).(links := t.links) && t.links.Keys == old(t).links.Keys
        invariant forall x :: x in t.links ==>
          t.links[x] == if x in all && x !in todo then old(t).links[x] - {c} else old(t).links[x]
        decreases todo
      {
        var l := Pick(todo);
        t := t.(links := t.links[l := t.links[l] - {c}]);
        todo := todo - {l};
      }
      assert forall x :: x in t.links ==> t.links[x] == Unlinked(old(t), c).links[x];
    }

    /** Where a client of c goes when c is removed: the nearest channel above that lets it in, or the root. */
    method Refuge(c: int, u: Client, mayEnter: EnterCheck) returns (target: int)
      requires Shaped(t.children.Keys, t.live, t.next, t.parent) && Agreed(t.live, t.parent, t.children)
      requires Rooted(t.live, t.parent) && c in t.live && c in t.parent
      ensures target in t.live && StrictlyAbove(t.parent, target, c)
      ensures target == ROOT || mayEnter(t, target, u)
      ensures forall x :: StrictlyAbove(t.parent, x, c) && StrictlyAbove(t.parent, target, x) ==> !mayEnter(t, x, u)
    {
      target := t.parent[c];
      AboveSelf(t.parent, target);
      ghost var k: nat :| Climbs(t.parent, target, ROOT, k);
      forall x | StrictlyAbove(t.parent, x, c) && StrictlyAbove(t.parent, target, x) ensures false {
        Acyclic(t.parent, target);
        Cycle(t.parent, x, target);
      }
      while target in t.parent && !mayEnter(t, target, u)
        invariant target in t.live && Climbs(t.parent, target, ROOT, k) && StrictlyAbove(t.parent, target, c)
        invariant forall x :: StrictlyAbove(t.parent, x, c) && StrictlyAbove(t.parent, target, x) ==> !mayEnter(t, x, u)
        decreases k
      {
        var up := t.parent[target];
        AboveSelf(t.parent, up);
        AboveParent(t.parent, up, target);
        AboveTransitive(t.parent, up, target, t.parent[c]);
        forall x | StrictlyAbove(t.parent, x, c) && StrictlyAbove(t.parent, up, x) ensures !mayEnter(t, x, u) {
          BetweenCases(t.parent, t.parent[c], target, x);
        }
        target, k := up, k - 1;
      }
    }

    /** Moves every client of c to its refuge. */
    method Evacuate(c: int, mayEnter: EnterCheck, ghost active: set<int>)
      requires Sound(t, active) && c in t.children && c != ROOT
      modifies this
      ensures Sound(t, active) && Evacuated(old(t), t, c) && Sheltered(old(t), t, {c}, mayEnter)
      ensures c !in old(t).live ==> t == old(t)
    {
      assert c !in t.live ==> t.members[c] == {} by {
        if c !in t.live {
          RemovedAlready(t, active, c);
        }
      }
      while t.members[c] != {}
        invariant Sound(t, active) && Evacuating(old(t), t, c) && Sheltering(old(t), t, c, mayEnter)
        invariant c !in t.live ==> t == old(t) && t.members[c] == {}
        decreases t.members[c]
      {
        var u := Pick(t.members[c]);
        var target := Refuge(c, u, mayEnter);
        ShelterOne(old(t), t, active, c, u, target, mayEnter);
        t := Enter(t, u, target);
      }
    }

    /** Removes the channels below c, one child's subtree after the other. */
    method RemoveChildren(c: int, mayEnter: EnterCheck, ghost active: set<int>)
      requires Sound(t, active) && c in t.children && c != ROOT && Subtree(t, c) - {c} <= active
      modifies this
      ensures c in old(t).live ==>
                var gone := Subtree(old(t), c) - {c};
                Sound(t, active - gone) && Clearance(old(t), t, gone, active, c, mayEnter) && t.children[c] == {}
      ensures c !in old(t).live ==> t == old(t)
      decreases Subtree(t, c), 0
    {
      ghost var gone: set<int> := {};
      AboveSelf(t.parent, c);
      assert c !in t.live ==> t.children[c] == {} by {
        if c !in t.live {
          RemovedAlready(t, active, c);
        }
      }
      while t.children[c] != {}
        invariant gone <= Subtree(old(t), c) - {c}
        invariant Sound(t, active - gone) && Clearance(old(t), t, gone, active, c, mayEnter)
        invariant c !in old(t).live ==> t == old(t) && t.children[c] == {}
        decreases t.live
      {
        var k := Pick(t.children[c]);
        ghost var before := t;
        ghost var more := Subtree(t, k);
        ChildToRemove(old(t), t, gone, active, c, k);
        RemoveChannel(k, mayEnter, active - gone);
        ClearanceCompose(old(t), before, t, gone, more, active, c, mayEnter);
        assert active - gone - more == active - (gone + more);
        gone := gone + more;
      }
      if c in old(t).live {
        ChildlessSubtree(t, c);
        SubtreeLess(old(t), t, gone, active, c);
        assert gone == Subtree(old(t), c) - {c};
      }
    }

    /**
      Removes c and everything below it: links first, then the children, then the clients, then itself.
      The root stays, and for a channel that is gone already nothing is left to do.
     */
    method RemoveChannel(c: int, mayEnter: EnterCheck, ghost active: set<int>)
      requires Sound(t, active) && c in t.children && Subtree(t, c) <= active
      modifies this
      ensures c == ROOT || c !in old(t).live ==> t == old(t)
      ensures c != ROOT && c in old(t).live ==>
                var gone := Subtree(old(t), c);
                Sound(t, active - gone) && Clearance(old(t), t, gone, active, old(t).parent[c], mayEnter)
      decreases Subtree(t, c), 1
    {
      if c == ROOT {
        return;
      }
      ghost var gone, alive := Subtree(t, c), c in t.live;
      AboveSelf(t.parent, c);
      if alive {
        UnlinkedForms(t, active, c);
      } else {
        RemovedAlready(t, active, c);
      }
      UnlinkAll(c);
      ghost var t1 := t;
      SubtreeSame(old(t), t, c);
      RemoveChildren(c, mayEnter, active - {c});
      assert active - {c} - (gone - {c}) == active - gone;
      ghost var t2 := t;
      Evacuate(c, mayEnter, if alive then active - gone else active - {c});
      if alive {
        DetachedSound(t, active - gone, c);
        ClearanceWhole(old(t), t1, t2, t, c, active, mayEnter);
      }
      t := Detached(t, c);
    }

    /**
      A removal from a consistent state: exactly the subtree goes, no surviving channel lists or links
      anything of it, and each of its clients is in one surviving channel that was above it.
     */
    method Remove(c: int, mayEnter: EnterCheck)
      requires Inv(t) && c in t.children
      modifies this
      ensures Inv(t)
      ensures c == ROOT || c !in old(t).live ==> t == old(t)
      ensures c != ROOT && c in old(t).live ==>
                var gone := Subtree(old(t), c);
                && t.live == old(t).live - gone && t.parent == old(t).parent && t.next == old(t).next
                && t.temporary == old(t).temporary
                && (forall x :: x in t.live ==>
                      t.children[x] == old(t).children[x] - gone && t.links[x] == old(t).links[x] - gone)
                && t.at.Keys == old(t).at.Keys
                && (forall u :: u in t.at ==>
                      if old(t).at[u] in gone then t.at[u] in t.live && StrictlyAbove(t.parent, t.at[u], c)
                      else t.at[u] == old(t).at[u])
                && (forall u :: u in t.at && old(t).at[u] in gone ==> Haven(t.parent, mayEnter, c, u, t.at[u]))
    {
      RemoveChannel(c, mayEnter, t.live);
      if c != ROOT && c in old(t).live {
        Havens(old(t), t, c, mayEnter);
      }
    }

    /** All channels that c is linked with, directly or through others. */
    method AllLinks(c: int) returns (seen: set<int>)
      requires Inv(t) && c in t.live
      ensures forall x :: x in seen <==> Reachable(t.links, c, x)
    {
      seen := Closure(t.links, c);
    }

    /** All channels below c. */
    method AllSubChannels(c: int) returns (seen: set<int>)
      requires Inv(t) && c in t.live
      ensures forall x :: x in seen <==> x in Subtree(t, c) && x != c
    {
      forall x | x in t.children ensures t.children[x] <= t.children.Keys {
        assert forall y :: y in t.children[x] ==> y in t.live;
      }
      seen := {};
      if t.children[c] != {} {
        seen := Closure(t.children, c);
      } else {
        ChildlessSubtree(t, c);
      }
      forall x ensures Reachable(t.children, c, x) <==> x in Subtree(t, c) && x != c {
        BelowIsReachable(t, t.live, c, x);
      }
    }
  }

  /** What is left of a subtree of which some is gone. */
  lemma SubtreeLess(t: Tree, t': Tree, gone: set<int>, active: set<int>, c: int)
    requires TreeRemoval(t, t', gone, active)
    ensures Subtree(t', c) == Subtree(t, c) - gone
  {
  }

  /** The subtree of a child, when some of its siblings' are gone. */
  lemma ChildToRemove(t: Tree, t': Tree, gone: set<int>, active: set<int>, c: int, k: int)
    requires Removal(t, t', gone, active, c) && Sound(t', active - gone) && c in t'.children && k in t'.children[c]
    requires Subtree(t, c) - {c} <= active && c in t'.live
    ensures k in t'.live && k in t'.parent && t'.parent[k] == c && k != ROOT && k in t'.children
    ensures var more := Subtree(t', k);
            k in more && more <= Subtree(t, c) - {c} && more <= active - gone && more < Subtree(t, c)
  {
    ChildSubtree(t', c, k);
    AboveSelf(t'.parent, k);
    AboveSelf(t'.parent, c);
    SubtreeLess(t, t', gone, active, c);
  }

  lemma Cycle(parent: map<int, int>, x: int, target: int)
    requires x in parent && Above(parent, target, parent[x]) && Above(parent, x, target)
    ensures target in parent ==> StrictlyAbove(parent, target, target)
    ensures target !in parent ==> false
  {
    AboveCases(parent, x, target);
    if x != target {
      AboveParent(parent, target, x);
      AboveTransitive(parent, target, x, parent[target]);
    }
  }

  /** A channel above b whose ancestors include the parent of target is target, or below it. */
  lemma BetweenCases(parent: map<int, int>, b: int, target: int, x: int)
    requires ROOT !in parent && Above(parent, target, b) && target in parent && Above(parent, ROOT, parent[target])
    requires Above(parent, x, b) && StrictlyAbove(parent, parent[target], x)
    ensures x == target || StrictlyAbove(parent, target, x)
  {
    AboveComparable(parent, x, target, b);
    if Above(parent, target, x) {
      AboveCases(parent, target, x);
    } else {
      AboveCases(parent, x, target);
      if x != target {
        Cycle(parent, x, parent[target]);
        Acyclic(parent, parent[target]);
      }
    }
  }

  lemma {:induction false} WalkDescends(t: Tree, active: set<int>, p: seq<int>, n: nat)
    requires Sound(t, active) && Walk(t.children, p) && 0 < n < |p|
    ensures p[n] in t.live && p[n] in t.parent && Above(t.parent, p[0], t.parent[p[n]])
    decreases n
  {
    assert p[n - 1] in t.children && p[n] in t.children[p[n - 1]];
    var a: int, b: int := p[n - 1], p[n];
    assert b in t.children[a] && t.parent[b] == a;
    if n == 1 {
      AboveSelf(t.parent, p[0]);
    } else {
      WalkDescends(t, active, p, n - 1);
      AboveParent(t.parent, p[0], p[n - 1]);
    }
  }

  lemma {:induction false} ClimbIsWalk(t: Tree, active: set<int>, c: int, x: int, k: nat)
    requires Sound(t, active) && x in t.live && x != c && Climbs(t.parent, x, c, k)
    ensures Reachable(t.children, c, x)
    decreases k
  {
    var p := t.parent[x];
    assert p in t.live && x in t.children[p];
    if p != c {
      ClimbIsWalk(t, active, c, p, k - 1);
    }
    ReachableStep(t.children, c, p, x);
  }

  /** What children lead to is what lies properly below. */
  lemma BelowIsReachable(t: Tree, active: set<int>, c: int, x: int)
    requires Sound(t, active) && c in t.live
    ensures Reachable(t.children, c, x) <==> x in Subtree(t, c) && x != c
  {
    if Reachable(t.children, c, x) {
      var p :| Walk(t.children, p) && p[0] == c && p[|p| - 1] == x;
      WalkDescends(t, active, p, |p| - 1);
      AboveParent(t.parent, c, x);
      Acyclic(t.parent, c);
    }
    if x in Subtree(t, c) && x != c {
      var k: nat :| Climbs(t.parent, x, c, k);
      ClimbIsWalk(t, active, c, x, k);
    }
  }
}

/** What the operations on channels do, field by field: what changes, and that nothing else does. */
module ChannelExact {
  import opened ChannelTree

  lemma InitialExact()
    ensures var t := Initial();
            && t.live == {0} && t.next == 1 && t.parent == map[] && t.aclParent == map[] && t.temporary == {}
            && t.children == t.links == map[0 := {}] && t.members == map[0 := {}] && t.at == map[]
  {
  }

  /** Creating: the channel has the next id and is below p; it is temporary if so asked, and empty. */
  lemma CreateExact(t: Tree, p: int, temporary: bool)
    requires p in t.children && t.next !in t.children && t.next !in t.temporary
    ensures var t', c := Create(t, p, temporary), t.next;
            && t'.live == t.live + {c} && t'.next == c + 1
            && t'.parent == t.parent[c := p] && t'.aclParent == t.aclParent[c := p]
            && t'.children.Keys == t.children.Keys + {c} && t'.children[c] == {}
            && t'.children[p] == t.children[p] + {c}
            && (forall x :: x in t.children && x != p ==> t'.children[x] == t.children[x])
            && t'.links == t.links[c := {}] && t'.members == t.members[c := {}]
            && t'.temporary == (if temporary then t.temporary + {c} else t.temporary)
            && t'.at == t.at
  {
  }

  /** Moving: the parent is p, it alone gains the child, the old one alone loses it. */
  lemma MoveExact(t: Tree, c: int, p: int)
    requires c in t.parent && t.parent[c] in t.children && p in t.children && t.parent[c] != p && c in t.aclParent
    ensures var t', q := Move(t, c, p), t.parent[c];
            && t'.parent == t.parent[c := p] && t'.aclParent == t.aclParent[c := p]
            && t'.children.Keys == t.children.Keys
            && t'.children[p] == t.children[p] + {c} && t'.children[q] == t.children[q] - {c}
            && (forall x :: x in t.children && x != p && x != q ==> t'.children[x] == t.children[x])
            && t'.live == t.live && t'.next == t.next && t'.links == t.links && t'.temporary == t.temporary
            && t'.members == t.members && t'.at == t.at
  {
  }

  /** Linking adds the two links between the channels, and unlinking takes them away. */
  lemma LinkExact(t: Tree, a: int, b: int, x: int, y: int)
    requires a in t.links && b in t.links && x in t.links
    ensures LinkChannels(t, a, b) == t.(links := LinkChannels(t, a, b).links)
    ensures UnlinkChannels(t, a, b) == t.(links := UnlinkChannels(t, a, b).links)
    ensures LinkChannels(t, a, b).links.Keys == UnlinkChannels(t, a, b).links.Keys == t.links.Keys
    ensures y in LinkChannels(t, a, b).links[x] <==> y in t.links[x] || (x == a && y == b) || (x == b && y == a)
    ensures y in UnlinkChannels(t, a, b).links[x] <==>
              y in t.links[x] && !(x == a && y == b) && !(x == b && y == a)
  {
  }

  /** And so for the lists of a message. */
  lemma JoinedExact(links: map<int, set<int>>, c: int, ids: set<int>, x: int, y: int)
    requires x in links
    ensures Joined(links, c, ids).Keys == Parted(links, c, ids).Keys == links.Keys
    ensures y in Joined(links, c, ids)[x] <==> y in links[x] || (x == c && y in ids) || (x in ids && y == c)
    ensures y in Parted(links, c, ids)[x] <==> y in links[x] && !(x == c && y in ids) && !(x in ids && y == c)
  {
  }

  /** Entering: the client is listed where it goes and nowhere else, and knows it. */
  lemma EnterExact(t: Tree, u: Client, c: int, x: int)
    requires Placed(t.live, t.members, t.at) && c in t.members && x in t.members
    ensures var t' := Enter(t, u, c);
            && t' == t.(members := t'.members, at := t.at[u := c]) && t'.members.Keys == t.members.Keys
            && t'.members[x] == if x == c then t.members[x] + {u} else t.members[x] - {u}
  {
    if u in t.at && t.at[u] == c {
      assert t.at[u := c] == t.at;
      assert u in t.members[c];
    } else {
      assert u !in t.members[c];
      assert u !in t.at ==> u !in t.members[x];
      assert (t.at - {u})[u := c] == t.at[u := c];
    }
  }

  lemma LeaveExact(t: Tree, u: Client, x: int)
    requires Placed(t.live, t.members, t.at) && x in t.members
    ensures var t' := Leave(t, u);
            && t' == t.(members := t'.members, at := t.at - {u}) && t'.members.Keys == t.members.Keys
            && t'.members[x] == t.members[x] - {u}
  {
    if u !in t.at {
      assert t.at - {u} == t.at;
      assert u !in t.members[x];
    }
  }

  /** The first step of a removal: the channels that c is linked with no longer have it, nothing else changes. */
  lemma UnlinkedExact(t: Tree, c: int, x: int)
    requires c in t.links && x in t.links
    ensures var t' := Unlinked(t, c);
            && t' == t.(links := t'.links) && t'.links.Keys == t.links.Keys
            && t'.links[x] == if x in t.links[c] then t.links[x] - {c} else t.links[x]
  {
  }

  /** The last: the channel is off the server's list and its parent's, nothing else changes. */
  lemma DetachedExact(t: Tree, c: int, x: int)
    requires c in t.parent && t.parent[c] in t.children && x in t.children
    ensures var t' := Detached(t, c);
            && t' == t.(live := t.live - {c}, children := t'.children) && t'.children.Keys == t.children.Keys
            && t'.children[x] == if x == t.parent[c] then t.children[x] - {c} else t.children[x]
  {
  }
}

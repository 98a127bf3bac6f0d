/**
  The channels of a server: the tree of parents and children, the link graph and the clients in each
  channel. A channel is its id: ids are never reused, so they stand for the channel objects, and the
  fields of those objects are maps from ids. A channel that was removed keeps its fields, as the object
  does while somebody still points to it.
 */
module ChannelTree {

  type Client = nat

  datatype Tree = Tree(
    live: set<int>,
    next: int,
    parent: map<int, int>,
    aclParent: map<int, int>,
    children: map<int, set<int>>,
    links: map<int, set<int>>,
    temporary: set<int>,
    members: map<int, set<Client>>,
    at: map<Client, int>)

  const ROOT := 0

  function Initial(): Tree {
    Tree({ROOT}, 1, map[], map[], map[ROOT := {}], map[ROOT := {}], {}, map[ROOT := {}], map[])
  }

  // ----- ancestors

  /** From c, following parents k times leads to a. */
  predicate Climbs(parent: map<int, int>, c: int, a: int, k: nat)
    decreases k
  {
    if k == 0 then c == a else c in parent && Climbs(parent, parent[c], a, k - 1)
  }

  ghost predicate Above(parent: map<int, int>, a: int, c: int) {
    exists k: nat :: Climbs(parent, c, a, k)
  }

  ghost predicate StrictlyAbove(parent: map<int, int>, a: int, c: int) {
    c in parent && Above(parent, a, parent[c])
  }

  /** The live channels at or below c. */
  ghost function Subtree(t: Tree, c: int): set<int> {
    set x | x in t.live && Above(t.parent, c, x)
  }

  lemma AboveSelf(parent: map<int, int>, c: int)
    ensures Above(parent, c, c)
  {
    assert Climbs(parent, c, c, 0);
  }

  lemma AboveParent(parent: map<int, int>, a: int, c: int)
    requires c in parent && Above(parent, a, parent[c])
    ensures Above(parent, a, c)
  {
    var k: nat :| Climbs(parent, parent[c], a, k);
    assert Climbs(parent, c, a, k + 1);
  }

  /** Whatever is above c is c itself or above its parent. */
  lemma AboveCases(parent: map<int, int>, a: int, c: int)
    requires Above(parent, a, c)
    ensures a == c || StrictlyAbove(parent, a, c)
  {
    var k: nat :| Climbs(parent, c, a, k);
    if k > 0 {
      assert Climbs(parent, parent[c], a, k - 1);
    }
  }

  lemma {:induction false} ClimbsOn(parent: map<int, int>, c: int, a: int, b: int, j: nat, k: nat)
    requires Climbs(parent, c, a, j) && Climbs(parent, a, b, k)
    ensures Climbs(parent, c, b, j + k)
    decreases j
  {
    if j > 0 {
      ClimbsOn(parent, parent[c], a, b, j - 1, k);
    }
  }

  lemma AboveTransitive(parent: map<int, int>, a: int, b: int, c: int)
    requires Above(parent, a, b) && Above(parent, b, c)
    ensures Above(parent, a, c)
  {
    var j: nat :| Climbs(parent, c, b, j);
    var k: nat :| Climbs(parent, b, a, k);
    ClimbsOn(parent, c, b, a, j, k);
  }

  lemma {:induction false} ClimbsSplit(parent: map<int, int>, c: int, a: int, b: int, j: nat, k: nat)
    requires Climbs(parent, c, a, j) && Climbs(parent, c, b, k) && j <= k
    ensures Climbs(parent, a, b, k - j)
    decreases j
  {
    if j > 0 {
      ClimbsSplit(parent, parent[c], a, b, j - 1, k - 1);
    }
  }

  /** Two channels above the same one are comparable. */
  lemma AboveComparable(parent: map<int, int>, a: int, b: int, c: int)
    requires Above(parent, a, c) && Above(parent, b, c)
    ensures Above(parent, a, b) || Above(parent, b, a)
  {
    var j: nat :| Climbs(parent, c, a, j);
    var k: nat :| Climbs(parent, c, b, k);
    if j <= k {
      ClimbsSplit(parent, c, a, b, j, k);
    } else {
      ClimbsSplit(parent, c, b, a, k, j);
    }
  }

  lemma {:induction false} NoReturn(parent: map<int, int>, c: int, k: nat, j: nat)
    requires ROOT !in parent && Climbs(parent, c, ROOT, k) && j > 0 && Climbs(parent, c, c, j)
    ensures false
    decreases k
  {
    if k > 0 {
      ClimbsSplit(parent, c, parent[c], c, 1, j);
      ClimbsOn(parent, parent[c], c, parent[c], j - 1, 1);
      NoReturn(parent, parent[c], k - 1, j);
    }
  }

  /** A channel from which the root can be reached is not above its own parent. */
  lemma Acyclic(parent: map<int, int>, c: int)
    requires ROOT !in parent && Above(parent, ROOT, c)
    ensures !StrictlyAbove(parent, c, c)
  {
    if StrictlyAbove(parent, c, c) {
      var k: nat :| Climbs(parent, c, ROOT, k);
      var j: nat :| Climbs(parent, parent[c], c, j);
      assert Climbs(parent, c, c, j + 1);
      NoReturn(parent, c, k, j + 1);
    }
  }

  // ----- the invariant

  /** Ids are below the next one, every created channel but the root has a parent, itself created. */
  predicate Shaped(created: set<int>, live: set<int>, next: int, parent: map<int, int>) {
    && ROOT in live && live <= created && ROOT !in parent
    && (forall c :: c in created ==> 0 <= c < next)
    && parent.Keys == created - {ROOT}
    && (forall c :: c in parent ==> parent[c] in created)
  }

  /** Parents and children agree; channels that were removed have no children. */
  predicate Agreed(live: set<int>, parent: map<int, int>, children: map<int, set<int>>) {
    && (forall c :: c in live && c in parent ==> parent[c] in live && parent[c] in children && c in children[parent[c]])
    && (forall p, c {:trigger c in children[p]} ::
          p in children && c in children[p] ==> p in live && c in live && c in parent && parent[c] == p)
  }

  /** The root is above every channel: with one parent each, the channels form a tree. */
  ghost predicate Rooted(live: set<int>, parent: map<int, int>) {
    forall c :: c in live ==> Above(parent, ROOT, c)
  }

  /** Links lead among the active channels both ways; no other channel is linked with anything both ways. */
  predicate Linked(links: map<int, set<int>>, active: set<int>) {
    && active <= links.Keys && (forall c :: c in links ==> links[c] <= links.Keys)
    && (forall c, l :: c in active && l in links[c] ==> l in active && c in links[l])
    && (forall c, l :: c in links && l in links && c !in active && l in links[c] ==> c !in links[l])
  }

  /** No channel, not even a removed one, has a temporary parent. */
  predicate TemporaryAreLeaves(temporary: set<int>, parent: map<int, int>) {
    && ROOT !in temporary
    && (forall c :: c in parent ==> parent[c] !in temporary)
  }

  /** Every client is in the one channel that lists it, and only live channels have clients. */
  predicate Placed(live: set<int>, members: map<int, set<Client>>, at: map<Client, int>) {
    && (forall u :: u in at ==> at[u] in live && at[u] in members && u in members[at[u]])
    && (forall c, u :: c in members && u in members[c] ==> u in at && at[u] == c)
  }

  /** The shape of the channels while those outside active are being removed. */
  ghost predicate Formed(t: Tree, active: set<int>) {
    && t.children.Keys == t.links.Keys == t.members.Keys
    && Shaped(t.children.Keys, t.live, t.next, t.parent)
    && t.aclParent == t.parent
    && Agreed(t.live, t.parent, t.children)
    && Rooted(t.live, t.parent)
    && active <= t.live && Linked(t.links, active)
    && TemporaryAreLeaves(t.temporary, t.parent) && t.temporary <= t.children.Keys
  }

  /** The whole invariant: the shape of the channels, and the places of the clients. */
  ghost predicate Sound(t: Tree, active: set<int>) {
    Formed(t, active) && Placed(t.live, t.members, t.at)
  }

  ghost predicate Inv(t: Tree) {
    Sound(t, t.live)
  }

  /** Channels with children are not temporary. */
  lemma ParentsAreLasting(t: Tree, active: set<int>, p: int, x: int)
    requires Formed(t, active) && p in t.children && x in t.children[p]
    ensures p !in t.temporary
  {
    assert x in t.parent && t.parent[x] == p;
  }

  lemma InitialInv()
    ensures Inv(Initial())
  {
    AboveSelf(Initial().parent, ROOT);
  }

  // ----- operations

  function AddChannel(t: Tree): Tree {
    var c := t.next;
    t.(live := t.live + {c}, next := c + 1,
       children := t.children[c := {}], links := t.links[c := {}], members := t.members[c := {}])
  }

  function AddChild(t: Tree, p: int, c: int): Tree
    requires p in t.children
  {
    t.(parent := t.parent[c := p], aclParent := t.aclParent[c := p], children := t.children[p := t.children[p] + {c}])
  }

  function RemoveChild(t: Tree, p: int, c: int): Tree
    requires p in t.children
  {
    t.(parent := t.parent - {c}, aclParent := t.aclParent - {c}, children := t.children[p := t.children[p] - {c}])
  }

  function LinkChannels(t: Tree, a: int, b: int): Tree
    requires a in t.links && b in t.links
  {
    var one := t.links[a := t.links[a] + {b}];
    t.(links := one[b := one[b] + {a}])
  }

  function UnlinkChannels(t: Tree, a: int, b: int): Tree
    requires a in t.links && b in t.links
  {
    var one := t.links[a := t.links[a] - {b}];
    t.(links := one[b := one[b] - {a}])
  }

  /** A client leaves the channel it is in, if any. */
  function Leave(t: Tree, u: Client): Tree {
    if u in t.at && t.at[u] in t.members then
      t.(members := t.members[t.at[u] := t.members[t.at[u]] - {u}], at := t.at - {u})
    else t
  }

  function Enter(t: Tree, u: Client, c: int): Tree
    requires c in t.members
  {
    if u in t.at && t.at[u] == c then t
    else
      var out := Leave(t, u);
      out.(members := out.members[c := out.members[c] + {u}], at := out.at[u := c])
  }

  /** Creating a channel below p. */
  function Create(t: Tree, p: int, temporary: bool): Tree
    requires p in t.children
  {
    var c := t.next;
    var added := AddChannel(t);
    AddChild(if temporary then added.(temporary := added.temporary + {c}) else added, p, c)
  }

  function Move(t: Tree, c: int, p: int): Tree
    requires c in t.parent && t.parent[c] in t.children && p in t.children
  {
    AddChild(RemoveChild(t, t.parent[c], c), p, c)
  }

  lemma {:induction false} ClimbsUnder(parent: map<int, int>, bigger: map<int, int>, c: int, a: int, k: nat)
    requires Climbs(parent, c, a, k) && forall x :: x in parent ==> x in bigger && bigger[x] == parent[x]
    ensures Climbs(bigger, c, a, k)
    decreases k
  {
    if k > 0 {
      ClimbsUnder(parent, bigger, parent[c], a, k - 1);
    }
  }

  lemma AgreedWithChild(live: set<int>, parent: map<int, int>, children: map<int, set<int>>, p: int, c: int)
    requires Agreed(live, parent, children) && p in live && p in children && c !in parent && c !in children && c !in live
    ensures Agreed(live + {c}, parent[c := p], children[c := {}][p := children[p] + {c}])
  {
    var ch := children[c := {}][p := children[p] + {c}];
    forall q, x | q in ch && x in ch[q]
      ensures q in live + {c} && x in live + {c} && x in parent[c := p] && parent[c := p][x] == q
    {
      assert x == c || (q in children && x in children[q]);
    }
  }

  lemma RootedWithChild(live: set<int>, parent: map<int, int>, p: int, c: int)
    requires Rooted(live, parent) && p in live && c !in parent
    ensures Rooted(live + {c}, parent[c := p])
  {
    forall x | x in live + {c} ensures Above(parent[c := p], ROOT, x) {
      var y := if x == c then p else x;
      var k: nat :| Climbs(parent, y, ROOT, k);
      ClimbsUnder(parent, parent[c := p], y, ROOT, k);
      if x == c {
        AboveParent(parent[c := p], ROOT, c);
      }
    }
  }

  lemma ShapedWithChild(created: set<int>, live: set<int>, parent: map<int, int>, p: int, c: int)
    requires Shaped(created, live, c, parent) && p in created
    ensures Shaped(created + {c}, live + {c}, c + 1, parent[c := p])
  {
  }

  lemma LinkedWithNew(links: map<int, set<int>>, active: set<int>, c: int)
    requires Linked(links, active) && c !in links
    ensures Linked(links[c := {}], active + {c})
  {
  }

  lemma PlacedWithNew(live: set<int>, members: map<int, set<Client>>, at: map<Client, int>, c: int)
    requires Placed(live, members, at) && c !in members
    ensures Placed(live + {c}, members[c := {}], at)
  {
  }

  lemma CreateForms(t: Tree, active: set<int>, p: int, temporary: bool)
    requires Formed(t, active) && p in t.live && p !in t.temporary
    ensures Formed(Create(t, p, temporary), active + {t.next})
    ensures t.next !in t.children && Create(t, p, temporary).live == t.live + {t.next}
  {
    var c, t' := t.next, Create(t, p, temporary);
    ShapedWithChild(t.children.Keys, t.live, t.parent, p, c);
    AgreedWithChild(t.live, t.parent, t.children, p, c);
    RootedWithChild(t.live, t.parent, p, c);
    LinkedWithNew(t.links, active, c);
    assert t.children[c := {}][p := t.children[p] + {c}] == t'.children;
    assert t'.children.Keys == t.children.Keys + {c};
  }

  /** Creating keeps the invariant; the new id was never used. */
  lemma CreateKeeps(t: Tree, active: set<int>, p: int, temporary: bool)
    requires Sound(t, active) && p in t.live && p !in t.temporary
    ensures Sound(Create(t, p, temporary), active + {t.next})
    ensures t.next !in t.children && Create(t, p, temporary).live == t.live + {t.next}
  {
    CreateForms(t, active, p, temporary);
    PlacedWithNew(t.live, t.members, t.at, t.next);
  }

  lemma LinkedWith(links: map<int, set<int>>, active: set<int>, a: int, b: int)
    requires Linked(links, active) && a in active && b in active
    ensures var one := links[a := links[a] + {b}]; Linked(one[b := one[b] + {a}], active)
  {
    var one := links[a := links[a] + {b}];
    var two := one[b := one[b] + {a}];
    assert forall c :: c in links ==>
      two[c] == links[c] + (if c == a then {b} else {}) + (if c == b then {a} else {});
  }

  lemma LinkedWithout(links: map<int, set<int>>, active: set<int>, a: int, b: int)
    requires Linked(links, active) && a in active && b in active
    ensures var one := links[a := links[a] - {b}]; Linked(one[b := one[b] - {a}], active)
  {
    var one := links[a := links[a] - {b}];
    var two := one[b := one[b] - {a}];
    assert forall c :: c in links ==>
      two[c] == links[c] - (if c == a then {b} else {}) - (if c == b then {a} else {});
  }

  lemma LinkKeeps(t: Tree, active: set<int>, a: int, b: int)
    requires Formed(t, active) && a in active && b in active
    ensures Formed(LinkChannels(t, a, b), active) && Formed(UnlinkChannels(t, a, b), active)
  {
    LinkedWith(t.links, active, a, b);
    LinkedWithout(t.links, active, a, b);
  }

  /** Links between c and some channels, added on both sides. */
  function Joined(links: map<int, set<int>>, c: int, ids: set<int>): map<int, set<int>> {
    map x | x in links :: links[x] + (if x == c then ids else {}) + (if x in ids then {c} else {})
  }

  /** Links between c and some channels, taken away on both sides. */
  function Parted(links: map<int, set<int>>, c: int, ids: set<int>): map<int, set<int>> {
    map x | x in links :: links[x] - (if x == c then ids else {}) - (if x in ids then {c} else {})
  }

  lemma JoinedOneMore(links: map<int, set<int>>, c: int, ids: set<int>, a: int)
    requires c in links && a in links
    ensures var now := Joined(links, c, ids);
            var one := now[c := now[c] + {a}];
            one[a := one[a] + {c}] == Joined(links, c, ids + {a})
  {
    var now := Joined(links, c, ids);
    var one := now[c := now[c] + {a}];
    var two := one[a := one[a] + {c}];
    assert forall x :: x in links ==> two[x] == Joined(links, c, ids + {a})[x];
  }

  lemma PartedOneMore(links: map<int, set<int>>, c: int, ids: set<int>, a: int)
    requires c in links && a in links
    ensures var now := Parted(links, c, ids);
            var one := now[c := now[c] - {a}];
            one[a := one[a] - {c}] == Parted(links, c, ids + {a})
  {
    var now := Parted(links, c, ids);
    var one := now[c := now[c] - {a}];
    var two := one[a := one[a] - {c}];
    assert forall x :: x in links ==> two[x] == Parted(links, c, ids + {a})[x];
  }

  lemma NoneJoined(links: map<int, set<int>>, c: int)
    ensures Joined(links, c, {}) == links && Parted(links, c, {}) == links
  {
    assert forall x :: x in links ==> Joined(links, c, {})[x] == links[x] && Parted(links, c, {})[x] == links[x];
  }

  /** Unlinking undoes linking, both ways round, self-links included. */
  lemma UnlinkUndoesLink(t: Tree, a: int, b: int)
    requires a in t.links && b in t.links && b !in t.links[a] && a !in t.links[b]
    ensures UnlinkChannels(LinkChannels(t, a, b), a, b) == t
  {
    var linked := LinkChannels(t, a, b);
    var back := UnlinkChannels(linked, a, b);
    assert forall c :: c in t.links ==> back.links[c] == t.links[c];
    assert back.links == t.links;
  }

  lemma PlacedAway(live: set<int>, members: map<int, set<Client>>, at: map<Client, int>, u: Client)
    requires Placed(live, members, at) && u in at
    ensures Placed(live, members[at[u] := members[at[u]] - {u}], at - {u})
  {
  }

  lemma PlacedIn(live: set<int>, members: map<int, set<Client>>, at: map<Client, int>, u: Client, c: int)
    requires Placed(live, members, at) && u !in at && c in live && c in members
    ensures Placed(live, members[c := members[c] + {u}], at[u := c])
  {
  }

  lemma EnterKeeps(t: Tree, active: set<int>, u: Client, c: int)
    requires Sound(t, active) && c in t.live
    ensures Sound(Enter(t, u, c), active) && Enter(t, u, c).at == t.at[u := c]
  {
    if !(u in t.at && t.at[u] == c) {
      if u in t.at {
        PlacedAway(t.live, t.members, t.at, u);
      }
      var out := Leave(t, u);
      PlacedIn(out.live, out.members, out.at, u, c);
    }
  }

  lemma LeaveKeeps(t: Tree, active: set<int>, u: Client)
    requires Sound(t, active)
    ensures Sound(Leave(t, u), active) && Leave(t, u).at == t.at - {u}
  {
    if u in t.at {
      PlacedAway(t.live, t.members, t.at, u);
    }
  }

  // ----- moving a channel

  lemma {:induction false} ClimbsElsewhere(parent: map<int, int>, c: int, p: int, x: int, a: int, k: nat)
    requires Climbs(parent, x, a, k) && !Above(parent, c, x)
    ensures Climbs(parent[c := p], x, a, k)
    decreases k
  {
    AboveSelf(parent, c);
    if k > 0 {
      if Above(parent, c, parent[x]) {
        AboveParent(parent, c, x);
      }
      ClimbsElsewhere(parent, c, p, parent[x], a, k - 1);
    }
  }

  lemma {:induction false} RootedMoved(parent: map<int, int>, c: int, p: int, x: int, k: nat)
    requires Climbs(parent, x, ROOT, k) && Above(parent, ROOT, p) && !Above(parent, c, p)
    ensures Above(parent[c := p], ROOT, x)
    decreases k
  {
    if x == c {
      var j: nat :| Climbs(parent, p, ROOT, j);
      ClimbsElsewhere(parent, c, p, p, ROOT, j);
      AboveParent(parent[c := p], ROOT, c);
    } else if k == 0 {
      AboveSelf(parent[c := p], ROOT);
    } else {
      RootedMoved(parent, c, p, parent[x], k - 1);
      AboveParent(parent[c := p], ROOT, x);
    }
  }

  lemma AgreedMoved(live: set<int>, parent: map<int, int>, children: map<int, set<int>>, c: int, p: int)
    requires Agreed(live, parent, children) && c in live && c in parent && p in live && p in children
    ensures var less := children[parent[c] := children[parent[c]] - {c}];
            Agreed(live, parent[c := p], less[p := less[p] + {c}])
  {
    var less := children[parent[c] := children[parent[c]] - {c}];
    var more := less[p := less[p] + {c}];
    forall q, x | q in more && x in more[q]
      ensures q in live && x in live && x in parent[c := p] && parent[c := p][x] == q
    {
      if q == p {
        assert x == c || x in children[p];
      } else {
        assert q in children && x in children[q] && parent[x] == q;
        assert x != c;
      }
    }
  }

  /** Moving a channel below one that is not in its own subtree keeps the tree. */
  lemma MoveKeeps(t: Tree, active: set<int>, c: int, p: int)
    requires Formed(t, active) && c in t.live && p in t.live && p !in t.temporary && !Above(t.parent, c, p)
    ensures c in t.parent && Formed(Move(t, c, p), active) && Move(t, c, p).parent == t.parent[c := p]
  {
    assert Above(t.parent, ROOT, p);
    var t' := Move(t, c, p);
    assert t'.parent == t.parent[c := p] && t'.aclParent == t.parent[c := p];
    AgreedMoved(t.live, t.parent, t.children, c, p);
    forall x | x in t.live ensures Above(t'.parent, ROOT, x) {
      var k: nat :| Climbs(t.parent, x, ROOT, k);
      RootedMoved(t.parent, c, p, x, k);
    }
    assert t'.children.Keys == t.children.Keys;
  }

  // ----- removing a subtree

  /** Removing the channels in gone: parents stay as they are, children and links lose exactly what is gone. */
  ghost predicate TreeRemoval(t: Tree, t': Tree, gone: set<int>, active: set<int>) {
    && t'.live == t.live - gone
    && t'.next == t.next && t'.parent == t.parent && t'.temporary == t.temporary
    && t'.children.Keys == t.children.Keys && t'.links.Keys == t.links.Keys && t.live <= t.children.Keys
    && (forall x :: x in t'.live ==> t'.children[x] == t.children[x] - gone)
    && active <= t.links.Keys
    && (forall x :: x in active && x !in gone ==> t'.links[x] == t.links[x] - gone)
  }

  /** The clients of what is gone end up in live channels at or above b; the others stay where they are. */
  ghost predicate ClientsMoved(t: Tree, t': Tree, gone: set<int>, b: int) {
    && t'.at.Keys == t.at.Keys
    && (forall u :: u in t.at && t.at[u] !in gone ==> t'.at[u] == t.at[u])
    && (forall u :: u in t.at && t.at[u] in gone ==> t'.at[u] in t'.live && Above(t.parent, t'.at[u], b))
  }

  ghost predicate Removal(t: Tree, t': Tree, gone: set<int>, active: set<int>, b: int) {
    TreeRemoval(t, t', gone, active) && ClientsMoved(t, t', gone, b)
  }

  lemma RemovalCompose(t: Tree, u: Tree, v: Tree, gone: set<int>, more: set<int>, active: set<int>, b: int)
    requires Removal(t, u, gone, active, b) && Removal(u, v, more, active - gone, b)
    ensures Removal(t, v, gone + more, active, b)
  {
    assert forall x :: x in v.live ==> v.children[x] == t.children[x] - (gone + more);
    assert forall x :: x in active && x !in gone + more ==> v.links[x] == t.links[x] - (gone + more);
    forall c | c in t.at && t.at[c] in gone + more ensures v.at[c] in v.live && Above(t.parent, v.at[c], b) {
      assert u.at[c] !in more ==> v.at[c] == u.at[c];
    }
  }

  /** Takes c off the link lists of the channels it is linked with. */
  function Unlinked(t: Tree, c: int): Tree
    requires c in t.links
  {
    t.(links := map x | x in t.links :: if x in t.links[c] then t.links[x] - {c} else t.links[x])
  }

  lemma UnlinkedForms(t: Tree, active: set<int>, c: int)
    requires Formed(t, active) && c in active
    ensures Formed(Unlinked(t, c), active - {c})
    ensures forall x :: x in active - {c} ==> Unlinked(t, c).links[x] == t.links[x] - {c}
  {
    var links := Unlinked(t, c).links;
    forall x | x in active - {c} ensures links[x] == t.links[x] - {c} {
      assert c in t.links[x] ==> x in t.links[c];
    }
    assert Linked(links, active - {c});
  }

  /** The last step of a removal: off its parent's list and off the server's. */
  function Detached(t: Tree, c: int): Tree
    requires c in t.parent && t.parent[c] in t.children
  {
    t.(children := t.children[t.parent[c] := t.children[t.parent[c]] - {c}], live := t.live - {c})
  }

  lemma DetachedForms(t: Tree, active: set<int>, c: int)
    requires Formed(t, active) && c in t.live && c != ROOT && c !in active && t.children[c] == {}
    ensures Formed(Detached(t, c), active)
  {
    var t' := Detached(t, c);
    assert t'.children.Keys == t.children.Keys;
    AgreedDetached(t.live, t.parent, t.children, c);
  }

  lemma DetachedSound(t: Tree, active: set<int>, c: int)
    requires Sound(t, active) && c in t.live && c != ROOT && c !in active && t.children[c] == {} && t.members[c] == {}
    ensures Sound(Detached(t, c), active)
  {
    DetachedForms(t, active, c);
    PlacedDetached(t.live, t.members, t.at, c);
  }

  lemma AgreedDetached(live: set<int>, parent: map<int, int>, children: map<int, set<int>>, c: int)
    requires Agreed(live, parent, children) && c in live && c in parent && c in children && children[c] == {}
    ensures Agreed(live - {c}, parent, children[parent[c] := children[parent[c]] - {c}])
  {
    var less, rest := children[parent[c] := children[parent[c]] - {c}], live - {c};
    forall p, x {:trigger x in less[p]} | p in less && x in less[p]
      ensures p in rest && x in rest && x in parent && parent[x] == p
    {
      assert x in children[p] && p in live && parent[x] == p;
      assert p != c && x != c;
    }
    forall x | x in rest && x in parent ensures parent[x] in rest && parent[x] in less && x in less[parent[x]] {
      assert x in children[parent[x]];
    }
    assert Agreed(rest, parent, less);
  }

  lemma PlacedDetached(live: set<int>, members: map<int, set<Client>>, at: map<Client, int>, c: int)
    requires Placed(live, members, at) && c in members && members[c] == {}
    ensures Placed(live - {c}, members, at)
  {
  }

  lemma {:induction false} LastBelow(parent: map<int, int>, c: int, x: int, k: nat) returns (y: int)
    requires Climbs(parent, x, c, k) && x != c
    ensures y in parent && parent[y] == c && Above(parent, y, x)
    decreases k
  {
    if parent[x] == c {
      y := x;
      AboveSelf(parent, x);
    } else {
      y := LastBelow(parent, c, parent[x], k - 1);
      AboveParent(parent, y, x);
    }
  }

  lemma {:induction false} AboveLiveIsLive(t: Tree, a: int, x: int, k: nat)
    requires Agreed(t.live, t.parent, t.children) && x in t.live && Climbs(t.parent, x, a, k)
    ensures a in t.live
    decreases k
  {
    if k > 0 {
      AboveLiveIsLive(t, a, t.parent[x], k - 1);
    }
  }

  /** A channel without children is its whole subtree. */
  lemma ChildlessSubtree(t: Tree, c: int)
    requires Agreed(t.live, t.parent, t.children) && c in t.live && c in t.children && t.children[c] == {}
    ensures Subtree(t, c) == {c}
  {
    AboveSelf(t.parent, c);
    forall x | x in t.live && Above(t.parent, c, x) ensures x == c {
      if x != c {
        var k: nat :| Climbs(t.parent, x, c, k);
        var y := LastBelow(t.parent, c, x, k);
        var j: nat :| Climbs(t.parent, x, y, j);
        AboveLiveIsLive(t, y, x, j);
      }
    }
  }

  /** The subtree of a child is part of the subtree of c, without c. */
  lemma ChildSubtree(t: Tree, c: int, k: int)
    requires ROOT !in t.parent && Rooted(t.live, t.parent) && c in t.live && k in t.parent && t.parent[k] == c
    ensures Subtree(t, k) <= Subtree(t, c) - {c}
  {
    forall x | x in Subtree(t, k) ensures x in Subtree(t, c) && x != c {
      AboveSelf(t.parent, c);
      AboveParent(t.parent, c, k);
      AboveTransitive(t.parent, c, k, x);
      if x == c {
        AboveTransitive(t.parent, k, c, k);
        Acyclic(t.parent, c);
        assert Above(t.parent, c, k);
        NoMutual(t.parent, c, k);
      }
    }
  }

  lemma NoMutual(parent: map<int, int>, c: int, k: int)
    requires ROOT !in parent && Above(parent, ROOT, c) && k in parent && parent[k] == c && Above(parent, k, c)
    ensures false
  {
    var i: nat :| Climbs(parent, c, ROOT, i);
    var j: nat :| Climbs(parent, c, k, j);
    assert Climbs(parent, k, c, 1);
    ClimbsOn(parent, c, k, c, j, 1);
    NoReturn(parent, c, i, j + 1);
  }

  lemma OnlyLiveHaveClients(live: set<int>, members: map<int, set<Client>>, at: map<Client, int>, c: int)
    requires Placed(live, members, at) && c in members
    ensures members[c] != {} ==> c in live
  {
    if members[c] != {} {
      var u :| u in members[c];
      assert u in at && at[u] == c;
    }
  }

  /** On a channel that is gone already every step of a removal changes nothing. */
  lemma RemovedAlready(t: Tree, active: set<int>, c: int)
    requires Sound(t, active) && c in t.children && c !in t.live
    ensures Unlinked(t, c) == t && t.children[c] == {} && t.members[c] == {} && Detached(t, c) == t
  {
    var links := Unlinked(t, c).links;
    forall x | x in t.links ensures links[x] == t.links[x] {
      assert x in t.links[c] ==> c !in t.links[x];
    }
    assert links == t.links;
    assert forall x :: x in t.children[c] ==> c in t.live;
    OnlyLiveHaveClients(t.live, t.members, t.at, c);
    var p := t.parent[c];
    assert c in t.children[p] ==> c in t.live;
    assert t.children[p] - {c} == t.children[p];
    assert t.children[p := t.children[p]] == t.children;
  }

  lemma SubtreeSame(t: Tree, t': Tree, c: int)
    requires t.live == t'.live && t.parent == t'.parent
    ensures Subtree(t, c) == Subtree(t', c)
  {
  }

  /** The whole removal, put together from its parts. */
  lemma RemovalWhole(t: Tree, t1: Tree, t2: Tree, t3: Tree, c: int, active: set<int>)
    requires Sound(t, active) && c in active && c != ROOT && Subtree(t, c) <= active
    requires t1 == Unlinked(t, c) && Removal(t1, t2, Subtree(t, c) - {c}, active - {c}, c)
    requires Sound(t2, active - Subtree(t, c)) && t2.children[c] == {}
    requires Evacuated(t2, t3, c)
    ensures Removal(t, Detached(t3, c), Subtree(t, c), active, t.parent[c])
  {
    TreeRemovalWhole(t, t2, t3, c, active);
    AboveSelf(t.parent, c);
    RelocatedClients(t, t2, t3, c);
  }

  lemma TreeRemovalWhole(t: Tree, t2: Tree, t3: Tree, c: int, active: set<int>)
    requires Sound(t, active) && c in active && c != ROOT && Subtree(t, c) <= active
    requires TreeRemoval(Unlinked(t, c), t2, Subtree(t, c) - {c}, active - {c})
    requires t3 == t2.(members := t3.members, at := t3.at)
    ensures TreeRemoval(t, Detached(t3, c), Subtree(t, c), active)
  {
    AboveSelf(t.parent, c);
    assert t.parent[c] in t.live - Subtree(t, c) by {
      Acyclic(t.parent, c);
    }
    LinksGone(t, t2.links, active, c, Subtree(t, c));
    ChildrenGone(t, t2.children, c, Subtree(t, c));
  }

  lemma LinksGone(t: Tree, links: map<int, set<int>>, active: set<int>, c: int, gone: set<int>)
    requires Formed(t, active) && c in active && c in gone && links.Keys == t.links.Keys
    requires forall x :: x in active - {c} && x !in gone - {c} ==> links[x] == Unlinked(t, c).links[x] - (gone - {c})
    ensures forall x :: x in active && x !in gone ==> links[x] == t.links[x] - gone
  {
    UnlinkedForms(t, active, c);
    forall x | x in active && x !in gone ensures links[x] == t.links[x] - gone {
      assert x in active - {c};
    }
  }

  lemma ChildrenGone(t: Tree, children: map<int, set<int>>, c: int, gone: set<int>)
    requires Agreed(t.live, t.parent, t.children) && t.live <= t.children.Keys && c in t.live && c in t.parent
    requires c in gone && t.parent[c] in t.live - gone && children.Keys == t.children.Keys
    requires forall x :: x in t.live - (gone - {c}) ==> children[x] == t.children[x] - (gone - {c})
    ensures var less := children[t.parent[c] := children[t.parent[c]] - {c}];
            forall x :: x in t.live - gone ==> less[x] == t.children[x] - gone
  {
    var less := children[t.parent[c] := children[t.parent[c]] - {c}];
    forall x | x in t.live - gone ensures less[x] == t.children[x] - gone {
      assert x in t.live - (gone - {c});
      assert c in t.children[x] ==> x == t.parent[c];
    }
  }

  lemma RelocatedClients(t: Tree, t2: Tree, t3: Tree, c: int)
    requires c in t.parent && c in t.live && t2.parent == t.parent && Evacuated(t2, t3, c)
    requires t2.at.Keys == t.at.Keys && t2.live == t.live - (Subtree(t, c) - {c})
    requires forall u :: u in t.at && t.at[u] !in Subtree(t, c) - {c} ==> t2.at[u] == t.at[u]
    requires forall u :: u in t.at && t.at[u] in Subtree(t, c) - {c} ==>
               t2.at[u] in t2.live && Above(t.parent, t2.at[u], c)
    ensures forall u :: u in t.at && t.at[u] !in Subtree(t, c) ==> t3.at[u] == t.at[u]
    ensures forall u :: u in t.at && t.at[u] in Subtree(t, c) ==>
              t3.at[u] in t.live - Subtree(t, c) && Above(t.parent, t3.at[u], t.parent[c])
  {
    AboveSelf(t.parent, c);
    forall u | u in t.at && t.at[u] in Subtree(t, c)
      ensures t3.at[u] in t.live - Subtree(t, c) && Above(t.parent, t3.at[u], t.parent[c])
    {
      if t2.at[u] != c {
        assert t.at[u] != c;
        AboveCases(t.parent, t2.at[u], c);
      }
      assert t3.at[u] in t2.live && t3.at[u] != c;
    }
  }

  /** Some clients of c, and no others, have moved to live channels strictly above it. */
  ghost predicate Evacuating(t: Tree, t': Tree, c: int) {
    && t' == t.(members := t'.members, at := t'.at)
    && t'.members.Keys == t.members.Keys && c in t'.members
    && t'.at.Keys == t.at.Keys
    && (forall u :: u in t.at && t.at[u] != c ==> t'.at[u] == t.at[u])
    && (forall u :: u in t.at && t.at[u] == c ==>
          t'.at[u] == c || (t'.at[u] in t.live && StrictlyAbove(t.parent, t'.at[u], c)))
  }

  ghost predicate Evacuated(t: Tree, t': Tree, c: int) {
    Evacuating(t, t', c) && t'.members[c] == {} && forall u :: u in t'.at ==> t'.at[u] != c
  }

  lemma EnterColumns(t: Tree, u: Client, c: int)
    requires u in t.at && t.at[u] in t.members && t.at[u] != c && c in t.members
    ensures Enter(t, u, c) == t.(members := t.members[t.at[u] := t.members[t.at[u]] - {u}][c := t.members[c] + {u}],
                                 at := t.at[u := c])
  {
    assert (t.at - {u})[u := c] == t.at[u := c];
  }

  lemma EvacuateOne(t: Tree, t': Tree, active: set<int>, c: int, u: Client, target: int)
    requires Evacuating(t, t', c) && Sound(t', active) && u in t'.members[c] && c in t.live
    requires target in t.live && StrictlyAbove(t.parent, target, c)
    ensures Sound(Enter(t', u, target), active) && Evacuating(t, Enter(t', u, target), c)
    ensures Enter(t', u, target).members[c] == t'.members[c] - {u}
  {
    assert target != c by {
      Acyclic(t.parent, c);
    }
    EnterKeeps(t', active, u, target);
    MovedOut(t, t', c, u, target);
  }

  lemma MovedOut(t: Tree, t': Tree, c: int, u: Client, target: int)
    requires Evacuating(t, t', c) && Placed(t'.live, t'.members, t'.at) && u in t'.members[c]
    requires target in t.live && target in t.members && target != c && StrictlyAbove(t.parent, target, c)
    ensures Evacuating(t, Enter(t', u, target), c) && Enter(t', u, target).members[c] == t'.members[c] - {u}
  {
    assert u in t'.at && t'.at[u] == c;
    EnterColumns(t', u, target);
  }

}

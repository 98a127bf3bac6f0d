/** Where the clients of removed channels end up: in the nearest channel above that lets them in. */
module ChannelRefuge {
  import opened ChannelTree

  /** Whether a client may enter a channel: the permission check, which may depend on the whole state. */
  type EnterCheck = (Tree, int, Client) -> bool

  /** In some state the client was let into the channel. */
  ghost predicate LetIn(mayEnter: EnterCheck, x: int, u: Client) {
    exists s :: mayEnter(s, x, u)
  }

  ghost predicate TurnedAway(mayEnter: EnterCheck, x: int, u: Client) {
    exists s :: !mayEnter(s, x, u)
  }

  /** From d the client went up to a: the root, or a channel that let it in, past none that did not turn it away. */
  ghost predicate Refuged(parent: map<int, int>, mayEnter: EnterCheck, u: Client, d: int, a: int, gone: set<int>) {
    && Above(parent, a, d) && (a == ROOT || LetIn(mayEnter, a, u))
    && forall x :: StrictlyAbove(parent, x, d) && StrictlyAbove(parent, a, x) && x !in gone ==> TurnedAway(mayEnter, x, u)
  }

  /** So did all clients of the channels that are gone; others among those gone do not count as passed. */
  ghost predicate Sheltered(t: Tree, t': Tree, gone: set<int>, mayEnter: EnterCheck) {
    forall u :: u in t.at && u in t'.at && t.at[u] in gone ==>
      Refuged(t.parent, mayEnter, u, t.at[u], t'.at[u], gone)
  }

  lemma RefugedOn(parent: map<int, int>, mayEnter: EnterCheck, u: Client, d: int, a: int, b: int, gone: set<int>,
                  more: set<int>)
    requires Refuged(parent, mayEnter, u, d, a, gone) && a in more && Refuged(parent, mayEnter, u, a, b, more)
    ensures Refuged(parent, mayEnter, u, d, b, gone + more)
  {
    AboveTransitive(parent, b, a, d);
    forall x | StrictlyAbove(parent, x, d) && StrictlyAbove(parent, b, x) && x !in gone + more
      ensures TurnedAway(mayEnter, x, u)
    {
      AboveParent(parent, x, d);
      AboveComparable(parent, x, a, d);
      if Above(parent, x, a) {
        AboveCases(parent, x, a);
      } else {
        AboveCases(parent, a, x);
      }
    }
  }

  /** Two removals, one after the other. */
  lemma ShelteredOn(t: Tree, t1: Tree, t2: Tree, gone: set<int>, more: set<int>, mayEnter: EnterCheck)
    requires t1.parent == t.parent && t.at.Keys == t1.at.Keys == t2.at.Keys
    requires forall u :: u in t.at && t.at[u] !in gone ==> t1.at[u] == t.at[u]
    requires forall u :: u in t.at && t1.at[u] !in more ==> t2.at[u] == t1.at[u]
    requires Sheltered(t, t1, gone, mayEnter) && Sheltered(t1, t2, more, mayEnter)
    ensures Sheltered(t, t2, gone + more, mayEnter)
  {
    forall u | u in t.at && u in t2.at && t.at[u] in gone + more
      ensures Refuged(t.parent, mayEnter, u, t.at[u], t2.at[u], gone + more)
    {
      if t.at[u] in gone && t1.at[u] in more {
        RefugedOn(t.parent, mayEnter, u, t.at[u], t1.at[u], t2.at[u], gone, more);
      }
    }
  }

  /** A removal that shelters the clients. */
  ghost predicate Clearance(t: Tree, t': Tree, gone: set<int>, active: set<int>, b: int, mayEnter: EnterCheck) {
    Removal(t, t', gone, active, b) && Sheltered(t, t', gone, mayEnter)
  }

  lemma ClearanceCompose(t: Tree, t1: Tree, t2: Tree, gone: set<int>, more: set<int>, active: set<int>, b: int,
                         mayEnter: EnterCheck)
    requires Clearance(t, t1, gone, active, b, mayEnter) && Clearance(t1, t2, more, active - gone, b, mayEnter)
    ensures Clearance(t, t2, gone + more, active, b, mayEnter)
  {
    RemovalCompose(t, t1, t2, gone, more, active, b);
    ShelteredOn(t, t1, t2, gone, more, mayEnter);
  }

  /** The whole removal, put together from its parts. */
  lemma ClearanceWhole(t: Tree, t1: Tree, t2: Tree, t3: Tree, c: int, active: set<int>, mayEnter: EnterCheck)
    requires Sound(t, active) && c in active && c != ROOT && Subtree(t, c) <= active
    requires t1 == Unlinked(t, c) && Clearance(t1, t2, Subtree(t, c) - {c}, active - {c}, c, mayEnter)
    requires Sound(t2, active - Subtree(t, c)) && t2.children[c] == {}
    requires Evacuated(t2, t3, c) && Sheltered(t2, t3, {c}, mayEnter)
    ensures Clearance(t, Detached(t3, c), Subtree(t, c), active, t.parent[c], mayEnter)
  {
    RemovalWhole(t, t1, t2, t3, c, active);
    AboveSelf(t.parent, c);
    ShelteredWhole(t, t1, t2, t3, c, Subtree(t, c), mayEnter);
  }

  lemma ShelteredWhole(t: Tree, t1: Tree, t2: Tree, t3: Tree, c: int, gone: set<int>, mayEnter: EnterCheck)
    requires t1.at == t.at && t1.parent == t2.parent == t.parent && c in gone && ClientsMoved(t1, t2, gone - {c}, c)
    requires t3.at.Keys == t2.at.Keys && (forall u :: u in t2.at && t2.at[u] != c ==> t3.at[u] == t2.at[u])
    requires Sheltered(t1, t2, gone - {c}, mayEnter) && Sheltered(t2, t3, {c}, mayEnter)
    ensures Sheltered(t, t3, gone, mayEnter)
  {
    ShelteredOn(t1, t2, t3, gone - {c}, {c}, mayEnter);
    assert gone - {c} + {c} == gone;
  }

  /** Some clients of c have gone to their refuge, the others are still there. */
  ghost predicate Sheltering(t: Tree, t': Tree, c: int, mayEnter: EnterCheck) {
    forall u :: u in t.at && u in t'.at && t.at[u] == c ==>
      t'.at[u] == c || Refuged(t.parent, mayEnter, u, c, t'.at[u], {c})
  }

  lemma ShelterOne(t: Tree, t': Tree, active: set<int>, c: int, u: Client, target: int, mayEnter: EnterCheck)
    requires Evacuating(t, t', c) && Sheltering(t, t', c, mayEnter)
    requires Sound(t', active) && u in t'.members[c] && c in t.live
    requires target in t.live && StrictlyAbove(t.parent, target, c) && (target == ROOT || mayEnter(t', target, u))
    requires forall x :: StrictlyAbove(t.parent, x, c) && StrictlyAbove(t.parent, target, x) ==> !mayEnter(t', x, u)
    ensures Sound(Enter(t', u, target), active) && Evacuating(t, Enter(t', u, target), c)
    ensures Sheltering(t, Enter(t', u, target), c, mayEnter)
    ensures Enter(t', u, target).members[c] == t'.members[c] - {u}
  {
    EvacuateOne(t, t', active, c, u, target);
    RefugeFound(t', mayEnter, u, c, target);
    assert u in t'.at && t'.at[u] == c;
    assert target != c by {
      Acyclic(t.parent, c);
    }
    EnterColumns(t', u, target);
  }

  lemma RefugeFound(t: Tree, mayEnter: EnterCheck, u: Client, c: int, target: int)
    requires StrictlyAbove(t.parent, target, c) && (target == ROOT || mayEnter(t, target, u))
    requires forall x :: StrictlyAbove(t.parent, x, c) && StrictlyAbove(t.parent, target, x) ==> !mayEnter(t, x, u)
    ensures Refuged(t.parent, mayEnter, u, c, target, {c})
  {
    AboveParent(t.parent, target, c);
  }

  // ----- seen from the channel removed

  /** The nearest channel properly above c that lets the client in, or else the root. */
  ghost predicate Haven(parent: map<int, int>, mayEnter: EnterCheck, c: int, u: Client, a: int) {
    && StrictlyAbove(parent, a, c) && (a == ROOT || LetIn(mayEnter, a, u))
    && forall x :: StrictlyAbove(parent, x, c) && StrictlyAbove(parent, a, x) ==> TurnedAway(mayEnter, x, u)
  }

  /** Wherever below c a client was, its refuge outside the subtree is the nearest to c. */
  lemma RefugeIsHaven(t: Tree, mayEnter: EnterCheck, c: int, u: Client, d: int, a: int)
    requires ROOT !in t.parent && Above(t.parent, ROOT, c) && d in Subtree(t, c) && StrictlyAbove(t.parent, a, c)
    requires Refuged(t.parent, mayEnter, u, d, a, Subtree(t, c))
    ensures Haven(t.parent, mayEnter, c, u, a)
  {
    forall x | StrictlyAbove(t.parent, x, c) && StrictlyAbove(t.parent, a, x) ensures TurnedAway(mayEnter, x, u) {
      AboveHigher(t.parent, x, c, d);
      if Above(t.parent, c, x) {
        AboveTransitive(t.parent, c, x, t.parent[c]);
        Acyclic(t.parent, c);
      }
    }
  }

  lemma Havens(t: Tree, t': Tree, c: int, mayEnter: EnterCheck)
    requires Inv(t) && c in t.live && c != ROOT && Clearance(t, t', Subtree(t, c), t.live, t.parent[c], mayEnter)
    ensures forall u :: u in t'.at && t.at[u] in Subtree(t, c) ==> Haven(t.parent, mayEnter, c, u, t'.at[u])
  {
    forall u | u in t'.at && t.at[u] in Subtree(t, c) ensures Haven(t.parent, mayEnter, c, u, t'.at[u]) {
      RefugeIsHaven(t, mayEnter, c, u, t.at[u], t'.at[u]);
    }
  }

  lemma AboveHigher(parent: map<int, int>, x: int, c: int, d: int)
    requires StrictlyAbove(parent, x, c) && Above(parent, c, d)
    ensures StrictlyAbove(parent, x, d)
  {
    AboveCases(parent, c, d);
    if c != d {
      AboveParent(parent, x, c);
      AboveTransitive(parent, x, c, parent[d]);
    }
  }

  /** If the answers of the check do not change while the removal is under way, there is one such channel. */
  lemma OneHaven(parent: map<int, int>, mayEnter: EnterCheck, c: int, u: Client, a: int, b: int)
    requires ROOT !in parent && Haven(parent, mayEnter, c, u, a) && Haven(parent, mayEnter, c, u, b)
    requires forall x, s, s' :: mayEnter(s, x, u) == mayEnter(s', x, u)
    ensures a == b
  {
    AboveComparable(parent, a, b, parent[c]);
    if Above(parent, a, b) {
      AboveCases(parent, a, b);
    } else {
      AboveCases(parent, b, a);
    }
  }
}

/**
  The rule of the ACL evaluator over the entries themselves, each at its place: level i of the chain, entry j
  of the level. Nothing here is said through the evaluation.
 */
module AclRule {
  import opened Acl

  // ----- entries at their places

  predicate IsEntry(levels: seq<Level>, i: int, j: int) {
    0 <= i < |levels| && 0 <= j < |levels[i].rulings|
  }

  predicate Before(a: int, b: int, i: int, j: int) {
    a < i || (a == i && b < j)
  }

  type Choice = (int, int) -> bool

  /** An entry of the choice that mentions the permission. */
  ghost predicate Chosen(levels: seq<Level>, choice: Choice, m: Permission, i: int, j: int) {
    && IsEntry(levels, i, j) && choice(i, j)
    && (m in levels[i].rulings[j].allow || m in levels[i].rulings[j].deny)
  }

  /** The last of them in the order of the chain. */
  ghost predicate LastChosen(levels: seq<Level>, choice: Choice, m: Permission, i: int, j: int) {
    Chosen(levels, choice, m, i, j) && forall a, b :: Chosen(levels, choice, m, a, b) ==> !Before(i, j, a, b)
  }

  /** The last entry of the choice to mention the permission does not deny it; without one, the default. */
  ghost predicate Grants(levels: seq<Level>, choice: Choice, m: Permission, default: bool) {
    || (exists i, j :: LastChosen(levels, choice, m, i, j) && m !in levels[i].rulings[j].deny)
    || (default && forall i, j :: !Chosen(levels, choice, m, i, j))
  }

  /**
    An entry counts among the first n levels if it matches, if no level after its own is one that does not
    inherit, and if it applies here, at the last level of the chain, or to sub-channels, at any other.
   */
  ghost predicate Counts(levels: seq<Level>, n: nat, i: int, j: int) {
    && IsEntry(levels, i, j) && i < n <= |levels|
    && levels[i].rulings[j].matches
    && (if i == |levels| - 1 then levels[i].rulings[j].applyHere else levels[i].rulings[j].applySubs)
    && (forall k :: i < k < n ==> levels[k].inherits)
  }

  /** A matching entry among the first n levels, wherever it applies. */
  ghost predicate Matches(levels: seq<Level>, n: nat, i: int, j: int) {
    IsEntry(levels, i, j) && i < n && levels[i].rulings[j].matches
  }

  // ----- choices one entry at a time

  lemma SameChoice(levels: seq<Level>, p: Choice, q: Choice, m: Permission, default: bool)
    requires forall a, b :: IsEntry(levels, a, b) ==> p(a, b) == q(a, b)
    ensures Grants(levels, p, m, default) == Grants(levels, q, m, default)
  {
    assert forall a, b :: Chosen(levels, p, m, a, b) <==> Chosen(levels, q, m, a, b);
    assert forall a, b :: LastChosen(levels, p, m, a, b) <==> LastChosen(levels, q, m, a, b);
  }

  /** One entry more, after all others. */
  lemma ChoiceGrows(levels: seq<Level>, p: Choice, q: Choice, i: int, j: int, m: Permission, default: bool)
    requires IsEntry(levels, i, j) && q(i, j)
    requires forall a, b :: IsEntry(levels, a, b) && p(a, b) ==> Before(a, b, i, j)
    requires forall a, b :: IsEntry(levels, a, b) ==> (q(a, b) <==> p(a, b) || (a == i && b == j))
    ensures var r := levels[i].rulings[j];
            Grants(levels, q, m, default) == if Mentions(r, m) then !Denies(r, m) else Grants(levels, p, m, default)
  {
    var r := levels[i].rulings[j];
    if Mentions(r, m) {
      assert LastChosen(levels, q, m, i, j);
      forall a, b | LastChosen(levels, q, m, a, b) ensures a == i && b == j {
        assert Chosen(levels, q, m, i, j);
      }
    } else {
      assert forall a, b :: Chosen(levels, p, m, a, b) <==> Chosen(levels, q, m, a, b);
      assert forall a, b :: LastChosen(levels, p, m, a, b) <==> LastChosen(levels, q, m, a, b);
    }
  }

  // ----- one level

  /** The entries of a level that are kept. */
  function Kept(rs: seq<Ruling>, keep: Ruling -> bool): seq<Ruling> {
    if rs == [] then []
    else Kept(rs[..|rs| - 1], keep) + if keep(rs[|rs| - 1]) then [rs[|rs| - 1]] else []
  }

  lemma {:induction false} KeptIs(rs: seq<Ruling>, here: bool)
    ensures Applying(rs, here) == Kept(rs, r => Applies(r, here))
    ensures Matching(rs) == Kept(rs, (r: Ruling) => r.matches)
    decreases |rs|
  {
    if rs != [] {
      KeptIs(rs[..|rs| - 1], here);
    }
  }

  lemma {:induction false} LevelGrants(levels: seq<Level>, n: nat, k: nat, keep: Ruling -> bool, before: seq<Ruling>,
                                       p: Choice, q: Choice, m: Permission, default: bool)
    requires n < |levels| && k <= |levels[n].rulings|
    requires forall a, b :: IsEntry(levels, a, b) && p(a, b) ==> a < n
    requires forall a, b :: IsEntry(levels, a, b) ==>
               (q(a, b) <==> p(a, b) || (a == n && b < k && keep(levels[a].rulings[b])))
    requires LastWord(before, m, default) == Grants(levels, p, m, default)
    ensures LastWord(before + Kept(levels[n].rulings[..k], keep), m, default) == Grants(levels, q, m, default)
    decreases k
  {
    if k == 0 {
      assert before + [] == before;
      SameChoice(levels, p, q, m, default);
    } else {
      var r := levels[n].rulings[k - 1];
      var less := (a: int, b: int) => q(a, b) && !(a == n && b == k - 1);
      LevelGrants(levels, n, k - 1, keep, before, p, less, m, default);
      var front := Kept(levels[n].rulings[..k - 1], keep);
      assert levels[n].rulings[..k][..k - 1] == levels[n].rulings[..k - 1];
      if keep(r) {
        LastWordAppend(before + front, r, m, default);
        assert before + (front + [r]) == before + front + [r];
        ChoiceGrows(levels, less, q, n, k - 1, m, default);
      } else {
        assert before + (front + []) == before + front;
        SameChoice(levels, less, q, m, default);
      }
    }
  }

  // ----- the levels

  lemma {:induction false} MatchedGrants(levels: seq<Level>, n: nat, m: Permission, default: bool)
    requires n <= |levels|
    ensures LastWord(Matched(levels, n), m, default) == Grants(levels, (i, j) => Matches(levels, n, i, j), m, default)
    decreases n
  {
    var q := (i, j) => Matches(levels, n, i, j);
    if n == 0 {
      assert forall i, j :: !Chosen(levels, q, m, i, j);
    } else {
      MatchedGrants(levels, n - 1, m, default);
      var rs := levels[n - 1].rulings;
      KeptIs(rs, true);
      assert rs[..|rs|] == rs;
      LevelGrants(levels, n - 1, |rs|, (r: Ruling) => r.matches, Matched(levels, n - 1),
                  (i, j) => Matches(levels, n - 1, i, j), q, m, default);
    }
  }

  lemma {:induction false} InForceGrants(levels: seq<Level>, n: nat, m: Permission, default: bool)
    requires n <= |levels|
    ensures LastWord(InForce(levels, n), m, default) == Grants(levels, (i, j) => Counts(levels, n, i, j), m, default)
    decreases n
  {
    var q := (i, j) => Counts(levels, n, i, j);
    if n == 0 {
      assert forall i, j :: !Chosen(levels, q, m, i, j);
    } else {
      var rs, here := levels[n - 1].rulings, n == |levels|;
      KeptIs(rs, here);
      assert rs[..|rs|] == rs;
      if levels[n - 1].inherits {
        InForceGrants(levels, n - 1, m, default);
        CountsOneMore(levels, n);
        LevelGrants(levels, n - 1, |rs|, r => Applies(r, here), InForce(levels, n - 1),
                    (i, j) => Counts(levels, n - 1, i, j), q, m, default);
      } else {
        CountsAfresh(levels, n);
        var none := (i: int, j: int) => false;
        assert forall i, j :: !Chosen(levels, none, m, i, j);
        LevelGrants(levels, n - 1, |rs|, r => Applies(r, here), [], none, q, m, default);
      }
    }
  }

  lemma CountsOneMore(levels: seq<Level>, n: nat)
    requires 0 < n <= |levels| && levels[n - 1].inherits
    ensures forall i, j :: IsEntry(levels, i, j) ==>
              (Counts(levels, n, i, j) <==>
                Counts(levels, n - 1, i, j) || (i == n - 1 && Applies(levels[i].rulings[j], n == |levels|)))
  {
  }

  lemma CountsAfresh(levels: seq<Level>, n: nat)
    requires 0 < n <= |levels| && !levels[n - 1].inherits
    ensures forall i, j :: IsEntry(levels, i, j) ==>
              (Counts(levels, n, i, j) <==> i == n - 1 && Applies(levels[i].rulings[j], n == |levels|))
  {
  }

  // ----- the rule

  /** After the first n levels the user can traverse, or write: what the last matching entry to mention it says. */
  ghost predicate Passes(levels: seq<Level>, n: nat) {
    || Grants(levels, (i, j) => Matches(levels, n, i, j), 1, true)
    || Grants(levels, (i, j) => Matches(levels, n, i, j), 0, false)
  }

  /** Traverse, enter, speak, whisper and text message are granted by default. */
  ghost predicate GrantedAt(levels: seq<Level>, m: Permission) {
    Grants(levels, (i, j) => Counts(levels, |levels|, i, j), m, m in {1, 2, 3, 8, 9})
  }

  /**
    The evaluator allows a permission if and only if every level can be passed and the permission is granted
    by the entries that count, or it is neither speak nor whisper and write is.
   */
  lemma AllowedByEntries(levels: seq<Level>, perm: Permission)
    ensures Allowed(levels, perm) <==>
              && (forall n :: 1 <= n <= |levels| ==> Passes(levels, n))
              && (GrantedAt(levels, perm) || (perm != 3 && perm != 8 && GrantedAt(levels, 0)))
  {
    AllowedIsRule(levels, perm);
    InForceGrants(levels, |levels|, perm, perm in DEFAULTS);
    InForceGrants(levels, |levels|, WRITE, false);
    forall n | 1 <= n <= |levels| ensures Passes(levels, n) <==> !BlockedAt(levels, n) {
      MatchedGrants(levels, n, TRAVERSE, true);
      MatchedGrants(levels, n, WRITE, false);
    }
  }

  /** Without entries exactly the five default permissions are allowed. */
  lemma DefaultsOnly(levels: seq<Level>, perm: Permission)
    requires forall i :: 0 <= i < |levels| ==> levels[i].rulings == []
    ensures Allowed(levels, perm) <==> perm in {1, 2, 3, 8, 9}
  {
    AllowedByEntries(levels, perm);
    assert forall i, j :: !IsEntry(levels, i, j);
  }
}

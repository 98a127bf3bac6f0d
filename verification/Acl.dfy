/**
  The ACL evaluator as functions of what it finds along a chain of contexts, root first: which entries
  match the user, and which groups of a name are defined.
 */
module Acl {

  /** A permission is a bit of the 32-bit masks of the original, given by its position; a mask is a set of bits. */
  type Permission = nat
  type Mask = set<Permission>

  const WRITE: Permission := 0
  const TRAVERSE: Permission := 1
  const ENTER: Permission := 2
  const SPEAK: Permission := 3
  const WHISPER: Permission := 8
  const TEXT_MESSAGE: Permission := 9
  const DEFAULTS: Mask := {TRAVERSE, ENTER, SPEAK, WHISPER, TEXT_MESSAGE}

  /** An entry as it stands for one user: whether it matches, where it applies, what it allows and denies. */
  datatype Ruling = Ruling(matches: bool, applyHere: bool, applySubs: bool, allow: Mask, deny: Mask)

  datatype Level = Level(inherits: bool, rulings: seq<Ruling>)

  predicate Mentions(r: Ruling, m: Permission) {
    m in r.allow || m in r.deny
  }

  predicate Denies(r: Ruling, m: Permission) {
    m in r.deny
  }

  // ----- the evaluation

  predicate Applies(r: Ruling, here: bool) {
    r.matches && if here then r.applyHere else r.applySubs
  }

  function Rule(granted: Mask, r: Ruling): Mask {
    (granted + r.allow) - r.deny
  }

  /** The effect of the entries of one context on the permissions granted. */
  function Granted(granted: Mask, rs: seq<Ruling>, here: bool): Mask {
    if rs == [] then granted
    else
      var before := Granted(granted, rs[..|rs| - 1], here);
      var r := rs[|rs| - 1];
      if Applies(r, here) then Rule(before, r) else before
  }

  /** A flag that matching entries set and clear, wherever they apply. */
  predicate Flag(flag: bool, rs: seq<Ruling>, m: Permission) {
    if rs == [] then flag
    else
      var before := Flag(flag, rs[..|rs| - 1], m);
      var r := rs[|rs| - 1];
      if !r.matches then before
      else if m in r.deny then false
      else if m in r.allow then true
      else before
  }

  /** Evaluates the levels from i on; a level that leaves traverse and write off ends it with nothing granted. */
  function Evaluate(levels: seq<Level>, i: nat, granted: Mask, traverse: bool, write: bool): Mask
    requires i <= |levels|
    decreases |levels| - i
  {
    if i == |levels| then granted
    else
      var level := levels[i];
      var start := if level.inherits then granted else DEFAULTS;
      var tr, wr := Flag(traverse, level.rulings, TRAVERSE), Flag(write, level.rulings, WRITE);
      if !tr && !wr then {}
      else Evaluate(levels, i + 1, Granted(start, level.rulings, i == |levels| - 1), tr, wr)
  }

  /** The answer of the evaluator for a user who is not the super user. */
  predicate Allowed(levels: seq<Level>, perm: Permission) {
    var granted := Evaluate(levels, 0, DEFAULTS, true, false);
    if perm != SPEAK && perm != WHISPER then perm in granted || WRITE in granted else perm in granted
  }

  // ----- the rule

  /** The entry at k is the last to mention the permission. */
  ghost predicate LastToMention(rs: seq<Ruling>, m: Permission, k: int) {
    0 <= k < |rs| && Mentions(rs[k], m) && forall j :: k < j < |rs| ==> !Mentions(rs[j], m)
  }

  /** The last entry that mentions the permission decides, deny before allow; without one, the default. */
  ghost predicate LastWord(rs: seq<Ruling>, m: Permission, default: bool) {
    || (exists k :: LastToMention(rs, m, k) && !Denies(rs[k], m))
    || (default && forall k :: 0 <= k < |rs| ==> !Mentions(rs[k], m))
  }

  function Applying(rs: seq<Ruling>, here: bool): seq<Ruling> {
    if rs == [] then []
    else
      var r := rs[|rs| - 1];
      Applying(rs[..|rs| - 1], here) + if Applies(r, here) then [r] else []
  }

  function Matching(rs: seq<Ruling>): seq<Ruling> {
    if rs == [] then []
    else
      var r := rs[|rs| - 1];
      Matching(rs[..|rs| - 1]) + if r.matches then [r] else []
  }

  /** The applicable entries of the first n levels, from the last level that does not inherit on. */
  function InForce(levels: seq<Level>, n: nat): seq<Ruling>
    requires n <= |levels|
  {
    if n == 0 then []
    else
      (if levels[n - 1].inherits then InForce(levels, n - 1) else [])
      + Applying(levels[n - 1].rulings, n == |levels|)
  }

  /** All matching entries of the first n levels. */
  function Matched(levels: seq<Level>, n: nat): seq<Ruling>
    requires n <= |levels|
  {
    if n == 0 then [] else Matched(levels, n - 1) + Matching(levels[n - 1].rulings)
  }

  /** After the first i levels the user can neither traverse nor write. */
  ghost predicate BlockedAt(levels: seq<Level>, i: nat)
    requires i <= |levels|
  {
    !LastWord(Matched(levels, i), TRAVERSE, true) && !LastWord(Matched(levels, i), WRITE, false)
  }

  ghost predicate Blocked(levels: seq<Level>, n: nat)
    requires n <= |levels|
  {
    exists i :: 0 < i <= n && BlockedAt(levels, i)
  }

  lemma LastWordAppend(rs: seq<Ruling>, r: Ruling, m: Permission, default: bool)
    ensures LastWord(rs + [r], m, default) == if Mentions(r, m) then !Denies(r, m) else LastWord(rs, m, default)
  {
    var all := rs + [r];
    if Mentions(r, m) {
      assert LastToMention(all, m, |rs|);
      assert forall k :: LastToMention(all, m, k) ==> k == |rs|;
    } else {
      assert forall k :: 0 <= k < |rs| ==> all[k] == rs[k];
      forall k | 0 <= k < |rs| ensures LastToMention(all, m, k) <==> LastToMention(rs, m, k) {
        if LastToMention(all, m, k) {
          assert forall j :: k < j < |rs| ==> Mentions(all[j], m) == Mentions(rs[j], m);
        }
      }
      assert forall k :: 0 <= k < |rs| ==> Mentions(all[k], m) == Mentions(rs[k], m);
      assert forall k :: 0 <= k < |all| && Mentions(all[k], m) ==> k < |rs|;
    }
  }

  /** What one level grants is the last word of its applicable entries, after those in force before. */
  lemma {:induction false} GrantedIsLastWord(before: seq<Ruling>, g: Mask, rs: seq<Ruling>, here: bool,
                                             m: Permission, default: bool)
    requires (m in g) == LastWord(before, m, default)
    ensures (m in Granted(g, rs, here)) == LastWord(before + Applying(rs, here), m, default)
    decreases |rs|
  {
    if rs == [] {
      assert before + [] == before;
    } else {
      var front, r := rs[..|rs| - 1], rs[|rs| - 1];
      GrantedIsLastWord(before, g, front, here, m, default);
      if Applies(r, here) {
        LastWordAppend(before + Applying(front, here), r, m, default);
        assert before + (Applying(front, here) + [r]) == before + Applying(front, here) + [r];
      } else {
        assert Applying(front, here) + [] == Applying(front, here);
      }
    }
  }

  lemma {:induction false} FlagIsLastWord(before: seq<Ruling>, flag: bool, rs: seq<Ruling>, m: Permission, default: bool)
    requires flag == LastWord(before, m, default)
    ensures Flag(flag, rs, m) == LastWord(before + Matching(rs), m, default)
    decreases |rs|
  {
    if rs == [] {
      assert before + [] == before;
    } else {
      var front, r := rs[..|rs| - 1], rs[|rs| - 1];
      FlagIsLastWord(before, flag, front, m, default);
      if r.matches {
        LastWordAppend(before + Matching(front), r, m, default);
        assert before + (Matching(front) + [r]) == before + Matching(front) + [r];
      } else {
        assert Matching(front) + [] == Matching(front);
      }
    }
  }

  /** The state of the evaluation before level i is what the rule says of the first i levels. */
  ghost predicate Tracks(levels: seq<Level>, i: nat, granted: Mask, traverse: bool, write: bool, m: Permission)
    requires i <= |levels|
  {
    && !Blocked(levels, i)
    && traverse == LastWord(Matched(levels, i), TRAVERSE, true)
    && write == LastWord(Matched(levels, i), WRITE, false)
    && (m in granted) == LastWord(InForce(levels, i), m, m in DEFAULTS)
  }

  lemma FlagsTrack(levels: seq<Level>, i: nat, traverse: bool, write: bool)
    requires i < |levels|
    requires traverse == LastWord(Matched(levels, i), TRAVERSE, true)
    requires write == LastWord(Matched(levels, i), WRITE, false)
    ensures Flag(traverse, levels[i].rulings, TRAVERSE) == LastWord(Matched(levels, i + 1), TRAVERSE, true)
    ensures Flag(write, levels[i].rulings, WRITE) == LastWord(Matched(levels, i + 1), WRITE, false)
  {
    FlagIsLastWord(Matched(levels, i), traverse, levels[i].rulings, TRAVERSE, true);
    FlagIsLastWord(Matched(levels, i), write, levels[i].rulings, WRITE, false);
  }

  lemma GrantTracks(levels: seq<Level>, i: nat, granted: Mask, m: Permission)
    requires i < |levels|
    requires (m in granted) == LastWord(InForce(levels, i), m, m in DEFAULTS)
    ensures (m in Granted(if levels[i].inherits then granted else DEFAULTS, levels[i].rulings, i == |levels| - 1))
         == LastWord(InForce(levels, i + 1), m, m in DEFAULTS)
  {
    var start := if levels[i].inherits then granted else DEFAULTS;
    var before := if levels[i].inherits then InForce(levels, i) else [];
    GrantedIsLastWord(before, start, levels[i].rulings, i == |levels| - 1, m, m in DEFAULTS);
  }

  /** A level that leaves traverse or write on keeps the evaluation going. */
  lemma StepTracks(levels: seq<Level>, i: nat, granted: Mask, traverse: bool, write: bool, m: Permission)
    requires i < |levels| && Tracks(levels, i, granted, traverse, write, m)
    requires Flag(traverse, levels[i].rulings, TRAVERSE) || Flag(write, levels[i].rulings, WRITE)
    ensures Tracks(levels, i + 1,
                   Granted(if levels[i].inherits then granted else DEFAULTS, levels[i].rulings, i == |levels| - 1),
                   Flag(traverse, levels[i].rulings, TRAVERSE), Flag(write, levels[i].rulings, WRITE), m)
  {
    FlagsTrack(levels, i, traverse, write);
    GrantTracks(levels, i, granted, m);
    BlockedLater(levels, i);
  }

  lemma BlockedLater(levels: seq<Level>, i: nat)
    requires i < |levels| && !Blocked(levels, i)
    requires LastWord(Matched(levels, i + 1), TRAVERSE, true) || LastWord(Matched(levels, i + 1), WRITE, false)
    ensures !Blocked(levels, i + 1)
  {
    var at := (j: nat) => j <= |levels| && BlockedAt(levels, j);
    assert !at(i + 1);
    forall j | 0 < j <= i + 1 ensures !at(j) {
      assert j == i + 1 || j <= i;
    }
  }

  lemma StopsBlocked(levels: seq<Level>, i: nat, traverse: bool, write: bool)
    requires i < |levels|
    requires traverse == LastWord(Matched(levels, i), TRAVERSE, true)
    requires write == LastWord(Matched(levels, i), WRITE, false)
    requires !Flag(traverse, levels[i].rulings, TRAVERSE) && !Flag(write, levels[i].rulings, WRITE)
    ensures Blocked(levels, |levels|)
  {
    FlagsTrack(levels, i, traverse, write);
    assert BlockedAt(levels, i + 1);
  }

  /** The rule for one permission: it is not blocked, and the last word in force grants it. */
  ghost predicate RuledIn(levels: seq<Level>, m: Permission) {
    !Blocked(levels, |levels|) && LastWord(InForce(levels, |levels|), m, m in DEFAULTS)
  }

  lemma {:induction false} EvaluateIsRule(levels: seq<Level>, i: nat, granted: Mask, traverse: bool, write: bool,
                                          m: Permission)
    requires i <= |levels| && Tracks(levels, i, granted, traverse, write, m)
    ensures (m in Evaluate(levels, i, granted, traverse, write)) == RuledIn(levels, m)
    decreases |levels| - i
  {
    if i < |levels| {
      var tr, wr := Flag(traverse, levels[i].rulings, TRAVERSE), Flag(write, levels[i].rulings, WRITE);
      if !tr && !wr {
        StopsBlocked(levels, i, traverse, write);
      } else {
        var start := if levels[i].inherits then granted else DEFAULTS;
        var g := Granted(start, levels[i].rulings, i == |levels| - 1);
        StepTracks(levels, i, granted, traverse, write, m);
        EvaluateIsRule(levels, i + 1, g, tr, wr, m);
      }
    }
  }

  /**
    The rule: nothing is allowed after a level that leaves traverse and write off. Otherwise a permission
    is decided by the last applicable entry to mention it from the last non-inheriting context on, deny
    before allow, else by the defaults; and write stands in for all but speaking and whispering.
   */
  lemma AllowedIsRule(levels: seq<Level>, perm: Permission)
    ensures Allowed(levels, perm) <==>
              && !Blocked(levels, |levels|)
              && (|| LastWord(InForce(levels, |levels|), perm, perm in DEFAULTS)
                  || (perm != SPEAK && perm != WHISPER && LastWord(InForce(levels, |levels|), WRITE, false)))
  {
    NothingBefore(levels, perm);
    NothingBefore(levels, WRITE);
    EvaluateIsRule(levels, 0, DEFAULTS, true, false, perm);
    EvaluateIsRule(levels, 0, DEFAULTS, true, false, WRITE);
  }

  lemma NothingBefore(levels: seq<Level>, m: Permission)
    ensures Tracks(levels, 0, DEFAULTS, true, false, m)
  {
    assert Matched(levels, 0) == [] && InForce(levels, 0) == [];
  }

  // ----- what lies above a non-inheriting context

  /** The entries that mention traverse or write. */
  function Stripped(rs: seq<Ruling>): seq<Ruling> {
    if rs == [] then []
    else
      var r := rs[|rs| - 1];
      Stripped(rs[..|rs| - 1]) + if Mentions(r, TRAVERSE) || Mentions(r, WRITE) then [r] else []
  }

  /** Level by level, the entries that mention traverse or write are the same. */
  ghost predicate SamePassage(a: seq<Level>, b: seq<Level>) {
    |a| == |b| && forall i :: 0 <= i < |a| ==> Stripped(a[i].rulings) == Stripped(b[i].rulings)
  }

  lemma {:induction false} StrippedFlag(flag: bool, rs: seq<Ruling>, m: Permission)
    requires m == TRAVERSE || m == WRITE
    ensures Flag(flag, Stripped(rs), m) == Flag(flag, rs, m)
    decreases |rs|
  {
    if rs != [] {
      var front, r := rs[..|rs| - 1], rs[|rs| - 1];
      StrippedFlag(flag, front, m);
      if Mentions(r, TRAVERSE) || Mentions(r, WRITE) {
        assert (Stripped(front) + [r])[..|Stripped(front)|] == Stripped(front);
      } else {
        assert Stripped(front) + [] == Stripped(front);
      }
    }
  }

  lemma {:induction false} AboveIsForgotten(upper: seq<Level>, other: seq<Level>, lower: seq<Level>, i: nat,
                                            g: Mask, h: Mask, traverse: bool, write: bool)
    requires SamePassage(upper, other) && lower != [] && !lower[0].inherits && i <= |upper|
    ensures Evaluate(upper + lower, i, g, traverse, write) == Evaluate(other + lower, i, h, traverse, write)
    decreases |upper| - i
  {
    var one, two := upper + lower, other + lower;
    if i < |upper| {
      SameFlag(traverse, upper[i].rulings, other[i].rulings, TRAVERSE);
      SameFlag(write, upper[i].rulings, other[i].rulings, WRITE);
      var tr, wr := Flag(traverse, upper[i].rulings, TRAVERSE), Flag(write, upper[i].rulings, WRITE);
      if tr || wr {
        AboveIsForgotten(upper, other, lower, i + 1,
                         Granted(if one[i].inherits then g else DEFAULTS, one[i].rulings, false),
                         Granted(if two[i].inherits then h else DEFAULTS, two[i].rulings, false), tr, wr);
      }
    } else {
      SameFromHere(one, two, i, g, h, traverse, write);
    }
  }

  lemma SameFlag(flag: bool, a: seq<Ruling>, b: seq<Ruling>, m: Permission)
    requires Stripped(a) == Stripped(b) && (m == TRAVERSE || m == WRITE)
    ensures Flag(flag, a, m) == Flag(flag, b, m)
  {
    StrippedFlag(flag, a, m);
    StrippedFlag(flag, b, m);
  }

  lemma SameFromHere(a: seq<Level>, b: seq<Level>, i: nat, g: Mask, h: Mask, traverse: bool, write: bool)
    requires i < |a| == |b| && a[i..] == b[i..] && !a[i].inherits
    ensures Evaluate(a, i, g, traverse, write) == Evaluate(b, i, h, traverse, write)
  {
    assert a[i] == a[i..][0] && b[i] == b[i..][0];
    SameTail(a, b, i + 1, Granted(DEFAULTS, a[i].rulings, i == |a| - 1),
             Flag(traverse, a[i].rulings, TRAVERSE), Flag(write, a[i].rulings, WRITE));
  }

  lemma {:induction false} SameTail(a: seq<Level>, b: seq<Level>, i: nat, g: Mask, traverse: bool, write: bool)
    requires 0 < i <= |a| == |b| && a[i - 1..] == b[i - 1..]
    ensures Evaluate(a, i, g, traverse, write) == Evaluate(b, i, g, traverse, write)
    decreases |a| - i
  {
    if i < |a| {
      assert a[i] == a[i - 1..][1] && b[i] == b[i - 1..][1];
      assert a[i..] == a[i - 1..][1..] && b[i..] == b[i - 1..][1..];
      SameTail(a, b, i + 1, Granted(if a[i].inherits then g else DEFAULTS, a[i].rulings, i == |a| - 1),
               Flag(traverse, a[i].rulings, TRAVERSE), Flag(write, a[i].rulings, WRITE));
    }
  }

  /**
    Above a non-inheriting context, entries that mention neither traverse nor write, and the inherit flags,
    never change an answer.
   */
  lemma OnlyTraverseAndWritePass(upper: seq<Level>, other: seq<Level>, lower: seq<Level>, perm: Permission)
    requires SamePassage(upper, other) && lower != [] && !lower[0].inherits
    ensures Allowed(upper + lower, perm) == Allowed(other + lower, perm)
  {
    AboveIsForgotten(upper, other, lower, 0, DEFAULTS, DEFAULTS, true, false);
  }
}

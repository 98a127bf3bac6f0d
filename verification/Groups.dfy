/**
  Groups of users, defined along a chain of contexts: the group string an entry carries, and membership of
  a named group computed in two ways.
 */
module Groups {
  import opened Prelude

  datatype Group = Group(inherit: bool, inheritable: bool, add: set<int>, remove: set<int>, temporary: set<int>)

  // ----- group strings

  /** A group string read: flags from its leading marks, and the name left over. */
  datatype Spec = Spec(invert: bool, inAcl: bool, token: bool, hash: bool, name: string)

  predicate IsMark(c: char) {
    c == '!' || c == '~' || c == '#' || c == '$'
  }

  function Parse(name: string): Spec {
    if name == "" || !IsMark(name[0]) then Spec(false, false, false, false, name)
    else
      var s := Parse(name[1..]);
      match name[0]
      case '!' => s.(invert := true)
      case '~' => s.(inAcl := true)
      case '#' => s.(token := true)
      case _ => s.(hash := true)
  }

  lemma ParseOne(c: char, name: string)
    requires c == '!' || c == '~' || c == '#' || c == '$'
    ensures var s := Parse(name);
            Parse([c] + name) ==
              Spec(s.invert || c == '!', s.inAcl || c == '~', s.token || c == '#', s.hash || c == '$', s.name)
  {
    assert ([c] + name)[1..] == name;
  }

  /**
    Marks may come in any order and number: each flag says whether its mark occurs, so that two inversions
    do not cancel out.
   */
  lemma {:induction false} ParseExact(marks: string, name: string)
    requires forall i :: 0 <= i < |marks| ==> marks[i] == '!' || marks[i] == '~' || marks[i] == '#' || marks[i] == '$'
    requires name == "" || (name[0] != '!' && name[0] != '~' && name[0] != '#' && name[0] != '$')
    ensures Parse(marks + name) == Spec('!' in marks, '~' in marks, '#' in marks, '$' in marks, name)
  {
    if marks == "" {
      assert marks + name == name;
    } else {
      ParseExact(marks[1..], name);
      ParseOne(marks[0], marks[1..] + name);
      FirstApart(marks, name);
    }
  }

  lemma FirstApart(marks: string, name: string)
    requires marks != ""
    ensures marks + name == [marks[0]] + (marks[1..] + name)
    ensures forall c :: c in marks <==> c == marks[0] || c in marks[1..]
  {
    assert marks == [marks[0]] + marks[1..];
  }

  const MAGIC := {"none", "all", "auth", "strong", "in", "out", "sub"}

  predicate Plain(name: string) {
    name != "" && !IsMark(name[0]) && name !in MAGIC
  }

  // ----- the groups that count

  /**
    The groups of one name that count, outermost first, given what each context of a chain defines under
    the name. Away from the innermost context a group that cannot be inherited ends the search, and so does
    everywhere a group that does not inherit.
   */
  function Collected(defs: seq<Option<Group>>, here: bool): seq<Group> {
    if defs == [] then []
    else
      var outer, def := defs[..|defs| - 1], defs[|defs| - 1];
      if def.None? then Collected(outer, false)
      else if !here && !def.value.inheritable then []
      else (if def.value.inherit then Collected(outer, false) else []) + [def.value]
  }

  predicate Takes(g: Group, uid: int, session: int) {
    uid in g.add || uid in g.temporary || -session in g.temporary
  }

  predicate IsMember(groups: seq<Group>, uid: int, session: int) {
    if groups == [] then false
    else
      var g := groups[|groups| - 1];
      if uid in g.remove then false
      else Takes(g, uid, session) || IsMember(groups[..|groups| - 1], uid, session)
  }

  /** The members listed. */
  function Members(groups: seq<Group>): set<int> {
    if groups == [] then {}
    else
      var g := groups[|groups| - 1];
      (Members(groups[..|groups| - 1]) + g.add) - g.remove
  }

  ghost predicate NoTemporary(groups: seq<Group>) {
    forall i :: 0 <= i < |groups| ==> groups[i].temporary == {}
  }

  /** Both ways of computing membership agree, unless somebody is a member for the time being. */
  lemma {:induction false} MembersAgree(groups: seq<Group>, uid: int, session: int)
    requires NoTemporary(groups)
    ensures uid in Members(groups) <==> IsMember(groups, uid, session)
  {
    if groups != [] {
      MembersAgree(groups[..|groups| - 1], uid, session);
    }
  }

  /**
    Temporary members only ever add to the list, and those they add are exactly the users some group takes
    for the time being and no later group removes.
   */
  lemma {:induction false} TemporaryAdds(groups: seq<Group>, uid: int, session: int)
    ensures IsMember(groups, uid, session) <==> uid in Members(groups) || TakenForNow(groups, uid, session)
  {
    if groups != [] {
      var outer := groups[..|groups| - 1];
      TemporaryAdds(outer, uid, session);
      if TakenForNow(outer, uid, session) && uid !in groups[|outer|].remove {
        var k :| TakenForNowAt(outer, k, uid, session);
        assert TakenForNowAt(groups, k, uid, session);
      }
      if TakenForNow(groups, uid, session) {
        var k :| TakenForNowAt(groups, k, uid, session);
        assert uid !in groups[|outer|].remove;
        if k < |outer| {
          assert TakenForNowAt(outer, k, uid, session);
        }
      }
      if uid !in groups[|outer|].remove && (uid in groups[|outer|].temporary || -session in groups[|outer|].temporary) {
        assert TakenForNowAt(groups, |outer|, uid, session);
      }
    }
  }

  ghost predicate TakenForNowAt(groups: seq<Group>, k: int, uid: int, session: int) {
    && 0 <= k < |groups|
    && (uid in groups[k].temporary || -session in groups[k].temporary)
    && forall j :: k <= j < |groups| ==> uid !in groups[j].remove
  }

  ghost predicate TakenForNow(groups: seq<Group>, uid: int, session: int) {
    exists k :: TakenForNowAt(groups, k, uid, session)
  }

  // ----- the rule

  /** The definition in context k counts: inheritance reaches it from the innermost context. */
  ghost predicate Counts(defs: seq<Option<Group>>, k: int, here: bool) {
    && 0 <= k < |defs| && defs[k].Some?
    && (forall j :: k <= j < |defs| && defs[j].Some? && (j < |defs| - 1 || !here) ==> defs[j].value.inheritable)
    && (forall j :: k < j < |defs| && defs[j].Some? ==> defs[j].value.inherit)
  }

  ghost predicate Decides(defs: seq<Option<Group>>, k: int, here: bool, uid: int, session: int) {
    && Counts(defs, k, here)
    && uid !in defs[k].value.remove
    && (uid in defs[k].value.add || uid in defs[k].value.temporary || -session in defs[k].value.temporary)
    && forall j :: k < j && Counts(defs, j, here) ==> uid !in defs[j].value.remove
  }

  /**
    A user is in a group exactly when a definition that counts takes the user, and none that counts from
    there inwards removes the user.
   */
  lemma {:induction false} MemberRule(defs: seq<Option<Group>>, here: bool, uid: int, session: int)
    ensures IsMember(Collected(defs, here), uid, session) <==> exists k :: Decides(defs, k, here, uid, session)
    decreases |defs|
  {
    if defs != [] {
      var outer, def := defs[..|defs| - 1], defs[|defs| - 1];
      MemberRule(outer, false, uid, session);
      DecidesOuter(defs, here, uid, session);
      if k: int :| Decides(outer, k, false, uid, session) {
        assert Decides(defs, k, here, uid, session) || def.Some?;
      }
      if def.Some? && (here || def.value.inheritable) {
        assert Counts(defs, |outer|, here);
        var all := Collected(defs, here);
        assert all[..|all| - 1] == if def.value.inherit then Collected(outer, false) else [];
        if Takes(def.value, uid, session) && uid !in def.value.remove {
          assert Decides(defs, |outer|, here, uid, session);
        }
      }
    }
  }

  lemma CountsOuter(defs: seq<Option<Group>>, here: bool)
    requires defs != []
    ensures var def := defs[|defs| - 1];
            forall k :: 0 <= k < |defs| - 1 ==>
              (Counts(defs, k, here) <==>
                && Counts(defs[..|defs| - 1], k, false)
                && (def.Some? ==> def.value.inherit && (here || def.value.inheritable)))
  {
    var outer, def := defs[..|defs| - 1], defs[|defs| - 1];
    assert forall j :: 0 <= j < |outer| ==> outer[j] == defs[j];
    forall k | 0 <= k < |outer|
      ensures Counts(defs, k, here) <==>
                Counts(outer, k, false) && (def.Some? ==> def.value.inherit && (here || def.value.inheritable))
    {
      if Counts(defs, k, here) {
        assert def.Some? ==> defs[|outer|].value.inherit;
      }
    }
  }

  lemma DecidesOuter(defs: seq<Option<Group>>, here: bool, uid: int, session: int)
    requires defs != []
    ensures var outer, def := defs[..|defs| - 1], defs[|defs| - 1];
            forall k :: 0 <= k < |outer| ==>
              (Decides(defs, k, here, uid, session) <==>
                && Decides(outer, k, false, uid, session)
                && (def.Some? ==> def.value.inherit && (here || def.value.inheritable) && uid !in def.value.remove))
  {
    CountsOuter(defs, here);
    var outer, def := defs[..|defs| - 1], defs[|defs| - 1];
    assert forall j :: 0 <= j < |outer| ==> outer[j] == defs[j];
    forall k | 0 <= k < |outer|
      ensures Decides(defs, k, here, uid, session) <==>
                && Decides(outer, k, false, uid, session)
                && (def.Some? ==> def.value.inherit && (here || def.value.inheritable) && uid !in def.value.remove)
    {
      if Decides(defs, k, here, uid, session) {
        assert def.Some? ==> Counts(defs, |outer|, here);
      }
    }
  }
}

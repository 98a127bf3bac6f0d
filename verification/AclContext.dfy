/** Contexts linked to their parents, and the loops that evaluate permissions and groups over them. */
module AclContext {
  import opened Prelude
  import opened Acl
  import AclRule
  import opened Groups

  datatype Entry = Entry(userId: int, group: string, applyHere: bool, applySubs: bool, allow: Mask, deny: Mask)

  datatype User = User(id: int, session: nat, tokens: seq<string>, certHash: string, context: Context?)

  /** Letters made small, as far as comparing tokens and hashes goes. */
  type Lower = string -> string

  class Context {
    var parent: Context?
    var acls: seq<Entry>
    var groups: map<string, Group>
    var inherits: bool

    constructor (parent: Context?, acls: seq<Entry>, groups: map<string, Group>, inherits: bool)
      ensures this.parent == parent && this.acls == acls && this.groups == groups && this.inherits == inherits
    {
      this.parent := parent;
      this.acls := acls;
      this.groups := groups;
      this.inherits := inherits;
    }
  }

  // ----- chains

  /** The contexts from the outermost to the given one. */
  ghost predicate IsChain(chain: seq<Context>, ctx: Context?)
    reads chain
  {
    if ctx == null then chain == []
    else chain != [] && chain[|chain| - 1] == ctx && IsChain(chain[..|chain| - 1], ctx.parent)
  }

  lemma {:induction false} ChainUnique(a: seq<Context>, b: seq<Context>, ctx: Context?)
    requires IsChain(a, ctx) && IsChain(b, ctx)
    ensures a == b
    decreases |a|
  {
    if ctx != null {
      ChainUnique(a[..|a| - 1], b[..|b| - 1], ctx.parent);
      assert a == a[..|a| - 1] + [ctx] && b == b[..|b| - 1] + [ctx];
    }
  }

  lemma {:induction false} ChainPrefix(chain: seq<Context>, ctx: Context?, k: nat)
    requires IsChain(chain, ctx) && k < |chain|
    ensures IsChain(chain[..k + 1], chain[k])
    decreases |chain|
  {
    if k == |chain| - 1 {
      assert chain[..k + 1] == chain;
    } else {
      ChainPrefix(chain[..|chain| - 1], ctx.parent, k);
      assert chain[..|chain| - 1][..k + 1] == chain[..k + 1];
    }
  }

  /** No context occurs twice in a chain. */
  lemma ChainDistinct(chain: seq<Context>, ctx: Context?, i: nat, j: nat)
    requires IsChain(chain, ctx) && i < |chain| && j < |chain| && chain[i] == chain[j]
    ensures i == j
  {
    ChainPrefix(chain, ctx, i);
    ChainPrefix(chain, ctx, j);
    ChainUnique(chain[..i + 1], chain[..j + 1], chain[i]);
  }

  method BuildChain(ghost chain: seq<Context>, ctx: Context?) returns (r: seq<Context>)
    requires IsChain(chain, ctx)
    ensures r == chain
  {
    r := [];
    var at := ctx;
    ghost var left := chain;
    while at != null
      invariant IsChain(left, at) && left + r == chain
      decreases |left|
    {
      assert left == left[..|left| - 1] + [at];
      r := [at] + r;
      left := left[..|left| - 1];
      at := at.parent;
    }
  }

  // ----- groups

  /** What each context defines under a name. */
  function Defs(chain: seq<Context>, name: string): (r: seq<Option<Group>>)
    reads chain
    ensures |r| == |chain|
  {
    if chain == [] then []
    else
      var ctx := chain[|chain| - 1];
      Defs(chain[..|chain| - 1], name) + [if name in ctx.groups then Some(ctx.groups[name]) else None]
  }

  /** Walks outwards and collects the groups of a name that count. */
  method CollectGroups(ghost chain: seq<Context>, ctx: Context?, name: string) returns (groups: seq<Group>)
    requires IsChain(chain, ctx)
    ensures groups == Collected(Defs(chain, name), true)
  {
    groups := [];
    var iter := ctx;
    ghost var left := chain;
    while iter != null
      invariant IsChain(left, iter) && |left| <= |chain| && left == chain[..|left|]
      invariant Collected(Defs(left, name), |left| == |chain|) + groups == Collected(Defs(chain, name), true)
      decreases |left|
    {
      ghost var outer := left[..|left| - 1];
      ghost var defs := Defs(left, name);
      assert defs[..|defs| - 1] == Defs(outer, name);
      assert iter == ctx <==> |left| == |chain| by {
        if iter == ctx { ChainUnique(left, chain, ctx); }
      }
      if name in iter.groups {
        var group := iter.groups[name];
        if iter != ctx && !group.inheritable { break; }
        groups := [group] + groups;
        if !group.inherit { break; }
      }
      iter := iter.parent;
      left := outer;
    }
  }

  /** The users a group lists in a context, with those it inherits. */
  method MembersInContext(ghost chain: seq<Context>, ctx: Context?, name: string) returns (members: set<int>)
    requires IsChain(chain, ctx)
    ensures members == Members(Collected(Defs(chain, name), true))
  {
    members := {};
    var groups := CollectGroups(chain, ctx, name);
    for i := 0 to |groups|
      invariant members == Members(groups[..i])
    {
      assert groups[..i + 1][..i] == groups[..i];
      members := members + groups[i].add;
      members := members - groups[i].remove;
    }
    assert groups[..|groups|] == groups;
  }

  /** The context a group string is read in: that of the entry when marked so, else the current one. */
  function Within(chain: seq<Context>, at: nat, inAcl: bool): (r: seq<Context>)
    requires at < |chain|
    ensures r != [] && |r| <= |chain| && r == chain[..|r|]
  {
    if inAcl then chain[..at + 1] else chain
  }

  predicate HasToken(tokens: seq<string>, name: string, lower: Lower) {
    exists i :: 0 <= i < |tokens| && lower(name) == lower(tokens[i])
  }

  /** Membership before any inversion, in the innermost context of the chain. */
  predicate Holds(s: Spec, chain: seq<Context>, user: User, lower: Lower)
    requires chain != []
    reads chain
  {
    if s.token then HasToken(user.tokens, s.name, lower)
    else if s.hash then lower(s.name) == lower(user.certHash)
    else if s.name == "none" || s.name == "strong" then false
    else if s.name == "all" then true
    else if s.name == "auth" then user.id >= 0
    else if s.name == "in" then user.context == chain[|chain| - 1]
    else if s.name == "out" then user.context != chain[|chain| - 1]
    else IsMember(Collected(Defs(chain, s.name), true), user.id, user.session)
  }

  /** The user is in the group an entry of the context at the given position names. */
  predicate InGroup(chain: seq<Context>, at: nat, name: string, user: User, lower: Lower)
    requires at < |chain|
    reads chain
  {
    var s := Parse(name);
    s.name != "" && Holds(s, Within(chain, at, s.inAcl), user, lower) != s.invert
  }

  /** The magic names, read in the current context, and the empty name. */
  lemma MagicNames(chain: seq<Context>, at: nat, user: User, lower: Lower)
    requires at < |chain|
    ensures !InGroup(chain, at, "", user, lower) && !InGroup(chain, at, "none", user, lower)
    ensures InGroup(chain, at, "all", user, lower) && !InGroup(chain, at, "strong", user, lower)
    ensures InGroup(chain, at, "auth", user, lower) <==> user.id >= 0
    ensures InGroup(chain, at, "in", user, lower) <==> user.context == chain[|chain| - 1]
    ensures InGroup(chain, at, "out", user, lower) <==> user.context != chain[|chain| - 1]
  {
  }

  /** A leading '!' negates the answer, unless there is another, and unless nothing but marks follows. */
  lemma Inverted(chain: seq<Context>, at: nat, name: string, user: User, lower: Lower)
    requires at < |chain|
    ensures InGroup(chain, at, "!" + name, user, lower) <==>
              if Parse(name).name == "" then false
              else if Parse(name).invert then InGroup(chain, at, name, user, lower)
              else !InGroup(chain, at, name, user, lower)
  {
    ParseOne('!', name);
  }

  /** A name that does not begin with a mark. */
  predicate Unmarked(name: string) {
    name != "" && name[0] != '!' && name[0] != '~' && name[0] != '#' && name[0] != '$'
  }

  /** '#' asks for an access token. */
  lemma TokenGroup(chain: seq<Context>, at: nat, name: string, user: User, lower: Lower)
    requires at < |chain| && Unmarked(name)
    ensures InGroup(chain, at, "#" + name, user, lower) <==>
              exists i :: 0 <= i < |user.tokens| && lower(name) == lower(user.tokens[i])
  {
    ParseOne('#', name);
  }

  /** '$' asks for a certificate. */
  lemma HashGroup(chain: seq<Context>, at: nat, name: string, user: User, lower: Lower)
    requires at < |chain| && Unmarked(name)
    ensures InGroup(chain, at, "$" + name, user, lower) <==> lower(name) == lower(user.certHash)
  {
    ParseOne('$', name);
  }

  /** '~' has the name read in the context of the entry. */
  lemma EntryContextGroup(chain: seq<Context>, at: nat, name: string, user: User, lower: Lower)
    requires at < |chain| && Unmarked(name)
    ensures InGroup(chain, at, "~" + name, user, lower) <==> InGroup(chain[..at + 1], at, name, user, lower)
  {
    ParseOne('~', name);
  }

  lemma PlainIsMember(chain: seq<Context>, at: nat, name: string, user: User, lower: Lower)
    requires at < |chain| && Plain(name)
    ensures InGroup(chain, at, name, user, lower) == IsMember(Collected(Defs(chain, name), true), user.id, user.session)
  {
  }

  ghost predicate Decided(defs: seq<Option<Group>>, uid: int, session: int) {
    exists k :: Decides(defs, k, true, uid, session)
  }

  lemma MemberDecided(defs: seq<Option<Group>>, uid: int, session: int)
    ensures IsMember(Collected(defs, true), uid, session) == Decided(defs, uid, session)
  {
    MemberRule(defs, true, uid, session);
  }

  /** A plain name is a group defined along the chain. */
  lemma PlainGroup(chain: seq<Context>, at: nat, name: string, user: User, lower: Lower)
    requires at < |chain| && Plain(name)
    ensures InGroup(chain, at, name, user, lower) == Decided(Defs(chain, name), user.id, user.session)
  {
    PlainIsMember(chain, at, name, user, lower);
    MemberDecided(Defs(chain, name), user.id, user.session);
  }

  /** What the contexts define under a name. */
  lemma {:induction false} DefsAt(chain: seq<Context>, name: string, k: nat)
    requires k < |chain|
    ensures Defs(chain, name)[k] == if name in chain[k].groups then Some(chain[k].groups[name]) else None
    decreases |chain|
  {
    if k < |chain| - 1 {
      DefsAt(chain[..|chain| - 1], name, k);
    }
  }

  /** The group string does not name the path-based group, on which the original fails. */
  predicate Supported(name: string) {
    var s := Parse(name);
    s.name == "sub" ==> s.token || s.hash
  }

  /** The marks of a group string, read one by one. */
  method ReadMarks(group: string) returns (s: Spec)
    ensures s == Parse(group)
  {
    var name, invert, inAcl, token, hash := group, false, false, false, false;
    while name != "" && IsMark(name[0])
      invariant Parse(group) == var r := Parse(name);
                                Spec(invert || r.invert, inAcl || r.inAcl, token || r.token, hash || r.hash, r.name)
      decreases |name|
    {
      if name[0] == '!' {
        invert := true;
      } else if name[0] == '~' {
        inAcl := true;
      } else if name[0] == '#' {
        token := true;
      } else {
        hash := true;
      }
      name := name[1..];
    }
    s := Spec(invert, inAcl, token, hash, name);
  }

  method GroupMemberCheck(ghost chain: seq<Context>, current: Context, ghost at: nat, acl: Context, group: string,
                          user: User, lower: Lower) returns (ok: bool)
    requires IsChain(chain, current) && at < |chain| && chain[at] == acl && Supported(group)
    ensures ok == InGroup(chain, at, group, user, lower)
  {
    var s := ReadMarks(group);
    if s.name == "" { return false; }
    var channel := if s.inAcl then acl else current;
    ghost var within := Within(chain, at, s.inAcl);
    ChainPrefix(chain, current, at);
    if s.token {
      ok := false;
      for i := 0 to |user.tokens|
        invariant ok == HasToken(user.tokens[..i], s.name, lower)
      {
        TokenAppend(user.tokens, i, s.name, lower);
        if lower(s.name) == lower(user.tokens[i]) { ok := true; }
      }
      assert user.tokens[..|user.tokens|] == user.tokens;
    } else if s.hash {
      ok := lower(s.name) == lower(user.certHash);
    } else if s.name == "none" {
      ok := false;
    } else if s.name == "all" {
      ok := true;
    } else if s.name == "auth" {
      ok := user.id >= 0;
    } else if s.name == "strong" {
      ok := false;
    } else if s.name == "in" {
      ok := user.context == channel;
    } else if s.name == "out" {
      ok := user.context != channel;
    } else {
      ok := PlainMember(within, channel, s.name, user);
    }
    if s.invert { ok := !ok; }
  }

  lemma TokenAppend(tokens: seq<string>, i: nat, name: string, lower: Lower)
    requires i < |tokens|
    ensures HasToken(tokens[..i + 1], name, lower)
         == (HasToken(tokens[..i], name, lower) || lower(name) == lower(tokens[i]))
  {
    assert tokens[..i + 1] == tokens[..i] + [tokens[i]];
    if HasToken(tokens[..i], name, lower) {
      var k :| 0 <= k < i && lower(name) == lower(tokens[..i][k]);
      assert tokens[..i + 1][k] == tokens[k];
    }
    if lower(name) == lower(tokens[i]) {
      assert tokens[..i + 1][i] == tokens[i];
    }
  }

  method PlainMember(ghost chain: seq<Context>, channel: Context, name: string, user: User) returns (isMember: bool)
    requires IsChain(chain, channel)
    ensures isMember == IsMember(Collected(Defs(chain, name), true), user.id, user.session)
  {
    var groups := CollectGroups(chain, channel, name);
    isMember := false;
    for i := 0 to |groups|
      invariant isMember == IsMember(groups[..i], user.id, user.session)
    {
      assert groups[..i + 1][..i] == groups[..i];
      var group := groups[i];
      if user.id in group.add || user.id in group.temporary || -(user.session as int) in group.temporary {
        isMember := true;
      }
      if user.id in group.remove {
        isMember := false;
      }
    }
    assert groups[..|groups|] == groups;
  }

  /** The list of members of a plain group and the check of one user agree, without temporary members. */
  lemma TwoWaysAgree(chain: seq<Context>, at: nat, name: string, user: User, lower: Lower)
    requires at < |chain| && Plain(name)
    requires NoTemporary(Collected(Defs(chain, name), true))
    ensures user.id in Members(Collected(Defs(chain, name), true)) <==> InGroup(chain, at, name, user, lower)
  {
    MembersAgree(Collected(Defs(chain, name), true), user.id, user.session);
  }

  // ----- permissions

  function RulingOf(chain: seq<Context>, at: nat, e: Entry, user: User, lower: Lower): Ruling
    requires at < |chain|
    reads chain
  {
    Ruling((e.userId != -1 && e.userId == user.id) || InGroup(chain, at, e.group, user, lower),
           e.applyHere, e.applySubs, e.allow, e.deny)
  }

  function RulingsOf(chain: seq<Context>, at: nat, acls: seq<Entry>, user: User, lower: Lower): (r: seq<Ruling>)
    requires at < |chain|
    ensures |r| == |acls|
    reads chain
  {
    if acls == [] then []
    else
      RulingsOf(chain, at, acls[..|acls| - 1], user, lower)
      + [RulingOf(chain, at, acls[|acls| - 1], user, lower)]
  }

  /** What the first n contexts of the chain say about the user. */
  function LevelsOf(chain: seq<Context>, n: nat, user: User, lower: Lower): (r: seq<Level>)
    requires n <= |chain|
    ensures |r| == n
    ensures forall i :: 0 <= i < n ==>
              r[i] == Level(chain[i].inherits, RulingsOf(chain, i, chain[i].acls, user, lower))
    reads chain
  {
    if n == 0 then []
    else
      LevelsOf(chain, n - 1, user, lower)
      + [Level(chain[n - 1].inherits, RulingsOf(chain, n - 1, chain[n - 1].acls, user, lower))]
  }

  lemma {:induction false} RulingsPrefix(chain: seq<Context>, at: nat, acls: seq<Entry>, user: User, lower: Lower, j: nat)
    requires at < |chain| && j <= |acls|
    ensures RulingsOf(chain, at, acls, user, lower)[..j] == RulingsOf(chain, at, acls[..j], user, lower)
    decreases |acls|
  {
    if j == |acls| {
      assert acls[..j] == acls;
    } else {
      RulingsPrefix(chain, at, acls[..|acls| - 1], user, lower, j);
      assert acls[..|acls| - 1][..j] == acls[..j];
    }
  }

  lemma RulingAt(chain: seq<Context>, at: nat, acls: seq<Entry>, user: User, lower: Lower, j: nat)
    requires at < |chain| && j < |acls|
    ensures RulingsOf(chain, at, acls, user, lower)[j] == RulingOf(chain, at, acls[j], user, lower)
  {
    RulingsPrefix(chain, at, acls, user, lower, j + 1);
    assert acls[..j + 1][..j] == acls[..j];
  }

  ghost predicate AllSupported(chain: seq<Context>)
    reads chain
  {
    forall i, j :: 0 <= i < |chain| && 0 <= j < |chain[i].acls| ==> Supported(chain[i].acls[j].group)
  }

  /** One entry more. */
  lemma OneMore(start: Mask, tr: bool, wr: bool, rs: seq<Ruling>, j: nat, here: bool)
    requires j < |rs|
    ensures Granted(start, rs[..j + 1], here)
         == if Applies(rs[j], here) then Granted(start, rs[..j], here) + rs[j].allow - rs[j].deny
            else Granted(start, rs[..j], here)
    ensures forall m :: Flag(tr, rs[..j + 1], m) ==
              (if !rs[j].matches then Flag(tr, rs[..j], m)
               else m !in rs[j].deny && (m in rs[j].allow || Flag(tr, rs[..j], m)))
    ensures forall m :: Flag(wr, rs[..j + 1], m) ==
              (if !rs[j].matches then Flag(wr, rs[..j], m)
               else m !in rs[j].deny && (m in rs[j].allow || Flag(wr, rs[..j], m)))
  {
    assert rs[..j + 1][..j] == rs[..j];
  }

  /** The entries of one context, applied in order. */
  method ApplyEntries(ghost chain: seq<Context>, ghost at: nat, ctx: Context, orig: Context, user: User, lower: Lower,
                      start: Mask, tr: bool, wr: bool) returns (granted: Mask, traverse: bool, write: bool)
    requires IsChain(chain, orig) && at < |chain| && chain[at] == ctx && AllSupported(chain)
    ensures var rs := RulingsOf(chain, at, ctx.acls, user, lower);
            && granted == Granted(start, rs, at == |chain| - 1)
            && traverse == Flag(tr, rs, TRAVERSE) && write == Flag(wr, rs, WRITE)
  {
    ghost var rs := RulingsOf(chain, at, ctx.acls, user, lower);
    granted, traverse, write := start, tr, wr;
    if ctx == orig { ChainDistinct(chain, orig, at, |chain| - 1); }
    for j := 0 to |ctx.acls|
      invariant granted == Granted(start, rs[..j], at == |chain| - 1)
      invariant traverse == Flag(tr, rs[..j], TRAVERSE) && write == Flag(wr, rs[..j], WRITE)
    {
      OneMore(start, tr, wr, rs, j, at == |chain| - 1);
      RulingAt(chain, at, ctx.acls, user, lower, j);
      var acl := ctx.acls[j];
      var matchUser := acl.userId != -1 && acl.userId == user.id;
      var matchGroup := GroupMemberCheck(chain, orig, at, ctx, acl.group, user, lower);
      if matchUser || matchGroup {
        if TRAVERSE in acl.allow { traverse := true; }
        if TRAVERSE in acl.deny { traverse := false; }
        if WRITE in acl.allow { write := true; }
        if WRITE in acl.deny { write := false; }
        if (orig == ctx && acl.applyHere) || (orig != ctx && acl.applySubs) {
          granted := granted + acl.allow;
          granted := granted - acl.deny;
        }
      }
    }
    assert rs[..|ctx.acls|] == rs;
  }

  /** The permissions granted along the chain; the entries of a chain are read as levels for the user. */
  method GrantedIn(ghost chain: seq<Context>, ghost levels: seq<Level>, ctx: Context, user: User, lower: Lower)
    returns (granted: Mask)
    requires IsChain(chain, ctx) && AllSupported(chain) && |levels| == |chain|
    requires forall i :: 0 <= i < |chain| ==>
               levels[i] == Level(chain[i].inherits, RulingsOf(chain, i, chain[i].acls, user, lower))
    ensures granted == Evaluate(levels, 0, DEFAULTS, true, false)
  {
    granted := DEFAULTS;
    var contexts := BuildChain(chain, ctx);
    var traverse, write := true, false;
    for i := 0 to |contexts|
      invariant Evaluate(levels, 0, DEFAULTS, true, false) == Evaluate(levels, i, granted, traverse, write)
    {
      if !contexts[i].inherits {
        granted := DEFAULTS;
      }
      granted, traverse, write := ApplyEntries(chain, i, contexts[i], ctx, user, lower, granted, traverse, write);
      if !traverse && !write {
        return {};
      }
    }
  }

  // ----- the rule over the entries of the chain

  /** Entry j of context i, which is for the user: by id, or by a group read there. */
  ghost predicate IsFor(chain: seq<Context>, user: User, lower: Lower, i: int, j: int)
    reads chain
  {
    && 0 <= i < |chain| && 0 <= j < |chain[i].acls|
    && var e := chain[i].acls[j];
       (e.userId != -1 && e.userId == user.id) || InGroup(chain, i, e.group, user, lower)
  }

  /** It mentions the permission. */
  ghost predicate Names(chain: seq<Context>, m: Permission, i: int, j: int)
    requires 0 <= i < |chain| && 0 <= j < |chain[i].acls|
    reads chain
  {
    m in chain[i].acls[j].allow || m in chain[i].acls[j].deny
  }

  /**
    It counts: no context further in refuses to inherit, and it applies here if its context is the one asked
    about, or to sub-channels if that lies further in.
   */
  ghost predicate Counting(chain: seq<Context>, user: User, lower: Lower, i: int, j: int)
    reads chain
  {
    && IsFor(chain, user, lower, i, j)
    && (if i == |chain| - 1 then chain[i].acls[j].applyHere else chain[i].acls[j].applySubs)
    && (forall k :: i < k < |chain| ==> chain[k].inherits)
  }

  ghost predicate LastCounting(chain: seq<Context>, user: User, lower: Lower, m: Permission, i: int, j: int)
    reads chain
  {
    && Counting(chain, user, lower, i, j) && Names(chain, m, i, j)
    && forall a, b :: Counting(chain, user, lower, a, b) && Names(chain, m, a, b) ==> !AclRule.Before(i, j, a, b)
  }

  /** The last counting entry to name the permission does not deny it; without one, it is one of the defaults. */
  ghost predicate GrantedTo(chain: seq<Context>, user: User, lower: Lower, m: Permission)
    reads chain
  {
    || (exists i, j :: LastCounting(chain, user, lower, m, i, j) && m !in chain[i].acls[j].deny)
    || (m in {1, 2, 3, 8, 9} && forall i, j :: Counting(chain, user, lower, i, j) ==> !Names(chain, m, i, j))
  }

  ghost predicate LastFor(chain: seq<Context>, n: nat, user: User, lower: Lower, m: Permission, i: int, j: int)
    reads chain
  {
    && i < n && IsFor(chain, user, lower, i, j) && Names(chain, m, i, j)
    && forall a, b :: a < n && IsFor(chain, user, lower, a, b) && Names(chain, m, a, b) ==> !AclRule.Before(i, j, a, b)
  }

  /** In the first n contexts the last entry for the user to name the permission does not deny it; else the default. */
  ghost predicate Leaves(chain: seq<Context>, n: nat, user: User, lower: Lower, m: Permission, default: bool)
    reads chain
  {
    || (exists i, j :: LastFor(chain, n, user, lower, m, i, j) && m !in chain[i].acls[j].deny)
    || (default && forall i, j :: i < n && IsFor(chain, user, lower, i, j) ==> !Names(chain, m, i, j))
  }

  /** All contexts leave traverse or write on, and the permission is granted, or write for all but speak and whisper. */
  ghost predicate Permitted(chain: seq<Context>, user: User, lower: Lower, perm: Permission)
    reads chain
  {
    && (forall n :: 1 <= n <= |chain| ==> Leaves(chain, n, user, lower, 1, true) || Leaves(chain, n, user, lower, 0, false))
    && (GrantedTo(chain, user, lower, perm) || (perm != 3 && perm != 8 && GrantedTo(chain, user, lower, 0)))
  }

  lemma EntriesAt(chain: seq<Context>, user: User, lower: Lower, i: int, j: int)
    ensures var levels := LevelsOf(chain, |chain|, user, lower);
            && (AclRule.IsEntry(levels, i, j) <==> 0 <= i < |chain| && 0 <= j < |chain[i].acls|)
            && (AclRule.IsEntry(levels, i, j) ==>
                  levels[i].rulings[j] == RulingOf(chain, i, chain[i].acls[j], user, lower))
  {
    if 0 <= i < |chain| && 0 <= j < |chain[i].acls| {
      RulingAt(chain, i, chain[i].acls, user, lower, j);
    }
  }

  lemma GrantedToIs(chain: seq<Context>, user: User, lower: Lower, m: Permission)
    ensures GrantedTo(chain, user, lower, m) == AclRule.GrantedAt(LevelsOf(chain, |chain|, user, lower), m)
  {
    var levels := LevelsOf(chain, |chain|, user, lower);
    var choice := (i, j) => AclRule.Counts(levels, |levels|, i, j);
    forall i, j ensures AclRule.Chosen(levels, choice, m, i, j) <==>
                          Counting(chain, user, lower, i, j) && Names(chain, m, i, j) {
      EntriesAt(chain, user, lower, i, j);
    }
    forall i, j ensures AclRule.LastChosen(levels, choice, m, i, j) <==> LastCounting(chain, user, lower, m, i, j) {
    }
    forall i, j | AclRule.LastChosen(levels, choice, m, i, j)
      ensures m in levels[i].rulings[j].deny <==> m in chain[i].acls[j].deny
    {
      EntriesAt(chain, user, lower, i, j);
    }
  }

  lemma LeavesIs(chain: seq<Context>, n: nat, user: User, lower: Lower, m: Permission, default: bool)
    requires n <= |chain|
    ensures var levels := LevelsOf(chain, |chain|, user, lower);
            (Leaves(chain, n, user, lower, m, default) <==>
               AclRule.Grants(levels, (i, j) => AclRule.Matches(levels, n, i, j), m, default))
  {
    var levels := LevelsOf(chain, |chain|, user, lower);
    var choice := (i, j) => AclRule.Matches(levels, n, i, j);
    forall i, j ensures AclRule.Chosen(levels, choice, m, i, j) <==>
                          i < n && IsFor(chain, user, lower, i, j) && Names(chain, m, i, j) {
      EntriesAt(chain, user, lower, i, j);
    }
    forall i, j ensures AclRule.LastChosen(levels, choice, m, i, j) <==> LastFor(chain, n, user, lower, m, i, j) {
    }
    forall i, j | AclRule.LastChosen(levels, choice, m, i, j)
      ensures m in levels[i].rulings[j].deny <==> m in chain[i].acls[j].deny
    {
      EntriesAt(chain, user, lower, i, j);
    }
  }

  /** What the fold allows is what the rule over the entries of the chain permits. */
  lemma AllowedIsPermitted(chain: seq<Context>, user: User, lower: Lower, perm: Permission)
    ensures Allowed(LevelsOf(chain, |chain|, user, lower), perm) <==> Permitted(chain, user, lower, perm)
  {
    var levels := LevelsOf(chain, |chain|, user, lower);
    AclRule.AllowedByEntries(levels, perm);
    GrantedToIs(chain, user, lower, perm);
    GrantedToIs(chain, user, lower, 0);
    forall n | 1 <= n <= |chain|
      ensures AclRule.Passes(levels, n) <==>
                Leaves(chain, n, user, lower, 1, true) || Leaves(chain, n, user, lower, 0, false)
    {
      LeavesIs(chain, n, user, lower, 1, true);
      LeavesIs(chain, n, user, lower, 0, false);
    }
  }

  /** Whether a user has one permission in a context; the super user has all but speaking and whispering. */
  method HasPermission(ghost chain: seq<Context>, ctx: Context, user: User, perm: Permission, lower: Lower)
    returns (ok: bool)
    requires IsChain(chain, ctx) && AllSupported(chain)
    ensures ok <==> if user.id == 0 then perm != 3 && perm != 8 else Permitted(chain, user, lower, perm)
  {
    if user.id == 0 {
      return perm != SPEAK && perm != WHISPER;
    }
    AllowedIsPermitted(chain, user, lower, perm);
    var granted := GrantedIn(chain, LevelsOf(chain, |chain|, user, lower), ctx, user, lower);
    if perm != SPEAK && perm != WHISPER {
      ok := perm in granted || WRITE in granted;
    } else {
      ok := perm in granted;
    }
  }
}

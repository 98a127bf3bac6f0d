/** Session numbers: handed out, taken back, and reused, the most recent first. */
module SessionPool {
  import opened Prelude

  const MAX_UINT32 := 0xffff_ffff

  /** Tracking of the numbers in use is optional. */
  datatype Pool = Pool(used: Option<set<int>>, unused: seq<int>, cur: int)

  const Fresh := Pool(None, [], 0)
  const Tracking := Pool(Some({}), [], 0)

  /** The number, unless all have gone. The numbers in use are noted on every way out, failure included. */
  function Get(p: Pool): (Pool, Option<int>) {
    if p.unused != [] then
      var id := p.unused[|p.unused| - 1];
      (Noted(p.(unused := p.unused[..|p.unused| - 1]), id), Some(id))
    else if p.cur == MAX_UINT32 then (Noted(p, 0), None)
    else (Noted(p.(cur := p.cur + 1), p.cur + 1), Some(p.cur + 1))
  }

  function Noted(p: Pool, id: int): Pool {
    if p.used.None? then p else p.(used := Some(p.used.value + {id}))
  }

  /** Nothing comes back when a tracking pool does not know the number. */
  function Reclaim(p: Pool, id: int): Option<Pool> {
    if p.used.Some? && id !in p.used.value then None
    else
      Some(p.(used := if p.used.None? then None else Some(p.used.value - {id}), unused := p.unused + [id]))
  }

  // ----- the invariant

  ghost predicate Distinct(s: seq<int>) {
    forall i, j :: 0 <= i < j < |s| ==> s[i] != s[j]
  }

  /** The numbers outstanding and those unused partition 1 to cur. */
  ghost predicate Inv(p: Pool, live: set<int>) {
    && 0 <= p.cur <= MAX_UINT32
    && Distinct(p.unused)
    && (forall id :: 1 <= id <= p.cur <==> id in live || id in p.unused)
    && (forall id :: id in p.unused ==> id !in live)
    && (p.used.Some? ==> live <= p.used.value <= live + {0})
  }

  /** Taking an unused number off the stack. */
  lemma PopKeeps(unused: seq<int>, live: set<int>, cur: int)
    requires unused != [] && Distinct(unused)
    requires forall id :: 1 <= id <= cur <==> id in live || id in unused
    requires forall id :: id in unused ==> id !in live
    ensures var id, rest := unused[|unused| - 1], unused[..|unused| - 1];
            && 1 <= id <= cur && id !in live && Distinct(rest)
            && (forall x :: 1 <= x <= cur <==> x in live + {id} || x in rest)
            && (forall x :: x in rest ==> x !in live + {id})
  {
    var id, rest := unused[|unused| - 1], unused[..|unused| - 1];
    assert unused == rest + [id];
    assert id in unused && id !in rest;
    assert forall x :: x in unused <==> x in rest || x == id;
  }

  lemma GetKeeps(p: Pool, live: set<int>)
    requires Inv(p, live)
    ensures var (after, id) := Get(p);
            if id.Some? then id.value !in live && 1 <= id.value <= MAX_UINT32 && Inv(after, live + {id.value})
            else Inv(after, live)
  {
    if p.unused != [] {
      PopKeeps(p.unused, live, p.cur);
    } else if p.cur < MAX_UINT32 {
      assert p.cur + 1 !in live && p.cur + 1 !in p.unused;
    }
  }

  /** Numbers run out exactly when every one of them is outstanding. */
  lemma DepletedIffAllLive(p: Pool, live: set<int>)
    requires Inv(p, live)
    ensures Get(p).1.None? <==> forall id :: 1 <= id <= 0xffff_ffff ==> id in live
  {
    if forall id :: 1 <= id <= MAX_UINT32 ==> id in live {
      assert MAX_UINT32 in live;
    }
    if p.unused != [] {
      assert p.unused[0] in p.unused;
    }
    if p.cur < MAX_UINT32 {
      assert p.cur + 1 !in live;
    }
  }

  lemma ReclaimKeeps(p: Pool, live: set<int>, id: int)
    requires Inv(p, live) && id in live
    ensures Reclaim(p, id).Some? && Inv(Reclaim(p, id).value, live - {id})
  {
    var after := Reclaim(p, id).value;
    assert forall x :: x in after.unused <==> x in p.unused || x == id;
    assert id !in p.unused;
  }

  /** A tracking pool refuses numbers that are not outstanding, zero apart; one that does not track takes any. */
  lemma RefusedIffUnknown(p: Pool, live: set<int>, id: int)
    requires Inv(p, live) && id != 0
    ensures p.used.Some? ==> (Reclaim(p, id).None? <==> id !in live)
    ensures p.used.None? ==> Reclaim(p, id) == Some(p.(unused := p.unused + [id]))
  {
  }

  /** The number given back last is handed out next, and then all is as before. */
  lemma ReusedFirst(p: Pool, live: set<int>, id: int)
    requires Inv(p, live) && id in live
    ensures Reclaim(p, id).Some? && Get(Reclaim(p, id).value).1 == Some(id)
    ensures Get(Reclaim(p, id).value).0 == p
  {
    assert (p.unused + [id])[..|p.unused|] == p.unused;
    if p.used.Some? {
      assert p.used.value - {id} + {id} == p.used.value;
    }
  }

  // ----- whole runs

  datatype Call = Take | Return(id: int)

  datatype Held = Held(pool: Pool, live: set<int>)

  /** A call by clients that return only what they hold; any other return is not made. */
  function Next(h: Held, c: Call): Held {
    match c
    case Take =>
      var (after, id) := Get(h.pool);
      Held(after, if id.Some? then h.live + {id.value} else h.live)
    case Return(id) =>
      if id in h.live && Reclaim(h.pool, id).Some? then Held(Reclaim(h.pool, id).value, h.live - {id}) else h
  }

  function Run(h: Held, calls: seq<Call>): Held {
    if calls == [] then h else Next(Run(h, calls[..|calls| - 1]), calls[|calls| - 1])
  }

  /** Over every run, tracked or not, the numbers outstanding are non-zero, and with the unused ones make up 1 to cur. */
  lemma {:induction false} RunKeeps(tracked: bool, calls: seq<Call>)
    ensures var h := Run(Held(if tracked then Tracking else Fresh, {}), calls); Inv(h.pool, h.live)
    decreases |calls|
  {
    if calls != [] {
      RunKeeps(tracked, calls[..|calls| - 1]);
      var h := Run(Held(if tracked then Tracking else Fresh, {}), calls[..|calls| - 1]);
      match calls[|calls| - 1]
      case Take => GetKeeps(h.pool, h.live);
      case Return(id) => if id in h.live { ReclaimKeeps(h.pool, h.live, id); }
    }
  }

  /** In every run a number is never handed out while it is outstanding. */
  lemma NeverSharedByTwo(tracked: bool, calls: seq<Call>)
    ensures var h := Run(Held(if tracked then Tracking else Fresh, {}), calls);
            Get(h.pool).1.Some? ==> Get(h.pool).1.value !in h.live && Get(h.pool).1.value != 0
  {
    RunKeeps(tracked, calls);
    var h := Run(Held(if tracked then Tracking else Fresh, {}), calls);
    GetKeeps(h.pool, h.live);
  }

  // ----- in place

  class Sessions {
    var used: Option<set<int>>
    var unused: seq<int>
    var cur: int

    function State(): Pool
      reads this
    {
      Pool(used, unused, cur)
    }

    constructor ()
      ensures State() == Fresh
    {
      used, unused, cur := None, [], 0;
    }

    /** Refused on a pool that has been used. */
    method EnableUseTracking() returns (ok: bool)
      modifies this
      ensures ok == (old(unused) == [] && old(cur) == 0)
      ensures State() == if ok then Tracking else old(State())
    {
      if |unused| != 0 || cur != 0 {
        return false;
      }
      used := Some({});
      ok := true;
    }

    method GetId() returns (id: Option<int>)
      modifies this
      ensures (State(), id) == Get(old(State()))
    {
      if |unused| > 0 {
        id := Some(unused[|unused| - 1]);
        unused := unused[..|unused| - 1];
      } else if cur == MAX_UINT32 {
        id := None;
      } else {
        cur := cur + 1;
        id := Some(cur);
      }
      if used.Some? {
        used := Some(used.value + {if id.Some? then id.value else 0});
      }
    }

    method ReclaimId(id: int) returns (ok: bool)
      modifies this
      ensures ok == Reclaim(old(State()), id).Some?
      ensures State() == if ok then Reclaim(old(State()), id).value else old(State())
    {
      if used.Some? {
        if id !in used.value {
          return false;
        }
        used := Some(used.value - {id});
      }
      unused := unused + [id];
      ok := true;
    }
  }
}

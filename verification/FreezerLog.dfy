/** The writer and the walker of the freezer log as the objects that append to and consume a file. */
module FreezerLog {
  import opened Counter
  import opened Freezer
  import opened FreezerReader

  lemma {:induction false} BodyAppend<V>(f: Format<V>, tx: seq<V>, v: V)
    requires AllFit(f, tx) && Fits(f, v)
    ensures Body(f, tx + [v]) == Body(f, tx) + Framed(f, v)
    decreases |tx|
  {
    if tx == [] {
      assert (tx + [v])[1..] == [];
    } else {
      assert (tx + [v])[1..] == tx[1..] + [v];
      BodyAppend(f, tx[1..], v);
    }
  }

  lemma {:induction false} FileAppend<V>(f: Format<V>, txs: seq<seq<V>>, tx: seq<V>)
    requires AllCommittable(f, txs) && Committable(f, tx)
    ensures File(f, txs + [tx]) == File(f, txs) + Committed(f, tx)
    decreases |txs|
  {
    if txs == [] {
      assert (txs + [tx])[1..] == [];
    } else {
      assert (txs + [tx])[1..] == txs[1..] + [tx];
      FileAppend(f, txs[1..], tx);
    }
  }

  /** An append-only log file, and the transactions it holds. */
  class Log<V(!new)> {
    const f: Format<V>
    var file: seq<byte>
    ghost var txs: seq<seq<V>>

    ghost predicate Valid()
      reads this
    {
      AllCommittable(f, txs) && file == File(f, txs)
    }

    constructor (f: Format<V>)
      ensures Valid() && this.f == f && txs == []
    {
      this.f, file, txs := f, [], [];
    }

    /** Appends one entry as a transaction of its own, or nothing at all. */
    method Put(v: V) returns (err: PutError)
      requires Valid()
      modifies this
      ensures Valid()
      ensures err == (if f.marshal(v).None? then Unmarshalable else if !Fits(f, v) then ValueTooBig else NoError)
      ensures txs == if err == NoError then old(txs) + [[v]] else old(txs)
    {
      var tx := new Transaction(this);
      err := tx.Put(v);
      if err == NoError {
        tx.Commit();
        assert [] + [v] == [v];
      }
    }
  }

  datatype PutError = NoError | GroupFull | Unmarshalable | ValueTooBig

  /** A transaction being gathered: its body so far, what the checksum has seen, the count of entries. */
  class Transaction<V(!new)> {
    const log: Log<V>
    var buf: seq<byte>
    var summed: seq<byte>
    var numops: nat
    ghost var entries: seq<V>

    ghost predicate Valid()
      reads this
    {
      Committable(log.f, entries) && buf == summed == Body(log.f, entries) && numops == |entries|
    }

    constructor (log: Log<V>)
      ensures Valid() && this.log == log && entries == []
    {
      this.log := log;
      buf, summed, numops, entries := [], [], 0, [];
    }

    /** Adds an entry; a group takes 256 of them, a payload 65535 bytes. */
    method Put(v: V) returns (err: PutError)
      requires Valid()
      modifies this
      ensures Valid()
      ensures err == (if |old(entries)| > 255 then GroupFull
                      else if log.f.marshal(v).None? then Unmarshalable
                      else if !Fits(log.f, v) then ValueTooBig else NoError)
      ensures entries == if err == NoError then old(entries) + [v] else old(entries)
    {
      if numops > 255 {
        return GroupFull;
      }
      var marshaled := log.f.marshal(v);
      if marshaled.None? {
        return Unmarshalable;
      }
      var payload := marshaled.value;
      if |payload| > MAX_PAYLOAD {
        return ValueTooBig;
      }
      BodyAppend(log.f, entries, v);
      var frame := At(log.f.kindOf(v), 2) + At(|payload|, 2) + payload;
      buf, summed := buf + frame, summed + frame;
      numops, entries := numops + 1, entries + [v];
      return NoError;
    }

    /** Writes the whole record in one piece. */
    method Commit()
      requires Valid() && log.Valid()
      modifies log
      ensures log.Valid() && log.txs == old(log.txs) + [entries]
    {
      FileAppend(log.f, log.txs, entries);
      log.file, log.txs := log.file + Record(buf, numops, log.f.crc(summed)), log.txs + [entries];
    }
  }

  lemma PrefixAfter(more: seq<byte>, after: seq<byte>, n: nat)
    requires |more| <= n <= |more + after|
    ensures (more + after)[..n] == more + after[..n - |more|]
  {
  }

  /** Reads transactions from what is left of a file, by a source whose reads may come short. */
  class Walker<V(!new)> {
    const f: Format<V>
    var input: seq<byte>
    var plan: Plan

    constructor (f: Format<V>, input: seq<byte>, plan: Plan)
      ensures this.f == f && this.input == input && this.plan == plan
    {
      this.f, this.input, this.plan := f, input, plan;
    }

    /** One read of the source into a buffer: what it delivers, and whether the input has ended. */
    method Read(want: nat) returns (bytes: seq<byte>, ended: bool)
      modifies this
      ensures ended == (old(input) == [])
      ensures old(input) == bytes + input && plan == Later(old(plan))
      ensures |bytes| == if Delivered(want, old(plan)) <= |old(input)| then Delivered(want, old(plan)) else |old(input)|
    {
      var n := if plan == [] || plan[0] >= want then want else plan[0];
      if n > |input| {
        n := |input|;
      }
      ended := input == [];
      bytes, input := input[..n], input[n..];
      plan := if plan == [] then [] else plan[1..];
    }

    /**
      Reads until a buffer is full, or fails at the end of the input. Every read is summed with all of the
      buffer that was left to fill.
     */
    method ReadFull(want: nat) returns (ok: bool, bytes: seq<byte>, summed: seq<byte>)
      modifies this
      ensures ok == (want <= |old(input)|)
      ensures ok ==> old(input) == bytes + input && |bytes| == want
      ensures ok ==> summed == Fed(bytes, old(plan)) && plan == PlanAfter(want, old(plan))
      ensures !ok ==> input == []
    {
      bytes, summed := [], [];
      ghost var start, data, enough := plan, input, want <= |input|;
      ghost var goal := if enough then data[..want] else [];
      assert summed + Fed(goal, start) == Fed(goal, start);
      while |bytes| < want
        invariant |bytes| <= want && data == bytes + input
        invariant enough ==> Filling(goal, start, input[..want - |bytes|], summed, plan)
        decreases want - |bytes| + |plan| + |input|
      {
        ghost var before := plan;
        var rest := want - |bytes|;
        var more, ended := Read(rest);
        if ended {
          return false, bytes, summed;
        }
        if enough {
          PrefixAfter(more, input, rest);
          FillingSteps(goal, start, more, input[..rest - |more|], summed, before);
        }
        summed := summed + more + Zeros(rest - |more|);
        bytes := bytes + more;
      }
      ok := true;
      assert data[..want] == bytes;
      FillingEnds(goal, start, summed, plan);
    }

    /** The next transaction of the file, or why there is none, and what is left of the input then. */
    method Next() returns (r: Outcome<V>)
      modifies this
      ensures (r, input) == NextVia(f, old(input), old(plan))
      ensures r.Entries? ==> plan == PlanAfterNext(old(input), old(plan))
    {
      ghost var data, start := input, plan;
      var ok, field, summed := ReadFull(4);
      if !ok {
        return EndOfFile;
      }
      assert data[..4] == field && data[4..] == input;
      var remain := Value(field);
      if remain < 8 {
        return UnexpectedEnd;
      }
      if remain - 8 > MAX_BODY {
        return RecordTooBig;
      }
      ok, field, summed := ReadFull(4);
      if !ok {
        return UnexpectedEnd;
      }
      assert data[4..8] == field;
      var ops := Value(field);
      ok, field, summed := ReadFull(4);
      if !ok {
        return UnexpectedEnd;
      }
      assert data[8..12] == field && data[12..] == input;
      r := ReadBody(remain, ops, Value(field), data, start);
    }

    /** The entries of a record, and the checks that follow: all bytes used up, and the checksum. */
    method ReadBody(remain: nat, ops: nat, sum: nat, ghost data: seq<byte>, ghost start: Plan) returns (r: Outcome<V>)
      requires |data| >= 12 && input == data[12..] && plan == PlanAfterHeader(start) && 8 <= remain <= MAX_BODY + 8
      requires remain == Value(data[..4]) && ops == Value(data[4..8]) && sum == Value(data[8..12])
      modifies this
      ensures (r, input) == NextVia(f, data, start)
      ensures r.Entries? ==> plan == PlanAfterNext(data, start)
    {
      ghost var goal := GoalOf(f, input, ops, [], false, [], plan);
      assert goal.summed == FedScan(input, ops, plan);
      ghost var g := (i: seq<byte>, l: nat, es: seq<V>, e: bool, s: seq<byte>, p: Plan) => GoalOf(f, i, l, es, e, s, p);
      var outcome, entries, consumed, summed := ReadEntries(ops, g, goal);
      if outcome != Whole {
        return if outcome == Ended then UnexpectedEnd else Undecodable;
      }
      if consumed != remain - 8 {
        return RemainingBytes;
      }
      if f.crc(summed) != sum {
        return ChecksumMismatch;
      }
      return Entries(entries);
    }

    /** One entry's kind and payload, or nothing when the input ends inside it. */
    method ReadFrame() returns (ok: bool, kind: nat, payload: seq<byte>, summed: seq<byte>)
      modifies this
      ensures ok == (4 <= |old(input)| && 4 + Value(old(input)[2..4]) <= |old(input)|)
      ensures ok ==>
                var n := 4 + Value(old(input)[2..4]);
                && kind == Value(old(input)[..2]) && payload == old(input)[4..n] && input == old(input)[n..]
                && summed == FedFrame(old(input)[..n], old(plan)) && plan == PlanOfFrame(old(input)[..n], old(plan))
      ensures !ok ==> input == []
    {
      ghost var data, start := input, plan;
      payload, summed, kind := [], [], 0;
      var k, l, s1, s2, s3;
      ok, k, s1 := ReadFull(2);
      if !ok {
        return;
      }
      ok, l, s2 := ReadFull(2);
      if !ok {
        return;
      }
      assert data[2..4] == l;
      ok, payload, s3 := ReadFull(Value(l));
      kind, summed := Value(k), s1 + s2 + s3;
      if ok {
        FrameParts(k, l, payload, input, start, data);
      }
    }

    /** One entry read and decoded: what is left of the goal then. */
    method ReadEntry(entries: seq<V>, ghost g: Goals<V>, ghost left: nat, ghost was: bool, ghost summed: seq<byte>)
      returns (outcome: Ending, more: seq<V>, early: bool, n: nat, s: seq<byte>)
      requires left > 0 && Sets(f, g)
      modifies this
      ensures var goal := g(old(input), left, entries, was, summed, old(plan));
              match outcome
              case Ended => goal.scanned == Torn && input == []
              case Broken => goal.scanned == Bad(input)
              case Whole => goal == g(input, left - 1, more, early, summed + s, plan)
      ensures outcome == Whole ==> |old(input)| == n + |input|
    {
      ghost var data, start := input, plan;
      assert g(data, left, entries, was, summed, start) == GoalOf(f, data, left, entries, was, summed, start);
      more, early, n := entries, false, 0;
      var ok, kind, payload, fed := ReadFrame();
      s := fed;
      if !ok {
        ScanStops(f, data, left, entries, was, 0);
        return Ended, more, early, n, s;
      }
      outcome, n := Whole, 4 + |payload|;
      if kind < KINDS {
        match f.unmarshal(kind, payload) {
          case Parsed(v) => more := entries + [v];
          case EndsEarly => early := true;
          case Garbled =>
            ScanStops(f, data, left, entries, was, n);
            return Broken, more, early, n, s;
        }
      }
      GoalSteps(f, data, left, entries, was, summed, start, n, more, early);
    }

    /**
      The loop over the entries: the bytes consumed are counted, and what is summed goes to the checksum. The
      goal is what the scan of the input says.
     */
    method ReadEntries(ops: nat, ghost g: Goals<V>, ghost goal: Goal<V>)
      returns (outcome: Ending, entries: seq<V>, consumed: nat, summed: seq<byte>)
      requires Sets(f, g) && goal == g(input, ops, [], false, [], plan)
      modifies this
      ensures Attained(goal, outcome, entries, consumed, summed, |old(input)|, input, plan)
    {
      var remainOps, early := ops, false;
      entries, consumed, summed, outcome := [], 0, [], Whole;
      while remainOps > 0 && outcome == Whole
        invariant outcome == Whole ==> |old(input)| == consumed + |input|
        invariant match outcome
                  case Ended => goal.scanned == Torn && input == []
                  case Broken => goal.scanned == Bad(input)
                  case Whole => goal == g(input, remainOps, entries, early, summed, plan)
      {
        var more, n, s;
        outcome, more, early, n, s := ReadEntry(entries, g, remainOps, early, summed);
        entries, consumed, summed := more, consumed + n, summed + s;
        remainOps := remainOps - 1;
      }
      if outcome == Whole {
        GoalReached(f, g, goal, input, entries, early, consumed, summed, plan);
        outcome := if early then Ended else Whole;
      }
    }
  }
}

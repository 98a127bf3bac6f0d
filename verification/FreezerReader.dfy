/**
  Reading a log from a source that may deliver less than it is asked for. The checksumming reader counts the
  bytes delivered but sums the whole buffer it was handed, the part not filled included, which is zero.
 */
module FreezerReader {
  import opened Counter
  import opened Freezer

  /** What the reads of a source deliver at most, one after the other; those after the last fill their buffers. */
  type Plan = seq<nat>

  function Delivered(want: nat, plan: Plan): (n: nat)
    ensures n <= want
  {
    if plan == [] || plan[0] >= want then want else plan[0]
  }

  function Later(plan: Plan): Plan {
    if plan == [] then [] else plan[1..]
  }

  function Zeros(n: nat): (r: seq<byte>)
    ensures |r| == n
  {
    seq(n, _ => 0)
  }

  /** What is summed while a buffer is filled with the given bytes, read by read. */
  function Fed(bytes: seq<byte>, plan: Plan): seq<byte>
    decreases |bytes| + |plan|
  {
    if bytes == [] then []
    else
      var n := Delivered(|bytes|, plan);
      bytes[..n] + Zeros(|bytes| - n) + Fed(bytes[n..], Later(plan))
  }

  /** A buffer filled by two reads is summed as the first part, zeros for what it lacked, and the second part. */
  lemma FedInTwo(bytes: seq<byte>, n: nat)
    requires n < |bytes|
    ensures Fed(bytes, [n]) == bytes[..n] + seq(|bytes| - n, _ => 0) + bytes[n..]
  {
    FedAtOnce(bytes[n..]);
    assert Zeros(|bytes| - n) == seq(|bytes| - n, _ => 0);
  }

  lemma FedAtOnce(bytes: seq<byte>)
    ensures Fed(bytes, []) == bytes
  {
    assert bytes[|bytes|..] == [] && bytes[..|bytes|] + Zeros(0) + [] == bytes;
  }

  /** The plan once a buffer of the given size is filled. */
  function PlanAfter(want: nat, plan: Plan): Plan
    decreases want + |plan|
  {
    if want == 0 then plan else PlanAfter(want - Delivered(want, plan), Later(plan))
  }

  /** A buffer being filled with the bytes of goal: those left, what was summed, and the plan then. */
  ghost predicate Filling(goal: seq<byte>, start: Plan, left: seq<byte>, summed: seq<byte>, plan: Plan) {
    Fed(goal, start) == summed + Fed(left, plan) && PlanAfter(|goal|, start) == PlanAfter(|left|, plan)
  }

  lemma FedUnfolds(more: seq<byte>, left: seq<byte>, plan: Plan)
    requires more + left != [] && |more| == Delivered(|more + left|, plan)
    ensures Fed(more + left, plan) == more + Zeros(|left|) + Fed(left, Later(plan))
    ensures PlanAfter(|more + left|, plan) == PlanAfter(|left|, Later(plan))
  {
    assert (more + left)[..|more|] == more && (more + left)[|more|..] == left;
  }

  lemma FedJoins(a: seq<byte>, b: seq<byte>, c: seq<byte>, d: seq<byte>)
    ensures a + (b + c + d) == a + b + c + d
  {
  }

  lemma FillingSteps(goal: seq<byte>, start: Plan, more: seq<byte>, left: seq<byte>, summed: seq<byte>, plan: Plan)
    requires Filling(goal, start, more + left, summed, plan)
    requires more + left != [] && |more| == Delivered(|more + left|, plan)
    ensures Filling(goal, start, left, summed + more + Zeros(|left|), Later(plan))
  {
    FedUnfolds(more, left, plan);
    FedJoins(summed, more, Zeros(|left|), Fed(left, Later(plan)));
  }

  lemma FillingEnds(goal: seq<byte>, start: Plan, summed: seq<byte>, plan: Plan)
    requires Filling(goal, start, [], summed, plan)
    ensures summed == Fed(goal, start) && plan == PlanAfter(|goal|, start)
  {
    assert summed + [] == summed;
  }

  /** A buffer is filled by one read. */
  predicate Full(want: nat, plan: Plan) {
    want == 0 || plan == [] || plan[0] >= want
  }

  /** Some bytes are summed as they are exactly when no read came short; else there is more that is summed. */
  ghost predicate Summed(bytes: seq<byte>, fed: seq<byte>, full: bool) {
    |fed| >= |bytes| && (|fed| == |bytes| <==> full) && (full ==> fed == bytes)
  }

  lemma SummedTwo(a: seq<byte>, b: seq<byte>, x: seq<byte>, y: seq<byte>, p: bool, q: bool)
    requires Summed(a, x, p) && Summed(b, y, q)
    ensures Summed(a + b, x + y, p && q)
  {
  }

  lemma {:induction false} FedExact(bytes: seq<byte>, plan: Plan)
    ensures Summed(bytes, Fed(bytes, plan), Full(|bytes|, plan))
    decreases |bytes| + |plan|
  {
    if bytes != [] {
      FedExact(bytes[Delivered(|bytes|, plan)..], Later(plan));
    }
  }

  // ----- a whole body

  /** What is summed while the entries of a record are read: for each its kind, its length and its payload. */
  function FedScan(data: seq<byte>, ops: nat, plan: Plan): seq<byte>
    decreases ops
  {
    if ops == 0 || |data| < 4 || |data| < 4 + Value(data[2..4]) then []
    else
      var n := 4 + Value(data[2..4]);
      FedFrame(data[..n], plan) + FedScan(data[n..], ops - 1, PlanOfFrame(data[..n], plan))
  }

  function FedFrame(frame: seq<byte>, plan: Plan): seq<byte>
    requires |frame| >= 4
  {
    var p := PlanAfter(2, plan);
    Fed(frame[..2], plan) + Fed(frame[2..4], p) + Fed(frame[4..], PlanAfter(2, p))
  }

  function PlanOfFrame(frame: seq<byte>, plan: Plan): Plan
    requires |frame| >= 4
  {
    PlanAfter(|frame| - 4, PlanAfter(2, PlanAfter(2, plan)))
  }

  /** None of the reads of an entry comes short. */
  predicate FullFrame(frame: seq<byte>, plan: Plan)
    requires |frame| >= 4
  {
    var p := PlanAfter(2, plan);
    Full(2, plan) && Full(2, p) && Full(|frame| - 4, PlanAfter(2, p))
  }

  /** None of the reads of the entries comes short. */
  predicate FullScan(data: seq<byte>, ops: nat, plan: Plan)
    decreases ops
  {
    ops == 0 || |data| < 4 || |data| < 4 + Value(data[2..4]) ||
    (var n := 4 + Value(data[2..4]);
     FullFrame(data[..n], plan) && FullScan(data[n..], ops - 1, PlanOfFrame(data[..n], plan)))
  }

  lemma FedFrameExact(frame: seq<byte>, plan: Plan)
    requires |frame| >= 4
    ensures Summed(frame, FedFrame(frame, plan), FullFrame(frame, plan))
  {
    var p := PlanAfter(2, plan);
    var q := PlanAfter(2, p);
    var a, b, c := frame[..2], frame[2..4], frame[4..];
    FedExact(a, plan);
    FedExact(b, p);
    FedExact(c, q);
    assert a + b + c == frame;
    SummedTwo(a, b, Fed(a, plan), Fed(b, p), Full(2, plan), Full(2, p));
    SummedTwo(a + b, c, Fed(a, plan) + Fed(b, p), Fed(c, q), Full(2, plan) && Full(2, p), Full(|frame| - 4, q));
  }

  // ----- how the entries of a record use up the data

  /** The bytes that so many entries take up, if there are so many. */
  function Span(data: seq<byte>, ops: nat): (n: nat)
    ensures n <= |data|
    decreases ops
  {
    if ops == 0 || |data| < 4 || |data| < 4 + Value(data[2..4]) then 0
    else 4 + Value(data[2..4]) + Span(data[4 + Value(data[2..4])..], ops - 1)
  }

  /** What one entry adds to those read, and whether it ended early; a garbled one has no successor. */
  ghost predicate Takes<V>(f: Format<V>, kind: nat, payload: seq<byte>, entries: seq<V>, more: seq<V>, early: bool) {
    if kind >= KINDS then more == entries && !early
    else match f.unmarshal(kind, payload)
      case Parsed(v) => more == entries + [v] && !early
      case EndsEarly => more == entries && early
      case Garbled => false
  }

  lemma Taken<V>(f: Format<V>, kind: nat, payload: seq<byte>, entries: seq<V>) returns (more: seq<V>, early: bool)
    requires kind < KINDS ==> !f.unmarshal(kind, payload).Garbled?
    ensures Takes(f, kind, payload, entries, more, early)
  {
    more, early := entries, false;
    if kind < KINDS {
      match f.unmarshal(kind, payload)
      case Parsed(v) => more := entries + [v];
      case EndsEarly => early := true;
    }
  }

  /** There is an entry in front of the data, of n bytes. */
  predicate EntryInFront(data: seq<byte>, n: nat) {
    |data| >= 4 && n == 4 + Value(data[2..4]) <= |data|
  }

  lemma ScanStops<V>(f: Format<V>, data: seq<byte>, ops: nat, entries: seq<V>, was: bool, n: nat)
    requires ops > 0
    ensures !(|data| >= 4 && 4 + Value(data[2..4]) <= |data|) ==> Scan(f, data, ops, entries, was) == Torn
    ensures EntryInFront(data, n) && Value(data[..2]) < KINDS && f.unmarshal(Value(data[..2]), data[4..n]).Garbled? ==>
              Scan(f, data, ops, entries, was) == Bad(data[n..])
  {
  }

  lemma ScanSteps<V>(f: Format<V>, data: seq<byte>, ops: nat, entries: seq<V>, was: bool, n: nat, more: seq<V>, early: bool)
    requires ops > 0 && EntryInFront(data, n)
    requires Takes(f, Value(data[..2]), data[4..n], entries, more, early)
    ensures Scan(f, data, ops, entries, was) == Scan(f, data[n..], ops - 1, more, early)
  {
  }

  lemma DropTwice<X>(s: seq<X>, n: nat, k: nat)
    requires n + k <= |s|
    ensures s[n..][k..] == s[n + k..]
  {
  }

  lemma SpanSteps(data: seq<byte>, ops: nat, n: nat)
    requires ops > 0 && |data| >= 4 && n == 4 + Value(data[2..4]) <= |data|
    ensures Span(data, ops) == n + Span(data[n..], ops - 1)
  {
  }

  lemma SpanRest(data: seq<byte>, ops: nat, n: nat)
    requires ops > 0 && |data| >= 4 && n == 4 + Value(data[2..4]) <= |data|
    ensures data[n..][Span(data[n..], ops - 1)..] == data[Span(data, ops)..]
  {
    SpanSteps(data, ops, n);
    DropTwice(data, n, Span(data[n..], ops - 1));
  }

  lemma {:induction false} SpanOfScan<V>(f: Format<V>, data: seq<byte>, ops: nat, entries: seq<V>, early: bool)
    ensures var r := Scan(f, data, ops, entries, early); r.Scanned? ==> r.rest == data[Span(data, ops)..]
    decreases ops
  {
    if ops > 0 && |data| >= 4 && |data| >= 4 + Value(data[2..4]) {
      var n := 4 + Value(data[2..4]);
      var kind, payload := Value(data[..2]), data[4..n];
      if kind < KINDS && f.unmarshal(kind, payload).Garbled? {
        ScanStops(f, data, ops, entries, early, n);
      } else {
        var more, last := Taken(f, kind, payload, entries);
        ScanSteps(f, data, ops, entries, early, n, more, last);
        SpanOfScan(f, data[n..], ops - 1, more, last);
        SpanRest(data, ops, n);
      }
    } else if ops > 0 {
      ScanStops(f, data, ops, entries, early, 0);
    }
  }

  lemma FirstOfSpan(data: seq<byte>, ops: nat, n: nat)
    requires ops > 0 && |data| >= 4 && n == 4 + Value(data[2..4]) <= |data|
    ensures data[..Span(data, ops)] == data[..n] + data[n..][..Span(data[n..], ops - 1)]
  {
    var k := Span(data[n..], ops - 1);
    assert data[..n + k] == data[..n] + data[n..][..k];
  }

  lemma FirstOfFed(data: seq<byte>, ops: nat, plan: Plan, n: nat)
    requires ops > 0 && |data| >= 4 && n == 4 + Value(data[2..4]) <= |data|
    ensures FedScan(data, ops, plan)
         == FedFrame(data[..n], plan) + FedScan(data[n..], ops - 1, PlanOfFrame(data[..n], plan))
  {
  }

  /** The first entry, and the others. */
  lemma FirstEntry(data: seq<byte>, ops: nat, plan: Plan, n: nat)
    requires ops > 0 && |data| >= 4 && n == 4 + Value(data[2..4]) <= |data|
    ensures var frame, rest, later := data[..n], data[n..], PlanOfFrame(data[..n], plan);
            && data[..Span(data, ops)] == frame + rest[..Span(rest, ops - 1)]
            && FedScan(data, ops, plan) == FedFrame(frame, plan) + FedScan(rest, ops - 1, later)
            && FullScan(data, ops, plan) == (FullFrame(frame, plan) && FullScan(rest, ops - 1, later))
  {
    FirstOfSpan(data, ops, n);
    FirstOfFed(data, ops, plan, n);
  }

  /** The entries are summed as they are exactly when no read of theirs comes short. */
  lemma {:induction false} FedScanExact(data: seq<byte>, ops: nat, plan: Plan)
    ensures Summed(data[..Span(data, ops)], FedScan(data, ops, plan), FullScan(data, ops, plan))
    decreases ops
  {
    if ops > 0 && |data| >= 4 && |data| >= 4 + Value(data[2..4]) {
      var n := 4 + Value(data[2..4]);
      var frame, rest, later := data[..n], data[n..], PlanOfFrame(data[..n], plan);
      FedFrameExact(frame, plan);
      FedScanExact(rest, ops - 1, later);
      SummedTwo(frame, rest[..Span(rest, ops - 1)], FedFrame(frame, plan), FedScan(rest, ops - 1, later),
                FullFrame(frame, plan), FullScan(rest, ops - 1, later));
      FirstEntry(data, ops, plan, n);
    }
  }

  // ----- a transaction

  /** The plan once the three fields in front of a body are read; short reads do no harm there. */
  function PlanAfterHeader(plan: Plan): Plan {
    PlanAfter(4, PlanAfter(4, PlanAfter(4, plan)))
  }

  /** What is summed of the body of the record in front. */
  function BodyFed(data: seq<byte>, plan: Plan): seq<byte> {
    if |data| < 12 then [] else FedScan(data[12..], Value(data[4..8]), PlanAfterHeader(plan))
  }

  /** None of the reads of the body in front comes short. */
  predicate FullBody(data: seq<byte>, plan: Plan) {
    |data| < 12 || FullScan(data[12..], Value(data[4..8]), PlanAfterHeader(plan))
  }

  /** One transaction, read by a source with a plan. */
  function NextVia<V>(f: Format<V>, data: seq<byte>, plan: Plan): (Outcome<V>, seq<byte>) {
    NextSummed(f, data, f.crc(BodyFed(data, plan)))
  }

  /** The checksum is consulted only of a record whose body is what its length says. */
  lemma SumMatters<V>(f: Format<V>, data: seq<byte>, sum: nat, other: nat)
    requires NextSummed(f, data, sum) != NextSummed(f, data, other)
    ensures |data| >= 12 && 12 + Span(data[12..], Value(data[4..8])) == 4 + Value(data[..4])
    ensures BodyOf(data) == data[12..][..Span(data[12..], Value(data[4..8]))]
  {
    SpanOfScan<V>(f, data[12..], Value(data[4..8]), [], false);
  }

  /** From any input: if no read of the body comes short, it is as if the source filled its buffers. */
  lemma FullIsHarmless<V>(f: Format<V>, data: seq<byte>, plan: Plan)
    requires FullBody(data, plan)
    ensures NextVia(f, data, plan) == Next(f, data)
  {
    if NextVia(f, data, plan) != Next(f, data) {
      SumMatters(f, data, f.crc(BodyFed(data, plan)), f.crc(BodyOf(data)));
      FedScanExact(data[12..], Value(data[4..8]), PlanAfterHeader(plan));
    }
  }

  /**
    A committed record: it is accepted if and only if the checksum of what was summed is that of the body,
    and what was summed is the body if and only if no read came short.
   */
  lemma RecordVia<V(!new)>(f: Format<V>, tx: seq<V>, more: seq<byte>, plan: Plan)
    requires Faithful(f) && Committable(f, tx) && !TooBig(f, tx)
    ensures var data := Committed(f, tx) + more;
            && NextVia(f, data, plan)
            == (if f.crc(BodyFed(data, plan)) == f.crc(Body(f, tx)) then Entries(tx) else ChecksumMismatch, more)
            && Summed(Body(f, tx), BodyFed(data, plan), FullBody(data, plan))
  {
    var data, body := Committed(f, tx) + more, Body(f, tx);
    BodySize(f, tx);
    RecordAndMore(body, |tx|, f.crc(body), more);
    ScanWhole(f, tx, more, []);
    assert [] + tx == tx;
    SpanOfScan<V>(f, data[12..], |tx|, [], false);
    FedScanExact(data[12..], |tx|, PlanAfterHeader(plan));
    BodySpan(body, more, Span(data[12..], |tx|));
  }

  lemma BodySpan(body: seq<byte>, more: seq<byte>, n: nat)
    requires n <= |body + more| && (body + more)[n..] == more
    ensures (body + more)[..n] == body
  {
    assert n == |body|;
  }

  /** With a checksum that tells the two apart, a record is accepted if and only if no read came short. */
  lemma AcceptedIffFull<V(!new)>(f: Format<V>, tx: seq<V>, more: seq<byte>, plan: Plan)
    requires Faithful(f) && Committable(f, tx) && !TooBig(f, tx)
    requires var fed := BodyFed(Committed(f, tx) + more, plan);
             f.crc(fed) == f.crc(Body(f, tx)) ==> fed == Body(f, tx)
    ensures var data := Committed(f, tx) + more;
            NextVia(f, data, plan).0 == if FullBody(data, plan) then Entries(tx) else ChecksumMismatch
  {
    RecordVia(f, tx, more, plan);
  }

  /**
    The reading that fails: the source delivers one of the two bytes of the first entry's kind. A byte more
    than the body is summed, and the record is refused unless the checksums happen to agree.
   */
  lemma ShortReadRefused<V(!new)>(f: Format<V>, tx: seq<V>, more: seq<byte>)
    requires Faithful(f) && Committable(f, tx) && !TooBig(f, tx) && tx != []
    ensures var data, plan := Committed(f, tx) + more, [4, 4, 4, 1];
            && !FullBody(data, plan) && |BodyFed(data, plan)| > |Body(f, tx)|
            && (f.crc(BodyFed(data, plan)) != f.crc(Body(f, tx)) ==> NextVia(f, data, plan).0 == ChecksumMismatch)
  {
    RecordVia(f, tx, more, [4, 4, 4, 1]);
    KindComesShort(f, tx, more);
  }

  lemma KindComesShort<V(!new)>(f: Format<V>, tx: seq<V>, more: seq<byte>)
    requires Faithful(f) && Committable(f, tx) && tx != []
    ensures !FullBody(Committed(f, tx) + more, [4, 4, 4, 1])
  {
    var data, body := Committed(f, tx) + more, Body(f, tx);
    BodySize(f, tx);
    RecordAndMore(body, |tx|, f.crc(body), more);
    HeaderPlan();
    FirstFrame(f, tx, more);
    ShortKind(data[12..], |tx|);
  }

  lemma FirstFrame<V(!new)>(f: Format<V>, tx: seq<V>, more: seq<byte>)
    requires Faithful(f) && AllFit(f, tx) && tx != []
    ensures var data := Body(f, tx) + more; |data| >= 4 && |data| >= 4 + Value(data[2..4])
  {
    var rest := Body(f, tx[1..]) + more;
    assert Body(f, tx) + more == Framed(f, tx[0]) + rest;
    FramedFields(f, tx[0], rest);
  }

  lemma HeaderPlan()
    ensures PlanAfterHeader([4, 4, 4, 1]) == [1]
  {
    FilledAtOnce(4, [4, 4, 4, 1]);
    FilledAtOnce(4, [4, 4, 1]);
    FilledAtOnce(4, [4, 1]);
  }

  lemma FilledAtOnce(want: nat, plan: Plan)
    requires want > 0 && plan != [] && plan[0] >= want
    ensures PlanAfter(want, plan) == plan[1..]
  {
  }

  lemma ShortKind(data: seq<byte>, ops: nat)
    requires ops > 0 && |data| >= 4 && |data| >= 4 + Value(data[2..4])
    ensures !FullScan(data, ops, [1])
  {
  }

  // ----- whole walks

  /** A source whose reads, even the first ones, deliver whatever a log asks for at once. */
  predicate Ample(plan: Plan) {
    forall i :: 0 <= i < |plan| ==> plan[i] >= MAX_PAYLOAD
  }

  lemma {:induction false} AmpleAfter(want: nat, plan: Plan)
    requires Ample(plan) && want <= MAX_PAYLOAD
    ensures Full(want, plan) && Ample(PlanAfter(want, plan))
    decreases want + |plan|
  {
    if want > 0 {
      AmpleAfter(want - Delivered(want, plan), Later(plan));
    }
  }

  /** The plan once the entries are read. */
  function PlanOfScan(data: seq<byte>, ops: nat, plan: Plan): Plan
    decreases ops
  {
    if ops == 0 || |data| < 4 || |data| < 4 + Value(data[2..4]) then plan
    else
      var n := 4 + Value(data[2..4]);
      PlanOfScan(data[n..], ops - 1, PlanOfFrame(data[..n], plan))
  }

  lemma {:induction false} AmpleScan(data: seq<byte>, ops: nat, plan: Plan)
    requires Ample(plan)
    ensures FullScan(data, ops, plan) && Ample(PlanOfScan(data, ops, plan))
    decreases ops
  {
    if ops > 0 && |data| >= 4 && |data| >= 4 + Value(data[2..4]) {
      var n := 4 + Value(data[2..4]);
      assert data[..n][2..4] == data[2..4];
      AmpleFrame(data[..n], plan);
      AmpleScan(data[n..], ops - 1, PlanOfFrame(data[..n], plan));
    }
  }

  lemma AmpleFrame(frame: seq<byte>, plan: Plan)
    requires |frame| >= 4 && |frame| == 4 + Value(frame[2..4]) && Ample(plan)
    ensures FullFrame(frame, plan) && Ample(PlanOfFrame(frame, plan))
  {
    ValueBound(frame[2..4]);
    Ranges();
    AmpleAfter(2, plan);
    AmpleAfter(2, PlanAfter(2, plan));
    AmpleAfter(|frame| - 4, PlanAfter(2, PlanAfter(2, plan)));
  }

  /** The plan once a transaction is read. */
  function PlanAfterNext(data: seq<byte>, plan: Plan): Plan {
    if |data| < 12 then [] else PlanOfScan(data[12..], Value(data[4..8]), PlanAfterHeader(plan))
  }

  /** Transaction after transaction from a source with a plan. */
  function ReadAllVia<V>(f: Format<V>, data: seq<byte>, plan: Plan): (seq<seq<V>>, Outcome<V>)
    decreases |data|
  {
    var (o, rest) := NextVia(f, data, plan);
    if o.Entries? then
      ViaShrinks(f, data, plan);
      var (txs, end) := ReadAllVia(f, rest, PlanAfterNext(data, plan));
      ([o.entries] + txs, end)
    else ([], o)
  }

  lemma ViaShrinks<V>(f: Format<V>, data: seq<byte>, plan: Plan)
    requires NextVia(f, data, plan).0.Entries?
    ensures |NextVia(f, data, plan).1| < |data|
  {
    SpanOfScan<V>(f, data[12..], Value(data[4..8]), [], false);
  }

  /** From any input, a source that is ample reads what a source that fills its buffers reads. */
  lemma {:induction false} AmpleWalk<V>(f: Format<V>, data: seq<byte>, plan: Plan)
    requires Ample(plan)
    ensures ReadAllVia(f, data, plan) == ReadAll(f, data)
    decreases |data|
  {
    AmpleNext(f, data, plan);
    if NextVia(f, data, plan).0.Entries? {
      ViaShrinks(f, data, plan);
      AmpleWalk(f, NextVia(f, data, plan).1, PlanAfterNext(data, plan));
    }
  }

  lemma AmpleNext<V>(f: Format<V>, data: seq<byte>, plan: Plan)
    requires Ample(plan)
    ensures NextVia(f, data, plan) == Next(f, data) && Ample(PlanAfterNext(data, plan))
  {
    AmpleAfter(4, plan);
    AmpleAfter(4, PlanAfter(4, plan));
    AmpleAfter(4, PlanAfter(4, PlanAfter(4, plan)));
    if |data| >= 12 {
      AmpleScan(data[12..], Value(data[4..8]), PlanAfterHeader(plan));
    }
    FullIsHarmless(f, data, plan);
  }

  // ----- the loop over the entries

  lemma JoinsLeft(a: seq<byte>, b: seq<byte>, c: seq<byte>)
    ensures a + (b + c) == a + b + c
  {
  }

  lemma SummedSteps(input: seq<byte>, left: nat, summed: seq<byte>, plan: Plan, n: nat)
    requires left > 0 && EntryInFront(input, n)
    ensures var later := PlanOfFrame(input[..n], plan);
            && summed + FedScan(input, left, plan)
            == summed + FedFrame(input[..n], plan) + FedScan(input[n..], left - 1, later)
            && PlanOfScan(input, left, plan) == PlanOfScan(input[n..], left - 1, later)
  {
    FirstOfFed(input, left, plan, n);
    JoinsLeft(summed, FedFrame(input[..n], plan), FedScan(input[n..], left - 1, PlanOfFrame(input[..n], plan)));
  }

  lemma FrameSlices(k: seq<byte>, l: seq<byte>, payload: seq<byte>, rest: seq<byte>)
    requires |k| == |l| == 2
    ensures var data, n := k + (l + (payload + rest)), 4 + |payload|;
            && data[..2] == k && data[2..4] == l && data[4..n] == payload && data[n..] == rest
            && data[..n][..2] == k && data[..n][2..4] == l && data[..n][4..] == payload
  {
  }

  /** An entry in its parts, and what follows. */
  lemma FrameParts(k: seq<byte>, l: seq<byte>, payload: seq<byte>, rest: seq<byte>, plan: Plan, data: seq<byte>)
    requires |k| == |l| == 2 && |payload| == Value(l) && data == k + (l + (payload + rest))
    ensures var n, p := 4 + |payload|, PlanAfter(2, plan);
            && EntryInFront(data, n) && data[..2] == k && data[4..n] == payload && data[n..] == rest
            && FedFrame(data[..n], plan) == Fed(k, plan) + Fed(l, p) + Fed(payload, PlanAfter(2, p))
            && PlanOfFrame(data[..n], plan) == PlanAfter(|payload|, PlanAfter(2, p))
  {
    FrameSlices(k, l, payload, rest);
  }

  /** What a loop over the entries is to yield: what the scan says, all that is summed, and the plan then. */
  datatype Goal<V> = Goal(scanned: Scanned<V>, summed: seq<byte>, plan: Plan)

  ghost function GoalOf<V>(f: Format<V>, input: seq<byte>, left: nat, entries: seq<V>, early: bool, summed: seq<byte>,
                           plan: Plan): Goal<V> {
    Goal(Scan(f, input, left, entries, early), summed + FedScan(input, left, plan), PlanOfScan(input, left, plan))
  }

  lemma GoalSteps<V>(f: Format<V>, input: seq<byte>, left: nat, entries: seq<V>, was: bool, summed: seq<byte>, plan: Plan,
                     n: nat, more: seq<V>, early: bool)
    requires left > 0 && EntryInFront(input, n)
    requires Takes(f, Value(input[..2]), input[4..n], entries, more, early)
    ensures GoalOf(f, input, left, entries, was, summed, plan)
         == GoalOf(f, input[n..], left - 1, more, early, summed + FedFrame(input[..n], plan), PlanOfFrame(input[..n], plan))
  {
    ScanSteps(f, input, left, entries, was, n, more, early);
    SummedSteps(input, left, summed, plan, n);
  }

  /** How the loop over the entries ended. */
  datatype Ending = Whole | Ended | Broken

  /** The loop has done what the goal says, leaving the input and the plan, of so many bytes before. */
  ghost predicate Attained<V>(goal: Goal<V>, ending: Ending, entries: seq<V>, consumed: nat, summed: seq<byte>,
                              before: nat, input: seq<byte>, plan: Plan) {
    match goal.scanned
    case Torn => ending == Ended && input == []
    case Bad(rest) => ending == Broken && input == rest
    case Scanned(rest, es, early) =>
      && input == rest && ending == (if early then Ended else Whole)
      && entries == es && before == consumed + |rest| && summed == goal.summed && plan == goal.plan
  }

  type Goals<!V> = (seq<byte>, nat, seq<V>, bool, seq<byte>, Plan) -> Goal<V>

  /** The function gives goals. */
  ghost predicate Sets<V(!new)>(f: Format<V>, g: Goals<V>) {
    forall i, l, es, e, s, p {:trigger GoalOf(f, i, l, es, e, s, p)} :: g(i, l, es, e, s, p) == GoalOf(f, i, l, es, e, s, p)
  }

  lemma GoalReached<V(!new)>(f: Format<V>, g: Goals<V>, goal: Goal<V>, input: seq<byte>, entries: seq<V>, early: bool,
                             consumed: nat, summed: seq<byte>, plan: Plan)
    requires Sets(f, g) && goal == g(input, 0, entries, early, summed, plan)
    ensures Attained(goal, if early then Ended else Whole, entries, consumed, summed, consumed + |input|, input, plan)
  {
    assert goal == GoalOf(f, input, 0, entries, early, summed, plan);
    assert summed + [] == summed;
  }
}

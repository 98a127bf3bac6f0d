/**
  The freezer log: transactions of entries, framed and checksummed, appended to a file, and the walker
  that reads them back. The entry codec and the checksum are parameters.
 */
module Freezer {
  import opened Prelude
  import opened Counter

  /** What decoding the payload of an entry can yield; input that ends early is an error of its own. */
  datatype Unmarshaled<+V> = Parsed(value: V) | EndsEarly | Garbled

  /** The entry codec, by kind, and the checksum. */
  datatype Format<!V> = Format(
    kindOf: V -> nat,
    marshal: V -> Option<seq<byte>>,
    unmarshal: (nat, seq<byte>) -> Unmarshaled<V>,
    crc: seq<byte> -> nat)

  const KINDS := 7
  const MAX_PAYLOAD := 65535
  const MAX_OPS := 256
  const MAX_BODY := 255 * 65535

  /** The codec inverts itself and the checksum has 32 bits. */
  ghost predicate Faithful<V(!new)>(f: Format<V>) {
    && (forall v :: f.kindOf(v) < KINDS)
    && (forall v :: f.marshal(v).Some? ==> f.unmarshal(f.kindOf(v), f.marshal(v).value) == Parsed(v))
    && (forall s :: f.crc(s) < 0x1_0000_0000)
  }

  // ----- the bytes of a log

  predicate Fits<V>(f: Format<V>, v: V) {
    f.marshal(v).Some? && |f.marshal(v).value| <= MAX_PAYLOAD
  }

  function Framed<V>(f: Format<V>, v: V): seq<byte>
    requires Fits(f, v)
  {
    At(f.kindOf(v), 2) + At(|f.marshal(v).value|, 2) + f.marshal(v).value
  }

  predicate AllFit<V>(f: Format<V>, tx: seq<V>) {
    forall i :: 0 <= i < |tx| ==> Fits(f, tx[i])
  }

  function Body<V>(f: Format<V>, tx: seq<V>): seq<byte>
    requires AllFit(f, tx)
  {
    if tx == [] then [] else Framed(f, tx[0]) + Body(f, tx[1..])
  }

  /** A record: its length after itself, the number of entries, the checksum of the body, the body. */
  function Record(body: seq<byte>, ops: nat, sum: nat): (r: seq<byte>)
    ensures |r| == 12 + |body|
  {
    At(8 + |body|, 4) + At(ops, 4) + At(sum, 4) + body
  }

  predicate Committable<V>(f: Format<V>, tx: seq<V>) {
    AllFit(f, tx) && |tx| <= MAX_OPS
  }

  function Committed<V>(f: Format<V>, tx: seq<V>): (r: seq<byte>)
    requires Committable(f, tx)
    ensures |r| == 12 + |Body(f, tx)|
  {
    Record(Body(f, tx), |tx|, f.crc(Body(f, tx)))
  }

  predicate AllCommittable<V>(f: Format<V>, txs: seq<seq<V>>) {
    forall i :: 0 <= i < |txs| ==> Committable(f, txs[i])
  }

  function File<V>(f: Format<V>, txs: seq<seq<V>>): seq<byte>
    requires AllCommittable(f, txs)
  {
    if txs == [] then [] else Committed(f, txs[0]) + File(f, txs[1..])
  }

  // ----- reading

  datatype Outcome<+V> =
    | Entries(entries: seq<V>)
    | EndOfFile
    | UnexpectedEnd
    | RecordTooBig
    | RemainingBytes
    | ChecksumMismatch
    | Undecodable

  datatype Scanned<+V> = Scanned(rest: seq<byte>, entries: seq<V>, endedEarly: bool) | Torn | Bad(rest: seq<byte>)

  /**
    The loop over the entries of a record. Unknown kinds are skipped; an entry whose payload ends early
    is dropped, and its error is reported only when it was the last one.
   */
  function Scan<V>(f: Format<V>, data: seq<byte>, ops: nat, entries: seq<V>, endedEarly: bool): Scanned<V>
    decreases ops
  {
    if ops == 0 then Scanned(data, entries, endedEarly)
    else if |data| < 4 then Torn
    else
      var kind, length := Value(data[..2]), Value(data[2..4]);
      if |data| < 4 + length then Torn
      else
        var rest := data[4 + length..];
        if kind >= KINDS then Scan(f, rest, ops - 1, entries, false)
        else match f.unmarshal(kind, data[4..4 + length])
          case Parsed(v) => Scan(f, rest, ops - 1, entries + [v], false)
          case EndsEarly => Scan(f, rest, ops - 1, entries, true)
          case Garbled => Bad(rest)
  }

  /** One transaction from the front of the input, and the input after it, given the checksum of what was read. */
  function NextSummed<V>(f: Format<V>, data: seq<byte>, sum: nat): (Outcome<V>, seq<byte>) {
    if |data| < 4 then (EndOfFile, [])
    else
      var remain := Value(data[..4]);
      if remain < 8 then (UnexpectedEnd, data[4..])
      else if remain - 8 > MAX_BODY then (RecordTooBig, data[4..])
      else if |data| < 12 then (UnexpectedEnd, [])
      else match Scan(f, data[12..], Value(data[4..8]), [], false)
        case Torn => (UnexpectedEnd, [])
        case Bad(rest) => (Undecodable, rest)
        case Scanned(rest, entries, endedEarly) =>
          if endedEarly then (UnexpectedEnd, rest)
          else if |data| - 12 - |rest| != remain - 8 then (RemainingBytes, rest)
          else if sum != Value(data[8..12]) then (ChecksumMismatch, rest)
          else (Entries(entries), rest)
  }

  /** The body of the record in front, as far as its length field can be believed. */
  function BodyOf(data: seq<byte>): seq<byte> {
    if |data| < 12 || !(12 <= 4 + Value(data[..4]) <= |data|) then [] else data[12..4 + Value(data[..4])]
  }

  /** One transaction, when all of the body and nothing else is summed. */
  function Next<V>(f: Format<V>, data: seq<byte>): (Outcome<V>, seq<byte>) {
    NextSummed(f, data, f.crc(BodyOf(data)))
  }

  /** The second is an end of the first. */
  ghost predicate EndOf(data: seq<byte>, rest: seq<byte>) {
    |rest| <= |data| && rest == data[|data| - |rest|..]
  }

  lemma EndOfEnd(data: seq<byte>, n: nat, rest: seq<byte>)
    requires n <= |data| && EndOf(data[n..], rest)
    ensures EndOf(data, rest)
  {
  }

  lemma {:induction false} ScanShrinks<V>(f: Format<V>, data: seq<byte>, ops: nat, entries: seq<V>, endedEarly: bool)
    ensures var r := Scan(f, data, ops, entries, endedEarly); r.Scanned? ==> EndOf(data, r.rest)
    decreases ops
  {
    if ops > 0 && |data| >= 4 && |data| >= 4 + Value(data[2..4]) {
      var kind, n := Value(data[..2]), 4 + Value(data[2..4]);
      var more, early := entries, false;
      if kind < KINDS {
        match f.unmarshal(kind, data[4..n])
        case Parsed(v) => more := entries + [v];
        case EndsEarly => early := true;
        case Garbled =>
      }
      ScanShrinks(f, data[n..], ops - 1, more, early);
      var r := Scan(f, data[n..], ops - 1, more, early);
      if r.Scanned? {
        EndOfEnd(data, n, r.rest);
      }
    }
  }

  lemma NextShrinks<V>(f: Format<V>, data: seq<byte>)
    ensures Next(f, data).0.Entries? ==> |Next(f, data).1| < |data|
  {
    if |data| >= 12 {
      ScanShrinks<V>(f, data[12..], Value(data[4..8]), [], false);
    }
  }

  /** Transaction after transaction until one is refused, and how the walk ended. */
  function ReadAll<V>(f: Format<V>, data: seq<byte>): (seq<seq<V>>, Outcome<V>)
    decreases |data|
  {
    NextShrinks(f, data);
    var (o, rest) := Next(f, data);
    if o.Entries? then
      var (txs, end) := ReadAll(f, rest);
      ([o.entries] + txs, end)
    else ([], o)
  }

  // ----- a whole record and a torn one

  lemma Small(v: nat, n: nat)
    requires v < Range(n)
    ensures Value(At(v, n)) == v
  {
    ValueAt(v, n);
    ModInside(v, Range(n));
  }

  lemma Ranges()
    ensures Range(2) == 65536 && Range(4) == 0x1_0000_0000
  {
    assert Range(1) == 256 && Range(2) == 65536 && Range(3) == 256 * 65536;
  }

  lemma Slices(a: seq<byte>, b: seq<byte>, c: seq<byte>, more: seq<byte>)
    requires |a| == 2 && |b| == 2
    ensures var data := (a + b + c) + more;
            && data[..2] == a && data[2..4] == b && data[4..4 + |c|] == c && data[4 + |c|..] == more
  {
  }

  lemma FramedFields<V(!new)>(f: Format<V>, v: V, more: seq<byte>)
    requires Faithful(f) && Fits(f, v)
    ensures var data, payload := Framed(f, v) + more, f.marshal(v).value;
            && Value(data[..2]) == f.kindOf(v) && Value(data[2..4]) == |payload|
            && data[4..4 + |payload|] == payload && data[4 + |payload|..] == more
  {
    var payload := f.marshal(v).value;
    Ranges();
    Small(f.kindOf(v), 2);
    Small(|payload|, 2);
    Slices(At(f.kindOf(v), 2), At(|payload|, 2), payload, more);
  }

  lemma ScanOne<V(!new)>(f: Format<V>, v: V, more: seq<byte>, ops: nat, entries: seq<V>)
    requires Faithful(f) && Fits(f, v)
    ensures Scan(f, Framed(f, v) + more, ops + 1, entries, false) == Scan(f, more, ops, entries + [v], false)
  {
    FramedFields(f, v, more);
  }

  /** How a scan goes over framed entries: an entry in front is taken, and one that is cut is not. */
  ghost predicate Scans<V(!new)>(f: Format<V>, scan: (seq<byte>, nat, seq<V>) -> Scanned<V>) {
    && (forall v, more, ops, es :: Fits(f, v) && ops > 0 ==>
          scan(Framed(f, v) + more, ops, es) == scan(more, ops - 1, es + [v]))
    && (forall v, n, ops, es :: Fits(f, v) && 0 <= n < |Framed(f, v)| && ops > 0 ==>
          scan(Framed(f, v)[..n], ops, es) == Torn)
  }

  lemma ScanScans<V(!new)>(f: Format<V>)
    requires Faithful(f)
    ensures Scans(f, (data: seq<byte>, ops: nat, es: seq<V>) => Scan(f, data, ops, es, false))
  {
    forall v, more, ops: nat, es | Fits(f, v) && ops > 0
      ensures Scan(f, Framed(f, v) + more, ops, es, false) == Scan(f, more, ops - 1, es + [v], false)
    {
      ScanOne(f, v, more, ops - 1, es);
    }
    forall v, n, ops: nat, es | Fits(f, v) && 0 <= n < |Framed(f, v)| && ops > 0
      ensures Scan(f, Framed(f, v)[..n], ops, es, false) == Torn
    {
      FrameTorn(f, v, n, ops, es);
    }
  }

  lemma BodyAndMore<V>(f: Format<V>, tx: seq<V>, more: seq<byte>)
    requires AllFit(f, tx) && tx != []
    ensures Body(f, tx) + more == Framed(f, tx[0]) + (Body(f, tx[1..]) + more)
  {
  }

  lemma {:induction false} WholeBody<V(!new)>(f: Format<V>, scan: (seq<byte>, nat, seq<V>) -> Scanned<V>, tx: seq<V>,
                                             more: seq<byte>, es: seq<V>)
    requires Scans(f, scan) && AllFit(f, tx)
    ensures scan(Body(f, tx) + more, |tx|, es) == scan(more, 0, es + tx)
    decreases |tx|
  {
    if tx == [] {
      assert Body(f, tx) + more == more && es + tx == es;
    } else {
      BodyAndMore(f, tx, more);
      WholeBody(f, scan, tx[1..], more, es + [tx[0]]);
      assert es + [tx[0]] + tx[1..] == es + tx;
    }
  }

  lemma ScanWhole<V(!new)>(f: Format<V>, tx: seq<V>, more: seq<byte>, entries: seq<V>)
    requires Faithful(f) && AllFit(f, tx)
    ensures Scan(f, Body(f, tx) + more, |tx|, entries, false) == Scanned(more, entries + tx, false)
  {
    ScanScans(f);
    WholeBody(f, (data: seq<byte>, ops: nat, es: seq<V>) => Scan(f, data, ops, es, false), tx, more, entries);
  }

  lemma FrameTorn<V(!new)>(f: Format<V>, v: V, n: nat, ops: nat, entries: seq<V>)
    requires Faithful(f) && Fits(f, v) && n < |Framed(f, v)| && ops > 0
    ensures Scan(f, Framed(f, v)[..n], ops, entries, false) == Torn
  {
    var frame := Framed(f, v);
    assert frame + [] == frame;
    FramedFields(f, v, []);
    if n >= 4 {
      assert frame[..n][..2] == frame[..2] && frame[..n][2..4] == frame[2..4];
    }
  }

  lemma BodyPrefix<V>(f: Format<V>, tx: seq<V>, n: nat)
    requires AllFit(f, tx) && tx != [] && n <= |Body(f, tx)|
    ensures var frame := Framed(f, tx[0]);
            Body(f, tx)[..n] == if n < |frame| then frame[..n] else frame + Body(f, tx[1..])[..n - |frame|]
  {
  }

  lemma {:induction false} TornBody<V(!new)>(f: Format<V>, scan: (seq<byte>, nat, seq<V>) -> Scanned<V>, tx: seq<V>,
                                            n: nat, es: seq<V>)
    requires Scans(f, scan) && AllFit(f, tx) && n < |Body(f, tx)|
    ensures scan(Body(f, tx)[..n], |tx|, es) == Torn
    decreases |tx|
  {
    var size := |Framed(f, tx[0])|;
    BodyPrefix(f, tx, n);
    if n >= size {
      TornBody(f, scan, tx[1..], n - size, es + [tx[0]]);
    }
  }

  lemma ScanTorn<V(!new)>(f: Format<V>, tx: seq<V>, n: nat, entries: seq<V>)
    requires Faithful(f) && AllFit(f, tx) && n < |Body(f, tx)|
    ensures Scan(f, Body(f, tx)[..n], |tx|, entries, false) == Torn
  {
    ScanScans(f);
    TornBody(f, (data: seq<byte>, ops: nat, es: seq<V>) => Scan(f, data, ops, es, false), tx, n, entries);
  }

  lemma FourParts(a: seq<byte>, b: seq<byte>, c: seq<byte>, d: seq<byte>, n: nat)
    requires |a| == 4 && |b| == 4 && |c| == 4 && 12 <= n <= 12 + |d|
    ensures var data := (a + b + c + d)[..n];
            && data[..4] == a && data[4..8] == b && data[8..12] == c && data[12..] == d[..n - 12]
  {
  }

  /** The fields of a record that is cut after its header. */
  lemma RecordFields(body: seq<byte>, ops: nat, sum: nat, n: nat)
    requires 8 + |body| < 0x1_0000_0000 && ops < 0x1_0000_0000 && sum < 0x1_0000_0000
    requires 12 <= n <= 12 + |body|
    ensures var data := Record(body, ops, sum)[..n];
            && Value(data[..4]) == 8 + |body| && Value(data[4..8]) == ops && Value(data[8..12]) == sum
            && data[12..] == body[..n - 12]
  {
    Ranges();
    Small(8 + |body|, 4);
    Small(ops, 4);
    Small(sum, 4);
    FourParts(At(8 + |body|, 4), At(ops, 4), At(sum, 4), body, n);
  }

  lemma LengthField(body: seq<byte>, ops: nat, sum: nat, n: nat)
    requires 8 + |body| < 0x1_0000_0000 && 4 <= n <= 12 + |body|
    ensures Value(Record(body, ops, sum)[..n][..4]) == 8 + |body|
  {
    Ranges();
    Small(8 + |body|, 4);
    assert Record(body, ops, sum)[..n][..4] == At(8 + |body|, 4);
  }

  lemma {:induction false} BodySize<V>(f: Format<V>, tx: seq<V>)
    requires AllFit(f, tx)
    ensures |Body(f, tx)| <= |tx| * 65539
    decreases |tx|
  {
    if tx != [] {
      BodySize(f, tx[1..]);
    }
  }

  lemma HeaderAndMore(rec: seq<byte>, more: seq<byte>)
    requires |rec| >= 12
    ensures var data := rec + more;
            && data[..4] == rec[..4] && data[4..8] == rec[4..8] && data[8..12] == rec[8..12]
            && data[12..] == rec[12..] + more && data[12..|rec|] == rec[12..]
  {
  }

  lemma RecordAndMore(body: seq<byte>, ops: nat, sum: nat, more: seq<byte>)
    requires 8 + |body| < 0x1_0000_0000 && ops < 0x1_0000_0000 && sum < 0x1_0000_0000
    ensures var data := Record(body, ops, sum) + more;
            && Value(data[..4]) == 8 + |body| && Value(data[4..8]) == ops && Value(data[8..12]) == sum
            && data[12..] == body + more && data[12..12 + |body|] == body
  {
    var rec := Record(body, ops, sum);
    assert rec[..|rec|] == rec && body[..|body|] == body;
    RecordFields(body, ops, sum, |rec|);
    HeaderAndMore(rec, more);
  }

  /** A whole record reads back as its transaction, unless its body is over the walker's bound. */
  lemma WholeRecord<V(!new)>(f: Format<V>, tx: seq<V>, more: seq<byte>)
    requires Faithful(f) && Committable(f, tx)
    ensures Next(f, Committed(f, tx) + more)
         == if |Body(f, tx)| <= MAX_BODY then (Entries(tx), more)
            else (RecordTooBig, (Committed(f, tx) + more)[4..])
  {
    var body := Body(f, tx);
    BodySize(f, tx);
    RecordAndMore(body, |tx|, f.crc(body), more);
    ScanWhole(f, tx, more, []);
    assert [] + tx == tx;
  }

  /** A record cut anywhere yields no entry: end of file inside the length field, else an unexpected end. */
  lemma TornRecord<V(!new)>(f: Format<V>, tx: seq<V>, n: nat)
    requires Faithful(f) && Committable(f, tx) && |Body(f, tx)| <= MAX_BODY && n < |Committed(f, tx)|
    ensures Next(f, Committed(f, tx)[..n]).0 == if n < 4 then EndOfFile else UnexpectedEnd
  {
    var body, data := Body(f, tx), Committed(f, tx)[..n];
    if n >= 4 {
      LengthField(body, |tx|, f.crc(body), n);
    }
    if n >= 12 {
      RecordFields(body, |tx|, f.crc(body), n);
      ScanTorn(f, tx, n - 12, []);
    }
  }

  /** A record over the walker's bound is refused as soon as its length can be read, however much of it there is. */
  lemma OversizedRecord<V>(f: Format<V>, tx: seq<V>, data: seq<byte>)
    requires Committable(f, tx) && |Body(f, tx)| > MAX_BODY
    requires |data| >= 4 && data[..4] == Committed(f, tx)[..4]
    ensures Next(f, data).0 == RecordTooBig
  {
    var body := Body(f, tx);
    BodySize(f, tx);
    LengthField(body, |tx|, f.crc(body), 12 + |body|);
    assert Committed(f, tx)[..12 + |body|] == Committed(f, tx);
  }

  lemma {:induction false} BodyOfEqual<V>(f: Format<V>, v: V, tx: seq<V>)
    requires Fits(f, v) && forall i :: 0 <= i < |tx| ==> tx[i] == v
    ensures |Body(f, tx)| == |tx| * (4 + |f.marshal(v).value|)
    decreases |tx|
  {
    if tx != [] {
      BodyOfEqual(f, v, tx[1..]);
      assert |Framed(f, v)| == 4 + |f.marshal(v).value|;
    }
  }

  /**
    Such transactions can be written: 255 entries of the greatest size will do, although the bound was
    meant for them. The walker then never gets beyond the record.
   */
  lemma OversizedCanBeWritten<V(!new)>(f: Format<V>, v: V, more: seq<byte>)
    requires Faithful(f) && Fits(f, v) && |f.marshal(v).value| == MAX_PAYLOAD
    ensures var tx := seq(255, _ => v);
            && Committable(f, tx) && |Body(f, tx)| == 255 * 65539
            && ReadAll(f, Committed(f, tx) + more) == ([], RecordTooBig)
  {
    var tx := seq(255, _ => v);
    BodyOfEqual(f, v, tx);
    WholeRecord(f, tx, more);
  }

  // ----- crash atomicity

  predicate TooBig<V>(f: Format<V>, tx: seq<V>)
    requires AllFit(f, tx)
  {
    |Body(f, tx)| > MAX_BODY
  }

  /** The transactions whose records lie wholly within the first n bytes of their file, up to one that is too big. */
  function Survivors<V>(f: Format<V>, txs: seq<seq<V>>, n: nat): (m: nat)
    requires AllCommittable(f, txs)
    ensures m <= |txs|
  {
    if txs == [] || n < |Committed(f, txs[0])| || TooBig(f, txs[0]) then 0
    else 1 + Survivors(f, txs[1..], n - |Committed(f, txs[0])|)
  }

  lemma FileFirst<V>(f: Format<V>, txs: seq<seq<V>>, m: nat)
    requires AllCommittable(f, txs) && 0 < m <= |txs|
    ensures |File(f, txs[..m])| == |Committed(f, txs[0])| + |File(f, txs[1..][..m - 1])|
  {
    assert txs[..m][1..] == txs[1..][..m - 1];
  }

  /** The first m are all that can be read: they fit, none is too big, and the next does not fit or is too big. */
  ghost predicate Greatest<V>(f: Format<V>, txs: seq<seq<V>>, n: int, m: nat)
    requires AllCommittable(f, txs)
  {
    && m <= |txs| && |File(f, txs[..m])| <= n && (forall i :: 0 <= i < m ==> !TooBig(f, txs[i]))
    && (m < |txs| ==> n < |File(f, txs[..m + 1])| || TooBig(f, txs[m]))
  }

  lemma GreatestFirst<V>(f: Format<V>, txs: seq<seq<V>>, n: int, m: nat)
    requires AllCommittable(f, txs) && txs != [] && !TooBig(f, txs[0])
    requires Greatest(f, txs[1..], n - |Committed(f, txs[0])|, m)
    ensures Greatest(f, txs, n, m + 1)
  {
    FileFirst(f, txs, m + 1);
    if m + 1 < |txs| {
      FileFirst(f, txs, m + 2);
    }
    NoneTooBig(f, txs, m);
  }

  lemma NoneTooBig<V>(f: Format<V>, txs: seq<seq<V>>, m: nat)
    requires AllCommittable(f, txs) && m < |txs| && !TooBig(f, txs[0])
    requires forall i :: 0 <= i < m ==> !TooBig(f, txs[1..][i])
    ensures forall i :: 0 <= i < m + 1 ==> !TooBig(f, txs[i])
  {
    forall i | 0 <= i < m + 1 ensures !TooBig(f, txs[i]) {
      assert i > 0 ==> txs[i] == txs[1..][i - 1];
    }
  }

  lemma {:induction false} SurvivorsFit<V>(f: Format<V>, txs: seq<seq<V>>, n: nat)
    requires AllCommittable(f, txs)
    ensures Greatest(f, txs, n, Survivors(f, txs, n))
    decreases |txs|
  {
    var m := Survivors(f, txs, n);
    if txs != [] {
      if m > 0 {
        SurvivorsFit(f, txs[1..], n - |Committed(f, txs[0])|);
        GreatestFirst(f, txs, n, m - 1);
      } else {
        FileFirst(f, txs, 1);
      }
    }
  }

  lemma ReadOne<V>(f: Format<V>, data: seq<byte>, tx: seq<V>, rest: seq<byte>)
    requires Next(f, data) == (Entries(tx), rest)
    ensures |rest| < |data| && ReadAll(f, data) == ([tx] + ReadAll(f, rest).0, ReadAll(f, rest).1)
  {
    NextShrinks(f, data);
  }

  /** How the walk of the first n bytes ends after m survivors. */
  function EndOfWalk<V>(f: Format<V>, txs: seq<seq<V>>, n: nat, m: nat): Outcome<V>
    requires AllCommittable(f, txs) && m <= |txs|
  {
    if n - |File(f, txs[..m])| < 4 then EndOfFile
    else if m < |txs| && TooBig(f, txs[m]) then RecordTooBig
    else UnexpectedEnd
  }

  /** What the walker must read from the first n bytes: the survivors, and how the walk then ends. */
  ghost function Expected<V>(f: Format<V>, txs: seq<seq<V>>, n: nat): (seq<seq<V>>, Outcome<V>)
    requires AllCommittable(f, txs)
  {
    var m := Survivors(f, txs, n);
    (txs[..m], EndOfWalk(f, txs, n, m))
  }

  lemma PrefixOfFile<V>(f: Format<V>, txs: seq<seq<V>>, n: nat)
    requires AllCommittable(f, txs) && txs != [] && n <= |File(f, txs)|
    ensures var first := Committed(f, txs[0]);
            File(f, txs)[..n] == if n < |first| then first[..n] else first + File(f, txs[1..])[..n - |first|]
  {
  }

  lemma NothingSurvives<V(!new)>(f: Format<V>, txs: seq<seq<V>>, n: nat, data: seq<byte>)
    requires Faithful(f) && AllCommittable(f, txs) && txs != [] && n < |Committed(f, txs[0])| && !TooBig(f, txs[0])
    requires data == Committed(f, txs[0])[..n]
    ensures ReadAll(f, data) == Expected(f, txs, n)
  {
    assert txs[..0] == [];
    TornRecord(f, txs[0], n);
  }

  lemma OversizedFirst<V>(f: Format<V>, txs: seq<seq<V>>, n: nat)
    requires AllCommittable(f, txs) && txs != [] && n <= |File(f, txs)| && TooBig(f, txs[0])
    ensures ReadAll(f, File(f, txs)[..n]) == Expected(f, txs, n)
  {
    assert txs[..0] == [];
    if n >= 4 {
      assert File(f, txs)[..n][..4] == Committed(f, txs[0])[..4];
      OversizedRecord(f, txs[0], File(f, txs)[..n]);
    }
  }

  lemma ReadFirst<V(!new)>(f: Format<V>, tx: seq<V>, rest: seq<byte>, read: seq<seq<V>>, end: Outcome<V>)
    requires Faithful(f) && Committable(f, tx) && !TooBig(f, tx)
    requires ReadAll(f, rest) == (read, end)
    ensures ReadAll(f, Committed(f, tx) + rest) == ([tx] + read, end)
  {
    WholeRecord(f, tx, rest);
    ReadOne(f, Committed(f, tx) + rest, tx, rest);
  }

  lemma EndOfWalkFirst<V>(f: Format<V>, txs: seq<seq<V>>, n: nat, m: nat)
    requires AllCommittable(f, txs) && txs != [] && |Committed(f, txs[0])| <= n && m < |txs|
    ensures EndOfWalk(f, txs, n, m + 1) == EndOfWalk(f, txs[1..], n - |Committed(f, txs[0])|, m)
  {
    FileFirst(f, txs, m + 1);
  }

  lemma SurvivorsFirst<V>(f: Format<V>, txs: seq<seq<V>>, n: nat)
    requires AllCommittable(f, txs) && txs != [] && |Committed(f, txs[0])| <= n && !TooBig(f, txs[0])
    ensures Survivors(f, txs, n) == 1 + Survivors(f, txs[1..], n - |Committed(f, txs[0])|)
  {
  }

  lemma ReadingFirst<V>(f: Format<V>, txs: seq<seq<V>>, n: nat, m: nat)
    requires AllCommittable(f, txs) && txs != [] && |Committed(f, txs[0])| <= n && m < |txs|
    ensures (txs[..m + 1], EndOfWalk(f, txs, n, m + 1))
         == ([txs[0]] + txs[1..][..m], EndOfWalk(f, txs[1..], n - |Committed(f, txs[0])|, m))
  {
    EndOfWalkFirst(f, txs, n, m);
    FirstAndOthers(txs, m);
  }

  lemma FirstAndOthers<T>(s: seq<T>, m: nat)
    requires m < |s|
    ensures s[..m + 1] == [s[0]] + s[1..][..m]
  {
  }

  lemma ExpectedFirst<V>(f: Format<V>, txs: seq<seq<V>>, n: nat)
    requires AllCommittable(f, txs) && txs != [] && |Committed(f, txs[0])| <= n && !TooBig(f, txs[0])
    ensures var e := Expected(f, txs[1..], n - |Committed(f, txs[0])|);
            Expected(f, txs, n) == ([txs[0]] + e.0, e.1)
  {
    SurvivorsFirst(f, txs, n);
    ReadingFirst(f, txs, n, Survivors(f, txs[1..], n - |Committed(f, txs[0])|));
  }

  lemma FirstThenRest<V(!new)>(f: Format<V>, txs: seq<seq<V>>, n: nat, rest: seq<byte>)
    requires Faithful(f) && AllCommittable(f, txs) && txs != [] && !TooBig(f, txs[0]) && |Committed(f, txs[0])| <= n
    requires ReadAll(f, rest) == Expected(f, txs[1..], n - |Committed(f, txs[0])|)
    ensures ReadAll(f, Committed(f, txs[0]) + rest) == Expected(f, txs, n)
  {
    ExpectedFirst(f, txs, n);
    var e := Expected(f, txs[1..], n - |Committed(f, txs[0])|);
    ReadFirst(f, txs[0], rest, e.0, e.1);
  }

  lemma TornFirst<V(!new)>(f: Format<V>, txs: seq<seq<V>>, n: nat)
    requires Faithful(f) && AllCommittable(f, txs) && txs != [] && n < |Committed(f, txs[0])| && !TooBig(f, txs[0])
    requires n <= |File(f, txs)|
    ensures ReadAll(f, File(f, txs)[..n]) == Expected(f, txs, n)
  {
    PrefixOfFile(f, txs, n);
    NothingSurvives(f, txs, n, Committed(f, txs[0])[..n]);
  }

  lemma WholeFirst<V(!new)>(f: Format<V>, txs: seq<seq<V>>, n: nat)
    requires Faithful(f) && AllCommittable(f, txs) && txs != [] && !TooBig(f, txs[0])
    requires |Committed(f, txs[0])| <= n <= |File(f, txs)|
    requires ReadAll(f, File(f, txs[1..])[..n - |Committed(f, txs[0])|])
          == Expected(f, txs[1..], n - |Committed(f, txs[0])|)
    ensures ReadAll(f, File(f, txs)[..n]) == Expected(f, txs, n)
  {
    PrefixOfFile(f, txs, n);
    FirstThenRest(f, txs, n, File(f, txs[1..])[..n - |Committed(f, txs[0])|]);
  }

  lemma EmptyFile<V>(f: Format<V>)
    ensures ReadAll(f, []) == Expected(f, [], 0)
  {
  }

  /**
    Crash atomicity: whatever prefix of the file is left, the walker reads exactly the transactions that
    were wholly written, in order and entry for entry, up to the first that is too big, and then stops at an
    end of file, an unexpected end of record, or that transaction.
   */
  lemma {:induction false} CrashAtomicity<V(!new)>(f: Format<V>, txs: seq<seq<V>>, n: nat)
    requires Faithful(f) && AllCommittable(f, txs) && n <= |File(f, txs)|
    ensures ReadAll(f, File(f, txs)[..n]) == Expected(f, txs, n)
    decreases |txs|
  {
    if txs == [] {
      EmptyFile(f);
    } else if TooBig(f, txs[0]) {
      OversizedFirst(f, txs, n);
    } else if n < |Committed(f, txs[0])| {
      TornFirst(f, txs, n);
    } else {
      CrashAtomicity(f, txs[1..], n - |Committed(f, txs[0])|);
      WholeFirst(f, txs, n);
    }
  }

  /** What a file with a transaction that is too big reads as: all before it, and nothing after. */
  lemma LostBehindOversized<V(!new)>(f: Format<V>, txs: seq<seq<V>>, k: nat)
    requires Faithful(f) && AllCommittable(f, txs) && k < |txs| && TooBig(f, txs[k])
    requires forall i :: 0 <= i < k ==> !TooBig(f, txs[i])
    ensures ReadAll(f, File(f, txs)) == (txs[..k], RecordTooBig)
  {
    var n := |File(f, txs)|;
    assert File(f, txs)[..n] == File(f, txs);
    CrashAtomicity(f, txs, n);
    SurvivorsOfAll(f, txs, k, n);
  }

  lemma {:induction false} SurvivorsOfAll<V>(f: Format<V>, txs: seq<seq<V>>, k: nat, n: nat)
    requires AllCommittable(f, txs) && k < |txs| && TooBig(f, txs[k]) && n == |File(f, txs)|
    requires forall i :: 0 <= i < k ==> !TooBig(f, txs[i])
    ensures Survivors(f, txs, n) == k && n >= |File(f, txs[..k])| + 12
    decreases k
  {
    if k > 0 {
      assert txs[1..][k - 1] == txs[k];
      forall i | 0 <= i < k - 1 ensures !TooBig(f, txs[1..][i]) {
        assert txs[1..][i] == txs[i + 1];
      }
      SurvivorsOfAll(f, txs[1..], k - 1, n - |Committed(f, txs[0])|);
      FileFirst(f, txs, k);
    }
  }
}

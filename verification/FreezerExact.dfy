/** What the walker accepts at all, and what it makes of entries it does not know or cannot decode. */
module FreezerExact {
  import opened Prelude
  import opened Counter
  import opened Freezer
  import opened FreezerReader

  /** The fields of a record in their places: length after itself, number of entries, checksum, body. */
  lemma RecordLayout(body: seq<byte>, ops: nat, sum: nat)
    requires 8 + |body| < 0x1_0000_0000 && ops < 0x1_0000_0000 && sum < 0x1_0000_0000
    ensures var rec := Record(body, ops, sum);
            && |rec| == 12 + |body| && Value(rec[..4]) == 8 + |body| && Value(rec[4..8]) == ops
            && Value(rec[8..12]) == sum && rec[12..] == body
  {
    var rec := Record(body, ops, sum);
    RecordFields(body, ops, sum, |rec|);
    assert rec[..|rec|] == rec && body[..|body|] == body;
  }

  /** The fields of an entry: kind, length and payload. */
  lemma EntryLayout<V(!new)>(f: Format<V>, v: V)
    requires Faithful(f) && Fits(f, v)
    ensures var frame, payload := Framed(f, v), f.marshal(v).value;
            && |frame| == 4 + |payload| && Value(frame[..2]) == f.kindOf(v) && Value(frame[2..4]) == |payload|
            && frame[4..] == payload
  {
    FramedFields(f, v, []);
    var frame := Framed(f, v);
    assert frame + [] == frame && frame[4..|frame|] == frame[4..];
  }

  /** A value is taken if it marshals to at most 65535 bytes. */
  lemma FitsIff<V>(f: Format<V>, v: V)
    ensures Fits(f, v) <==> f.marshal(v).Some? && |f.marshal(v).value| <= 65535
  {
  }

  // ----- what is accepted

  lemma FieldIs(field: seq<byte>, n: nat)
    requires |field| == n
    ensures field == At(Value(field), n)
  {
    AtOwnValue(field);
  }

  lemma PartsOf(data: seq<byte>, n: nat)
    requires 12 <= n <= |data|
    ensures data == data[..4] + data[4..8] + data[8..12] + data[12..n] + data[n..]
  {
  }

  lemma AcceptedParts<V>(f: Format<V>, data: seq<byte>)
    requires Next(f, data).0.Entries?
    ensures |data| >= 12 && 8 <= Value(data[..4]) <= 8 + 255 * 65535 && 4 + Value(data[..4]) <= |data|
    ensures f.crc(data[12..4 + Value(data[..4])]) == Value(data[8..12])
    ensures Next(f, data).1 == data[4 + Value(data[..4])..]
  {
    SpanOfScan<V>(f, data[12..], Value(data[4..8]), [], false);
    var n := Span(data[12..], Value(data[4..8]));
    assert data[12..][n..] == data[12 + n..];
  }

  /** Whatever is accepted is an intact record: its length and its checksum are those of its body. */
  lemma AcceptedIsIntact<V>(f: Format<V>, data: seq<byte>) returns (body: seq<byte>)
    requires Next(f, data).0.Entries?
    ensures |body| <= 255 * 65535
    ensures |data| >= 12 && data == Record(body, Value(data[4..8]), f.crc(body)) + Next(f, data).1
  {
    AcceptedParts(f, data);
    var n := 4 + Value(data[..4]);
    body := data[12..n];
    FieldIs(data[..4], 4);
    FieldIs(data[4..8], 4);
    FieldIs(data[8..12], 4);
    PartsOf(data, n);
  }

  // ----- odd entries

  /** An entry of a kind from 7 on is skipped. */
  lemma UnknownKind<V>(f: Format<V>, data: seq<byte>, ops: nat, entries: seq<V>, was: bool, n: nat)
    requires ops > 0 && EntryInFront(data, n) && Value(data[..2]) >= 7
    ensures Scan(f, data, ops, entries, was) == Scan(f, data[n..], ops - 1, entries, false)
  {
  }

  /** An entry of a known kind is added if it decodes, dropped if its payload ends early, and fatal if garbled. */
  lemma KnownKind<V>(f: Format<V>, data: seq<byte>, ops: nat, entries: seq<V>, was: bool, n: nat)
    requires ops > 0 && EntryInFront(data, n) && Value(data[..2]) < 7
    ensures match f.unmarshal(Value(data[..2]), data[4..n])
            case Parsed(v) => Scan(f, data, ops, entries, was) == Scan(f, data[n..], ops - 1, entries + [v], false)
            case EndsEarly => Scan(f, data, ops, entries, was) == Scan(f, data[n..], ops - 1, entries, true)
            case Garbled => Scan(f, data, ops, entries, was) == Bad(data[n..])
  {
  }

  /** After the entries: an early end of the last, bytes left over, a wrong checksum, in this order. */
  lemma ChecksInOrder<V>(f: Format<V>, data: seq<byte>, rest: seq<byte>, entries: seq<V>, early: bool)
    requires |data| >= 12 && 8 <= Value(data[..4]) <= 8 + 255 * 65535
    requires Scan(f, data[12..], Value(data[4..8]), [], false) == Scanned(rest, entries, early)
    ensures var length := Value(data[..4]) - 8;
            Next(f, data).0 == if early then UnexpectedEnd
                               else if |data| - 12 - |rest| != length then RemainingBytes
                               else if f.crc(data[12..][..length]) != Value(data[8..12]) then ChecksumMismatch
                               else Entries(entries)
  {
    SpanOfScan<V>(f, data[12..], Value(data[4..8]), [], false);
    var n := 4 + Value(data[..4]);
    if n <= |data| {
      assert data[12..n] == data[12..][..n - 12];
    }
  }

  /** Before them: the end of the file within the length, an impossible length, a record too big. */
  lemma HeaderChecks<V>(f: Format<V>, data: seq<byte>)
    ensures |data| < 4 ==> Next(f, data) == (EndOfFile, [])
    ensures |data| >= 4 && Value(data[..4]) < 8 ==> Next(f, data) == (UnexpectedEnd, data[4..])
    ensures |data| >= 4 && Value(data[..4]) > 8 + 255 * 65535 ==> Next(f, data) == (RecordTooBig, data[4..])
    ensures 4 <= |data| < 12 && 8 <= Value(data[..4]) <= 8 + 255 * 65535 ==> Next(f, data) == (UnexpectedEnd, [])
  {
  }

  /** A transaction of exactly the greatest size is read back, and one of a byte more is not. */
  lemma BoundIsTight<V(!new)>(f: Format<V>, tx: seq<V>, more: seq<byte>)
    requires Faithful(f) && Committable(f, tx)
    ensures |Body(f, tx)| <= 16711425 ==> Next(f, Committed(f, tx) + more) == (Entries(tx), more)
    ensures |Body(f, tx)| >= 16711426 ==> Next(f, Committed(f, tx) + more).0 == RecordTooBig
  {
    WholeRecord(f, tx, more);
  }
}

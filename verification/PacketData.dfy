/** A buffer that voice packets are written to and read from; running over its end is noted and never forgotten. */
module PacketData {
  import opened Prelude
  import opened Varint

  // ----- the buffer as a value

  datatype View = View(data: seq<bv8>, offset: nat, overshoot: nat, ok: bool)

  predicate Inside(v: View) {
    v.offset <= |v.data|
  }

  /** How many of n bytes find room. */
  function Room(v: View, n: nat): (r: nat)
    requires Inside(v)
    ensures r <= n && v.offset + r <= |v.data|
    ensures r == n || v.offset + r == |v.data|
  {
    if v.offset + n <= |v.data| then n else |v.data| - v.offset
  }

  /** Some bytes overwrite those from a position on. */
  function Patched(data: seq<bv8>, p: nat, bytes: seq<bv8>): (r: seq<bv8>)
    requires p + |bytes| <= |data|
    ensures |r| == |data|
  {
    data[..p] + bytes + data[p + |bytes|..]
  }

  /** Bytes put one by one: they are stored while there is room, and counted after that. */
  function Kept(v: View, bytes: seq<bv8>, fit: bool): (r: View)
    requires Inside(v)
    ensures Inside(r) && |r.data| == |v.data|
  {
    var n := Room(v, |bytes|);
    View(Patched(v.data, v.offset, bytes[..n]), v.offset + n, v.overshoot + |bytes| - n, v.ok && fit && n == |bytes|)
  }

  /** Numbers handed on one by one as bytes; one that does not fit a byte is dropped. */
  function Stored(v: View, vals: seq<bv64>): (r: View)
    requires Inside(v)
    ensures Inside(r) && |r.data| == |v.data|
  {
    Kept(v, Bytes(vals), AllFit(vals))
  }

  lemma StoredNothing(v: View)
    requires Inside(v)
    ensures Stored(v, []) == v
  {
    assert Patched(v.data, v.offset, []) == v.data;
  }

  lemma PatchedTwice(data: seq<bv8>, p: nat, a: seq<bv8>, b: seq<bv8>)
    requires p + |a| + |b| <= |data|
    ensures Patched(Patched(data, p, a), p + |a|, b) == Patched(data, p, a + b)
  {
  }

  lemma FitTogether(a: seq<bv64>, b: seq<bv64>)
    ensures AllFit(a + b) == (AllFit(a) && AllFit(b))
  {
    if AllFit(a + b) {
      assert forall i :: 0 <= i < |a| ==> a[i] == (a + b)[i];
      assert forall i :: 0 <= i < |b| ==> b[i] == (a + b)[|a| + i];
    }
  }

  lemma KeptConcat(v: View, x: seq<bv8>, y: seq<bv8>, f: bool, g: bool)
    requires Inside(v)
    ensures Kept(Kept(v, x, f), y, g) == Kept(v, x + y, f && g)
  {
    var n := Room(v, |x|);
    var m := Room(Kept(v, x, f), |y|);
    assert Room(v, |x + y|) == n + m;
    assert (x + y)[..n + m] == x[..n] + y[..m];
    PatchedTwice(v.data, v.offset, x[..n], y[..m]);
  }

  /** Storing in two goes is storing in one. */
  lemma StoredConcat(v: View, a: seq<bv64>, b: seq<bv64>)
    requires Inside(v)
    ensures Stored(Stored(v, a), b) == Stored(v, a + b)
  {
    BytesConcat(a, b);
    FitTogether(a, b);
    KeptConcat(v, Bytes(a), Bytes(b), AllFit(a), AllFit(b));
  }

  lemma OneFits(vals: seq<bv64>)
    requires |vals| == 1
    ensures AllFit(vals) == (vals[0] <= 0xff)
  {
  }

  lemma OneByte(vals: seq<bv64>)
    requires |vals| == 1
    ensures Bytes(vals) == if vals[0] <= 0xff then [Low(vals[0])] else []
  {
    var front := vals[..|vals| - 1];
    assert front == [] && Bytes(front) == [];
  }

  /** One number. */
  lemma StoredOne(v: View, val: bv64)
    requires Inside(v)
    ensures Stored(v, [val]) ==
              if val > 0xff then v.(ok := false)
              else if v.offset < |v.data| then v.(data := v.data[v.offset := Low(val)], offset := v.offset + 1)
              else v.(ok := false, overshoot := v.overshoot + 1)
  {
    var vals := [val];
    OneFits(vals);
    OneByte(vals);
    KeptOne(v, Bytes(vals), AllFit(vals));
  }

  lemma KeptOne(v: View, bytes: seq<bv8>, fit: bool)
    requires Inside(v) && |bytes| <= 1
    ensures Kept(v, bytes, fit) ==
              if bytes == [] then v.(ok := v.ok && fit)
              else if v.offset < |v.data|
              then v.(data := v.data[v.offset := bytes[0]], offset := v.offset + 1, ok := v.ok && fit)
              else v.(ok := false, overshoot := v.overshoot + 1)
  {
    var n := Room(v, |bytes|);
    if n == 0 {
      assert bytes[..n] == [] && Patched(v.data, v.offset, []) == v.data;
    } else {
      assert bytes[..n] == bytes && Patched(v.data, v.offset, bytes) == v.data[v.offset := bytes[0]];
    }
  }

  function Advanced(v: View, r: Reading): View {
    v.(offset := r.end, ok := v.ok && r.ok)
  }

  function Skipped(v: View, n: nat): View {
    if v.offset + n <= |v.data| then v.(offset := v.offset + n) else v.(ok := false)
  }

  function Filled(v: View, src: seq<bv8>): (r: View)
    requires Inside(v)
  {
    if v.offset + |src| <= |v.data|
    then v.(data := Patched(v.data, v.offset, src), offset := v.offset + |src|)
    else v.(ok := false, overshoot := v.overshoot + v.offset + |src| - |v.data|)
  }

  /** Bytes are put all or not at all; those put stand from the old offset on. */
  lemma FilledExact(v: View, src: seq<bv8>)
    requires Inside(v)
    ensures var r, end := Filled(v, src), v.offset + |src|;
            if end <= |v.data| then
              && r.data[v.offset..end] == src && r.data[..v.offset] == v.data[..v.offset]
              && r.data[end..] == v.data[end..] && |r.data| == |v.data|
              && r.offset == end && r.ok == v.ok && r.overshoot == v.overshoot
            else r == v.(ok := false, overshoot := v.overshoot + (end - |v.data|))
  {
  }

  /** What is written when there is room: all of it, and validity is lost only to a number that fits no byte. */
  lemma KeptInRoom(v: View, bytes: seq<bv8>, fit: bool)
    requires Inside(v) && v.offset + |bytes| <= |v.data|
    ensures var r, end := Kept(v, bytes, fit), v.offset + |bytes|;
            && r.data[v.offset..end] == bytes && r.data[..v.offset] == v.data[..v.offset]
            && r.data[end..] == v.data[end..] && |r.data| == |v.data|
            && r.offset == end && r.ok == (v.ok && fit) && r.overshoot == v.overshoot
  {
    assert bytes[..|bytes|] == bytes;
  }

  /** What is written when room runs out: the bytes that fit, the others being counted. */
  lemma KeptShort(v: View, bytes: seq<bv8>, fit: bool)
    requires Inside(v) && v.offset + |bytes| > |v.data|
    ensures var room := |v.data| - v.offset;
            var kept := v.data[..v.offset] + bytes[..room];
            Kept(v, bytes, fit) == View(kept, |v.data|, v.overshoot + |bytes| - room, false)
  {
    var room := |v.data| - v.offset;
    assert v.data[v.offset + room..] == [];
    assert Patched(v.data, v.offset, bytes[..room]) == v.data[..v.offset] + bytes[..room];
  }

  // ----- whole runs

  datatype Op = PutVarint(v: bv64) | GetVarint | GetByte | Skip(n: nat) | PutBytes(src: seq<bv8>) | CopyBytes(n: nat)

  function Step(v: View, op: Op): (r: View)
    requires Inside(v)
    ensures Inside(r) && |r.data| == |v.data|
    ensures r.ok ==> v.ok
  {
    match op
    case PutVarint(x) => Stored(v, Emitted(x))
    case GetVarint => Advanced(v, Read(v.data, v.offset))
    case GetByte => if v.offset < |v.data| then v.(offset := v.offset + 1) else v.(ok := false)
    case Skip(n) => Skipped(v, n)
    case PutBytes(src) => Filled(v, src)
    case CopyBytes(n) => if v.offset + n <= |v.data| then v else v.(ok := false)
  }

  function Run(v: View, ops: seq<Op>): (r: View)
    requires Inside(v)
    ensures Inside(r) && |r.data| == |v.data|
  {
    if ops == [] then v else Step(Run(v, ops[..|ops| - 1]), ops[|ops| - 1])
  }

  /** In any run a buffer once found too short stays marked so. */
  lemma {:induction false} NeverRegained(v: View, ops: seq<Op>, k: nat)
    requires Inside(v) && k <= |ops| && !Run(v, ops[..k]).ok
    ensures !Run(v, ops).ok
    decreases |ops|
  {
    if k == |ops| {
      assert ops[..k] == ops;
    } else {
      assert ops[..|ops| - 1][..k] == ops[..k];
      NeverRegained(v, ops[..|ops| - 1], k);
    }
  }

  /** The steps that read: they leave the data alone, and move only within it. */
  lemma ReadingSteps(v: View, n: nat)
    requires Inside(v)
    ensures Step(v, GetByte) == if v.offset < |v.data| then v.(offset := v.offset + 1) else v.(ok := false)
    ensures Step(v, Skip(n)) == if n <= |v.data| - v.offset then v.(offset := v.offset + n) else v.(ok := false)
    ensures Step(v, CopyBytes(n)) == if n <= |v.data| - v.offset then v else v.(ok := false)
    ensures Step(v, GetVarint) == v.(offset := Read(v.data, v.offset).end, ok := v.ok && Read(v.data, v.offset).ok)
  {
  }

  function Puts(vs: seq<bv64>): (r: seq<Op>)
    ensures |r| == |vs|
  {
    if vs == [] then [] else Puts(vs[..|vs| - 1]) + [PutVarint(vs[|vs| - 1])]
  }

  function EmittedAll(vs: seq<bv64>): seq<bv64> {
    if vs == [] then [] else EmittedAll(vs[..|vs| - 1]) + Emitted(vs[|vs| - 1])
  }

  lemma {:induction false} PutsStore(v: View, vs: seq<bv64>)
    requires Inside(v)
    ensures Run(v, Puts(vs)) == Stored(v, EmittedAll(vs))
    decreases |vs|
  {
    if vs == [] {
      StoredNothing(v);
    } else {
      var front, last := vs[..|vs| - 1], vs[|vs| - 1];
      PutsStore(v, front);
      assert Puts(vs)[..|vs| - 1] == Puts(front);
      StoredConcat(v, EmittedAll(front), Emitted(last));
    }
  }

  lemma {:induction false} EmittedWritten(vs: seq<bv64>)
    ensures Bytes(EmittedAll(vs)) == WriteAll(Written, vs)
    ensures (forall i :: 0 <= i < |vs| ==> Good(vs[i])) ==> AllFit(EmittedAll(vs))
  {
    if vs != [] {
      var front, last := vs[..|vs| - 1], vs[|vs| - 1];
      EmittedWritten(front);
      BytesConcat(EmittedAll(front), Emitted(last));
      FitTogether(EmittedAll(front), Emitted(last));
      if Good(last) {
        GoodFits(last);
      }
    }
  }

  lemma KeptWhole(v: View, bytes: seq<bv8>)
    requires Inside(v) && v.offset + |bytes| <= |v.data|
    ensures var after := Kept(v, bytes, true);
            && after.ok == v.ok && after.overshoot == v.overshoot && after.offset == v.offset + |bytes|
            && after.data == v.data[..v.offset] + bytes + v.data[v.offset + |bytes|..]
  {
    assert bytes[..|bytes|] == bytes;
  }

  lemma PutsKeep(v: View, vs: seq<bv64>)
    requires Inside(v) && forall i :: 0 <= i < |vs| ==> Good(vs[i])
    ensures Run(v, Puts(vs)) == Kept(v, WriteAll(Written, vs), true)
  {
    PutsStore(v, vs);
    EmittedWritten(vs);
  }

  /** The buffer went from one state to another, nothing lost, and reading from where it was gives the values. */
  ghost predicate Holds(read: Reader, write: Writer, v: View, after: View, vs: seq<bv64>) {
    && after.ok == v.ok && after.overshoot == v.overshoot
    && after.offset == v.offset + |WriteAll(write, vs)|
    && ReadsAs(read, after.data, v.offset, vs, after.offset)
  }

  lemma KeptHolds(read: Reader, write: Writer, v: View, vs: seq<bv64>, bytes: seq<bv8>)
    requires BringsAllBack(read, write, vs) && bytes == WriteAll(write, vs)
    requires Inside(v) && v.offset + |bytes| <= |v.data|
    ensures Holds(read, write, v, Kept(v, bytes, true), vs)
  {
    KeptWhole(v, bytes);
    var prefix, rest := v.data[..v.offset], v.data[v.offset + |bytes|..];
    assert ReadsAs(read, prefix + WriteAll(write, vs) + rest, |prefix|, vs, |prefix| + |WriteAll(write, vs)|);
  }

  /**
    Good values put into a buffer with room for them leave it sound, and reading from where they began gives
    them back in order, using exactly the bytes written.
   */
  lemma BufferRoundTrip(v: View, vs: seq<bv64>)
    requires Inside(v) && v.offset + |WriteAll(Written, vs)| <= |v.data|
    requires forall i :: 0 <= i < |vs| ==> Good(vs[i])
    ensures Holds(ReadAt, Written, v, Run(v, Puts(vs)), vs)
  {
    PutsKeep(v, vs);
    ListRoundTrip(vs);
    KeptHolds(ReadAt, Written, v, vs, WriteAll(Written, vs));
  }
}

/** Integers of 64 bits in as few bytes as their size asks for: what is written, and what reading makes of any bytes. */
module Varint {

  function Not(v: bv64): bv64 {
    !v
  }

  /** A byte more behind the high bits. */
  function Join(high: bv64, b: bv64): bv64 {
    (high << 8) | b
  }

  /** A byte less. */
  function Down(i: bv64): bv64 {
    i >> 8
  }

  // ----- writing

  /** The complement is written when a value is negative and short. */
  predicate Signed(v: bv64) {
    v & 0x8000_0000_0000_0000 != 0 && !v < 0x1_0000_0000
  }

  function Magnitude(v: bv64): bv64 {
    if Signed(v) then Not(v) else v
  }

  function Mark(v: bv64): seq<bv64> {
    if !Signed(v) then [] else if Not(v) <= 3 then [0xfc | Not(v)] else [0xf8]
  }

  /** The numbers handed on as bytes, most significant first; one above 0xff is refused. */
  function Digits(i: bv64): seq<bv64> {
    if i < 0x80 then [i]
    else if i < 0x4000 then [(i >> 8) | 0x80, i & 0xff]
    else if i < 0x1000_0000 then [(i >> 16) | 0xc0, (i >> 8) & 0xff, i & 0xff]
    else if i < 0x1_0000_0000 then [0xf0, (i >> 24) & 0xff, (i >> 16) & 0xff, (i >> 8) & 0xff, i & 0xff]
    else
      [0xf4, (i >> 56) & 0xff, (i >> 48) & 0xff, (i >> 40) & 0xff, (i >> 32) & 0xff,
       (i >> 24) & 0xff, (i >> 16) & 0xff, (i >> 8) & 0xff, i & 0xff]
  }

  function Emitted(v: bv64): seq<bv64> {
    Mark(v) + Digits(Magnitude(v))
  }

  predicate AllFit(vals: seq<bv64>) {
    forall i :: 0 <= i < |vals| ==> vals[i] <= 0xff
  }

  function Low(v: bv64): bv8
    requires v <= 0xff
  {
    v as bv8
  }

  function ByteOf(v: bv64): (r: seq<bv8>)
    ensures |r| <= 1
  {
    if v <= 0xff then [Low(v)] else []
  }

  /** The bytes that come of a sequence of numbers, without those refused. */
  function Bytes(vals: seq<bv64>): (r: seq<bv8>)
    ensures |r| <= |vals|
  {
    if vals == [] then []
    else
      Bytes(vals[..|vals| - 1]) + ByteOf(vals[|vals| - 1])
  }

  lemma {:induction false} BytesAt(vals: seq<bv64>)
    requires AllFit(vals)
    ensures |Bytes(vals)| == |vals|
    ensures forall i :: 0 <= i < |vals| ==> Bytes(vals)[i] as bv64 == vals[i]
  {
    if vals != [] {
      BytesAt(vals[..|vals| - 1]);
      Widened(vals[|vals| - 1]);
    }
  }

  lemma BytesSnoc(vals: seq<bv64>, v: bv64)
    ensures Bytes(vals + [v]) == Bytes(vals) + ByteOf(v)
  {
    assert (vals + [v])[..|vals + [v]| - 1] == vals;
  }

  lemma {:induction false} BytesConcat(a: seq<bv64>, b: seq<bv64>)
    ensures Bytes(a + b) == Bytes(a) + Bytes(b)
    decreases |b|
  {
    if b == [] {
      assert a + b == a;
    } else {
      var front, v := b[..|b| - 1], b[|b| - 1];
      BytesConcat(a, front);
      BytesSnoc(a + front, v);
      LastApart(a, b);
    }
  }

  lemma LastApart<T>(a: seq<T>, b: seq<T>)
    requires b != []
    ensures a + b == a + b[..|b| - 1] + [b[|b| - 1]]
  {
  }

  lemma Widened(v: bv64)
    requires v <= 0xff
    ensures Low(v) as bv64 == v
  {
  }

  // ----- reading

  /** A value read, where reading went on to, and whether the bytes sufficed. */
  datatype Reading = Reading(value: bv64, end: nat, ok: bool)

  /** The byte at a position; beyond the end, zero. */
  function At(s: seq<bv8>, p: nat): bv64 {
    if p < |s| then s[p] as bv64 else 0
  }

  /** The next n bytes as a number, most significant first, after the high bits given. */
  function Big(high: bv64, s: seq<bv8>, p: nat, n: nat): bv64 {
    if n == 0 then high else Join(Big(high, s, p, n - 1), At(s, p + n - 1))
  }

  function Tail(high: bv64, s: seq<bv8>, p: nat, n: nat): Reading {
    Reading(Big(high, s, p, n), if p + n <= |s| then p + n else |s|, p + n <= |s|)
  }

  /** What a first byte says: n more bytes after some high bits, the complement of what follows, or a value of its own. */
  datatype Form = Number(high: bv64, n: nat) | Complement | Value(value: bv64)

  function FormOf(v: bv64): Form {
    if v & 0x80 == 0 then Number(v & 0x7f, 0)
    else if v & 0xc0 == 0x80 then Number(v & 0x3f, 1)
    else if v & 0xf0 == 0xf0 then
      if v & 0xfc == 0xf0 then Number(0, 4)
      else if v & 0xfc == 0xf4 then Number(0, 8)
      else if v & 0xfc == 0xf8 then Complement
      else Value(Not(v & 3))
    else if v & 0xf0 == 0xe0 then Number(v & 0xf, 3)
    else Number(v & 0x1f, 2)
  }

  /** Reads one integer from any bytes; the complement mark may repeat. */
  function Read(s: seq<bv8>, p: nat): (r: Reading)
    requires p <= |s|
    ensures p <= r.end <= |s|
    ensures r.ok ==> p < r.end
    decreases |s| - p, 1
  {
    if p == |s| then Reading(0, p, false) else ReadOn(FormOf(At(s, p)), s, p + 1)
  }

  function ReadOn(f: Form, s: seq<bv8>, p: nat): (r: Reading)
    requires p <= |s|
    ensures p <= r.end <= |s|
    decreases |s| - p, 2
  {
    match f
    case Number(high, n) => Tail(high, s, p, n)
    case Complement => var r := Read(s, p); r.(value := Not(r.value))
    case Value(v) => Reading(v, p, true)
  }

  // ----- the round trip

  /** The values the writer has a form for: not -1 to -4, and no magnitude the three-byte form is too short for. */
  predicate Good(v: bv64) {
    && !(0x20_0000 <= Magnitude(v) < 0x1000_0000)
    && !(Signed(v) && Not(v) <= 3)
  }

  /** Within three bytes. */
  predicate Narrow(v: bv64) {
    v < 0x20_0000 || !v < 0x20_0000
  }

  ghost predicate FormFits(f: Form) {
    match f
    case Number(high, n) => (n == 0 ==> high < 0x80) && (n == 1 ==> high < 0x40) && (n == 2 ==> high < 0x20)
    case Complement => true
    case Value(v) => Narrow(v)
  }

  lemma FormsFit(v: bv64)
    ensures FormFits(FormOf(v))
  {
    assert v & 0x7f < 0x80 && v & 0x3f < 0x40 && v & 0x1f < 0x20;
    assert !!(v & 3) < 0x20_0000;
  }

  lemma OneMoreByte(high: bv64, b: bv64)
    requires high < 0x40 && b <= 0xff
    ensures Narrow(Join(high, b))
  {
  }

  lemma TwoMoreBytes(high: bv64, b: bv64, c: bv64)
    requires high < 0x20 && b <= 0xff && c <= 0xff
    ensures Narrow(Join(Join(high, b), c))
  {
  }

  lemma Turned(v: bv64)
    requires Narrow(v)
    ensures Narrow(Not(v))
  {
    assert !!v == v;
  }

  lemma AtBound(s: seq<bv8>, p: nat)
    ensures At(s, p) <= 0xff
  {
  }

  lemma BigOne(high: bv64, s: seq<bv8>, p: nat)
    ensures Big(high, s, p, 1) == Join(high, At(s, p))
  {
  }

  lemma BigTwo(high: bv64, s: seq<bv8>, p: nat)
    ensures Big(high, s, p, 2) == Join(Join(high, At(s, p)), At(s, p + 1))
  {
    BigOne(high, s, p);
  }

  lemma ShortTail(high: bv64, s: seq<bv8>, p: nat, n: nat)
    requires FormFits(Number(high, n)) && n <= 2
    ensures Narrow(Big(high, s, p, n))
  {
    if n == 1 {
      BigOne(high, s, p);
      AtBound(s, p);
      OneMoreByte(high, At(s, p));
    } else if n == 2 {
      BigTwo(high, s, p);
      AtBound(s, p);
      AtBound(s, p + 1);
      TwoMoreBytes(high, At(s, p), At(s, p + 1));
    }
  }

  /** Nothing read from three bytes or fewer has such a magnitude, whatever the bytes. */
  lemma {:induction false} ShortReads(s: seq<bv8>, p: nat)
    requires p <= |s|
    requires Read(s, p).ok && Read(s, p).end <= p + 3
    ensures Narrow(Read(s, p).value)
    decreases |s| - p, 1
  {
    FormsFit(At(s, p));
    ShortReadsOn(FormOf(At(s, p)), s, p + 1);
  }

  lemma {:induction false} ShortReadsOn(f: Form, s: seq<bv8>, p: nat)
    requires p <= |s| && FormFits(f)
    requires ReadOn(f, s, p).ok && ReadOn(f, s, p).end <= p + 2
    ensures Narrow(ReadOn(f, s, p).value)
    decreases |s| - p, 2
  {
    match f
    case Number(high, n) => ShortTail(high, s, p, n);
    case Complement =>
      ShortReads(s, p);
      Turned(Read(s, p).value);
    case Value(v) =>
  }

  // ----- spelling

  function Shifted(i: bv64, n: nat): bv64 {
    if n == 0 then i else Shifted(Down(i), n - 1)
  }

  /** The n bytes at p are the low ones of a number. */
  predicate Spells(s: seq<bv8>, p: nat, n: nat, i: bv64) {
    n == 0 || (At(s, p + n - 1) == i & 0xff && Spells(s, p, n - 1, Down(i)))
  }

  lemma Rejoined(i: bv64)
    ensures Join(Down(i), i & 0xff) == i
  {
  }

  /** Reading the low bytes of a number after its high bits gives the number. */
  lemma {:induction false} BigSpelled(s: seq<bv8>, p: nat, n: nat, i: bv64)
    requires Spells(s, p, n, i)
    ensures Big(Shifted(i, n), s, p, n) == i
    decreases n
  {
    if n > 0 {
      BigSpelled(s, p, n - 1, Down(i));
      Rejoined(i);
    }
  }

  /** The numbers stand in the bytes from p on. */
  ghost predicate Stands(s: seq<bv8>, p: nat, vals: seq<bv64>) {
    p + |vals| <= |s| && forall k :: 0 <= k < |vals| ==> At(s, p + k) == vals[k]
  }

  lemma ShiftsCompose(i: bv64)
    ensures Down(i) == i >> 8 && Down(i >> 8) == i >> 16 && Down(i >> 16) == i >> 24 && Down(i >> 24) == i >> 32
    ensures i < 0x1_0000_0000 ==> i >> 32 == 0
  {
  }

  /** Four bytes more. */
  lemma SpellsFour(s: seq<bv8>, p: nat, n: nat, i: bv64)
    requires Spells(s, p, n, i >> 32)
    requires At(s, p + n) == (i >> 24) & 0xff && At(s, p + n + 1) == (i >> 16) & 0xff
    requires At(s, p + n + 2) == (i >> 8) & 0xff && At(s, p + n + 3) == i & 0xff
    ensures Spells(s, p, n + 4, i) && Shifted(i, n + 4) == Shifted(i >> 32, n)
  {
    ShiftsCompose(i);
    var x, y, z := i >> 8, i >> 16, i >> 24;
    assert Spells(s, p, n + 1, z) && Spells(s, p, n + 2, y) && Spells(s, p, n + 3, x);
    assert Shifted(z, n + 1) == Shifted(i >> 32, n) && Shifted(y, n + 2) == Shifted(z, n + 1);
  }

  lemma Forms(i: bv64)
    ensures i < 0x80 ==> FormOf(i) == Number(i, 0)
    ensures i < 0x4000 ==> FormOf((i >> 8) | 0x80) == Number(i >> 8, 1)
    ensures i < 0x20_0000 ==> FormOf((i >> 16) | 0xc0) == Number(i >> 16, 2)
    ensures FormOf(0xf0) == Number(0, 4) && FormOf(0xf4) == Number(0, 8) && FormOf(0xf8) == Complement
    ensures i <= 3 ==> FormOf(0xfc | i) == Value(Not(i))
  {
  }

  lemma HighBytes(i: bv64)
    ensures (i >> 32 >> 24) & 0xff == (i >> 56) & 0xff && (i >> 32 >> 16) & 0xff == (i >> 48) & 0xff
    ensures (i >> 32 >> 8) & 0xff == (i >> 40) & 0xff && (i >> 32) >> 32 == 0
  {
  }

  /** The digits of a number are read back, if the three-byte form is not too short. */
  lemma ReadDigits(s: seq<bv8>, p: nat, i: bv64)
    requires Stands(s, p, Digits(i)) && !(0x20_0000 <= i < 0x1000_0000)
    ensures Read(s, p) == Reading(i, p + |Digits(i)|, true)
  {
    Forms(i);
    ShiftsCompose(i);
    assert At(s, p) == Digits(i)[0];
    if i < 0x80 {
    } else if i < 0x4000 {
      ReadTwo(s, p, i);
    } else if i < 0x1000_0000 {
      ReadThree(s, p, i);
    } else if i < 0x1_0000_0000 {
      ReadFive(s, p, i);
    } else {
      ReadNine(s, p, i);
    }
  }

  lemma ReadTwo(s: seq<bv8>, p: nat, i: bv64)
    requires Stands(s, p, [(i >> 8) | 0x80, i & 0xff]) && i < 0x4000
    ensures Read(s, p) == Reading(i, p + 2, true)
  {
    var vals := [(i >> 8) | 0x80, i & 0xff];
    assert At(s, p) == vals[0] && At(s, p + 1) == vals[1];
    Forms(i);
    ShiftsCompose(i);
    SpellsOne(s, p + 1, i);
    BigSpelled(s, p + 1, 1, i);
  }

  lemma SpellsOne(s: seq<bv8>, p: nat, x: bv64)
    requires At(s, p) == x & 0xff
    ensures Spells(s, p, 1, x) && Shifted(x, 1) == Down(x)
  {
    var n := 0;
    assert Shifted(Down(x), n) == Down(x) && Spells(s, p, n, Down(x));
    assert Shifted(x, n + 1) == Down(x) && Spells(s, p, n + 1, x);
  }

  lemma SpellsTwo(s: seq<bv8>, p: nat, i: bv64)
    requires At(s, p) == (i >> 8) & 0xff && At(s, p + 1) == i & 0xff
    ensures Spells(s, p, 2, i) && Shifted(i, 2) == i >> 16
  {
    ShiftsCompose(i);
    SpellsOne(s, p, Down(i));
  }

  lemma ReadThree(s: seq<bv8>, p: nat, i: bv64)
    requires Stands(s, p, [(i >> 16) | 0xc0, (i >> 8) & 0xff, i & 0xff]) && i < 0x20_0000
    ensures Read(s, p) == Reading(i, p + 3, true)
  {
    var vals := [(i >> 16) | 0xc0, (i >> 8) & 0xff, i & 0xff];
    assert At(s, p) == vals[0] && At(s, p + 1) == vals[1] && At(s, p + 2) == vals[2];
    Forms(i);
    SpellsTwo(s, p + 1, i);
    BigSpelled(s, p + 1, 2, i);
  }

  lemma ReadFive(s: seq<bv8>, p: nat, i: bv64)
    requires Stands(s, p, [0xf0, (i >> 24) & 0xff, (i >> 16) & 0xff, (i >> 8) & 0xff, i & 0xff])
    requires i < 0x1_0000_0000
    ensures Read(s, p) == Reading(i, p + 5, true)
  {
    var vals := [0xf0, (i >> 24) & 0xff, (i >> 16) & 0xff, (i >> 8) & 0xff, i & 0xff];
    assert At(s, p) == vals[0] && At(s, p + 1) == vals[1] && At(s, p + 2) == vals[2]
        && At(s, p + 3) == vals[3] && At(s, p + 4) == vals[4];
    Forms(i);
    ShiftsCompose(i);
    SpellsFour(s, p + 1, 0, i);
    BigSpelled(s, p + 1, 4, i);
  }

  lemma ReadNine(s: seq<bv8>, p: nat, i: bv64)
    requires Stands(s, p, [0xf4, (i >> 56) & 0xff, (i >> 48) & 0xff, (i >> 40) & 0xff, (i >> 32) & 0xff,
                           (i >> 24) & 0xff, (i >> 16) & 0xff, (i >> 8) & 0xff, i & 0xff])
    ensures Read(s, p) == Reading(i, p + 9, true)
  {
    var vals := [0xf4, (i >> 56) & 0xff, (i >> 48) & 0xff, (i >> 40) & 0xff, (i >> 32) & 0xff,
                 (i >> 24) & 0xff, (i >> 16) & 0xff, (i >> 8) & 0xff, i & 0xff];
    assert At(s, p) == vals[0] && At(s, p + 1) == vals[1] && At(s, p + 2) == vals[2]
        && At(s, p + 3) == vals[3] && At(s, p + 4) == vals[4] && At(s, p + 5) == vals[5]
        && At(s, p + 6) == vals[6] && At(s, p + 7) == vals[7] && At(s, p + 8) == vals[8];
    Forms(i);
    HighBytes(i);
    SpellsFour(s, p + 1, 0, i >> 32);
    SpellsFour(s, p + 1, 4, i);
    BigSpelled(s, p + 1, 8, i);
  }

  // ----- exactly the good values come back

  lemma Complements(v: bv64)
    ensures Not(Not(v)) == v
    ensures Signed(v) ==> !(Not(v) & 0x8000_0000_0000_0000 != 0) && Magnitude(v) < 0x1_0000_0000
    ensures 0x20_0000 <= Magnitude(v) < 0x1000_0000 ==> !Narrow(Magnitude(v))
  {
  }

  lemma StandsRest(s: seq<bv8>, p: nat, a: bv64, vals: seq<bv64>)
    requires Stands(s, p, [a] + vals)
    ensures At(s, p) == a && p < |s| && Stands(s, p + 1, vals)
  {
    assert ([a] + vals)[0] == a;
    assert forall k :: 0 <= k < |vals| ==> ([a] + vals)[k + 1] == vals[k];
    forall k | 0 <= k < |vals| ensures At(s, p + 1 + k) == vals[k] {
      assert At(s, p + (k + 1)) == ([a] + vals)[k + 1];
    }
  }

  lemma ReadUnfolds(s: seq<bv8>, p: nat, f: Form)
    requires p < |s| && FormOf(At(s, p)) == f
    ensures Read(s, p) == ReadOn(f, s, p + 1)
  {
  }

  lemma Negates(s: seq<bv8>, p: nat, r: Reading)
    requires p <= |s| && Read(s, p) == r
    ensures ReadOn(Complement, s, p) == r.(value := Not(r.value))
  {
  }

  lemma MarkedReads(s: seq<bv8>, p: nat, r: Reading)
    requires p < |s| && At(s, p) == 0xf8 && Read(s, p + 1) == r
    ensures Read(s, p) == r.(value := Not(r.value))
  {
    Forms(0);
    ReadUnfolds(s, p, Complement);
    Negates(s, p + 1, r);
  }

  lemma MarkedDigits(s: seq<bv8>, p: nat, m: bv64, digits: seq<bv64>)
    requires digits == Digits(m) && !(0x20_0000 <= m < 0x1000_0000) && Stands(s, p, [0xf8] + digits)
    ensures Read(s, p) == Reading(Not(m), p + 1 + |digits|, true)
  {
    StandsRest(s, p, 0xf8, digits);
    ReadDigits(s, p + 1, m);
    MarkedReads(s, p, Reading(m, p + 1 + |digits|, true));
  }

  lemma GoodReads(s: seq<bv8>, p: nat, v: bv64)
    requires Good(v) && Stands(s, p, Emitted(v))
    ensures Read(s, p) == Reading(v, p + |Emitted(v)|, true)
  {
    if Signed(v) {
      MarkedDigits(s, p, Not(v), Digits(Not(v)));
      Complements(v);
    } else {
      assert Emitted(v) == Digits(v);
      ReadDigits(s, p, v);
    }
  }

  lemma SameComplement(a: bv64, b: bv64)
    requires Not(a) == Not(b)
    ensures a == b
  {
  }

  lemma MarkedGap(s: seq<bv8>, p: nat, m: bv64, r: Reading)
    requires p < |s| && At(s, p) == 0xf8 && !Narrow(m) && Read(s, p + 1) == r
    ensures Read(s, p) != Reading(Not(m), p + 4, true)
  {
    MarkedReads(s, p, r);
    if r.(value := Not(r.value)) == Reading(Not(m), p + 4, true) {
      SameComplement(r.value, m);
      ShortReads(s, p + 1);
    }
  }

  lemma GapReads(s: seq<bv8>, p: nat, v: bv64)
    requires 0x20_0000 <= Magnitude(v) < 0x1000_0000 && Stands(s, p, Emitted(v))
    ensures Read(s, p) != Reading(v, p + |Emitted(v)|, true)
  {
    var m := Magnitude(v);
    var digits := Digits(m);
    Complements(v);
    if Signed(v) {
      StandsRest(s, p, 0xf8, digits);
      MarkedGap(s, p, m, Read(s, p + 1));
    } else if Read(s, p) == Reading(v, p + 3, true) {
      ShortReads(s, p);
    }
  }

  /** After one of -1 to -4 a stray byte is left. */
  lemma StrayByte(s: seq<bv8>, p: nat, v: bv64)
    requires Stands(s, p, Emitted(v)) && Signed(v) && Not(v) <= 3
    ensures Read(s, p) == Reading(v, p + 1, true) && |Emitted(v)| == 2
  {
    assert Emitted(v) == [0xfc | Not(v)] + [Not(v)];
    StandsRest(s, p, 0xfc | Not(v), [Not(v)]);
    Forms(Not(v));
    Complements(v);
  }

  lemma GoodFits(v: bv64)
    requires Good(v)
    ensures AllFit(Emitted(v))
  {
    DigitsFit(Magnitude(v));
    assert forall k :: 0 <= k < |Mark(v)| ==> Mark(v)[k] <= 0xff;
  }

  lemma DigitsFit(i: bv64)
    requires !(0x20_0000 <= i < 0x1000_0000)
    ensures AllFit(Digits(i))
  {
    HeadsFit(i);
    var a, b, c, d := i & 0xff, (i >> 8) & 0xff, (i >> 16) & 0xff, (i >> 24) & 0xff;
    LowByte(i);
    LowByte(i >> 8);
    LowByte(i >> 16);
    LowByte(i >> 24);
    if i < 0x80 {
      assert AllFit([i]);
    } else if i < 0x4000 {
      assert AllFit([(i >> 8) | 0x80, a]);
    } else if i < 0x20_0000 {
      assert AllFit([(i >> 16) | 0xc0, b, a]);
    } else if i < 0x1_0000_0000 {
      assert AllFit([0xf0, d, c, b, a]);
    } else {
      LowByte(i >> 32);
      LowByte(i >> 40);
      LowByte(i >> 48);
      LowByte(i >> 56);
      assert AllFit([0xf4, (i >> 56) & 0xff, (i >> 48) & 0xff, (i >> 40) & 0xff, (i >> 32) & 0xff, d, c, b, a]);
    }
  }

  lemma HeadsFit(i: bv64)
    ensures i < 0x4000 ==> (i >> 8) | 0x80 <= 0xff
    ensures i < 0x20_0000 ==> (i >> 16) | 0xc0 <= 0xff
  {
  }

  lemma LowByte(i: bv64)
    ensures i & 0xff <= 0xff
  {
  }

  lemma BytesStand(prefix: seq<bv8>, vals: seq<bv64>, rest: seq<bv8>)
    requires AllFit(vals)
    ensures |Bytes(vals)| == |vals| && Stands(prefix + Bytes(vals) + rest, |prefix|, vals)
  {
    BytesAt(vals);
    var s := prefix + Bytes(vals) + rest;
    forall k | 0 <= k < |vals| ensures At(s, |prefix| + k) == vals[k] {
      assert s[|prefix| + k] == Bytes(vals)[k];
    }
  }

  /** The value is accepted byte for byte, and read back from among any other bytes, up to where it ends. */
  ghost predicate ComesBack(prefix: seq<bv8>, v: bv64, rest: seq<bv8>) {
    && AllFit(Emitted(v))
    && Read(prefix + Bytes(Emitted(v)) + rest, |prefix|) == Reading(v, |prefix| + |Emitted(v)|, true)
  }

  /** A value comes back exactly when it is good, whatever bytes surround it. */
  lemma ComesBackIffGood(prefix: seq<bv8>, v: bv64, rest: seq<bv8>)
    ensures ComesBack(prefix, v, rest) <==> Good(v)
  {
    if Good(v) {
      GoodFits(v);
    }
    if AllFit(Emitted(v)) {
      var s := prefix + Bytes(Emitted(v)) + rest;
      BytesStand(prefix, Emitted(v), rest);
      if Good(v) {
        GoodReads(s, |prefix|, v);
      } else if 0x20_0000 <= Magnitude(v) < 0x1000_0000 {
        GapReads(s, |prefix|, v);
      } else {
        StrayByte(s, |prefix|, v);
      }
    }
  }

  // ----- lists

  type Writer = bv64 -> seq<bv8>
  type Reader = (seq<bv8>, nat) -> Reading

  function WriteAll(write: Writer, vs: seq<bv64>): seq<bv8> {
    if vs == [] then [] else WriteAll(write, vs[..|vs| - 1]) + write(vs[|vs| - 1])
  }

  /** Reads a number of values in a row; what matters in the end is where it ends, and whether all went well. */
  function ReadAll(read: Reader, s: seq<bv8>, p: nat, n: nat): (r: (seq<bv64>, nat, bool))
    ensures |r.0| == n
  {
    if n == 0 then ([], p, true)
    else
      var (values, end, ok) := ReadAll(read, s, p, n - 1);
      var r := read(s, end);
      (values + [r.value], r.end, ok && r.ok)
  }

  ghost predicate BringsBack(read: Reader, write: Writer, v: bv64) {
    forall prefix, rest ::
      read(prefix + write(v) + rest, |prefix|) == Reading(v, |prefix| + |write(v)|, true)
  }

  /** The values, written back to back among any other bytes, are read back in order and to their last byte. */
  ghost predicate BringsAllBack(read: Reader, write: Writer, vs: seq<bv64>) {
    forall prefix, rest ::
      ReadsAs(read, prefix + WriteAll(write, vs) + rest, |prefix|, vs, |prefix| + |WriteAll(write, vs)|)
  }

  ghost predicate ReadsAs(read: Reader, s: seq<bv8>, p: nat, vs: seq<bv64>, end: nat) {
    ReadAll(read, s, p, |vs|) == (vs, end, true)
  }

  lemma ReadsOneMore(read: Reader, s: seq<bv8>, p: nat, vs: seq<bv64>, mid: nat, v: bv64, end: nat)
    requires ReadsAs(read, s, p, vs, mid) && read(s, mid) == Reading(v, end, true)
    ensures ReadsAs(read, s, p, vs + [v], end)
  {
    assert |vs + [v]| - 1 == |vs|;
  }

  lemma OneMoreComesBack(read: Reader, front: seq<bv64>, v: bv64, prefix: seq<bv8>, bytes: seq<bv8>,
                         more: seq<bv8>, rest: seq<bv8>)
    requires ReadsAs(read, prefix + bytes + (more + rest), |prefix|, front, |prefix| + |bytes|)
    requires read((prefix + bytes) + more + rest, |prefix + bytes|) == Reading(v, |prefix + bytes| + |more|, true)
    ensures ReadsAs(read, prefix + (bytes + more) + rest, |prefix|, front + [v], |prefix| + |bytes + more|)
  {
    var s := prefix + (bytes + more) + rest;
    assert prefix + bytes + (more + rest) == s && (prefix + bytes) + more + rest == s;
    ReadsOneMore(read, s, |prefix|, front, |prefix + bytes|, v, |prefix| + |bytes + more|);
  }

  lemma BroughtBack(read: Reader, write: Writer, v: bv64, prefix: seq<bv8>, rest: seq<bv8>)
    requires BringsBack(read, write, v)
    ensures read(prefix + write(v) + rest, |prefix|) == Reading(v, |prefix| + |write(v)|, true)
  {
  }

  lemma {:induction false} ComesBackIn(read: Reader, write: Writer, vs: seq<bv64>, prefix: seq<bv8>, rest: seq<bv8>)
    requires forall i :: 0 <= i < |vs| ==> BringsBack(read, write, vs[i])
    ensures ReadsAs(read, prefix + WriteAll(write, vs) + rest, |prefix|, vs, |prefix| + |WriteAll(write, vs)|)
    decreases |vs|
  {
    if vs != [] {
      var front, v := vs[..|vs| - 1], vs[|vs| - 1];
      var bytes, more := WriteAll(write, front), write(v);
      ComesBackIn(read, write, front, prefix, more + rest);
      BroughtBack(read, write, v, prefix + bytes, rest);
      OneMoreComesBack(read, front, v, prefix, bytes, more, rest);
      assert front + [v] == vs;
    }
  }

  lemma AllComeBack(read: Reader, write: Writer, vs: seq<bv64>)
    requires forall i :: 0 <= i < |vs| ==> BringsBack(read, write, vs[i])
    ensures BringsAllBack(read, write, vs)
  {
    forall prefix, rest
      ensures ReadsAs(read, prefix + WriteAll(write, vs) + rest, |prefix|, vs, |prefix| + |WriteAll(write, vs)|)
    {
      ComesBackIn(read, write, vs, prefix, rest);
    }
  }

  function Written(v: bv64): seq<bv8> {
    Bytes(Emitted(v))
  }

  function ReadAt(s: seq<bv8>, p: nat): Reading {
    if p <= |s| then Read(s, p) else Reading(0, p, false)
  }

  lemma GoodComesBackAt(prefix: seq<bv8>, v: bv64, rest: seq<bv8>)
    requires Good(v)
    ensures ReadAt(prefix + Written(v) + rest, |prefix|) == Reading(v, |prefix| + |Written(v)|, true)
  {
    ComesBackIffGood(prefix, v, rest);
    BytesAt(Emitted(v));
  }

  lemma GoodComesBack(v: bv64)
    requires Good(v)
    ensures BringsBack(ReadAt, Written, v)
  {
    forall prefix, rest
      ensures ReadAt(prefix + Written(v) + rest, |prefix|) == Reading(v, |prefix| + |Written(v)|, true)
    {
      GoodComesBackAt(prefix, v, rest);
    }
  }

  /** Any list of good values is brought back. */
  lemma ListRoundTrip(vs: seq<bv64>)
    requires forall i :: 0 <= i < |vs| ==> Good(vs[i])
    ensures BringsAllBack(ReadAt, Written, vs)
  {
    forall i | 0 <= i < |vs| ensures BringsBack(ReadAt, Written, vs[i]) {
      GoodComesBack(vs[i]);
    }
    AllComeBack(ReadAt, Written, vs);
  }
}

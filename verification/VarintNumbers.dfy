/** The bytes of a varint in plain arithmetic: what is written for a value, and what any bytes read as. */
module VarintNumbers {
  import opened Varint

  // ----- reading

  /** The first byte: how many bytes follow, and its own part of the number. */
  lemma FirstByte(v: bv64)
    requires v <= 0xff
    ensures v < 0x80 ==> FormOf(v) == Number(v, 0)
    ensures 0x80 <= v < 0xc0 ==> FormOf(v) == Number(v - 0x80, 1)
    ensures 0xc0 <= v < 0xe0 ==> FormOf(v) == Number(v - 0xc0, 2)
    ensures 0xe0 <= v < 0xf0 ==> FormOf(v) == Number(v - 0xe0, 3)
    ensures 0xf0 <= v < 0xf4 ==> FormOf(v) == Number(0, 4)
    ensures 0xf4 <= v < 0xf8 ==> FormOf(v) == Number(0, 8)
    ensures 0xf8 <= v < 0xfc ==> FormOf(v) == Complement
    ensures 0xfc <= v ==> FormOf(v) == Value(0xffff_ffff_ffff_ffff - (v - 0xfc))
  {
  }

  /** A byte more, behind a number of at most seven bytes. */
  lemma JoinIs(high: bv64, b: bv64)
    requires high < 0x100_0000_0000_0000 && b <= 0xff
    ensures Join(high, b) == high * 0x100 + b
  {
  }

  /** The complement is what is missing to the greatest value. */
  lemma NotIs(v: bv64)
    ensures Not(v) == 0xffff_ffff_ffff_ffff - v
  {
  }

  function Ends(s: seq<bv8>, p: nat): (nat, bool) {
    if p <= |s| then (p, true) else (|s|, false)
  }

  lemma BigSteps(high: bv64, s: seq<bv8>, p: nat, n: nat)
    ensures Big(high, s, p, 0) == high && Big(high, s, p, n + 1) == Join(Big(high, s, p, n), At(s, p + n))
  {
  }

  /** What a number with its high part and n bytes reads as, where reading ends, and whether the bytes sufficed. */
  lemma NumberReads(s: seq<bv8>, p: nat, high: bv64, n: nat)
    requires p < |s| && FormOf(At(s, p)) == Number(high, n)
    ensures Read(s, p) == Reading(Big(high, s, p + 1, n), Ends(s, p + 1 + n).0, Ends(s, p + 1 + n).1)
  {
    ReadUnfolds(s, p, Number(high, n));
  }

  lemma OneByteForm(s: seq<bv8>, p: nat)
    requires p < |s| && At(s, p) < 0x80
    ensures Read(s, p) == Reading(At(s, p), p + 1, true)
  {
    FirstByte(At(s, p));
    NumberReads(s, p, At(s, p), 0);
  }

  lemma TwoByteForm(s: seq<bv8>, p: nat)
    requires p < |s| && 0x80 <= At(s, p) < 0xc0
    ensures Read(s, p) == Reading((At(s, p) - 0x80) * 0x100 + At(s, p + 1), Ends(s, p + 2).0, Ends(s, p + 2).1)
  {
    var h, a := At(s, p) - 0x80, At(s, p + 1);
    AtBound(s, p + 1);
    FirstByte(At(s, p));
    NumberReads(s, p, h, 1);
    BigSteps(h, s, p + 1, 0);
    JoinIs(h, a);
  }

  lemma ThreeByteForm(s: seq<bv8>, p: nat)
    requires p < |s| && 0xc0 <= At(s, p) < 0xe0
    ensures var h, a, b := At(s, p) - 0xc0, At(s, p + 1), At(s, p + 2);
            Read(s, p) == Reading((h * 0x100 + a) * 0x100 + b, Ends(s, p + 3).0, Ends(s, p + 3).1)
  {
    var h, a, b := At(s, p) - 0xc0, At(s, p + 1), At(s, p + 2);
    AtBound(s, p + 1);
    AtBound(s, p + 2);
    FirstByte(At(s, p));
    NumberReads(s, p, h, 2);
    BigSteps(h, s, p + 1, 0);
    BigSteps(h, s, p + 1, 1);
    TwoJoins(h, a, b);
  }

  /** The four values that the first byte alone stands for: -1 to -4. */
  lemma ValueForm(s: seq<bv8>, p: nat)
    requires p < |s| && 0xfc <= At(s, p)
    ensures Read(s, p) == Reading(0xffff_ffff_ffff_ffff - (At(s, p) - 0xfc), p + 1, true)
  {
    AtBound(s, p);
    FirstByte(At(s, p));
    ReadUnfolds(s, p, Value(0xffff_ffff_ffff_ffff - (At(s, p) - 0xfc)));
  }

  lemma TwoJoins(h: bv64, a: bv64, b: bv64)
    requires h <= 0xff && a <= 0xff && b <= 0xff
    ensures Join(Join(h, a), b) == (h * 0x100 + a) * 0x100 + b
    ensures Join(Join(h, a), b) <= 0xff_ffff
  {
    JoinIs(h, a);
    JoinBound(h, a, b);
    JoinIs(Join(h, a), b);
  }

  lemma JoinBound(h: bv64, a: bv64, b: bv64)
    requires h <= 0xff && a <= 0xff && b <= 0xff
    ensures Join(h, a) <= 0xffff && Join(Join(h, a), b) <= 0xff_ffff
  {
  }

  lemma ThreeJoins(h: bv64, a: bv64, b: bv64, c: bv64)
    requires h <= 0xff && a <= 0xff && b <= 0xff && c <= 0xff
    ensures Join(Join(Join(h, a), b), c) == ((h * 0x100 + a) * 0x100 + b) * 0x100 + c
  {
    TwoJoins(h, a, b);
    JoinIs(Join(Join(h, a), b), c);
  }

  /** The form with three bytes behind its first, which is read though never written. */
  lemma FourByteForm(s: seq<bv8>, p: nat)
    requires p < |s| && 0xe0 <= At(s, p) < 0xf0
    ensures var h, a, b, c := At(s, p) - 0xe0, At(s, p + 1), At(s, p + 2), At(s, p + 3);
            Read(s, p) == Reading(((h * 0x100 + a) * 0x100 + b) * 0x100 + c, Ends(s, p + 4).0, Ends(s, p + 4).1)
  {
    var h, a, b, c := At(s, p) - 0xe0, At(s, p + 1), At(s, p + 2), At(s, p + 3);
    AtBound(s, p);
    AtBound(s, p + 1);
    AtBound(s, p + 2);
    AtBound(s, p + 3);
    FirstByte(At(s, p));
    NumberReads(s, p, h, 3);
    BigSteps(h, s, p + 1, 0);
    BigSteps(h, s, p + 1, 1);
    BigSteps(h, s, p + 1, 2);
    ThreeJoins(h, a, b, c);
  }

  /** The marks of four and of eight bytes, and of the complement of what follows. */
  lemma FiveByteForm(s: seq<bv8>, p: nat)
    requires p < |s| && 0xf0 <= At(s, p) < 0xf4
    ensures Read(s, p) == Reading(Big(0, s, p + 1, 4), Ends(s, p + 5).0, Ends(s, p + 5).1)
  {
    FirstByte(At(s, p));
    NumberReads(s, p, 0, 4);
  }

  lemma NineByteForm(s: seq<bv8>, p: nat)
    requires p < |s| && 0xf4 <= At(s, p) < 0xf8
    ensures Read(s, p) == Reading(Big(0, s, p + 1, 8), Ends(s, p + 9).0, Ends(s, p + 9).1)
  {
    FirstByte(At(s, p));
    NumberReads(s, p, 0, 8);
  }

  lemma ComplementForm(s: seq<bv8>, p: nat, r: Reading)
    requires p < |s| && 0xf8 <= At(s, p) < 0xfc && Read(s, p + 1) == r
    ensures Read(s, p) == r.(value := 0xffff_ffff_ffff_ffff - r.value)
  {
    FirstByte(At(s, p));
    ReadUnfolds(s, p, Complement);
    Negates(s, p + 1, r);
    NotIs(r.value);
  }

  /** Up to eight bytes are a number, most significant first: each is 256 times those before it, plus itself. */
  lemma BigIsNumber(s: seq<bv8>, p: nat, n: nat, high: bv64)
    requires n < 8 && high == Big(0, s, p, n)
    ensures Big(0, s, p, 0) == 0 && Big(0, s, p, n + 1) == high * 0x100 + At(s, p + n)
  {
    BigSteps(0, s, p, n);
    AtBound(s, p + n);
    BigFits(s, p, n, high);
    JoinIs(high, At(s, p + n));
  }

  lemma BigFits(s: seq<bv8>, p: nat, n: nat, high: bv64)
    requires n < 8 && high == Big(0, s, p, n)
    ensures high < 0x100_0000_0000_0000
  {
    if n > 0 {
      BigBelow(s, p, n);
      BelowSteps(high, 0, n);
    }
  }

  lemma {:induction false} BigBelow(s: seq<bv8>, p: nat, n: nat)
    requires 1 <= n <= 8
    ensures Below(Big(0, s, p, n), n)
    decreases n
  {
    BigSteps(0, s, p, n - 1);
    AtBound(s, p + n - 1);
    if n == 1 {
      FirstBelow(At(s, p));
    } else {
      BigBelow(s, p, n - 1);
      BelowSteps(Big(0, s, p, n - 1), At(s, p + n - 1), n - 1);
    }
  }

  /** A number of at most n bytes. */
  predicate Below(v: bv64, n: nat) {
    match n
    case 1 => v <= 0xff
    case 2 => v <= 0xffff
    case 3 => v <= 0xff_ffff
    case 4 => v <= 0xffff_ffff
    case 5 => v <= 0xff_ffff_ffff
    case 6 => v <= 0xffff_ffff_ffff
    case 7 => v <= 0xff_ffff_ffff_ffff
    case _ => true
  }

  lemma FirstBelow(b: bv64)
    requires b <= 0xff
    ensures Below(Join(0, b), 1)
  {
  }

  lemma BelowSteps(high: bv64, b: bv64, n: nat)
    requires 1 <= n < 8 && Below(high, n) && b <= 0xff
    ensures high < 0x100_0000_0000_0000 && Below(Join(high, b), n + 1)
  {
  }

  // ----- writing

  /** Which values are written as the complement: those from -2^32 on, and the four greatest of them in short. */
  lemma MarkIs(v: bv64)
    ensures Signed(v) <==> v >= 0xffff_ffff_0000_0000
    ensures Magnitude(v) == if v >= 0xffff_ffff_0000_0000 then 0xffff_ffff_ffff_ffff - v else v
    ensures Mark(v) == if v < 0xffff_ffff_0000_0000 then []
                       else if v < 0xffff_ffff_ffff_fffc then [0xf8]
                       else [0xfc + (0xffff_ffff_ffff_ffff - v)]
  {
  }

  /** How many numbers are written for a magnitude. */
  lemma DigitsLength(i: bv64)
    ensures |Digits(i)| == if i < 0x80 then 1 else if i < 0x4000 then 2 else if i < 0x1000_0000 then 3
                           else if i < 0x1_0000_0000 then 5 else 9
  {
  }

  /** Magnitudes that the three-byte form is too short for: above 0xffffff one number is refused. */
  lemma GapLoses(i: bv64)
    requires 0x20_0000 <= i < 0x1000_0000
    ensures |Digits(i)| == 3 && (AllFit(Digits(i)) <==> i < 0x100_0000)
  {
    var first := (i >> 16) | 0xc0;
    GapFirst(i);
    LowByte(i);
    LowByte(i >> 8);
    assert Digits(i) == [first, (i >> 8) & 0xff, i & 0xff];
    assert AllFit(Digits(i)) ==> Digits(i)[0] <= 0xff;
  }

  lemma GapFirst(i: bv64)
    requires 0x20_0000 <= i < 0x1000_0000
    ensures (i >> 16) | 0xc0 <= 0xff <==> i < 0x100_0000
  {
  }
}

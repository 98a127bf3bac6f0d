/**
  Little-endian byte counters: the nonces of the datagram crypt state, and the
  fixed-width integers of the freezer log.
 */
module Counter {

  type byte = x: int | 0 <= x < 256

  /** The number of values of n bytes. */
  function Range(n: nat): (r: nat)
    ensures r > 0
  {
    if n == 0 then 1 else 256 * Range(n - 1)
  }

  function Value(s: seq<byte>): nat {
    if s == [] then 0 else s[0] + 256 * Value(s[1..])
  }

  /** The n low-order bytes of the counter v. */
  function At(v: int, n: nat): (r: seq<byte>)
    ensures |r| == n
    decreases n
  {
    if n == 0 then [] else [v % 256] + At(v / 256, n - 1)
  }

  /** The increment loop: add one to each byte until one does not wrap to zero. */
  function Increment(s: seq<byte>): (r: seq<byte>)
    ensures |r| == |s|
  {
    if s == [] then []
    else if s[0] == 255 then [0] + Increment(s[1..])
    else [s[0] + 1] + s[1..]
  }

  /** The decrement loop as written: it stops after the first byte that is not zero once decremented. */
  function CodeBorrow(s: seq<byte>): (r: seq<byte>)
    ensures |r| == |s|
  {
    if s == [] then []
    else if s[0] == 1 then [0] + CodeBorrow(s[1..])
    else [if s[0] == 0 then 255 else s[0] - 1] + s[1..]
  }

  lemma {:induction false} ValueBound(s: seq<byte>)
    ensures Value(s) < Range(|s|)
  {
    if s != [] {
      ValueBound(s[1..]);
    }
  }

  lemma {:induction false} ValueInjective(s: seq<byte>, t: seq<byte>)
    requires |s| == |t| && Value(s) == Value(t)
    ensures s == t
  {
    if s != [] {
      assert s[0] == Value(s) % 256 && t[0] == Value(t) % 256;
      ValueInjective(s[1..], t[1..]);
      assert s == [s[0]] + s[1..] && t == [t[0]] + t[1..];
    }
  }

  /** The value of a counter of n bytes is the counter modulo their range. */
  lemma {:induction false} ValueAt(v: int, n: nat)
    ensures Value(At(v, n)) == v % Range(n)
    decreases n
  {
    if n > 0 {
      ValueAt(v / 256, n - 1);
      assert At(v, n)[1..] == At(v / 256, n - 1);
      ModOfDigit(v / 256, v % 256, Range(n - 1));
    }
  }

  lemma ModOfDigit(q: int, d: nat, r: nat)
    requires d < 256 && r > 0
    ensures (256 * q + d) % (256 * r) == d + 256 * (q % r)
  {
    var m := d + 256 * (q % r);
    assert 256 * q + d == m + (256 * r) * (q / r) by {
      assert q == r * (q / r) + q % r;
    }
    assert 0 <= m < 256 * r;
    ModUnique(256 * q + d, 256 * r, q / r, m);
  }

  lemma MultipleInside(m: int, k: int)
    requires m > 0 && -m < m * k < m
    ensures k == 0
  {
    if k >= 1 {
      MulAtLeast(m, k);
    } else if k <= -1 {
      MulAtLeast(m, -k);
    }
  }

  lemma {:induction false} MulAtLeast(m: int, k: int)
    requires m > 0 && k >= 1
    ensures m * k >= m
    decreases k
  {
    if k > 1 {
      MulAtLeast(m, k - 1);
    }
  }

  lemma ModUnique(x: int, m: int, k: int, r: int)
    requires m > 0 && 0 <= r < m && x == r + m * k
    ensures x % m == r
  {
    var q := x / m;
    assert x == m * q + x % m;
    assert m * (q - k) == m * q - m * k;
    MultipleInside(m, q - k);
  }

  lemma {:induction false} IncrementValue(s: seq<byte>)
    ensures Value(Increment(s)) == (Value(s) + 1) % Range(|s|)
  {
    if s != [] {
      var t, r := s[1..], Range(|s| - 1);
      ValueBound(t);
      var i := Increment(s);
      if s[0] == 255 {
        IncrementValue(t);
        assert i[1..] == Increment(t);
        ModOfDigit(Value(t) + 1, 0, r);
      } else {
        assert i[1..] == t;
        ModUnique(Value(s) + 1, 256 * r, 0, Value(s) + 1);
      }
    }
  }

  /** Less than a whole range apart, two counters agree only when they are equal. */
  lemma AtInjective(v: int, w: int, n: nat)
    requires At(v, n) == At(w, n)
    requires v - w < Range(n) && w - v < Range(n)
    ensures v == w
  {
    ValueAt(v, n);
    ValueAt(w, n);
    SameResidue(v, w, Range(n));
  }

  lemma SameResidue(v: int, w: int, m: int)
    requires m > 0 && v % m == w % m && v - w < m && w - v < m
    ensures v == w
  {
    assert v == m * (v / m) + v % m && w == m * (w / m) + w % m;
    assert v - w == m * (v / m) - m * (w / m) == m * (v / m - w / m);
    MultipleInside(m, v / m - w / m);
  }

  lemma {:induction false} AtIncrement(v: int, n: nat)
    ensures Increment(At(v, n)) == At(v + 1, n)
    decreases n
  {
    if n > 0 {
      AtIncrement(v / 256, n - 1);
      assert At(v, n)[1..] == At(v / 256, n - 1);
    }
  }

  lemma ModInside(x: int, m: int)
    requires 0 <= x < m
    ensures x % m == x
  {
    ModUnique(x, m, 0, x);
  }

  lemma Digits(v: int, n: nat, b: byte, q: int)
    requires n >= 1 && v == 256 * q + b
    ensures At(v, n) == [b] + At(q, n - 1)
  {
    LowDigit(v, b, q);
  }

  lemma LowDigit(v: int, b: byte, q: int)
    requires v == 256 * q + b
    ensures v % 256 == b && v / 256 == q
  {
  }

  lemma BorrowFromTwo(x: int, b: byte, n: nat)
    requires n >= 1 && b >= 2
    ensures CodeBorrow([b] + At(x, n - 1)) == At(256 * x + b - 1, n)
  {
    Digits(256 * x + b - 1, n, b - 1, x);
    BorrowStops(b, At(x, n - 1));
  }

  lemma BorrowFromOne(x: int, n: nat)
    requires n >= 2
    ensures CodeBorrow([1] + At(x, n - 1)) != At(256 * x, n)
  {
    Digits(256 * x, n, 0, x);
    BorrowGoesOn(At(x, n - 1));
  }

  lemma BorrowFromZero(x: int, n: nat)
    requires n >= 2
    ensures CodeBorrow([0] + At(x, n - 1)) != At(256 * x - 1, n)
  {
    Digits(256 * x - 1, n, 255, x - 1);
    BorrowStops(0, At(x, n - 1));
    DiffersFromNext(x - 1, n - 1);
  }

  /** When the loop as written borrows correctly: never past a byte that was zero or one. */
  lemma CodeBorrowExact(q: int, n: nat)
    requires n >= 2
    ensures CodeBorrow(At(q, n)) == At(q - 1, n) <==> At(q, n)[0] >= 2
  {
    var b, x := q % 256, q / 256;
    CodeBorrowDigits(x, b, n);
    Digits(q, n, b, x);
  }

  lemma CodeBorrowDigits(x: int, b: byte, n: nat)
    requires n >= 2
    ensures CodeBorrow([b] + At(x, n - 1)) == At(256 * x + b - 1, n) <==> b >= 2
  {
    if b >= 2 {
      BorrowFromTwo(x, b, n);
    } else if b == 1 {
      BorrowFromOne(x, n);
    } else {
      BorrowFromZero(x, n);
    }
  }

  /**
    What the loop as written makes of a counter: one less if the low byte is at least 2, 255 more if it is
    zero, and if it is one the low byte becomes zero and the loop goes on with the next.
   */
  lemma BorrowedAs(q: int, n: nat)
    requires n >= 1
    ensures q % 256 >= 2 ==> CodeBorrow(At(q, n)) == At(q - 1, n)
    ensures q % 256 == 0 ==> CodeBorrow(At(q, n)) == At(q + 255, n)
    ensures q % 256 == 1 ==> CodeBorrow(At(q, n)) == [0] + CodeBorrow(At(q / 256, n - 1))
  {
    var b, x := q % 256, q / 256;
    Digits(q, n, b, x);
    if b >= 2 {
      BorrowFromTwo(x, b, n);
    } else if b == 0 {
      Digits(q + 255, n, 255, x);
      BorrowStops(0, At(x, n - 1));
    } else {
      assert ([1] + At(x, n - 1))[1..] == At(x, n - 1);
    }
  }

  lemma BorrowStops(b: byte, t: seq<byte>)
    requires b != 1
    ensures CodeBorrow([b] + t) == [if b == 0 then 255 else b - 1] + t
  {
    assert ([b] + t)[1..] == t;
  }

  lemma BorrowGoesOn(t: seq<byte>)
    requires t != []
    ensures CodeBorrow([1] + t) != [0] + t
  {
    assert ([1] + t)[1..] == t;
    assert CodeBorrow([1] + t)[1] == CodeBorrow(t)[0] != t[0] == ([0] + t)[1];
  }

  lemma DiffersFromNext(x: int, n: nat)
    requires n >= 1
    ensures [255] + At(x, n) != [255] + At(x + 1, n)
  {
    assert ([255] + At(x, n))[1] == x % 256 && ([255] + At(x + 1, n))[1] == (x + 1) % 256;
  }

  /** A byte string has the value of a counter exactly when it is that counter. */
  lemma SameCounter(s: seq<byte>, w: int)
    ensures Value(s) == w % Range(|s|) <==> s == At(w, |s|)
  {
    ValueAt(w, |s|);
    if Value(s) == Value(At(w, |s|)) {
      ValueInjective(s, At(w, |s|));
    }
  }

  /** Every byte string is the counter of its own value. */
  lemma {:induction false} AtOwnValue(s: seq<byte>)
    ensures s == At(Value(s), |s|)
  {
    if s != [] {
      AtOwnValue(s[1..]);
      assert Value(s) % 256 == s[0] && Value(s) / 256 == Value(s[1..]);
    }
  }
}

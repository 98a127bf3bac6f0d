/** The packet buffer in place: every read and write moves the offset, and errors are flagged. */
module PacketBuffer {
  import opened Prelude
  import opened Varint
  import opened PacketData

  // ----- the frames of a voice packet

  /** Where a run of frames ends: each frame has a head with its length, and a bit for whether another follows. */
  function FramesEnd(s: seq<bv8>, p: nat): (r: Option<nat>)
    requires p <= |s|
    ensures r.Some? ==> p < r.value <= |s|
    decreases |s| - p
  {
    if p == |s| then None
    else
      var next := p + 1 + Length(s[p]);
      if next > |s| then None
      else if More(s[p]) then FramesEnd(s, next)
      else Some(next)
  }

  function Length(head: bv8): nat {
    (head & 0x7f) as nat
  }

  predicate More(head: bv8) {
    head & 0x80 != 0
  }

  lemma FourJoined(a: bv64, b: bv64, c: bv64, d: bv64)
    ensures (a << 24) | (b << 16) | (c << 8) | d == Join(Join(Join(Join(0, a), b), c), d)
  {
  }

  lemma ThreeJoined(high: bv64, b: bv64, c: bv64, d: bv64)
    ensures (high << 24) | (b << 16) | (c << 8) | d == Join(Join(Join(high, b), c), d)
  {
  }

  lemma TwoJoined(high: bv64, c: bv64, d: bv64)
    ensures (high << 16) | (c << 8) | d == Join(Join(high, c), d)
  {
  }

  lemma EightJoined(a: bv64, b: bv64, c: bv64, d: bv64, e: bv64, f: bv64, g: bv64, h: bv64)
    ensures (a << 56) | (b << 48) | (c << 40) | (d << 32) | (e << 24) | (f << 16) | (g << 8) | h
         == Join(Join(Join(Join(Join(Join(Join(Join(0, a), b), c), d), e), f), g), h)
  {
  }

  class Buffer {
    const buf: array<bv8>
    var offset: nat
    var overshoot: nat
    var ok: bool

    ghost predicate Valid()
      reads this
    {
      offset <= buf.Length
    }

    function State(): View
      reads this, buf
    {
      View(buf[..], offset, overshoot, ok)
    }

    constructor (buf: array<bv8>)
      ensures Valid() && this.buf == buf
      ensures State() == View(buf[..], 0, 0, true)
    {
      this.buf := buf;
      offset, overshoot, ok := 0, 0, true;
    }

    method Append(val: bv64)
      requires Valid()
      modifies this, buf
      ensures Valid() && State() == Stored(old(State()), [val])
    {
      StoredOne(State(), val);
      if val > 0xff {
        ok := false;
        return;
      }
      if offset < buf.Length {
        buf[offset] := Low(val);
        offset := offset + 1;
      } else {
        ok := false;
        overshoot := overshoot + 1;
      }
    }

    /** One more number, after those appended since a given state. */
    method AppendNext(ghost start: View, ghost vals: seq<bv64>, val: bv64, ghost more: seq<bv64>)
      requires Valid() && Inside(start) && State() == Stored(start, vals) && more == vals + [val]
      modifies this, buf
      ensures Valid() && State() == Stored(start, more)
    {
      Append(val);
      StoredConcat(start, vals, [val]);
    }

    /** Appends some numbers in order. */
    method AppendAll(vals: seq<bv64>)
      requires Valid()
      modifies this, buf
      ensures Valid() && State() == Stored(old(State()), vals)
      decreases |vals|
    {
      ghost var start := State();
      if vals == [] {
        StoredNothing(start);
      } else {
        var front := vals[..|vals| - 1];
        AppendAll(front);
        assert vals == front + [vals[|vals| - 1]];
        AppendNext(start, front, vals[|vals| - 1], vals);
      }
    }

    method AddVarint(val: bv64)
      requires Valid()
      modifies this, buf
      ensures Valid() && State() == Step(old(State()), PutVarint(val))
    {
      ghost var start := State();
      StoredNothing(start);
      var i := val;
      if i & 0x8000_0000_0000_0000 != 0 && Not(i) < 0x1_0000_0000 {
        i := Not(i);
        if i <= 3 {
          AppendAll([0xfc | i]);
        } else {
          AppendAll([0xf8]);
        }
      }
      assert State() == Stored(start, Mark(val)) && i == Magnitude(val);
      AddDigits(i);
      StoredConcat(start, Mark(val), Digits(i));
    }

    method AddDigits(i: bv64)
      requires Valid()
      modifies this, buf
      ensures Valid() && State() == Stored(old(State()), Digits(i))
    {
      if i < 0x80 {
        AppendAll([i]);
      } else if i < 0x4000 {
        AppendAll([(i >> 8) | 0x80, i & 0xff]);
      } else if i < 0x1000_0000 {
        AppendAll([(i >> 16) | 0xc0, (i >> 8) & 0xff, i & 0xff]);
      } else if i < 0x1_0000_0000 {
        AppendAll([0xf0, (i >> 24) & 0xff, (i >> 16) & 0xff, (i >> 8) & 0xff, i & 0xff]);
      } else {
        AppendAll([0xf4, (i >> 56) & 0xff, (i >> 48) & 0xff, (i >> 40) & 0xff, (i >> 32) & 0xff,
                   (i >> 24) & 0xff, (i >> 16) & 0xff, (i >> 8) & 0xff, i & 0xff]);
      }
    }

    /** The next byte; beyond the end, zero. */
    method Next() returns (ret: bv64)
      requires Valid()
      modifies this`offset, this`ok
      ensures Valid() && State() == Step(old(State()), GetByte)
      ensures ret == At(buf[..], old(offset))
    {
      if offset < buf.Length {
        ret := buf[offset] as bv64;
        offset := offset + 1;
      } else {
        ok := false;
        ret := 0;
      }
    }

    method Next8() returns (ret: bv8)
      requires Valid()
      modifies this`offset, this`ok
      ensures Valid() && State() == Step(old(State()), GetByte)
      ensures ret == if old(offset) < buf.Length then buf[old(offset)] else 0
    {
      if offset < buf.Length {
        ret := buf[offset];
        offset := offset + 1;
      } else {
        ok := false;
        ret := 0;
      }
    }

    /** The byte k after p, when those between have been read. */
    method NextAt(ghost p: nat, ghost k: nat, ghost ok0: bool) returns (ret: bv64)
      requires Valid() && offset == Clipped(buf, p + k) && ok == (ok0 && p + k <= buf.Length)
      modifies this`offset, this`ok
      ensures Valid() && offset == Clipped(buf, p + k + 1) && ok == (ok0 && p + k + 1 <= buf.Length)
      ensures ret == At(buf[..], p + k)
    {
      ret := Next();
    }

    /** One byte more, after the high bits. */
    method One(high: bv64) returns (i: bv64)
      requires Valid()
      modifies this`offset, this`ok
      ensures Valid() && i == Big(high, buf[..], old(offset), 1)
      ensures offset == Clipped(buf, old(offset) + 1) && ok == (old(ok) && old(offset) + 1 <= buf.Length)
    {
      ghost var p := offset;
      var a := NextAt(p, 0, ok);
      i := (high << 8) | a;
      BigOne(high, buf[..], p);
    }

    method Two(high: bv64) returns (i: bv64)
      requires Valid()
      modifies this`offset, this`ok
      ensures Valid() && i == Big(high, buf[..], old(offset), 2)
      ensures offset == Clipped(buf, old(offset) + 2) && ok == (old(ok) && old(offset) + 2 <= buf.Length)
    {
      ghost var p, ok0 := offset, ok;
      var a := NextAt(p, 0, ok0);
      var b := NextAt(p, 1, ok0);
      i := (high << 16) | (a << 8) | b;
      ShiftTwo(high, buf[..], p, a, b);
    }

    method Three(high: bv64) returns (i: bv64)
      requires Valid()
      modifies this`offset, this`ok
      ensures Valid() && i == Big(high, buf[..], old(offset), 3)
      ensures offset == Clipped(buf, old(offset) + 3) && ok == (old(ok) && old(offset) + 3 <= buf.Length)
    {
      ghost var p, ok0 := offset, ok;
      var a := NextAt(p, 0, ok0);
      var b := NextAt(p, 1, ok0);
      var c := NextAt(p, 2, ok0);
      i := (high << 24) | (a << 16) | (b << 8) | c;
      BigThree(high, buf[..], p, a, b, c);
    }

    method Four() returns (i: bv64)
      requires Valid()
      modifies this`offset, this`ok
      ensures Valid() && i == Big(0, buf[..], old(offset), 4)
      ensures offset == Clipped(buf, old(offset) + 4) && ok == (old(ok) && old(offset) + 4 <= buf.Length)
    {
      ghost var p, ok0 := offset, ok;
      var a := NextAt(p, 0, ok0);
      var b := NextAt(p, 1, ok0);
      var c := NextAt(p, 2, ok0);
      var d := NextAt(p, 3, ok0);
      i := (a << 24) | (b << 16) | (c << 8) | d;
      BigFour(buf[..], p, a, b, c, d);
    }

    method Eight() returns (i: bv64)
      requires Valid()
      modifies this`offset, this`ok
      ensures Valid() && i == Big(0, buf[..], old(offset), 8)
      ensures offset == Clipped(buf, old(offset) + 8) && ok == (old(ok) && old(offset) + 8 <= buf.Length)
    {
      ghost var p, ok0 := offset, ok;
      var a := NextAt(p, 0, ok0);
      var b := NextAt(p, 1, ok0);
      var c := NextAt(p, 2, ok0);
      var d := NextAt(p, 3, ok0);
      var e := NextAt(p, 4, ok0);
      var f := NextAt(p, 5, ok0);
      var g := NextAt(p, 6, ok0);
      var h := NextAt(p, 7, ok0);
      i := (a << 56) | (b << 48) | (c << 40) | (d << 32) | (e << 24) | (f << 16) | (g << 8) | h;
      BigEight(buf[..], p, a, b, c, d, e, f, g, h);
    }

    /** Reads one integer from whatever bytes there are. */
    method GetVarint() returns (i: bv64)
      requires Valid()
      modifies this`offset, this`ok
      ensures Valid() && State() == Step(old(State()), Op.GetVarint)
      ensures i == Read(buf[..], old(offset)).value
      decreases buf.Length - offset, 1
    {
      ghost var s, p := buf[..], offset;
      var v := Next();
      if p < |s| {
        ReadUnfolds(s, p, FormOf(v));
      } else {
        Forms(v);
      }
      i := GetRest(v);
    }

    method GetRest(v: bv64) returns (i: bv64)
      requires Valid()
      modifies this`offset, this`ok
      ensures Valid() && i == ReadOn(FormOf(v), buf[..], old(offset)).value
      ensures offset == ReadOn(FormOf(v), buf[..], old(offset)).end
      ensures ok == (old(ok) && ReadOn(FormOf(v), buf[..], old(offset)).ok)
      decreases if FormOf(v).Complement? then buf.Length - offset else 0, if FormOf(v).Complement? then 2 else 0
    {
      if v & 0x80 == 0 {
        i := v & 0x7f;
      } else if v & 0xc0 == 0x80 {
        i := One(v & 0x3f);
      } else if v & 0xf0 == 0xf0 {
        if v & 0xfc == 0xf0 {
          i := Four();
        } else if v & 0xfc == 0xf4 {
          i := Eight();
        } else if v & 0xfc == 0xf8 {
          i := GetVarint();
          i := Not(i);
        } else {
          i := Not(v & 3);
        }
      } else if v & 0xf0 == 0xe0 {
        i := Three(v & 0xf);
      } else {
        i := Two(v & 0x1f);
      }
    }

    method SkipBytes(n: nat)
      requires Valid()
      modifies this`offset, this`ok
      ensures Valid() && State() == Step(old(State()), Skip(n))
    {
      if buf.Length - offset >= n {
        offset := offset + n;
      } else {
        ok := false;
      }
    }

    /** Passes over the frames of a voice packet, on any bytes; all is well exactly when the frames are whole. */
    method SkipFrames()
      requires Valid()
      modifies this`offset, this`ok
      ensures Valid() && overshoot == old(overshoot)
      ensures ok == (old(ok) && FramesEnd(buf[..], old(offset)).Some?)
      ensures ok ==> FramesEnd(buf[..], old(offset)) == Some(offset)
    {
      ghost var s := buf[..];
      var more := true;
      while more
        invariant Valid()
        invariant more && ok ==> old(ok) && FramesEnd(s, offset) == FramesEnd(s, old(offset))
        invariant more && !ok ==> !old(ok)
        invariant !more ==> ok == (old(ok) && FramesEnd(s, old(offset)).Some?)
        invariant !more && ok ==> FramesEnd(s, old(offset)) == Some(offset)
        decreases more, buf.Length - offset
      {
        var head := Next8();
        SkipBytes(Length(head));
        more := More(head) && ok;
      }
    }

    method PutAll(src: array<bv8>)
      requires Valid() && src != buf
      modifies this, buf
      ensures Valid() && State() == Step(old(State()), PutBytes(src[..]))
    {
      if buf.Length - offset >= src.Length {
        ghost var was := buf[..];
        forall k | 0 <= k < src.Length {
          buf[offset + k] := src[k];
        }
        assert buf[..] == Patched(was, offset, src[..]);
        offset := offset + src.Length;
      } else {
        overshoot := overshoot + src.Length - (buf.Length - offset);
        ok := false;
      }
    }

    /** Copies bytes out from where reading stands; the offset stays. */
    method CopyOut(dst: array<bv8>)
      requires Valid() && dst != buf
      modifies this`ok, dst
      ensures Valid() && State() == Step(old(State()), CopyBytes(dst.Length))
      ensures dst[..] == if offset + dst.Length <= buf.Length then buf[offset..offset + dst.Length] else old(dst[..])
    {
      if buf.Length - offset >= dst.Length {
        forall k | 0 <= k < dst.Length {
          dst[k] := buf[offset + k];
        }
      } else {
        ok := false;
      }
    }
  }

  function Clipped(buf: array<bv8>, p: nat): nat {
    if p <= buf.Length then p else buf.Length
  }

  lemma ShiftTwo(high: bv64, s: seq<bv8>, p: nat, a: bv64, b: bv64)
    requires a == At(s, p) && b == At(s, p + 1)
    ensures (high << 16) | (a << 8) | b == Big(high, s, p, 2)
  {
    TwoJoined(high, a, b);
    BigOne(high, s, p);
  }

  lemma BigThree(high: bv64, s: seq<bv8>, p: nat, a: bv64, b: bv64, c: bv64)
    requires a == At(s, p) && b == At(s, p + 1) && c == At(s, p + 2)
    ensures (high << 24) | (a << 16) | (b << 8) | c == Big(high, s, p, 3)
  {
    ThreeJoined(high, a, b, c);
    ShiftTwo(high, s, p, a, b);
    TwoJoined(high, a, b);
  }

  lemma JoinFour(high: bv64, s: seq<bv8>, p: nat, a: bv64, b: bv64, c: bv64, d: bv64)
    requires a == At(s, p) && b == At(s, p + 1) && c == At(s, p + 2) && d == At(s, p + 3)
    ensures Big(high, s, p, 4) == Join(Join(Join(Join(high, a), b), c), d)
  {
    BigOne(high, s, p);
    assert Big(high, s, p, 2) == Join(Big(high, s, p, 1), b);
    assert Big(high, s, p, 3) == Join(Big(high, s, p, 2), c);
  }

  lemma BigFour(s: seq<bv8>, p: nat, a: bv64, b: bv64, c: bv64, d: bv64)
    requires a == At(s, p) && b == At(s, p + 1) && c == At(s, p + 2) && d == At(s, p + 3)
    ensures (a << 24) | (b << 16) | (c << 8) | d == Big(0, s, p, 4)
  {
    JoinFour(0, s, p, a, b, c, d);
    FourJoined(a, b, c, d);
  }

  lemma {:induction false} BigSplit(high: bv64, s: seq<bv8>, p: nat, n: nat, k: nat)
    ensures Big(high, s, p, n + k) == Big(Big(high, s, p, n), s, p + n, k)
    decreases k
  {
    if k > 0 {
      BigSplit(high, s, p, n, k - 1);
    }
  }

  lemma JoinEight(s: seq<bv8>, p: nat, high: bv64, e: bv64, f: bv64, g: bv64, h: bv64)
    requires high == Big(0, s, p, 4)
    requires e == At(s, p + 4) && f == At(s, p + 5) && g == At(s, p + 6) && h == At(s, p + 7)
    ensures Big(0, s, p, 8) == Join(Join(Join(Join(high, e), f), g), h)
  {
    BigSplit(0, s, p, 4, 4);
    JoinFour(high, s, p + 4, e, f, g, h);
  }

  lemma BigEight(s: seq<bv8>, p: nat, a: bv64, b: bv64, c: bv64, d: bv64, e: bv64, f: bv64, g: bv64, h: bv64)
    requires a == At(s, p) && b == At(s, p + 1) && c == At(s, p + 2) && d == At(s, p + 3)
    requires e == At(s, p + 4) && f == At(s, p + 5) && g == At(s, p + 6) && h == At(s, p + 7)
    ensures (a << 56) | (b << 48) | (c << 40) | (d << 32) | (e << 24) | (f << 16) | (g << 8) | h == Big(0, s, p, 8)
  {
    JoinFour(0, s, p, a, b, c, d);
    JoinEight(s, p, Big(0, s, p, 4), e, f, g, h);
    EightJoined(a, b, c, d, e, f, g, h);
  }
}

/** The frames of a voice packet, one after the other, and what passing over them finds. */
module VoiceFrames {
  import opened Prelude
  import opened PacketBuffer

  datatype Frame<H> = Frame(head: H, payload: seq<H>)

  /** A head below 128 is the length of the last frame; from 128 on, 128 less is, and another frame follows. */
  function Size(head: bv8): nat {
    (if head < 0x80 then head else head - 0x80) as nat
  }

  predicate Goes(head: bv8) {
    head >= 0x80
  }

  function FrameBytes<H>(fs: seq<Frame<H>>): seq<H> {
    if fs == [] then [] else [fs[0].head] + fs[0].payload + FrameBytes(fs[1..])
  }

  /** Payloads are as long as their heads say, and all heads but the last say that another frame follows. */
  predicate Whole<H>(fs: seq<Frame<H>>, size: H -> nat, goes: H -> bool) {
    && fs != []
    && (forall i :: 0 <= i < |fs| ==> |fs[i].payload| == size(fs[i].head))
    && (forall i :: 0 <= i < |fs| ==> (goes(fs[i].head) <==> i < |fs| - 1))
  }

  // ----- over any reading of heads

  function End<H>(s: seq<H>, p: nat, size: H -> nat, goes: H -> bool): (r: Option<nat>)
    requires p <= |s|
    ensures r.Some? ==> p < r.value <= |s|
    decreases |s| - p
  {
    if p == |s| then None
    else
      var next := p + 1 + size(s[p]);
      if next > |s| then None
      else if goes(s[p]) then End(s, next, size, goes)
      else Some(next)
  }

  lemma FrameInFront<H>(prefix: seq<H>, f: Frame<H>, more: seq<H>, rest: seq<H>)
    ensures var s, past := prefix + (([f.head] + f.payload + more) + rest), prefix + [f.head] + f.payload;
            s[|prefix|] == f.head && s == past + (more + rest) && |past| == |prefix| + 1 + |f.payload|
  {
  }

  lemma TailIsWhole<H>(fs: seq<Frame<H>>, size: H -> nat, goes: H -> bool)
    requires Whole(fs, size, goes) && |fs| > 1
    ensures Whole(fs[1..], size, goes)
  {
    forall i | 0 <= i < |fs| - 1
      ensures |fs[1..][i].payload| == size(fs[1..][i].head) && (goes(fs[1..][i].head) <==> i < |fs| - 2)
    {
      assert fs[1..][i] == fs[i + 1];
    }
  }

  lemma {:induction false} EndFound<H>(prefix: seq<H>, fs: seq<Frame<H>>, rest: seq<H>, size: H -> nat, goes: H -> bool)
    requires Whole(fs, size, goes)
    ensures End(prefix + (FrameBytes(fs) + rest), |prefix|, size, goes) == Some(|prefix| + |FrameBytes(fs)|)
    decreases |fs|
  {
    var f, more := fs[0], FrameBytes(fs[1..]);
    var past := prefix + [f.head] + f.payload;
    FrameInFront(prefix, f, more, rest);
    if |fs| > 1 {
      TailIsWhole(fs, size, goes);
      EndFound(past, fs[1..], rest, size, goes);
    }
  }

  lemma {:induction false} EndAre<H>(s: seq<H>, p: nat, size: H -> nat, goes: H -> bool) returns (fs: seq<Frame<H>>)
    requires p <= |s| && End(s, p, size, goes).Some?
    ensures Whole(fs, size, goes) && s[p..End(s, p, size, goes).value] == FrameBytes(fs)
    decreases |s| - p
  {
    var next := p + 1 + size(s[p]);
    var f := Frame(s[p], s[p + 1..next]);
    if goes(s[p]) {
      var rest := EndAre(s, next, size, goes);
      fs := [f] + rest;
      FramesOneMore(f, rest, size, goes);
      assert s[p..End(s, p, size, goes).value] == [s[p]] + s[p + 1..next] + s[next..End(s, next, size, goes).value];
    } else {
      fs := [f];
      assert FrameBytes(fs[1..]) == [];
      assert s[p..next] == [s[p]] + s[p + 1..next];
    }
  }

  lemma FramesOneMore<H>(f: Frame<H>, rest: seq<Frame<H>>, size: H -> nat, goes: H -> bool)
    requires Whole(rest, size, goes) && |f.payload| == size(f.head) && goes(f.head)
    ensures Whole([f] + rest, size, goes) && FrameBytes([f] + rest) == [f.head] + f.payload + FrameBytes(rest)
  {
    var fs := [f] + rest;
    assert fs[1..] == rest;
    forall i | 0 <= i < |fs|
      ensures |fs[i].payload| == size(fs[i].head) && (goes(fs[i].head) <==> i < |fs| - 1)
    {
      assert i > 0 ==> fs[i] == rest[i - 1];
    }
  }

  lemma EndIff<H>(s: seq<H>, p: nat, q: nat, size: H -> nat, goes: H -> bool)
    requires p <= q <= |s|
    ensures End(s, p, size, goes) == Some(q) <==> exists fs :: Whole(fs, size, goes) && s[p..q] == FrameBytes(fs)
  {
    if End(s, p, size, goes) == Some(q) {
      var fs := EndAre(s, p, size, goes);
      assert Whole(fs, size, goes) && s[p..q] == FrameBytes(fs);
    }
    if fs :| Whole(fs, size, goes) && s[p..q] == FrameBytes(fs) {
      EndFound(s[..p], fs, s[q..], size, goes);
      assert s[..p] + (s[p..q] + s[q..]) == s;
    }
  }

  // ----- over the heads of voice packets

  lemma HeadIs(head: bv8)
    ensures Length(head) == Size(head) && (More(head) <==> Goes(head))
  {
    Masked(head);
  }

  lemma Masked(head: bv8)
    ensures head & 0x7f == if head < 0x80 then head else head - 0x80
  {
  }

  lemma {:induction false} EndIs(s: seq<bv8>, p: nat)
    requires p <= |s|
    ensures FramesEnd(s, p) == End(s, p, Size, Goes)
    decreases |s| - p
  {
    if p < |s| {
      HeadIs(s[p]);
      var next := p + 1 + Length(s[p]);
      if next <= |s| {
        EndIs(s, next);
      }
    }
  }

  /** Passing over the bytes succeeds exactly when they begin with whole frames, and stops behind them. */
  lemma FramesIff(s: seq<bv8>, p: nat, q: nat)
    requires p <= q <= |s|
    ensures FramesEnd(s, p) == Some(q) <==> exists fs :: Whole(fs, Size, Goes) && s[p..q] == FrameBytes(fs)
  {
    EndIs(s, p);
    EndIff(s, p, q, Size, Goes);
  }
}

/**
 Cutting a byte stream into messages. The message parser is a parameter: all that is asked of
 it is that a decision it has made is not changed by bytes that arrive later.
 */
module Framing {
  import opened Wrappers
  import opened Sequences

  datatype Parsed<+T> = NeedMore | Invalid | Parsed(obj: T, len: nat)

  type Parser<!B, !T> = seq<B> -> Parsed<T>

  // A decoded message together with the bytes it was decoded from.
  datatype Frame<+B, +T> = Frame(obj: T, vec: seq<B>)

  ghost predicate SelfDelimiting<B(!new), T(!new)>(p: Parser<B, T>) {
    && p([]).NeedMore?
    && (forall b :: p(b).Parsed? ==> 0 < p(b).len <= |b|)
    && (forall b, more {:trigger p(b + more)} :: !p(b).NeedMore? ==> p(b + more) == p(b))
  }

  // The messages decoded so far, the bytes not yet consumed, and whether decoding has failed.
  datatype Progress<+B, +T> = Progress(frames: seq<Frame<B, T>>, rest: seq<B>, failed: bool)

  function Ahead<B, T>(frames: seq<Frame<B, T>>, tail: Progress<B, T>): Progress<B, T> {
    tail.(frames := frames + tail.frames)
  }

  ghost function DecodeAll<B(!new), T(!new)>(p: Parser<B, T>, buf: seq<B>): Progress<B, T>
    requires SelfDelimiting(p)
    decreases |buf|
  {
    match p(buf)
    case NeedMore => Progress([], buf, false)
    case Invalid => Progress([], buf, true)
    case Parsed(obj, len) =>
      Ahead([Frame(obj, buf[..len])], DecodeAll(p, buf[len..]))
  }

  // After each read the buffer is drained; the first error ends the run.
  ghost function AfterReads<B(!new), T(!new)>(p: Parser<B, T>, chunks: seq<seq<B>>): Progress<B, T>
    requires SelfDelimiting(p)
  {
    if chunks == [] then Progress([], [], false)
    else
      var n := |chunks| - 1;
      var before := AfterReads(p, chunks[..n]);
      if before.failed then before
      else Ahead(before.frames, DecodeAll(p, before.rest + chunks[n]))
  }

  class Codec<B(!new), T(!new)> {
    const parse: Parser<B, T>
    var buf: seq<B>

    constructor (parse: Parser<B, T>)
      ensures this.parse == parse && buf == []
    {
      this.parse, buf := parse, [];
    }

    // None: more bytes are needed. The buffer is advanced past a decoded message.
    method Decode() returns (ok: bool, frame: Option<Frame<B, T>>)
      requires SelfDelimiting(parse)
      modifies this
      ensures ok <==> !parse(old(buf)).Invalid?
      ensures ok ==> (frame.None? <==> parse(old(buf)).NeedMore?)
      ensures frame.None? ==> buf == old(buf)
      ensures frame.Some? ==> parse(old(buf)).Parsed? &&
                              frame.value == Frame(parse(old(buf)).obj, old(buf)[..parse(old(buf)).len]) &&
                              buf == old(buf)[parse(old(buf)).len..]
    {
      match parse(buf) {
        case NeedMore => return true, None;
        case Invalid => return false, None;
        case Parsed(obj, len) =>
          frame := Some(Frame(obj, buf[..len]));
          buf := buf[len..];
          return true, frame;
      }
    }

    // The inner loop: dispatch messages until the buffer holds no whole one.
    method Drain() returns (frames: seq<Frame<B, T>>, failed: bool)
      requires SelfDelimiting(parse)
      modifies this
      ensures Progress(frames, buf, failed) == DecodeAll(parse, old(buf))
      ensures AllFrames(parse, old(buf), frames) && Flatten(VecsOf(frames)) + buf == old(buf)
      ensures if failed then parse(buf).Invalid? else parse(buf).NeedMore?
    {
      frames, failed := [], false;
      ghost var whole := DecodeAll(parse, buf);
      var draining := true;
      while draining
        invariant draining ==> !failed && whole == Ahead(frames, DecodeAll(parse, buf))
        invariant !draining ==> whole == Progress(frames, buf, failed)
        decreases draining, |buf|
      {
        OneMoreFrame(parse, frames, buf);
        var ok, frame := Decode();
        if !ok {
          failed, draining := true, false;
        } else if frame.None? {
          draining := false;
        } else {
          frames := frames + [frame.value];
        }
      }
      DecodedInPlace(parse, old(buf), frames, buf, failed);
    }

    // The receive loop over a sequence of reads: the frames dispatched, and whether it failed.
    method Receive(chunks: seq<seq<B>>) returns (frames: seq<Frame<B, T>>, failed: bool)
      requires SelfDelimiting(parse) && buf == []
      modifies this
      ensures Progress(frames, buf, failed) == AfterReads(parse, chunks)
      ensures var all, n := Flatten(chunks), |Flatten(VecsOf(frames))|;
              && n <= |all| && AllFrames(parse, all, frames)
              && (failed <==> parse(all[n..]).Invalid?)
              && (!failed ==> buf == all[n..] && parse(buf).NeedMore?)
    {
      ReadsInPlace(parse, chunks);
      frames, failed := [], false;
      for i := 0 to |chunks|
        invariant !failed && Progress(frames, buf, false) == AfterReads(parse, chunks[..i])
      {
        NextRead(parse, chunks, i);
        buf := buf + chunks[i];
        var more;
        more, failed := Drain();
        frames := frames + more;
        if failed {
          FailedAt(parse, chunks, i + 1);
          return;
        }
      }
      assert chunks[..|chunks|] == chunks;
    }
  }

  // What one turn of the inner loop adds.
  lemma OneMoreFrame<B(!new), T(!new)>(p: Parser<B, T>, frames: seq<Frame<B, T>>, buf: seq<B>)
    requires SelfDelimiting(p)
    ensures !p(buf).Parsed? ==> Ahead(frames, DecodeAll(p, buf)) == Progress(frames, buf, p(buf).Invalid?)
    ensures p(buf).Parsed? ==>
              p(buf).len <= |buf| &&
              Ahead(frames, DecodeAll(p, buf)) ==
              Ahead(frames + [Frame(p(buf).obj, buf[..p(buf).len])], DecodeAll(p, buf[p(buf).len..]))
  {
    if p(buf).Parsed? {
      var f, tail := Frame(p(buf).obj, buf[..p(buf).len]), DecodeAll(p, buf[p(buf).len..]);
      assert frames + ([f] + tail.frames) == frames + [f] + tail.frames;
    }
  }

  lemma NextRead<B(!new), T(!new)>(p: Parser<B, T>, chunks: seq<seq<B>>, i: nat)
    requires SelfDelimiting(p) && i < |chunks|
    ensures var before := AfterReads(p, chunks[..i]);
            AfterReads(p, chunks[..i + 1]) ==
            if before.failed then before else Ahead(before.frames, DecodeAll(p, before.rest + chunks[i]))
  {
    assert chunks[..i + 1][..i] == chunks[..i];
  }

  lemma FailedAt<B(!new), T(!new)>(p: Parser<B, T>, chunks: seq<seq<B>>, i: nat)
    requires SelfDelimiting(p) && i <= |chunks| && AfterReads(p, chunks[..i]).failed
    ensures AfterReads(p, chunks) == AfterReads(p, chunks[..i])
  {
    FailedEarly(p, chunks[..i], chunks[i..]);
    assert chunks[..i] + chunks[i..] == chunks;
  }

  lemma {:induction false} FailedEarly<B(!new), T(!new)>(p: Parser<B, T>, a: seq<seq<B>>, b: seq<seq<B>>)
    requires SelfDelimiting(p) && AfterReads(p, a).failed
    ensures AfterReads(p, a + b) == AfterReads(p, a)
  {
    if b == [] {
      assert a + b == a;
    } else {
      FailedEarly(p, a, b[..|b| - 1]);
      assert (a + b)[..|a + b| - 1] == a + b[..|b| - 1];
    }
  }

  lemma CutFirst<B>(buf: seq<B>, more: seq<B>, n: nat)
    requires n <= |buf|
    ensures (buf + more)[..n] == buf[..n] && (buf + more)[n..] == buf[n..] + more
  {
  }

  // A message at the front of the buffer is decoded the same whatever follows.
  lemma FrontMessage<B(!new), T(!new)>(p: Parser<B, T>, buf: seq<B>, more: seq<B>)
    requires SelfDelimiting(p) && p(buf).Parsed?
    ensures var len := p(buf).len;
            len <= |buf| &&
            DecodeAll(p, buf + more) == Ahead([Frame(p(buf).obj, buf[..len])], DecodeAll(p, buf[len..] + more))
  {
    assert p(buf + more) == p(buf);
    CutFirst(buf, more, p(buf).len);
  }

  // The same, told from the message: its bytes, and then the rest.
  lemma FirstFrame<B(!new), T(!new)>(p: Parser<B, T>, e: seq<B>, rest: seq<B>)
    requires SelfDelimiting(p) && p(e + rest).Parsed? && p(e + rest).len == |e|
    ensures var a, b := DecodeAll(p, e + rest), DecodeAll(p, rest);
            && a == Ahead([Frame(p(e + rest).obj, e)], b)
            && VecsOf(a.frames) == [e] + VecsOf(b.frames)
  {
    assert (e + rest)[|e|..] == rest && (e + rest)[..|e|] == e;
  }

  ghost predicate Extends<B, T>(a: Progress<B, T>, b: Progress<B, T>, c: Progress<B, T>) {
    if a.failed then b.failed && b.frames == a.frames else b == Ahead(a.frames, c)
  }

  lemma ExtendsAhead<B, T>(f: seq<Frame<B, T>>, a: Progress<B, T>, b: Progress<B, T>, c: Progress<B, T>)
    requires Extends(a, b, c)
    ensures Extends(Ahead(f, a), Ahead(f, b), c)
  {
    assert f + (a.frames + c.frames) == f + a.frames + c.frames;
  }

  // Decoding more bytes: what was decoded stays, and decoding resumes at the left-over.
  lemma {:induction false} DecodeMore<B(!new), T(!new)>(p: Parser<B, T>, buf: seq<B>, more: seq<B>)
    requires SelfDelimiting(p)
    ensures var a := DecodeAll(p, buf); Extends(a, DecodeAll(p, buf + more), DecodeAll(p, a.rest + more))
    decreases |buf|
  {
    if p(buf).Parsed? {
      var rest := buf[p(buf).len..];
      var f := [Frame(p(buf).obj, buf[..p(buf).len])];
      var a := DecodeAll(p, rest);
      FrontMessage(p, buf, more);
      DecodeMore(p, rest, more);
      ExtendsAhead(f, a, DecodeAll(p, rest + more), DecodeAll(p, a.rest + more));
    } else if p(buf).Invalid? {
      assert p(buf + more) == p(buf);
    }
  }

  // How the bytes were split over reads makes no difference: same frames, same verdict, and,
  // unless decoding failed, the same left-over.
  lemma {:induction false} SplitIrrelevant<B(!new), T(!new)>(p: Parser<B, T>, chunks: seq<seq<B>>)
    requires SelfDelimiting(p)
    ensures var a, b := AfterReads(p, chunks), DecodeAll(p, Flatten(chunks));
            a.frames == b.frames && a.failed == b.failed && (!a.failed ==> a.rest == b.rest)
  {
    if chunks != [] {
      var n := |chunks| - 1;
      SplitIrrelevant(p, chunks[..n]);
      DecodeMore(p, Flatten(chunks[..n]), chunks[n]);
    }
  }

  function VecsOf<B, T>(frames: seq<Frame<B, T>>): seq<seq<B>> {
    seq(|frames|, i requires 0 <= i < |frames| => frames[i].vec)
  }

  // No byte is lost or invented: the frames and the left-over are the bytes read.
  lemma {:induction false} BytesAccounted<B(!new), T(!new)>(p: Parser<B, T>, buf: seq<B>)
    requires SelfDelimiting(p)
    ensures var a := DecodeAll(p, buf); Flatten(VecsOf(a.frames)) + a.rest == buf
    decreases |buf|
  {
    if p(buf).Parsed? {
      var len := p(buf).len;
      BytesAccounted(p, buf[len..]);
      var tail := DecodeAll(p, buf[len..]);
      Glue(Frame(p(buf).obj, buf[..len]), tail.frames, tail.rest);
      SplitAt(buf, len);
    }
  }

  lemma SplitAt<B>(buf: seq<B>, n: nat)
    requires n <= |buf|
    ensures buf[..n] + buf[n..] == buf
  {
  }

  lemma Glue<B, T>(f: Frame<B, T>, frames: seq<Frame<B, T>>, rest: seq<B>)
    ensures Flatten(VecsOf([f] + frames)) + rest == f.vec + (Flatten(VecsOf(frames)) + rest)
  {
    assert VecsOf([f] + frames) == [f.vec] + VecsOf(frames);
    FlattenCons(f.vec, VecsOf(frames));
  }

  // ---------- what the parser says of the bytes, frame by frame ----------

  // Where the i-th frame begins.
  function Offset<B, T>(frames: seq<Frame<B, T>>, i: nat): nat
    requires i <= |frames|
  {
    |Flatten(VecsOf(frames[..i]))|
  }

  // The i-th frame is what the parser makes of the bytes from where the frames before it end.
  ghost predicate FrameAt<B, T>(p: Parser<B, T>, all: seq<B>, frames: seq<Frame<B, T>>, i: nat)
    requires i < |frames|
  {
    var k, f := Offset(frames, i), frames[i];
    k + |f.vec| <= |all| && f.vec == all[k..k + |f.vec|] && p(all[k..]) == Parsed(f.obj, |f.vec|)
  }

  ghost predicate AllFrames<B, T>(p: Parser<B, T>, all: seq<B>, frames: seq<Frame<B, T>>) {
    forall i :: 0 <= i < |frames| ==> FrameAt(p, all, frames, i)
  }

  // Decoding stops where the parser wants more bytes or finds the message invalid, and fails in the second case.
  lemma {:induction false} StopsBecause<B(!new), T(!new)>(p: Parser<B, T>, buf: seq<B>)
    requires SelfDelimiting(p)
    ensures var a := DecodeAll(p, buf); if a.failed then p(a.rest).Invalid? else p(a.rest).NeedMore?
    decreases |buf|
  {
    if p(buf).Parsed? {
      StopsBecause(p, buf[p(buf).len..]);
    }
  }

  lemma OffsetCons<B, T>(f: Frame<B, T>, frames: seq<Frame<B, T>>, i: nat)
    requires i <= |frames|
    ensures Offset([f] + frames, i + 1) == |f.vec| + Offset(frames, i)
  {
    assert ([f] + frames)[..i + 1] == [f] + frames[..i];
    Glue(f, frames[..i], []);
  }

  lemma {:induction false} FramesInPlace<B(!new), T(!new)>(p: Parser<B, T>, buf: seq<B>)
    requires SelfDelimiting(p)
    ensures AllFrames(p, buf, DecodeAll(p, buf).frames)
    decreases |buf|
  {
    if p(buf).Parsed? {
      var len := p(buf).len;
      var tail, f := DecodeAll(p, buf[len..]).frames, Frame(p(buf).obj, buf[..len]);
      FramesInPlace(p, buf[len..]);
      forall i | 0 <= i < |tail| + 1 ensures FrameAt(p, buf, [f] + tail, i) {
        if i == 0 {
          assert ([f] + tail)[..0] == [] && buf[0..] == buf;
        } else {
          FrameLater(p, buf, f, tail, i - 1);
        }
      }
    }
  }

  lemma FrameLater<B, T>(p: Parser<B, T>, buf: seq<B>, f: Frame<B, T>, tail: seq<Frame<B, T>>, i: nat)
    requires |f.vec| <= |buf| && i < |tail| && FrameAt(p, buf[|f.vec|..], tail, i)
    ensures FrameAt(p, buf, [f] + tail, i + 1)
  {
    OffsetCons(f, tail, i);
    DropTwice(buf, |f.vec|, Offset(tail, i), |tail[i].vec|);
  }

  lemma DecodedInPlace<B(!new), T(!new)>(p: Parser<B, T>, buf: seq<B>, frames: seq<Frame<B, T>>, rest: seq<B>,
                                              failed: bool)
    requires SelfDelimiting(p) && Progress(frames, rest, failed) == DecodeAll(p, buf)
    ensures AllFrames(p, buf, frames) && Flatten(VecsOf(frames)) + rest == buf
    ensures if failed then p(rest).Invalid? else p(rest).NeedMore?
  {
    BytesAccounted(p, buf);
    FramesInPlace(p, buf);
    StopsBecause(p, buf);
  }

  lemma DropTwice<B>(buf: seq<B>, a: nat, b: nat, n: nat)
    requires a + b + n <= |buf|
    ensures buf[a..][b..] == buf[a + b..] && buf[a..][b..b + n] == buf[a + b..a + b + n]
  {
  }

  // The same for reads: the frames dispatched are those the parser makes of all the bytes read, and the
  // run fails if and only if the bytes behind the last of them are invalid.
  lemma ReadsInPlace<B(!new), T(!new)>(p: Parser<B, T>, chunks: seq<seq<B>>)
    requires SelfDelimiting(p)
    ensures var r, all := AfterReads(p, chunks), Flatten(chunks);
            var n := |Flatten(VecsOf(r.frames))|;
            && n <= |all| && AllFrames(p, all, r.frames)
            && (r.failed <==> p(all[n..]).Invalid?)
            && (!r.failed ==> r.rest == all[n..] && p(r.rest).NeedMore?)
  {
    var all := Flatten(chunks);
    var a := DecodeAll(p, all);
    SplitIrrelevant(p, chunks);
    BytesAccounted(p, all);
    FramesInPlace(p, all);
    StopsBecause(p, all);
    assert all[|Flatten(VecsOf(a.frames))|..] == a.rest;
  }
}

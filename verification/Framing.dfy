/**
 * Length-prefixed frames over a byte stream, and the reassembly buffer of the QUIC transport: a
 * 4-byte big-endian length, then that many bytes of payload.
 */
module Framing {
  import opened Words
  import opened Sequences
  import opened Arith

  const HEADER: nat := 4
  const MAX_FRAME: nat := 65536

  // ---------------------------------------------------------------------------
  // Frames
  // ---------------------------------------------------------------------------

  function Word(a: nat, b: nat, c: nat, d: nat): nat {
    a * 0x100_0000 + b * 0x1_0000 + c * 0x100 + d
  }

  function ReadLength(buf: seq<Byte>): nat
    requires |buf| >= HEADER
  {
    Word(buf[0], buf[1], buf[2], buf[3])
  }

  function WriteLength(n: nat): (r: seq<Byte>)
    requires n < 0x1_0000_0000
    ensures |r| == HEADER
  {
    [n / 0x100_0000, n / 0x1_0000 % 256, n / 0x100 % 256, n % 256]
  }

  predicate GoodLength(n: nat) {
    0 < n <= MAX_FRAME
  }

  /** Header bytes and length determine each other. */
  lemma LengthRoundTrip(n: nat)
    requires n < 0x1_0000_0000
    ensures ReadLength(WriteLength(n)) == n
  {
    var h, d := DivModIdentity(n, 256);
    var g, c := DivModIdentity(h, 256);
    var a, b := DivModIdentity(g, 256);
    WordDigits(a, b, c, d);
  }

  lemma HeaderRoundTrip(buf: seq<Byte>)
    requires |buf| == HEADER
    ensures ReadLength(buf) < 0x1_0000_0000 && WriteLength(ReadLength(buf)) == buf
  {
    var a: nat, b: nat, c: nat, d: nat := buf[0], buf[1], buf[2], buf[3];
    WordDigits(a, b, c, d);
    LastDigit(a, b);
    LastDigit(a * 256 + b, c);
  }

  lemma LastDigit(high: nat, low: nat)
    requires low < 256
    ensures (high * 256 + low) % 256 == low
  {
    DivModUnique(high * 256 + low, 256, high, low);
  }

  lemma WordDigits(a: nat, b: nat, c: nat, d: nat)
    requires a < 256 && b < 256 && c < 256 && d < 256
    ensures var n := Word(a, b, c, d);
            n < 0x1_0000_0000 && n / 0x100_0000 == a && n / 0x1_0000 == a * 256 + b
            && n / 0x100 == (a * 256 + b) * 256 + c && n % 256 == d
  {
    var n := Word(a, b, c, d);
    DivModUnique(n, 0x100_0000, a, b * 0x1_0000 + c * 0x100 + d);
    DivModUnique(n, 0x1_0000, a * 256 + b, c * 0x100 + d);
    DivModUnique(n, 0x100, (a * 256 + b) * 256 + c, d);
  }

  type Payload = p: seq<Byte> | GoodLength(|p|) witness [0]

  function Frame(p: Payload): seq<Byte> {
    WriteLength(|p|) + p
  }

  function Stream(ps: seq<Payload>): seq<Byte> {
    if ps == [] then [] else Frame(ps[0]) + Stream(ps[1..])
  }

  // ---------------------------------------------------------------------------
  // Reassembly
  // ---------------------------------------------------------------------------

  /** Delivered payloads and retained bytes. */
  datatype Parse = Parse(delivered: seq<seq<Byte>>, rest: seq<Byte>)

  /** Takes complete frames off the front; an invalid header clears the buffer. */
  function Process(buf: seq<Byte>): (r: Parse)
    ensures |r.rest| < HEADER + MAX_FRAME
    decreases |buf|
  {
    if |buf| < HEADER then Parse([], buf)
    else
      var n := ReadLength(buf);
      if !GoodLength(n) then Parse([], [])
      else if |buf| < HEADER + n then Parse([], buf)
      else
        var next := Process(buf[HEADER + n..]);
        Parse([buf[HEADER..HEADER + n]] + next.delivered, next.rest)
  }

  /** One receive event: its bytes are appended to what was retained. */
  function Receive(rest: seq<Byte>, event: seq<Byte>): Parse {
    Process(rest + event)
  }

  /** All events in order, from an empty buffer. */
  function ReceiveAll(events: seq<seq<Byte>>): Parse {
    if events == [] then Parse([], [])
    else
      var before := ReceiveAll(events[..|events| - 1]);
      var now := Receive(before.rest, events[|events| - 1]);
      Parse(before.delivered + now.delivered, now.rest)
  }

  // ---------------------------------------------------------------------------
  // Frames come out as they went in
  // ---------------------------------------------------------------------------

  /** Bytes that agree with a frame on the header announce its length. */
  lemma FrameLength(p: Payload, buf: seq<Byte>)
    requires |buf| >= HEADER && buf[..HEADER] == Frame(p)[..HEADER]
    ensures ReadLength(buf) == |p|
  {
    LengthRoundTrip(|p|);
    assert Frame(p)[..HEADER] == WriteLength(|p|);
    var head := buf[..HEADER];
    assert head[0] == buf[0] && head[1] == buf[1] && head[2] == buf[2] && head[3] == buf[3];
  }

  /** A complete frame in front is delivered, and the rest goes on as if it were alone. */
  lemma FrameFront(p: Payload, tail: seq<Byte>)
    ensures Process(Frame(p) + tail) == Parse([p] + Process(tail).delivered, Process(tail).rest)
  {
    var buf := Frame(p) + tail;
    assert buf[..HEADER] == Frame(p)[..HEADER];
    FrameLength(p, buf);
    assert buf[HEADER..HEADER + |p|] == p && buf[HEADER + |p|..] == tail;
  }

  /** A proper beginning of a frame delivers nothing and is kept whole. */
  lemma Unfinished(p: Payload, x: seq<Byte>)
    requires |x| < |Frame(p)| && x == Frame(p)[..|x|]
    ensures Process(x) == Parse([], x)
  {
    if |x| >= HEADER {
      assert x[..HEADER] == Frame(p)[..HEADER];
      FrameLength(p, x);
    }
  }

  /** Four bytes announce a length, the first one counting most. */
  lemma HeaderAnnounces(a: Byte, b: Byte, c: Byte, d: Byte)
    ensures ReadLength([a, b, c, d]) == ((a * 256 + b) * 256 + c) * 256 + d
    ensures WriteLength(d) == [0, 0, 0, d]
  {
    DivModUnique(d, 256, 0, d);
  }

  /** A header that announces 0 or more than 65536 clears the buffer, whatever follows. */
  lemma BadHeaderClears(n: nat, more: seq<Byte>)
    requires n < 0x1_0000_0000 && (n == 0 || n > 65536)
    ensures Process(WriteLength(n) + more) == Parse([], [])
  {
    LengthRoundTrip(n);
    var buf := WriteLength(n) + more;
    assert forall i :: 0 <= i < 4 ==> buf[i] == WriteLength(n)[i];
  }

  lemma OneFrame(p: Payload)
    ensures Process(WriteLength(|p|) + p) == Parse([p], [])
  {
    assert Frame(p) + [] == Frame(p);
    FrameFront(p, []);
    assert [p] + [] == [p];
  }

  /** A payload behind its length is delivered exactly when it has 1 to 65536 bytes; nothing is retained. */
  lemma DeliveredIff(p: seq<Byte>)
    requires |p| < 0x1_0000_0000
    ensures Process(WriteLength(|p|) + p) == Parse(if 0 < |p| <= 65536 then [p] else [], [])
  {
    if 0 < |p| <= 65536 { OneFrame(p); } else { BadHeaderClears(|p|, p); }
  }

  /** rest is a proper beginning of the first frame of ps, or ps is exhausted. */
  predicate Begins(rest: seq<Byte>, ps: seq<Payload>) {
    if ps == [] then rest == [] else |rest| < |Frame(ps[0])| && rest == Frame(ps[0])[..|rest|]
  }

  /** Two ways of cutting the same bytes. */
  lemma Cut(x: seq<Byte>, y: seq<Byte>, f: seq<Byte>, more: seq<Byte>)
    requires x + y == f + more
    ensures |x| < |f| ==> x == f[..|x|]
    ensures |x| >= |f| ==> x == f + x[|f|..] && x[|f|..] + y == more
  {
    if |x| < |f| {
      assert x == (x + y)[..|x|] == (f + more)[..|x|];
    } else {
      assert f == (f + more)[..|f|] == (x + y)[..|f|];
      assert x[|f|..] + y == (x + y)[|f|..] == (f + more)[|f|..];
    }
  }

  /** x arrived and y is to come: the frames that x completes come out, and the rest is kept. */
  lemma {:induction false} ProcessPrefix(ps: seq<Payload>, x: seq<Byte>, y: seq<Byte>) returns (j: nat)
    requires x + y == Stream(ps)
    ensures j <= |ps| && Process(x).delivered == ps[..j]
    ensures Process(x).rest + y == Stream(ps[j..]) && Begins(Process(x).rest, ps[j..])
    decreases |ps|
  {
    j := 0;
    assert ps[0..] == ps;
    if ps != [] {
      var f, more := Frame(ps[0]), Stream(ps[1..]);
      Cut(x, y, f, more);
      if |x| < |f| {
        Unfinished(ps[0], x);
      } else {
        var z := x[|f|..];
        FrameFront(ps[0], z);
        var i := ProcessPrefix(ps[1..], z, y);
        j := i + 1;
        assert ps[..j] == [ps[0]] + ps[1..][..i] && ps[1..][i..] == ps[j..];
      }
    }
  }

  /**
   * However the bytes of a stream of frames are cut into receive events, with y still to come: what
   * has been delivered is exactly the first j payloads, what is retained is exactly the unfinished
   * beginning of the next frame, and retained bytes and y make up the rest of the stream.
   */
  lemma {:induction false} ReassemblesPrefix(ps: seq<Payload>, events: seq<seq<Byte>>, y: seq<Byte>) returns (j: nat)
    requires Concat(events) + y == Stream(ps)
    ensures j <= |ps| && ReceiveAll(events).delivered == ps[..j]
    ensures ReceiveAll(events).rest + y == Stream(ps[j..]) && Begins(ReceiveAll(events).rest, ps[j..])
    decreases |events|
  {
    if events == [] {
      j := ProcessPrefix(ps, [], y);
    } else {
      var n := |events| - 1;
      var e := events[n];
      assert Concat(events[..n]) + (e + y) == Concat(events) + y;
      var i := ReassemblesPrefix(ps, events[..n], e + y);
      var rest := ReceiveAll(events[..n]).rest;
      assert (rest + e) + y == rest + (e + y);
      var k := ProcessPrefix(ps[i..], rest + e, y);
      j := i + k;
      assert ps[..i] + ps[i..][..k] == ps[..j] && ps[i..][k..] == ps[j..];
    }
  }

  /** Once the whole stream has arrived, every payload has been delivered and nothing is left. */
  lemma Reassembles(ps: seq<Payload>, events: seq<seq<Byte>>)
    requires Concat(events) == Stream(ps)
    ensures ReceiveAll(events) == Parse(ps, [])
  {
    assert Concat(events) + [] == Concat(events);
    var j := ReassemblesPrefix(ps, events, []);
    assert ReceiveAll(events).rest + [] == ReceiveAll(events).rest;
    NothingLeft(ReceiveAll(events).rest, ps[j..]);
    assert ps[..j] == ps;
  }

  lemma NothingLeft(rest: seq<Byte>, ps: seq<Payload>)
    requires Begins(rest, ps) && rest == Stream(ps)
    ensures ps == []
  {
  }

  // ---------------------------------------------------------------------------
  // In place
  // ---------------------------------------------------------------------------

  class Client {
    var readBuf: array<Byte>
    var readLen: nat
    var delivered: seq<seq<Byte>>

    ghost predicate Valid()
      reads this
    {
      readLen <= readBuf.Length && readBuf.Length >= 1
    }

    ghost function Retained(): seq<Byte>
      reads this, readBuf
      requires Valid()
    {
      readBuf[..readLen]
    }

    constructor ()
      ensures Valid() && fresh(readBuf) && Retained() == [] && delivered == []
    {
      readBuf := new Byte[MAX_FRAME](_ => 0);
      readLen, delivered := 0, [];
    }

    /** Doubles the capacity until the bytes fit. */
    method Grow(needed: nat)
      requires Valid()
      modifies this`readBuf
      ensures Valid() && Retained() == old(Retained()) && readBuf.Length >= needed
      ensures readBuf == old(readBuf) || fresh(readBuf)
    {
      if needed > readBuf.Length {
        var newCap := readBuf.Length;
        while newCap < needed
          invariant newCap >= readBuf.Length
          decreases needed - newCap
        {
          newCap := newCap * 2;
        }
        var bigger := new Byte[newCap](_ => 0);
        var i := 0;
        while i < readBuf.Length
          invariant 0 <= i <= readBuf.Length <= bigger.Length
          invariant forall k :: 0 <= k < i ==> bigger[k] == readBuf[k]
          modifies bigger
        {
          bigger[i] := readBuf[i];
          i := i + 1;
        }
        readBuf := bigger;
      }
    }

    /** Copies one network buffer behind the retained bytes. */
    method Append(bytes: seq<Byte>)
      requires Valid() && readLen + |bytes| <= readBuf.Length
      modifies this`readLen, readBuf
      ensures Valid() && Retained() == old(Retained()) + bytes
    {
      var i := 0;
      while i < |bytes|
        invariant 0 <= i <= |bytes|
        invariant forall k :: 0 <= k < readLen ==> readBuf[k] == old(readBuf[k])
        invariant forall k :: readLen <= k < readLen + i ==> readBuf[k] == bytes[k - readLen]
        modifies readBuf
      {
        readBuf[readLen + i] := bytes[i];
        i := i + 1;
      }
      readLen := readLen + |bytes|;
    }

    /** memmove of the bytes behind the first n to the front. */
    method Shift(n: nat)
      requires Valid() && n <= readLen
      modifies this`readLen, readBuf
      ensures Valid() && Retained() == old(Retained())[n..]
    {
      ghost var was := Retained();
      var rest := readLen - n;
      var i := 0;
      while i < rest
        invariant 0 <= i <= rest
        invariant forall k :: 0 <= k < i ==> readBuf[k] == was[k + n]
        invariant forall k :: i <= k < readLen ==> readBuf[k] == was[k]
        modifies readBuf
      {
        readBuf[i] := readBuf[i + n];
        i := i + 1;
      }
      readLen := rest;
    }

    /** What the whole loop still hands on, from the bytes now retained. */
    ghost function Pending(): Parse
      reads this, readBuf
      requires Valid()
    {
      Process(Retained())
    }

    /** Delivers the frame in front and moves the bytes behind it to the front. */
    method HandOn(n: nat)
      requires Valid() && GoodLength(n) && HEADER + n <= readLen && ReadLength(Retained()) == n
      modifies this`readLen, this`delivered, readBuf
      ensures Valid() && readLen < old(readLen)
      ensures delivered + Pending().delivered == old(delivered) + old(Pending()).delivered
      ensures Pending().rest == old(Pending()).rest
    {
      ghost var buf, before := Retained(), delivered;
      var frame := readBuf[HEADER..HEADER + n];
      assert frame == buf[HEADER..HEADER + n];
      delivered := delivered + [frame];
      Shift(HEADER + n);
      ProcessStep(buf);
      Regroup(before, frame, Process(buf[HEADER + n..]).delivered);
    }

    /** The loop body of process_stream_data: clears the buffer, waits, or hands one frame on. */
    method TakeFrame() returns (more: bool)
      requires Valid() && readLen >= HEADER
      modifies this`readLen, this`delivered, readBuf
      ensures Valid() && (more ==> readLen < old(readLen))
      ensures delivered + Pending().delivered == old(delivered) + old(Pending()).delivered
      ensures Pending().rest == old(Pending()).rest
      ensures !more ==> Pending() == Parse([], Retained())
    {
      ghost var buf := Retained();
      var n := Word(readBuf[0], readBuf[1], readBuf[2], readBuf[3]);
      assert n == ReadLength(buf);
      if !(0 < n <= MAX_FRAME) {
        readLen := 0;
        assert Retained() == [];
        return false;
      }
      if readLen < HEADER + n { return false; }
      HandOn(n);
      return true;
    }

    /** process_stream_data: complete frames are handed on one by one. */
    method ProcessData()
      requires Valid()
      modifies this`readLen, this`delivered, readBuf
      ensures Valid() && delivered == old(delivered) + old(Pending()).delivered
      ensures Retained() == old(Pending()).rest
    {
      var more := true;
      while more && readLen >= HEADER
        invariant Valid()
        invariant delivered + Pending().delivered == old(delivered) + old(Pending()).delivered
        invariant Pending().rest == old(Pending()).rest
        invariant !more ==> Pending() == Parse([], Retained())
        decreases more, readLen
      {
        more := TakeFrame();
      }
      assert delivered + [] == delivered;
    }

    /** One receive event, made of several network buffers. */
    method ReceiveEvent(buffers: seq<seq<Byte>>)
      requires Valid()
      modifies this, readBuf
      ensures Valid() && (readBuf == old(readBuf) || fresh(readBuf))
      ensures var r := Receive(old(Retained()), Concat(buffers));
              delivered == old(delivered) + r.delivered && Retained() == r.rest
    {
      ghost var before := Retained();
      var total := Sum(buffers);
      Grow(readLen + total);
      ghost var cap := readBuf.Length;
      var i := 0;
      while i < |buffers|
        invariant 0 <= i <= |buffers| && Valid() && readBuf.Length == cap && delivered == old(delivered)
        invariant readBuf == old(readBuf) || fresh(readBuf)
        invariant Retained() == before + Concat(buffers[..i])
        invariant cap >= |before| + |Concat(buffers)|
      {
        ConcatPart(buffers, i);
        Append(buffers[i]);
        i := i + 1;
      }
      assert buffers[..i] == buffers;
      ProcessData();
    }
  }

  lemma Regroup<T>(before: seq<T>, x: T, next: seq<T>)
    ensures (before + [x]) + next == before + ([x] + next)
  {
  }

  lemma ProcessStep(buf: seq<Byte>)
    requires |buf| >= HEADER && GoodLength(ReadLength(buf)) && HEADER + ReadLength(buf) <= |buf|
    ensures var n := ReadLength(buf);
            var next := Process(buf[HEADER + n..]);
            Process(buf) == Parse([buf[HEADER..HEADER + n]] + next.delivered, next.rest)
  {
  }

  method Sum(buffers: seq<seq<Byte>>) returns (n: nat)
    ensures n == |Concat(buffers)|
  {
    n := 0;
    var i := 0;
    while i < |buffers|
      invariant 0 <= i <= |buffers| && n == |Concat(buffers[..i])|
    {
      ConcatPart(buffers, i);
      n := n + |buffers[i]|;
      i := i + 1;
    }
    assert buffers[..i] == buffers;
  }

  lemma {:induction false} ConcatPart(buffers: seq<seq<Byte>>, i: nat)
    requires i < |buffers|
    ensures Concat(buffers[..i + 1]) == Concat(buffers[..i]) + buffers[i]
    ensures |Concat(buffers[..i + 1])| <= |Concat(buffers)|
    decreases |buffers|
  {
    assert buffers[..i + 1][..i] == buffers[..i];
    var n := |buffers| - 1;
    if i < n {
      ConcatPart(buffers[..n], i);
      assert buffers[..n][..i + 1] == buffers[..i + 1];
    } else {
      assert buffers[..i + 1] == buffers;
    }
  }
}

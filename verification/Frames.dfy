/**
Length-prefixed frames between the server and a child process: a big-endian 32-bit signed length
followed by that many bytes.  Reads and writes of the pipe may be split anywhere.
 */
module Frames {

  type byte = x: int | 0 <= x < 256

  const TWO_31: int := 0x8000_0000
  const TWO_32: int := 0x1_0000_0000
  const TWO_63: int := 0x8000_0000_0000_0000
  const TWO_64: int := 0x1_0000_0000_0000_0000

  // ------------------------------------------------------------------
  // Headers
  // ------------------------------------------------------------------

  /** The four bytes of `n`, most significant first. */
  function Header(n: nat): (r: seq<byte>)
    requires n < TWO_32
    ensures |r| == 4
  {
    [n / 0x100_0000, n / 0x1_0000 % 0x100, n / 0x100 % 0x100, n % 0x100]
  }

  function Word(b: seq<byte>): (n: nat)
    requires |b| == 4
    ensures n < TWO_32
    ensures b[0] >= 128 <==> n >= TWO_31
  {
    var b0: int, b1: int, b2: int, b3: int := b[0], b[1], b[2], b[3];
    b0 * 0x100_0000 + b1 * 0x1_0000 + b2 * 0x100 + b3
  }

  /** A 32-bit word read as a signed integer. */
  function Signed(w: nat): int {
    if w >= TWO_31 then w - TWO_32 else w
  }

  /** The Rust conversion of an `i32` to a 64-bit `usize`. */
  function AsUsize(i: int): (r: nat)
    requires -TWO_31 <= i < TWO_31
  {
    if i < 0 then i + TWO_64 else i
  }

  lemma HeaderRoundTrip(n: nat)
    requires n < TWO_32
    ensures Word(Header(n)) == n
  {
    var a, b, c := n / 0x100_0000, n / 0x1_0000, n / 0x100;
    assert b / 0x100 == a && c / 0x100 == b;
    assert n == c * 0x100 + n % 0x100 && c == b * 0x100 + c % 0x100 && b == a * 0x100 + b % 0x100;
  }

  /** And the other way round: every four bytes are the header of their word. */
  lemma WordRoundTrip(b: seq<byte>)
    requires |b| == 4
    ensures Header(Word(b)) == b
  {
    var b0: int, b1: int, b2: int, b3: int := b[0], b[1], b[2], b[3];
    var n := Word(b);
    assert n == ((b0 * 0x100 + b1) * 0x100 + b2) * 0x100 + b3;
    assert n / 0x100 == (b0 * 0x100 + b1) * 0x100 + b2 && n % 0x100 == b3;
    assert n / 0x1_0000 == b0 * 0x100 + b1 && n / 0x100 % 0x100 == b2;
    assert n / 0x100_0000 == b0 && n / 0x1_0000 % 0x100 == b1;
    assert Header(n) == [b0, b1, b2, b3] == b;
  }

  /** The order of a dictionary on byte strings of one length. */
  predicate LexLess(a: seq<byte>, b: seq<byte>)
    requires |a| == |b|
  {
    a != [] && (a[0] < b[0] || (a[0] == b[0] && LexLess(a[1..], b[1..])))
  }

  lemma LexLessFour(a: seq<byte>, b: seq<byte>)
    requires |a| == |b| == 4
    ensures LexLess(a, b) <==>
              || a[0] < b[0]
              || (a[0] == b[0] && a[1] < b[1])
              || (a[0] == b[0] && a[1] == b[1] && a[2] < b[2])
              || (a[0] == b[0] && a[1] == b[1] && a[2] == b[2] && a[3] < b[3])
  {
    var a1, b1 := a[1..], b[1..];
    var a2, b2 := a1[1..], b1[1..];
    var a3, b3 := a2[1..], b2[1..];
    assert LexLess(a3, b3) <==> a3[0] < b3[0] by { assert a3[1..] == [] && b3[1..] == []; }
    assert LexLess(a2, b2) <==> a2[0] < b2[0] || (a2[0] == b2[0] && LexLess(a3, b3));
    assert LexLess(a1, b1) <==> a1[0] < b1[0] || (a1[0] == b1[0] && LexLess(a2, b2));
  }

  /** Most significant byte first: headers compare as byte strings the way their lengths do. */
  lemma HeadersCompareAsLengths(m: nat, n: nat)
    requires m < TWO_32 && n < TWO_32
    ensures m < n <==> LexLess(Header(m), Header(n))
  {
    HeaderRoundTrip(m);
    HeaderRoundTrip(n);
    LexLessFour(Header(m), Header(n));
  }

  // ------------------------------------------------------------------
  // Reading in the server
  // ------------------------------------------------------------------

  /** `Stalled` is the body loop reading end of file for ever. */
  datatype ReadResult = Payload(data: seq<byte>) | NoPayload | Overflow | UnexpectedEof | Stalled

  /** `read_bytes` on everything that is left in the pipe: what it returns and what it leaves. */
  function ReadFrame(input: seq<byte>, capacity: nat): (r: (ReadResult, seq<byte>))
    ensures |r.1| <= |input| && (r.0.Payload? ==> |r.1| < |input|)
  {
    if |input| < 4 then (UnexpectedEof, [])
    else
      var size, body := AsUsize(Signed(Word(input[..4]))), input[4..];
      if size > capacity then (Overflow, body)
      else if size == 0 then (NoPayload, body)
      else if size > |body| then (Stalled, [])
      else (Payload(body[..size]), body[size..])
  }

  /** What `Connection.send_bytes` puts on the pipe. */
  function Frame(p: seq<byte>): seq<byte>
    requires |p| < TWO_31
  {
    Header(|p|) + p
  }

  /** Every frame of the child, whatever follows it: exactly which ones the server recovers. */
  lemma FrameOutcome(p: seq<byte>, rest: seq<byte>, capacity: nat)
    requires |p| < TWO_31
    ensures var (r, left) := ReadFrame(Frame(p) + rest, capacity);
            && (r == Payload(p) && left == rest <==> 1 <= |p| <= capacity)
            && (r == NoPayload <==> |p| == 0)
            && (r == Overflow <==> |p| > capacity)
            && left == if |p| <= capacity then rest else p + rest
  {
    HeaderRoundTrip(|p|);
    var input := Frame(p) + rest;
    assert input[..4] == Header(|p|) && input[4..] == p + rest;
    assert (p + rest)[..|p|] == p && (p + rest)[|p|..] == rest;
  }

  /** Whatever is in the pipe, what is read as a payload was there as a frame. */
  lemma PayloadWasFrame(input: seq<byte>, capacity: nat)
    requires capacity < TWO_63
    ensures var (r, left) := ReadFrame(input, capacity);
            && (r.Payload? ==> 0 < |r.data| < TWO_31 && |r.data| <= capacity && input == Frame(r.data) + left)
            && (r == NoPayload ==> input == Frame([]) + left)
  {
    var (r, left) := ReadFrame(input, capacity);
    if r.Payload? || r == NoPayload {
      WordRoundTrip(input[..4]);
      assert input == input[..4] + input[4..];
      if r.Payload? {
        assert input[4..] == r.data + left;
      }
    }
  }

  /** And each failure has its one cause. */
  lemma ReadFailsIff(input: seq<byte>, capacity: nat)
    requires capacity < TWO_63
    ensures var (r, left) := ReadFrame(input, capacity);
            && (r == UnexpectedEof <==> |input| < 4)
            && (r == Overflow <==> |input| >= 4 && (input[0] >= 128 || Word(input[..4]) > capacity))
            && (r == Overflow ==> left == input[4..])
            && (r == Stalled <==> |input| >= 4 && input[0] < 128 && |input| - 4 < Word(input[..4]) <= capacity)
  {
    if |input| >= 4 {
      assert input[..4][0] == input[0];
    }
  }

  /** What follows a frame that was read, or refused, does not matter to the read. */
  lemma ReadFrameExtends(input: seq<byte>, next: seq<byte>, capacity: nat)
    requires !ReadFrame(input, capacity).0.UnexpectedEof? && !ReadFrame(input, capacity).0.Stalled?
    ensures var (r, left) := ReadFrame(input, capacity); ReadFrame(input + next, capacity) == (r, left + next)
  {
    var all := input + next;
    assert all[..4] == input[..4] && all[4..] == input[4..] + next;
    var size, body := AsUsize(Signed(Word(input[..4]))), input[4..];
    if size <= |body| {
      assert (body + next)[..size] == body[..size] && (body + next)[size..] == body[size..] + next;
    }
  }

  /** A header with the sign bit set is always refused: no buffer is that large. */
  lemma SignBitOverflows(input: seq<byte>, capacity: nat)
    requires |input| >= 4 && input[0] >= 128 && capacity < TWO_63
    ensures ReadFrame(input, capacity).0 == Overflow
  {
    assert input[..4][0] == input[0];
  }

  /** The lengths can be packed into a header. */
  predicate Sendable(ps: seq<seq<byte>>) {
    forall i | 0 <= i < |ps| :: |ps[i]| < TWO_31
  }

  function FramesOf(ps: seq<seq<byte>>): seq<byte>
    requires Sendable(ps)
  {
    if ps == [] then [] else Frame(ps[0]) + FramesOf(ps[1..])
  }

  /** Reads `n` frames; not in full when one of them is not a payload. */
  function ReadFrames(input: seq<byte>, n: nat, capacity: nat): (bool, seq<seq<byte>>, seq<byte>)
    decreases n
  {
    if n == 0 then (true, [], input)
    else
      var (r, more) := ReadFrame(input, capacity);
      if !r.Payload? then (false, [], more)
      else
        var (ok, ps, left) := ReadFrames(more, n - 1, capacity);
        (ok, [r.data] + ps, left)
  }

  predicate AllFit(ps: seq<seq<byte>>, capacity: nat) {
    forall i | 0 <= i < |ps| :: 1 <= |ps[i]| <= capacity
  }

  /** A list of payloads is recovered in full exactly when each one fits. */
  lemma {:induction false} FramesRoundTrip(ps: seq<seq<byte>>, rest: seq<byte>, capacity: nat)
    requires Sendable(ps)
    ensures var r := ReadFrames(FramesOf(ps) + rest, |ps|, capacity);
            if AllFit(ps, capacity) then r == (true, ps, rest) else r.0 == false || r.1 != ps
    decreases |ps|
  {
    if ps == [] {
      assert FramesOf(ps) + rest == rest;
    } else {
      var p, tail := ps[0], ps[1..];
      var more := FramesOf(tail) + rest;
      assert FramesOf(ps) + rest == Frame(p) + more;
      FitSplit(ps, capacity);
      assert ps == [p] + tail;
      if 1 <= |p| <= capacity {
        FrameOutcome(p, more, capacity);
        FramesRoundTrip(tail, rest, capacity);
        ReadFramesCons(Frame(p) + more, p, more, |tail|, capacity);
      } else {
        MisfitStopsReading(p, more, |tail|, capacity);
      }
    }
  }

  lemma MisfitStopsReading(p: seq<byte>, more: seq<byte>, n: nat, capacity: nat)
    requires |p| < TWO_31 && !(1 <= |p| <= capacity)
    ensures !ReadFrames(Frame(p) + more, n + 1, capacity).0
  {
    FrameOutcome(p, more, capacity);
  }

  lemma ReadFramesCons(input: seq<byte>, p: seq<byte>, more: seq<byte>, n: nat, capacity: nat)
    requires ReadFrame(input, capacity) == (Payload(p), more)
    ensures var r := ReadFrames(more, n, capacity);
            ReadFrames(input, n + 1, capacity) == (r.0, [p] + r.1, r.2) && ([p] + r.1)[1..] == r.1
  {
  }

  lemma FitSplit(ps: seq<seq<byte>>, capacity: nat)
    requires ps != []
    ensures AllFit(ps, capacity) <==> 1 <= |ps[0]| <= capacity && AllFit(ps[1..], capacity)
  {
    assert ps == [ps[0]] + ps[1..];
  }

  // ------------------------------------------------------------------
  // Reading in the child
  // ------------------------------------------------------------------

  datatype RecvResult = Message(data: seq<byte>) | Closed | BadSize | ShortHeader | Starved

  /** `Connection.recv` on everything that is left in the pipe. */
  function RecvFrame(input: seq<byte>): (RecvResult, seq<byte>) {
    if input == [] then (Closed, [])
    else if |input| < 4 then (ShortHeader, [])
    else
      var size, body := Signed(Word(input[..4])), input[4..];
      if size < 0 then (BadSize, body)
      else if size > |body| then (Starved, [])
      else (Message(body[..size]), body[size..])
  }

  /** The child's side of the same: what it reads was there as a frame, and each failure has its one cause. */
  lemma RecvFrameOutcome(input: seq<byte>)
    ensures var (r, left) := RecvFrame(input);
            && (r.Message? ==> |r.data| < TWO_31 && input == Frame(r.data) + left)
            && (r == Closed <==> input == [])
            && (r == ShortHeader <==> 0 < |input| < 4)
            && (r == BadSize <==> |input| >= 4 && input[0] >= 128)
            && (r == Starved <==> |input| >= 4 && input[0] < 128 && Word(input[..4]) > |input| - 4)
  {
    if |input| >= 4 {
      WordRoundTrip(input[..4]);
      assert input == input[..4] + input[4..] && input[..4][0] == input[0];
      var r := RecvFrame(input).0;
      if r.Message? {
        assert input[4..] == r.data + RecvFrame(input).1;
      }
    }
  }

  /** What `put_message` writes: the length is truncated to 32 bits. */
  function PutFrame(p: seq<byte>): seq<byte> {
    Header(|p| % TWO_32) + p
  }

  /** A message reaches the child intact exactly when its length fits in 31 bits. */
  lemma PutRecvRoundTrip(p: seq<byte>, rest: seq<byte>)
    ensures RecvFrame(PutFrame(p) + rest) == (Message(p), rest) <==> |p| < TWO_31
  {
    var n := |p| % TWO_32;
    HeaderRoundTrip(n);
    var input := PutFrame(p) + rest;
    assert input[..4] == Header(n) && input[4..] == p + rest;
    if |p| < TWO_31 {
      assert (p + rest)[..|p|] == p && (p + rest)[|p|..] == rest;
    } else if RecvFrame(input).0.Message? {
      assert |RecvFrame(input).0.data| == Signed(n) != |p|;
    }
  }

  // ------------------------------------------------------------------
  // The pipes
  // ------------------------------------------------------------------

  /** The server end of a child's standard output, with its fixed buffer. */
  class Pipe {
    var stdout: seq<byte>
    const buffer: array<byte>

    constructor (stdout: seq<byte>, bufferSize: nat)
      ensures this.stdout == stdout && buffer.Length == bufferSize && fresh(buffer)
    {
      this.stdout := stdout;
      buffer := new byte[bufferSize];
    }

    /** Reads into the buffer at `from`: at least one byte and at most as many as asked for, none at end of file. */
    method ReadSome(from: nat, to: nat) returns (n: nat)
      requires from < to <= buffer.Length
      modifies this, buffer
      ensures n <= to - from && n <= |old(stdout)| && stdout == old(stdout)[n..]
      ensures n == 0 <==> old(stdout) == []
      ensures buffer[..from + n] == old(buffer[..from]) + old(stdout)[..n]
    {
      if stdout == [] {
        return 0;
      }
      n :| 0 < n <= to - from && n <= |stdout|;
      forall i | 0 <= i < n {
        buffer[from + i] := stdout[i];
      }
      stdout := stdout[n..];
    }

    /**
    `read_bytes`; the payload is left at the start of the buffer.  At end of file inside a body the
    loop reads nothing for ever: however patient the caller is, it gives up in the end.
     */
    method ReadBytes(patience: nat) returns (r: ReadResult)
      modifies this, buffer
      ensures (r, stdout) == ReadFrame(old(stdout), buffer.Length)
    {
      if |stdout| < 4 {
        stdout := [];
        return UnexpectedEof;
      }
      var size := AsUsize(Signed(Word(stdout[..4])));
      stdout := stdout[4..];
      ghost var body := stdout;
      if size > buffer.Length {
        return Overflow;
      }
      if size == 0 {
        return NoPayload;
      }
      var idle := 0;
      var len := ReadSome(0, size);
      while len < size
        invariant len <= size && len <= |body| && idle <= patience
        invariant stdout == body[len..] && buffer[..len] == body[..len]
        decreases size - len, patience - idle
      {
        var n := ReadSome(len, size);
        if n == 0 {
          if idle == patience {
            return Stalled;
          }
          idle := idle + 1;
        }
        assert body[..len] + body[len..][..n] == body[..len + n];
        len := len + n;
      }
      return Payload(buffer[..size]);
    }
  }

  /** The child end: its standard output, and the flag set when the request is cancelled. */
  class Connection {
    var output: seq<byte>
    var input: seq<byte>
    var cancelled: bool

    constructor (input: seq<byte>)
      ensures output == [] && this.input == input && !cancelled
    {
      output, this.input, cancelled := [], input, false;
    }

    /** Writes at least one byte. */
    method WriteSome(data: seq<byte>) returns (n: nat)
      requires data != []
      modifies `output
      ensures 0 < n <= |data| && output == old(output) + data[..n]
    {
      n :| 0 < n <= |data|;
      output := output + data[..n];
    }

    method Cancel()
      modifies `cancelled
      ensures cancelled
    {
      cancelled := true;
    }

    /** Returns false when the length cannot be packed. */
    method SendBytes(data: seq<byte>) returns (ok: bool)
      modifies `output
      ensures ok == (cancelled || |data| < TWO_31)
      ensures output == old(output) + if ok && !cancelled then Frame(data) else []
    {
      ok := true;
      if !cancelled {
        var size := |data|;
        if size >= TWO_31 {
          return false;
        }
        output := output + Header(size);
        if data != [] {
          ghost var start := output;
          var written := 0;
          while written < size
            invariant 0 <= written <= size && output == start + data[..written]
          {
            var n := WriteSome(data[written..]);
            assert data[..written] + data[written..][..n] == data[..written + n];
            written := written + n;
          }
          assert data[..size] == data;
        }
      }
    }

    /** Reads at least one byte and at most `most`, none at end of file. */
    method ReadSome(most: nat) returns (chunk: seq<byte>)
      requires most > 0
      modifies `input
      ensures |chunk| <= most && old(input) == chunk + input && (chunk == [] <==> old(input) == [])
    {
      if input == [] {
        return [];
      }
      var n :| 0 < n <= most && n <= |input|;
      chunk := input[..n];
      input := input[n..];
    }

    /** As in the server, a body cut short by end of file is waited for until the caller's patience ends. */
    method Recv(patience: nat) returns (r: RecvResult)
      modifies `input, `cancelled
      ensures !cancelled && (r, input) == RecvFrame(old(input))
    {
      cancelled := false;
      if input == [] {
        return Closed;
      }
      if |input| < 4 {
        input := [];
        return ShortHeader;
      }
      var size := Signed(Word(input[..4]));
      input := input[4..];
      ghost var body := input;
      if size < 0 {
        return BadSize;
      }
      var data: seq<byte>, idle := [], 0;
      var remaining: nat := size;
      while remaining > 0
        invariant |data| + remaining == size && body == data + input && !cancelled && idle <= patience
        decreases remaining, patience - idle
      {
        var chunk := ReadSome(remaining);
        if chunk == [] {
          if idle == patience {
            return Starved;
          }
          idle := idle + 1;
        }
        remaining := remaining - |chunk|;
        data := data + chunk;
      }
      assert data == body[..size] && input == body[size..];
      return Message(data);
    }
  }

  /** The child's side: one frame per payload, whatever the splitting of the writes. */
  method SendAll(payloads: seq<seq<byte>>) returns (written: seq<byte>)
    requires Sendable(payloads)
    ensures written == FramesOf(payloads)
  {
    var child := new Connection([]);
    var i := 0;
    while i < |payloads|
      invariant 0 <= i <= |payloads| && !child.cancelled
      invariant child.output == FramesOf(payloads[..i])
      modifies child
    {
      var ok := child.SendBytes(payloads[i]);
      FramesSnoc(payloads[..i], payloads[i]);
      assert payloads[..i] + [payloads[i]] == payloads[..i + 1];
      i := i + 1;
    }
    assert payloads[..|payloads|] == payloads;
    written := child.output;
  }

  /** For every list of payloads that fit, and every split into reads and writes, the server gets the same list. */
  method Transfer(payloads: seq<seq<byte>>, bufferSize: nat) returns (received: seq<seq<byte>>)
    requires AllFit(payloads, bufferSize) && Sendable(payloads)
    ensures received == payloads
  {
    var written := SendAll(payloads);
    var pipe := new Pipe(written, bufferSize);
    received := [];
    ghost var left := payloads;
    while |received| < |payloads|
      invariant |received| <= |payloads| && payloads == received + left
      invariant AllFit(left, bufferSize) && Sendable(left)
      invariant pipe.stdout == FramesOf(left)
      modifies pipe, pipe.buffer
    {
      ghost var head, tail := left[0], left[1..];
      FirstFrame(left, bufferSize);
      var r := pipe.ReadBytes(0);
      assert r == Payload(head) && pipe.stdout == FramesOf(tail);
      MoveOne(received, left);
      received := received + [r.data];
      left := tail;
    }
  }

  lemma MoveOne<T>(done: seq<T>, left: seq<T>)
    requires left != []
    ensures done + left == (done + [left[0]]) + left[1..]
  {
  }

  lemma FirstFrame(ps: seq<seq<byte>>, capacity: nat)
    requires ps != [] && AllFit(ps, capacity) && Sendable(ps)
    ensures AllFit(ps[1..], capacity) && Sendable(ps[1..])
    ensures ReadFrame(FramesOf(ps), capacity) == (Payload(ps[0]), FramesOf(ps[1..]))
  {
    FrameOutcome(ps[0], FramesOf(ps[1..]), capacity);
  }

  lemma {:induction false} FramesSnoc(ps: seq<seq<byte>>, p: seq<byte>)
    requires |p| < TWO_31 && Sendable(ps)
    ensures FramesOf(ps + [p]) == FramesOf(ps) + Frame(p)
  {
    if ps == [] {
      assert ps + [p] == [p] && [p][1..] == [];
    } else {
      assert (ps + [p])[1..] == ps[1..] + [p];
      FramesSnoc(ps[1..], p);
    }
  }
}

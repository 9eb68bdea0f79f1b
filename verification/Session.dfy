/**
Envelopes and streams on top of the frames: what the server reads from a child for each kind of
request, and when the response to one request does not leak into the next.
 */
module Session {
  import opened Wrappers
  import opened Frames

  /** A packed value that the child sends: a bare integer or a (status, message) pair. */
  datatype Wire<T> = Scalar(v: int) | Pair(status: int, body: T)

  /** The encoding of values, which is not modelled any further, and the size of the server's buffer. */
  datatype Link<!T> = Link(pack: Wire<T> -> seq<byte>, unpack: seq<byte> -> Option<Wire<T>>, capacity: nat)

  /** Packed values are not empty and unpack to themselves. */
  ghost predicate ValidLink<T(!new)>(k: Link<T>) {
    forall w: Wire<T> :: |k.pack(w)| > 0 && k.unpack(k.pack(w)) == Some(w)
  }

  datatype Envelop<T> = NoData | ByteChunk | Success(status: int, body: T) | Failure(status: int, body: T)

  /** `Waiting` is a read that the child never completes. */
  datatype Error<T> =
    | ResponseError(status: int, body: T)
    | NoDataResponse
    | UnexpectedResponse
    | ResponseExpected
    | EmptyChunk
    | DecodeError
    | BufferOverflow
    | EndOfPipe
    | Waiting

  datatype Result<T, R> = Ok(value: R) | Err(error: Error<T>)

  /** One read of a stream: go on with a value, or stop with an optional last one. */
  datatype Flow<R> = Continue(item: R) | Break(last: Option<R>)

  // ------------------------------------------------------------------
  // Reading
  // ------------------------------------------------------------------

  function Decode<T>(w: Wire<T>): Result<T, Envelop<T>> {
    match w
    case Scalar(v) => if v == 204 then Ok(NoData) else if v == 206 then Ok(ByteChunk) else Err(DecodeError)
    case Pair(status, body) => if IsFailure(status) then Ok(Failure(status, body)) else Ok(Success(status, body))
  }

  predicate IsFailure(status: int) {
    status != 200 && status != 206
  }

  /** The content of a frame, `missing` being the error for an empty one. */
  function Content<T>(r: ReadResult, missing: Error<T>): Result<T, seq<byte>> {
    match r
    case Payload(data) => Ok(data)
    case NoPayload => Err(missing)
    case Overflow => Err(BufferOverflow)
    case UnexpectedEof => Err(EndOfPipe)
    case Stalled => Err(Waiting)
  }

  /** Unpacks and decodes the content of a frame. */
  function Open<T>(k: Link<T>, r: ReadResult): Result<T, Envelop<T>> {
    match Content<T>(r, ResponseExpected)
    case Err(e) => Err(e)
    case Ok(data) =>
      match k.unpack(data)
      case None => Err(DecodeError)
      case Some(w) => Decode(w)
  }

  function ReadEnvelop<T>(k: Link<T>, input: seq<byte>): (Result<T, Envelop<T>>, seq<byte>) {
    var (r, more) := ReadFrame(input, k.capacity);
    (Open(k, r), more)
  }

  function AsResponse<T>(e: Result<T, Envelop<T>>): Result<T, (int, T)> {
    match e
    case Ok(Success(status, body)) => Ok((status, body))
    case Ok(Failure(status, body)) => Err(ResponseError(status, body))
    case Ok(NoData) => Err(NoDataResponse)
    case Ok(ByteChunk) => Err(UnexpectedResponse)
    case Err(error) => Err(error)
  }

  function ReadResponse<T>(k: Link<T>, input: seq<byte>): (Result<T, (int, T)>, seq<byte>) {
    var (e, more) := ReadEnvelop(k, input);
    (AsResponse(e), more)
  }

  function AsObject<T>(e: Result<T, Envelop<T>>): Result<T, Flow<T>> {
    match e
    case Ok(Success(status, body)) => if status == 206 then Ok(Continue(body)) else Ok(Break(Some(body)))
    case Ok(Failure(status, body)) => Err(ResponseError(status, body))
    case Ok(NoData) => Ok(Break(None))
    case Ok(ByteChunk) => Err(UnexpectedResponse)
    case Err(error) => Err(error)
  }

  function ReadStream<T>(k: Link<T>, input: seq<byte>): (Result<T, Flow<T>>, seq<byte>) {
    var (e, more) := ReadEnvelop(k, input);
    (AsObject(e), more)
  }

  /** What an envelope that announces no chunk means to a byte stream. */
  function AsChunkEnd<T>(e: Result<T, Envelop<T>>): Result<T, Flow<seq<byte>>>
    requires e != Ok(ByteChunk)
  {
    match e
    case Ok(NoData) => Ok(Break(None))
    case Ok(Failure(status, body)) => Err(ResponseError(status, body))
    case Ok(Success(status, body)) => Err(ResponseError(status, body))
    case Err(error) => Err(error)
  }

  function AsChunk<T>(r: ReadResult): Result<T, Flow<seq<byte>>> {
    match Content<T>(r, EmptyChunk)
    case Ok(data) => Ok(Continue(data))
    case Err(e) => Err(e)
  }

  /** A chunk is announced by one frame and carried by the next, which is not unpacked. */
  function ReadChunk<T>(k: Link<T>, input: seq<byte>): (r: (Result<T, Flow<seq<byte>>>, seq<byte>))
    ensures r.0.Ok? ==> |r.1| < |input|
  {
    var (e, more) := ReadEnvelop(k, input);
    if e == Ok(ByteChunk) then
      var (r, rest) := ReadFrame(more, k.capacity);
      (AsChunk(r), rest)
    else (AsChunkEnd(e), more)
  }

  // ------------------------------------------------------------------
  // Streams
  // ------------------------------------------------------------------

  /** What a stream delivers to its consumer, in order. */
  datatype Output<T, R> = Item(item: R) | Fault(error: Error<T>)

  type Outputs<T> = seq<Output<T, seq<byte>>>

  /** Reads a byte stream to its end: an error is delivered and then ends it. */
  function StreamBytes<T>(k: Link<T>, input: seq<byte>): (seq<Output<T, seq<byte>>>, seq<byte>)
    decreases |input|
  {
    var (r, more) := ReadChunk(k, input);
    match r
    case Ok(Continue(data)) => var (out, left) := StreamBytes(k, more); ([Item(data)] + out, left)
    case Ok(Break(_)) => ([], more)
    case Err(e) => ([Fault(e)], more)
  }

  function StreamObjects<T>(k: Link<T>, input: seq<byte>): (seq<Output<T, T>>, seq<byte>)
    decreases |input|
  {
    var (r, more) := ReadStream(k, input);
    match r
    case Ok(Continue(x)) => var (out, left) := StreamObjects(k, more); ([Item(x)] + out, left)
    case Ok(Break(None)) => ([], more)
    case Ok(Break(Some(x))) => ([Item(x)], more)
    case Err(e) => ([Fault(e)], more)
  }

  // ------------------------------------------------------------------
  // What the child sends
  // ------------------------------------------------------------------

  function SendChunk<T>(k: Link<T>, data: seq<byte>): seq<seq<byte>> {
    if |data| > 0 then [k.pack(Scalar(206)), data] else [k.pack(Scalar(204))]
  }

  function SendChunks<T>(k: Link<T>, chunks: seq<seq<byte>>): seq<seq<byte>> {
    if chunks == [] then [] else SendChunk(k, chunks[0]) + SendChunks(k, chunks[1..])
  }

  function SendObjects<T>(k: Link<T>, items: seq<T>): seq<seq<byte>> {
    if items == [] then [] else [k.pack(Pair(206, items[0]))] + SendObjects(k, items[1..])
  }

  /**
  How the child ends a byte stream: with the sentinel and then the report, if one was asked for;
  with the error of a handler that raises before the sentinel; or with the sentinel and the error
  of a handler that raises after it, in place of a report.
   */
  datatype Ending<T> = Complete(report: T) | Broken(status: int, body: T) | Late(status: int, body: T)

  /** One request and what the child answers to it. */
  datatype Exchange<T> =
    | Simple(status: int, body: T)
    | Refused(wantsReport: bool, status: int, body: T)
    | Bytes(head: T, chunks: seq<seq<byte>>, wantsReport: bool, ending: Ending<T>)
    | Objects(items: seq<T>, failure: Option<(int, T)>)

  predicate WellFormed<T>(x: Exchange<T>) {
    match x
    case Simple(_, _) => true
    case Refused(_, status, _) => IsFailure(status)
    case Bytes(_, chunks, _, ending) => NonEmpty(chunks) && (ending.Complete? || IsFailure(ending.status))
    case Objects(_, failure) => failure.Some? ==> IsFailure(failure.value.0)
  }

  predicate NonEmpty(chunks: seq<seq<byte>>) {
    forall i | 0 <= i < |chunks| :: |chunks[i]| > 0
  }

  /** The frame that ends a byte stream. */
  function StopOf<T>(ending: Ending<T>): Wire<T> {
    if ending.Broken? then Pair(ending.status, ending.body) else Scalar(204)
  }

  /** The frames behind it. */
  function AfterStop<T>(k: Link<T>, wantsReport: bool, ending: Ending<T>): seq<seq<byte>> {
    match ending
    case Complete(report) => if wantsReport then [k.pack(Pair(200, report))] else []
    case Broken(_, _) => []
    case Late(status, body) => [k.pack(Pair(status, body))]
  }

  /** The frame that ends an object stream. */
  function LastOf<T>(failure: Option<(int, T)>): Wire<T> {
    if failure.Some? then Pair(failure.value.0, failure.value.1) else Scalar(204)
  }

  /** The frames of a response, by their contents. */
  function ResponseTo<T>(k: Link<T>, x: Exchange<T>): seq<seq<byte>> {
    match x
    case Simple(status, body) => [k.pack(Pair(status, body))]
    case Refused(_, status, body) => [k.pack(Pair(status, body))]
    case Bytes(head, chunks, wantsReport, ending) =>
      var stop, after := k.pack(StopOf(ending)), AfterStop(k, wantsReport, ending);
      [k.pack(Pair(200, head))] + (SendChunks(k, chunks) + ([stop] + after))
    case Objects(items, failure) => SendObjects(k, items) + [k.pack(LastOf(failure))]
  }

  // ------------------------------------------------------------------
  // What the server does with it
  // ------------------------------------------------------------------

  /** What the server knows of a request before it reads the response. */
  datatype Kind = SimpleKind | BytesKind(report: bool) | ObjectsKind

  datatype Answer<T> =
    | Single(reply: Result<T, (int, T)>)
    | ByteAnswer(reply: Result<T, (int, T)>, out: seq<Output<T, seq<byte>>>, report: Option<Result<T, (int, T)>>)
    | ObjectAnswer(items: seq<Output<T, T>>)

  function Serve<T>(k: Link<T>, kind: Kind, input: seq<byte>): (Answer<T>, seq<byte>) {
    match kind
    case SimpleKind => var (r, more) := ReadResponse(k, input); (Single(r), more)
    case BytesKind(report) =>
      var (r, more) := ReadResponse(k, input);
      if r.Err? then (ByteAnswer(r, [], None), more) else ServeStream(k, report, r, more)
    case ObjectsKind => var (out, more) := StreamObjects(k, input); (ObjectAnswer(out), more)
  }

  /** After the head of a byte response: the stream, and the report if one is awaited. */
  function ServeStream<T>(k: Link<T>, report: bool, head: Result<T, (int, T)>, input: seq<byte>):
    (Answer<T>, seq<byte>)
  {
    var (out, rest) := StreamBytes(k, input);
    var (s, last) := ServeReport(k, report, rest);
    (ByteAnswer(head, out, s), last)
  }

  function ServeReport<T>(k: Link<T>, report: bool, input: seq<byte>): (Option<Result<T, (int, T)>>, seq<byte>) {
    if report then var (r, more) := ReadResponse(k, input); (Some(r), more) else (None, input)
  }

  function KindOf<T>(x: Exchange<T>): Kind {
    match x
    case Simple(_, _) => SimpleKind
    case Refused(wantsReport, _, _) => BytesKind(wantsReport)
    case Bytes(_, _, wantsReport, _) => BytesKind(wantsReport)
    case Objects(_, _) => ObjectsKind
  }

  /** The items of a stream, in order and nothing else. */
  function Items<T, R>(rs: seq<R>): seq<Output<T, R>> {
    if rs == [] then [] else [Item(rs[0])] + Items(rs[1..])
  }

  function Reply<T>(status: int, body: T): Result<T, (int, T)> {
    if IsFailure(status) then Err(ResponseError(status, body)) else Ok((status, body))
  }

  function ReportOf<T>(wantsReport: bool, ending: Ending<T>): Option<Result<T, (int, T)>> {
    if !wantsReport || ending.Broken? then None
    else if ending.Complete? then Some(Reply(200, ending.report))
    else Some(Reply(ending.status, ending.body))
  }

  /** The answer that the child meant. */
  function Expected<T>(x: Exchange<T>): Answer<T> {
    match x
    case Simple(status, body) => Single(Reply(status, body))
    case Refused(_, status, body) => ByteAnswer(Reply(status, body), [], None)
    case Bytes(head, chunks, wantsReport, ending) =>
      ByteAnswer(Ok((200, head)),
                 Items(chunks) + (if ending.Broken? then [Fault(ResponseError(ending.status, ending.body))] else []),
                 ReportOf(wantsReport, ending))
    case Objects(items, failure) => ObjectAnswer(Items(items) + LastObject(failure))
  }

  /** What an object stream delivers on reading the frame that ends it: nothing, or one error. */
  function LastObject<T>(failure: Option<(int, T)>): seq<Output<T, T>> {
    if failure.Some? then [Fault(ResponseError(failure.value.0, failure.value.1))] else []
  }

  /**
  The child ends the response where the server stops reading: a handler that raises does so before
  the sentinel if no report is awaited, and after it if one is.
   */
  predicate EndsWhereAwaited<T>(x: Exchange<T>) {
    x.Bytes? ==> EndsOnReport(x.wantsReport, x.ending)
  }

  predicate EndsOnReport<T>(wantsReport: bool, ending: Ending<T>) {
    match ending
    case Complete(_) => true
    case Broken(_, _) => !wantsReport
    case Late(_, _) => wantsReport
  }

  // ------------------------------------------------------------------
  // One frame
  // ------------------------------------------------------------------

  predicate Fits<T>(k: Link<T>, p: seq<byte>) {
    |p| <= k.capacity
  }

  lemma FramesCons(p: seq<byte>, ps: seq<seq<byte>>, rest: seq<byte>)
    requires Sendable([p] + ps) && Sendable(ps) && |p| < TWO_31
    ensures FramesOf([p] + ps) + rest == Frame(p) + (FramesOf(ps) + rest)
  {
    assert ([p] + ps)[1..] == ps;
  }

  lemma FramesOne(p: seq<byte>, rest: seq<byte>)
    requires Sendable([p]) && |p| < TWO_31
    ensures FramesOf([p]) + rest == Frame(p) + rest
  {
    assert [p][1..] == [];
  }

  lemma EnvelopHead<T(!new)>(k: Link<T>, w: Wire<T>, rest: seq<byte>)
    requires ValidLink(k) && |k.pack(w)| < TWO_31
    ensures ReadEnvelop(k, Frame(k.pack(w)) + rest) ==
            if Fits(k, k.pack(w)) then (Decode(w), rest) else (Err(BufferOverflow), k.pack(w) + rest)
  {
    FrameOutcome(k.pack(w), rest, k.capacity);
  }

  /** What each kind of read makes of a (status, message) pair: 200 and 206 are successes, all else is an error. */
  lemma StatusDecides<T(!new)>(k: Link<T>, status: int, body: T, rest: seq<byte>)
    requires ValidLink(k) && |k.pack(Pair(status, body))| < TWO_31 && Fits(k, k.pack(Pair(status, body)))
    ensures var input, error := Frame(k.pack(Pair(status, body))) + rest, ResponseError(status, body);
            && ReadResponse(k, input) ==
               (if status == 200 || status == 206 then Ok((status, body)) else Err(error), rest)
            && ReadStream(k, input) ==
               (if status == 206 then Ok(Continue(body))
                else if status == 200 then Ok(Break(Some(body)))
                else Err(error), rest)
            && ReadChunk(k, input) == (Err(error), rest)
  {
    EnvelopHead(k, Pair(status, body), rest);
  }

  /** And of a bare integer: 204 ends a stream, 206 announces a chunk, nothing else is understood. */
  lemma ScalarDecides<T(!new)>(k: Link<T>, v: int, rest: seq<byte>)
    requires ValidLink(k) && |k.pack(Scalar(v))| < TWO_31 && Fits(k, k.pack(Scalar(v)))
    ensures var input := Frame(k.pack(Scalar(v))) + rest;
            && ReadResponse(k, input) ==
               (Err(if v == 204 then NoDataResponse else if v == 206 then UnexpectedResponse else DecodeError), rest)
            && ReadStream(k, input) ==
               (if v == 204 then Ok(Break(None)) else Err(if v == 206 then UnexpectedResponse else DecodeError), rest)
            && (v != 206 ==> ReadChunk(k, input) == (if v == 204 then Ok(Break(None)) else Err(DecodeError), rest))
  {
    EnvelopHead(k, Scalar(v), rest);
  }

  /** A frame of length zero is an error of its own, in place of a response and in place of a chunk. */
  lemma EmptyFrameDecides<T(!new)>(k: Link<T>, rest: seq<byte>)
    requires ValidLink(k) && |k.pack(Scalar(206))| < TWO_31 && Fits(k, k.pack(Scalar(206)))
    ensures ReadResponse(k, Frame([]) + rest) == (Err(ResponseExpected), rest)
    ensures ReadStream(k, Frame([]) + rest) == (Err(ResponseExpected), rest)
    ensures ReadChunk(k, Frame(k.pack(Scalar(206))) + (Frame([]) + rest)) == (Err(EmptyChunk), rest)
  {
    FrameOutcome([], rest, k.capacity);
    EnvelopHead(k, Scalar(206), Frame([]) + rest);
  }

  lemma ChunkHead<T(!new)>(k: Link<T>, data: seq<byte>, rest: seq<byte>)
    requires ValidLink(k) && 0 < |data| < TWO_31 && |k.pack(Scalar(206))| < TWO_31
    ensures var announced := k.pack(Scalar(206));
            ReadChunk(k, Frame(announced) + (Frame(data) + rest)) ==
            if !Fits(k, announced) then (Err(BufferOverflow), announced + (Frame(data) + rest))
            else if Fits(k, data) then (Ok(Continue(data)), rest)
            else (Err(BufferOverflow), data + rest)
  {
    EnvelopHead(k, Scalar(206), Frame(data) + rest);
    FrameOutcome(data, rest, k.capacity);
  }

  // ------------------------------------------------------------------
  // What a refused frame leaves behind
  // ------------------------------------------------------------------

  /** From the first frame that does not fit on: its content, without its header, and the frames behind it. */
  function Leftover<T>(k: Link<T>, ps: seq<seq<byte>>): seq<byte>
    requires Sendable(ps)
  {
    if ps == [] then []
    else if !Fits(k, ps[0]) then ps[0] + FramesOf(ps[1..])
    else Leftover(k, ps[1..])
  }

  predicate AllFitIn<T>(k: Link<T>, ps: seq<seq<byte>>) {
    forall i | 0 <= i < |ps| :: Fits(k, ps[i])
  }

  lemma {:induction false} NothingLeftIff<T>(k: Link<T>, ps: seq<seq<byte>>)
    requires Sendable(ps)
    ensures Leftover(k, ps) == [] <==> AllFitIn(k, ps)
    decreases |ps|
  {
    if ps != [] {
      NothingLeftIff(k, ps[1..]);
      assert ps == [ps[0]] + ps[1..];
    }
  }

  /** What a byte stream delivers on reading the frame that ends it: nothing, or one error. */
  function LastOutput<T>(w: Wire<T>): seq<Output<T, seq<byte>>>
    requires w != Scalar(206)
  {
    var r := AsChunkEnd(Decode(w));
    if r.Err? then [Fault(r.error)] else []
  }

  ghost predicate EndsIn<T, R>(out: seq<Output<T, R>>, e: Error<T>) {
    out != [] && out[|out| - 1] == Fault(e)
  }

  lemma EndsInAfterItem<T, R>(item: R, out: seq<Output<T, R>>, e: Error<T>)
    requires EndsIn(out, e)
    ensures EndsIn([Item(item)] + out, e)
  {
  }

  lemma StreamStops<T(!new)>(k: Link<T>, w: Wire<T>, rest: seq<byte>)
    requires ValidLink(k) && w != Scalar(206) && Sendable([k.pack(w)])
    ensures StreamBytes(k, FramesOf([k.pack(w)]) + rest) ==
            (if Fits(k, k.pack(w)) then LastOutput(w) else [Fault(BufferOverflow)], Leftover(k, [k.pack(w)]) + rest)
  {
    var p := k.pack(w);
    assert [p][0] == p;
    FramesOne(p, rest);
    EnvelopHead(k, w, rest);
    var none: seq<seq<byte>> := [];
    assert [p][1..] == none && p + FramesOf(none) == p && FramesOf(none) + rest == rest;
  }

  /**
  Whatever chunks the child sends, and whatever other frame after them: the stream delivers the
  chunks in order and stops at that frame if everything fits; otherwise it stops with an overflow
  and leaves the rest of the response from the content of the first frame that does not fit.
   */
  lemma {:induction false} StreamStopsAtFirstOther<T(!new)>(
    k: Link<T>, chunks: seq<seq<byte>>, w: Wire<T>, rest: seq<byte>)
    requires ValidLink(k) && NonEmpty(chunks) && w != Scalar(206)
    requires Sendable(SendChunks(k, chunks) + [k.pack(w)])
    ensures var ps := SendChunks(k, chunks) + [k.pack(w)];
            var (out, left) := StreamBytes(k, FramesOf(ps) + rest);
            && left == Leftover(k, ps) + rest
            && (if AllFitIn(k, ps) then out == Items(chunks) + LastOutput(w) else EndsIn(out, BufferOverflow))
    decreases |chunks|
  {
    var stop := [k.pack(w)];
    if chunks == [] {
      assert SendChunks(k, chunks) + stop == stop;
      StreamStops(k, w, rest);
      assert Items<T, seq<byte>>(chunks) + LastOutput(w) == LastOutput(w);
    } else {
      var a, more := k.pack(Scalar(206)), SendChunks(k, chunks[1..]) + stop;
      assert SendChunks(k, chunks) + stop == [a] + ([chunks[0]] + more);
      BehindTwo(k, a, chunks[0], more);
      StreamTakesChunk(k, chunks[0], more, rest);
      if Fits(k, a) && Fits(k, chunks[0]) {
        StreamStopsAtFirstOther(k, chunks[1..], w, rest);
        ItemsCons(chunks, LastOutput(w));
        var out := StreamBytes(k, FramesOf(more) + rest).0;
        if !AllFitIn(k, more) {
          EndsInAfterItem(chunks[0], out, BufferOverflow);
        }
      }
    }
  }

  lemma ItemsCons<T, R>(rs: seq<R>, last: seq<Output<T, R>>)
    requires rs != []
    ensures Items<T, R>(rs) + last == [Item(rs[0])] + (Items<T, R>(rs[1..]) + last)
  {
  }

  /** The frames that follow two others. */
  lemma BehindTwo<T>(k: Link<T>, a: seq<byte>, d: seq<byte>, more: seq<seq<byte>>)
    requires Sendable([a] + ([d] + more))
    ensures |a| < TWO_31 && |d| < TWO_31 && Sendable(more)
    ensures AllFitIn(k, [a] + ([d] + more)) <==> Fits(k, a) && Fits(k, d) && AllFitIn(k, more)
    ensures Leftover(k, [a] + ([d] + more)) ==
            if !Fits(k, a) then a + (Frame(d) + FramesOf(more))
            else if !Fits(k, d) then d + FramesOf(more)
            else Leftover(k, more)
  {
    var ps, qs := [a] + ([d] + more), [d] + more;
    assert ps[0] == a && ps[1..] == qs && qs[0] == d && qs[1..] == more && ps[1] == d;
    assert forall i | 0 <= i < |more| :: more[i] == ps[i + 2];
    assert forall i | 0 <= i < |qs| :: qs[i] == ps[i + 1];
  }

  lemma FramesBehindTwo(a: seq<byte>, d: seq<byte>, more: seq<seq<byte>>, rest: seq<byte>)
    requires Sendable([a] + ([d] + more)) && |a| < TWO_31 && |d| < TWO_31 && Sendable(more)
    ensures FramesOf([a] + ([d] + more)) + rest == Frame(a) + (Frame(d) + (FramesOf(more) + rest))
  {
    assert forall i | 0 <= i < |[d] + more| :: ([d] + more)[i] == ([a] + ([d] + more))[i + 1];
    FramesCons(a, [d] + more, rest);
    FramesCons(d, more, rest);
  }

  lemma Regroup(a: seq<byte>, b: seq<byte>, c: seq<byte>, d: seq<byte>)
    ensures (a + (b + c)) + d == a + (b + (c + d)) && (b + c) + d == b + (c + d)
  {
  }

  /** A stream goes on after a chunk, and stops after anything else. */
  lemma StreamStep<T>(k: Link<T>, input: seq<byte>, data: seq<byte>, more: seq<byte>)
    ensures ReadChunk(k, input) == (Ok(Continue(data)), more) ==>
              StreamBytes(k, input) == ([Item(data)] + StreamBytes(k, more).0, StreamBytes(k, more).1)
    ensures ReadChunk(k, input) == (Err(BufferOverflow), more) ==>
              StreamBytes(k, input) == ([Fault(BufferOverflow)], more)
  {
  }

  /** The first chunk is delivered, or overflows and is left behind with everything after it. */
  lemma StreamTakesChunk<T(!new)>(k: Link<T>, data: seq<byte>, more: seq<seq<byte>>, rest: seq<byte>)
    requires ValidLink(k) && |data| > 0 && Sendable([k.pack(Scalar(206))] + ([data] + more)) && Sendable(more)
    ensures var a := k.pack(Scalar(206));
            var ps, then_ := [a] + ([data] + more), StreamBytes(k, FramesOf(more) + rest);
            StreamBytes(k, FramesOf(ps) + rest) ==
            if Fits(k, a) && Fits(k, data) then ([Item(data)] + then_.0, then_.1)
            else ([Fault(BufferOverflow)], Leftover(k, ps) + rest)
  {
    var a, frames := k.pack(Scalar(206)), FramesOf(more);
    BehindTwo(k, a, data, more);
    FramesBehindTwo(a, data, more, rest);
    var input := Frame(a) + (Frame(data) + (frames + rest));
    ChunkHead(k, data, frames + rest);
    if !Fits(k, a) {
      Regroup(a, Frame(data), frames, rest);
      StreamStep(k, input, data, a + (Frame(data) + (frames + rest)));
    } else if !Fits(k, data) {
      Regroup([], data, frames, rest);
      StreamStep(k, input, data, data + (frames + rest));
    } else {
      StreamStep(k, input, data, frames + rest);
    }
  }

  // ------------------------------------------------------------------
  // When the next request is aligned
  // ------------------------------------------------------------------

  lemma {:induction false} FramesAppend(ps: seq<seq<byte>>, qs: seq<seq<byte>>)
    requires Sendable(ps + qs) && Sendable(ps) && Sendable(qs)
    ensures FramesOf(ps + qs) == FramesOf(ps) + FramesOf(qs)
    decreases |ps|
  {
    if ps == [] {
      assert ps + qs == qs;
    } else {
      assert (ps + qs)[1..] == ps[1..] + qs;
      FramesAppend(ps[1..], qs);
    }
  }

  lemma SendableSplit(ps: seq<seq<byte>>, qs: seq<seq<byte>>)
    requires Sendable(ps + qs)
    ensures Sendable(ps) && Sendable(qs)
  {
    assert forall i | 0 <= i < |ps| :: ps[i] == (ps + qs)[i];
    assert forall i | 0 <= i < |qs| :: qs[i] == (ps + qs)[|ps| + i];
  }

  lemma FitSplitIn<T>(k: Link<T>, ps: seq<seq<byte>>, qs: seq<seq<byte>>)
    ensures AllFitIn(k, ps + qs) <==> AllFitIn(k, ps) && AllFitIn(k, qs)
  {
    assert forall i | 0 <= i < |ps| :: ps[i] == (ps + qs)[i];
    assert forall i | 0 <= i < |qs| :: qs[i] == (ps + qs)[|ps| + i];
  }

  /**
  The exact condition for a byte stream: after any chunks, any frame that ends it and any frames
  behind that one, the next request is aligned if and only if the ending frame was the last one of
  the response and every frame up to it fits into the buffer.
   */
  lemma AlignedIffStopIsLast<T(!new)>(
    k: Link<T>, chunks: seq<seq<byte>>, w: Wire<T>, tail: seq<seq<byte>>, next: seq<byte>)
    requires ValidLink(k) && NonEmpty(chunks) && w != Scalar(206)
    requires Sendable((SendChunks(k, chunks) + [k.pack(w)]) + tail)
    ensures var ps := SendChunks(k, chunks) + [k.pack(w)];
            StreamBytes(k, FramesOf(ps + tail) + next).1 == next <==> tail == [] && AllFitIn(k, ps)
  {
    var ps := SendChunks(k, chunks) + [k.pack(w)];
    SendableSplit(ps, tail);
    FramesAppend(ps, tail);
    Regroup([], FramesOf(ps), FramesOf(tail), next);
    StreamStopsAtFirstOther(k, chunks, w, FramesOf(tail) + next);
    NothingLeftIff(k, ps);
    NothingInFront(Leftover(k, ps), FramesOf(tail), next);
    assert FramesOf(tail) == [] <==> tail == [];
  }

  /** Chunks and sentinel: the stream delivers the chunks and leaves what follows, iff every frame fits. */
  lemma StreamBytesRoundTrip<T(!new)>(k: Link<T>, chunks: seq<seq<byte>>, next: seq<byte>)
    requires ValidLink(k) && NonEmpty(chunks) && Sendable(SendChunks(k, chunks) + SendChunk(k, []))
    ensures var ps := SendChunks(k, chunks) + SendChunk(k, []);
            StreamBytes(k, FramesOf(ps) + next) == (Items(chunks), next) <==> AllFitIn(k, ps)
  {
    var ps := SendChunks(k, chunks) + SendChunk(k, []);
    assert SendChunk(k, []) == [k.pack(Scalar(204))];
    StreamStopsAtFirstOther(k, chunks, Scalar(204), next);
    var out := Items<T, seq<byte>>(chunks);
    if AllFitIn(k, ps) {
      NothingLeftIff(k, ps);
      assert LastOutput(Wire<T>.Scalar(204)) == [] && out + [] == out && Leftover(k, ps) + next == next;
    } else {
      ItemsAreItems<T, seq<byte>>(chunks);
      assert !EndsIn(out, BufferOverflow);
    }
  }

  lemma NothingInFront(a: seq<byte>, b: seq<byte>, next: seq<byte>)
    ensures a + (b + next) == next <==> a == [] && b == []
  {
    assert |a + (b + next)| == |a| + |b| + |next|;
  }

  lemma ObjectsStop<T(!new)>(k: Link<T>, failure: Option<(int, T)>, rest: seq<byte>)
    requires ValidLink(k) && (failure.Some? ==> IsFailure(failure.value.0)) && Sendable([k.pack(LastOf(failure))])
    ensures var p := k.pack(LastOf(failure));
            StreamObjects(k, FramesOf([p]) + rest) ==
            (if Fits(k, p) then LastObject(failure) else [Fault(BufferOverflow)], Leftover(k, [p]) + rest)
  {
    var p := k.pack(LastOf(failure));
    assert [p][0] == p;
    FramesOne(p, rest);
    EnvelopHead(k, LastOf(failure), rest);
    LeftoverOne(k, p, rest);
  }

  lemma LeftoverOne<T>(k: Link<T>, p: seq<byte>, rest: seq<byte>)
    requires Sendable([p])
    ensures Leftover(k, [p]) + rest == if Fits(k, p) then rest else p + rest
  {
    var none: seq<seq<byte>> := [];
    assert [p][0] == p && [p][1..] == none && p + FramesOf(none) == p && FramesOf(none) + rest == rest;
  }

  /** Objects come out in order up to the end marker, or the stream overflows at the first that does not fit. */
  lemma {:induction false} StreamObjectsRoundTrip<T(!new)>(
    k: Link<T>, items: seq<T>, failure: Option<(int, T)>, rest: seq<byte>)
    requires ValidLink(k) && (failure.Some? ==> IsFailure(failure.value.0))
    requires Sendable(SendObjects(k, items) + [k.pack(LastOf(failure))])
    ensures var ps := SendObjects(k, items) + [k.pack(LastOf(failure))];
            var (out, left) := StreamObjects(k, FramesOf(ps) + rest);
            && left == Leftover(k, ps) + rest
            && (if AllFitIn(k, ps) then out == Items(items) + LastObject(failure) else EndsIn(out, BufferOverflow))
    decreases |items|
  {
    var last := [k.pack(LastOf(failure))];
    if items == [] {
      assert SendObjects(k, items) + last == last && Items<T, T>(items) + LastObject(failure) == LastObject(failure);
      ObjectsStop(k, failure, rest);
    } else {
      var p, more := k.pack(Pair(206, items[0])), SendObjects(k, items[1..]) + last;
      assert SendObjects(k, items) + last == [p] + more;
      BehindOne(k, p, more);
      StreamTakesObject(k, items[0], more, rest);
      if Fits(k, p) {
        StreamObjectsRoundTrip(k, items[1..], failure, rest);
        ItemsCons(items, LastObject(failure));
        if !AllFitIn(k, more) {
          EndsInAfterItem(items[0], StreamObjects(k, FramesOf(more) + rest).0, BufferOverflow);
        }
      }
    }
  }

  lemma BehindOne<T>(k: Link<T>, p: seq<byte>, more: seq<seq<byte>>)
    requires Sendable([p] + more)
    ensures |p| < TWO_31 && Sendable(more)
    ensures AllFitIn(k, [p] + more) <==> Fits(k, p) && AllFitIn(k, more)
    ensures Leftover(k, [p] + more) == if Fits(k, p) then Leftover(k, more) else p + FramesOf(more)
  {
    var ps := [p] + more;
    assert ps[0] == p && ps[1..] == more;
    assert forall i | 0 <= i < |more| :: more[i] == ps[i + 1];
  }

  lemma StreamTakesObject<T(!new)>(k: Link<T>, item: T, more: seq<seq<byte>>, rest: seq<byte>)
    requires ValidLink(k) && Sendable([k.pack(Pair(206, item))] + more) && Sendable(more)
    ensures var p := k.pack(Pair(206, item));
            var then_ := StreamObjects(k, FramesOf(more) + rest);
            StreamObjects(k, FramesOf([p] + more) + rest) ==
            if Fits(k, p) then ([Item(item)] + then_.0, then_.1)
            else ([Fault(BufferOverflow)], Leftover(k, [p] + more) + rest)
  {
    var p := k.pack(Pair(206, item));
    BehindOne(k, p, more);
    FramesCons(p, more, rest);
    EnvelopHead(k, Pair(206, item), FramesOf(more) + rest);
    Regroup([], p, FramesOf(more), rest);
  }

  // ------------------------------------------------------------------
  // One request
  // ------------------------------------------------------------------

  /** The server ran into a frame that does not fit. */
  ghost predicate Overflowed<T>(a: Answer<T>) {
    match a
    case Single(reply) => reply == Err(BufferOverflow)
    case ByteAnswer(reply, out, report) =>
      reply == Err(BufferOverflow) || EndsIn(out, BufferOverflow) || report == Some(Err(BufferOverflow))
    case ObjectAnswer(items) => EndsIn(items, BufferOverflow)
  }

  lemma {:induction false} ItemsAreItems<T, R>(rs: seq<R>)
    ensures |Items<T, R>(rs)| == |rs| && forall i | 0 <= i < |rs| :: Items<T, R>(rs)[i] == Item(rs[i])
  {
    if rs != [] {
      ItemsAreItems<T, R>(rs[1..]);
    }
  }

  /** The child never means an overflow. */
  lemma ExpectedDoesNotOverflow<T>(x: Exchange<T>)
    ensures !Overflowed(Expected(x))
  {
    match x
    case Bytes(_, chunks, _, _) => ItemsAreItems<T, seq<byte>>(chunks);
    case Objects(items, _) => ItemsAreItems<T, T>(items);
    case _ =>
  }

  lemma ResponseHead<T(!new)>(k: Link<T>, status: int, body: T, rest: seq<byte>)
    requires ValidLink(k) && Sendable([k.pack(Pair(status, body))])
    ensures var p := k.pack(Pair(status, body));
            ReadResponse(k, FramesOf([p]) + rest) ==
            if Fits(k, p) then (Reply(status, body), rest) else (Err(BufferOverflow), p + rest)
  {
    var p := k.pack(Pair(status, body));
    assert [p][0] == p;
    FramesOne(p, rest);
    EnvelopHead(k, Pair(status, body), rest);
  }

  /** The report, or whatever the server reads in its place. */
  lemma ReportIsReadIff<T(!new)>(k: Link<T>, wantsReport: bool, ending: Ending<T>, next: seq<byte>)
    requires ValidLink(k) && (ending.Complete? || IsFailure(ending.status))
    requires Sendable(AfterStop(k, wantsReport, ending))
    ensures var after := AfterStop(k, wantsReport, ending);
            ServeReport(k, wantsReport, FramesOf(after) + next) == (ReportOf(wantsReport, ending), next) <==>
              AllFitIn(k, after) && EndsOnReport(wantsReport, ending)
  {
    var after := AfterStop(k, wantsReport, ending);
    if after == [] {
      assert FramesOf(after) + next == next;
    } else {
      var w := if ending.Complete? then Pair(200, ending.report) else Pair(ending.status, ending.body);
      assert after == [k.pack(w)] && after[0] == k.pack(w);
      ResponseHead(k, w.status, w.body, next);
      assert |FramesOf(after)| > 0;
    }
  }

  /** The stream of a byte response and what the server reads after it. */
  lemma StreamAndReport<T(!new)>(
    k: Link<T>, chunks: seq<seq<byte>>, ending: Ending<T>, after: seq<seq<byte>>, next: seq<byte>)
    requires ValidLink(k) && NonEmpty(chunks)
    requires Sendable((SendChunks(k, chunks) + [k.pack(StopOf(ending))]) + after) && Sendable(after)
    ensures var mid := SendChunks(k, chunks) + [k.pack(StopOf(ending))];
            var (out, left) := StreamBytes(k, FramesOf(mid + after) + next);
            if AllFitIn(k, mid) then
              out == Items(chunks) + LastOutput(StopOf(ending)) && left == FramesOf(after) + next
            else EndsIn(out, BufferOverflow)
  {
    var mid := SendChunks(k, chunks) + [k.pack(StopOf(ending))];
    SendableSplit(mid, after);
    FramesAppend(mid, after);
    Regroup([], FramesOf(mid), FramesOf(after), next);
    StreamStopsAtFirstOther(k, chunks, StopOf(ending), FramesOf(after) + next);
    if AllFitIn(k, mid) {
      NothingLeftIff(k, mid);
      assert [] + (FramesOf(after) + next) == FramesOf(after) + next;
    }
  }

  lemma ServeStreamIff<T(!new)>(k: Link<T>, x: Exchange<T>, after: seq<seq<byte>>, next: seq<byte>)
    requires ValidLink(k) && x.Bytes? && WellFormed(x) && after == AfterStop(k, x.wantsReport, x.ending)
    requires Sendable((SendChunks(k, x.chunks) + [k.pack(StopOf(x.ending))]) + after) && Sendable(after)
    ensures var mid := SendChunks(k, x.chunks) + [k.pack(StopOf(x.ending))];
            ServeStream(k, x.wantsReport, Ok((200, x.head)), FramesOf(mid + after) + next) == (Expected(x), next)
            <==> AllFitIn(k, mid) && AllFitIn(k, after) && EndsWhereAwaited(x)
  {
    StreamAndReport(k, x.chunks, x.ending, after, next);
    ReportIsReadIff(k, x.wantsReport, x.ending, next);
    ExpectedDoesNotOverflow(x);
  }

  lemma ServeHead<T(!new)>(k: Link<T>, head: T, report: bool, rest: seq<byte>)
    requires ValidLink(k) && |k.pack(Pair(200, head))| < TWO_31
    ensures var p := k.pack(Pair(200, head));
            Serve(k, BytesKind(report), Frame(p) + rest) ==
            if Fits(k, p) then ServeStream(k, report, Ok((200, head)), rest)
            else (ByteAnswer(Err(BufferOverflow), [], None), p + rest)
  {
    EnvelopHead(k, Pair(200, head), rest);
  }

  /** The frames of a byte response: its head, its stream, and what comes behind the stream. */
  lemma BytesLayout<T>(k: Link<T>, x: Exchange<T>, next: seq<byte>)
    requires x.Bytes? && Sendable(ResponseTo(k, x))
    ensures var head, mid := k.pack(Pair(200, x.head)), SendChunks(k, x.chunks) + [k.pack(StopOf(x.ending))];
            var after := AfterStop(k, x.wantsReport, x.ending);
            && |head| < TWO_31 && Sendable(mid + after) && Sendable(after)
            && FramesOf(ResponseTo(k, x)) + next == Frame(head) + (FramesOf(mid + after) + next)
            && (AllFitIn(k, ResponseTo(k, x)) <==> Fits(k, head) && AllFitIn(k, mid) && AllFitIn(k, after))
  {
    var head, mid := k.pack(Pair(200, x.head)), SendChunks(k, x.chunks) + [k.pack(StopOf(x.ending))];
    var after := AfterStop(k, x.wantsReport, x.ending);
    assert ResponseTo(k, x) == [head] + (mid + after);
    BehindOne(k, head, mid + after);
    SendableSplit(mid, after);
    FitSplitIn(k, mid, after);
    FramesCons(head, mid + after, next);
  }

  lemma ServeBytesIff<T(!new)>(k: Link<T>, x: Exchange<T>, next: seq<byte>)
    requires ValidLink(k) && x.Bytes? && WellFormed(x) && Sendable(ResponseTo(k, x))
    ensures var ps := ResponseTo(k, x);
            Serve(k, KindOf(x), FramesOf(ps) + next) == (Expected(x), next) <==> AllFitIn(k, ps) && EndsWhereAwaited(x)
  {
    var mid := SendChunks(k, x.chunks) + [k.pack(StopOf(x.ending))];
    var after := AfterStop(k, x.wantsReport, x.ending);
    BytesLayout(k, x, next);
    ServeHead(k, x.head, x.wantsReport, FramesOf(mid + after) + next);
    ServeStreamIff(k, x, after, next);
  }

  lemma ServeObjectsIff<T(!new)>(k: Link<T>, x: Exchange<T>, next: seq<byte>)
    requires ValidLink(k) && x.Objects? && WellFormed(x) && Sendable(ResponseTo(k, x))
    ensures var ps := ResponseTo(k, x);
            Serve(k, KindOf(x), FramesOf(ps) + next) == (Expected(x), next) <==> AllFitIn(k, ps)
  {
    var ps := ResponseTo(k, x);
    var input := FramesOf(ps) + next;
    var (out, left) := StreamObjects(k, input);
    StreamObjectsRoundTrip(k, x.items, x.failure, next);
    assert Serve(k, ObjectsKind, input) == (ObjectAnswer(out), left);
    if AllFitIn(k, ps) {
      NothingLeftIff(k, ps);
      assert Leftover(k, ps) + next == next;
    } else {
      ExpectedDoesNotOverflow(x);
      assert Overflowed(ObjectAnswer(out));
    }
  }

  lemma ServeSingleIff<T(!new)>(k: Link<T>, x: Exchange<T>, next: seq<byte>)
    requires ValidLink(k) && (x.Simple? || x.Refused?) && WellFormed(x) && Sendable(ResponseTo(k, x))
    ensures var ps := ResponseTo(k, x);
            Serve(k, KindOf(x), FramesOf(ps) + next) == (Expected(x), next) <==> AllFitIn(k, ps)
  {
    ResponseHead(k, x.status, x.body, next);
  }

  /**
  One request, exactly: the server gets the answer the child meant, and its frames and only its
  frames are consumed, if and only if every frame of the response fits into the buffer and the
  child ends the response where the server stops reading.
   */
  lemma ServeConsumesItsResponseIff<T(!new)>(k: Link<T>, x: Exchange<T>, next: seq<byte>)
    requires ValidLink(k) && WellFormed(x) && Sendable(ResponseTo(k, x))
    ensures var ps := ResponseTo(k, x);
            Serve(k, KindOf(x), FramesOf(ps) + next) == (Expected(x), next) <==> AllFitIn(k, ps) && EndsWhereAwaited(x)
  {
    if x.Bytes? {
      ServeBytesIff(k, x, next);
    } else if x.Objects? {
      ServeObjectsIff(k, x, next);
    } else {
      ServeSingleIff(k, x, next);
    }
  }

  // ------------------------------------------------------------------
  // Whole sessions
  // ------------------------------------------------------------------

  ghost predicate Possible<T>(k: Link<T>, xs: seq<Exchange<T>>) {
    forall i | 0 <= i < |xs| :: WellFormed(xs[i]) && Sendable(ResponseTo(k, xs[i]))
  }

  function Kinds<T>(xs: seq<Exchange<T>>): seq<Kind> {
    if xs == [] then [] else [KindOf(xs[0])] + Kinds(xs[1..])
  }

  /** Everything the child writes during a session. */
  ghost function Responses<T>(k: Link<T>, xs: seq<Exchange<T>>): seq<byte>
    requires Possible(k, xs)
  {
    if xs == [] then [] else FramesOf(ResponseTo(k, xs[0])) + Responses(k, xs[1..])
  }

  function ServeAll<T>(k: Link<T>, kinds: seq<Kind>, input: seq<byte>): (seq<Answer<T>>, seq<byte>)
    decreases |kinds|
  {
    if kinds == [] then ([], input)
    else
      var (a, more) := Serve(k, kinds[0], input);
      var (as', left) := ServeAll(k, kinds[1..], more);
      ([a] + as', left)
  }

  function ExpectedAll<T>(xs: seq<Exchange<T>>): seq<Answer<T>> {
    if xs == [] then [] else [Expected(xs[0])] + ExpectedAll(xs[1..])
  }

  ghost predicate Clean<T>(k: Link<T>, x: Exchange<T>) {
    AllFitIn(k, ResponseTo(k, x)) && EndsWhereAwaited(x)
  }

  ghost predicate AllClean<T>(k: Link<T>, xs: seq<Exchange<T>>) {
    forall i | 0 <= i < |xs| :: Clean(k, xs[i])
  }

  /** Each request in turn gets the answer the child meant, and leaves exactly the later responses. */
  ghost predicate AlignedThroughout<T>(k: Link<T>, xs: seq<Exchange<T>>, next: seq<byte>)
    requires Possible(k, xs)
    decreases |xs|
  {
    xs == [] ||
    (&& Serve(k, KindOf(xs[0]), Responses(k, xs) + next) == (Expected(xs[0]), Responses(k, xs[1..]) + next)
     && AlignedThroughout(k, xs[1..], next))
  }

  /**
  Over every sequence of requests the two sides stay aligned, no response leaking into the next, if
  and only if every frame of every response fits and every response ends where the server expects.
   */
  lemma {:induction false} SessionsStayAlignedIff<T(!new)>(k: Link<T>, xs: seq<Exchange<T>>, next: seq<byte>)
    requires ValidLink(k) && Possible(k, xs)
    ensures AlignedThroughout(k, xs, next) <==> AllClean(k, xs)
    decreases |xs|
  {
    if xs != [] {
      ResponsesCons(k, xs, next);
      ServeConsumesItsResponseIff(k, xs[0], Responses(k, xs[1..]) + next);
      SessionsStayAlignedIff(k, xs[1..], next);
      CleanCons(k, xs);
    }
  }

  lemma CleanCons<T>(k: Link<T>, xs: seq<Exchange<T>>)
    requires xs != []
    ensures AllClean(k, xs) <==> Clean(k, xs[0]) && AllClean(k, xs[1..])
  {
    assert xs == [xs[0]] + xs[1..];
  }

  lemma ResponsesCons<T>(k: Link<T>, xs: seq<Exchange<T>>, next: seq<byte>)
    requires xs != [] && Possible(k, xs)
    ensures Possible(k, xs[1..])
    ensures Responses(k, xs) + next == FramesOf(ResponseTo(k, xs[0])) + (Responses(k, xs[1..]) + next)
  {
  }

  lemma ServeAllCons<T>(k: Link<T>, x: Exchange<T>, xs: seq<Exchange<T>>, input: seq<byte>)
    ensures var (a, more) := Serve(k, KindOf(x), input);
            var rest := ServeAll(k, Kinds(xs), more);
            ServeAll(k, Kinds([x] + xs), input) == ([a] + rest.0, rest.1)
  {
    assert ([x] + xs)[1..] == xs;
    assert Kinds([x] + xs) == [KindOf(x)] + Kinds(xs) && ([KindOf(x)] + Kinds(xs))[1..] == Kinds(xs);
  }

  lemma ConsEqual<A>(a: A, as': seq<A>, b: A, bs: seq<A>)
    ensures [a] + as' == [b] + bs <==> a == b && as' == bs
  {
    if [a] + as' == [b] + bs {
      assert ([a] + as')[0] == ([b] + bs)[0] && ([a] + as')[1..] == as' && ([b] + bs)[1..] == bs;
    }
  }

  /** All answers together: of responses that end where they should, exactly those sessions with no frame too big. */
  lemma {:induction false} AnswersAreMeantIff<T(!new)>(k: Link<T>, xs: seq<Exchange<T>>, next: seq<byte>)
    requires ValidLink(k) && Possible(k, xs) && forall i | 0 <= i < |xs| :: EndsWhereAwaited(xs[i])
    ensures ServeAll(k, Kinds(xs), Responses(k, xs) + next) == (ExpectedAll(xs), next)
            <==> forall i | 0 <= i < |xs| :: AllFitIn(k, ResponseTo(k, xs[i]))
    decreases |xs|
  {
    if xs == [] {
      assert Responses(k, xs) + next == next;
    } else {
      var x, tail := xs[0], xs[1..];
      var more := Responses(k, tail) + next;
      assert xs == [x] + tail;
      ResponsesCons(k, xs, next);
      ServeAllCons(k, x, tail, Responses(k, xs) + next);
      var (a, left) := Serve(k, KindOf(x), Responses(k, xs) + next);
      ConsEqual(a, ServeAll(k, Kinds(tail), left).0, Expected(x), ExpectedAll(tail));
      if AllFitIn(k, ResponseTo(k, x)) {
        ServeConsumesItsResponseIff(k, x, more);
        AnswersAreMeantIff(k, tail, next);
      } else {
        MisfitIsNotMeant(k, x, more);
      }
    }
  }

  /** A frame that does not fit shows in the answer. */
  lemma MisfitIsNotMeant<T(!new)>(k: Link<T>, x: Exchange<T>, next: seq<byte>)
    requires ValidLink(k) && WellFormed(x) && Sendable(ResponseTo(k, x))
    requires !AllFitIn(k, ResponseTo(k, x)) && EndsWhereAwaited(x)
    ensures Serve(k, KindOf(x), FramesOf(ResponseTo(k, x)) + next).0 != Expected(x)
  {
    ExpectedDoesNotOverflow(x);
    if x.Bytes? {
      BytesOverflow(k, x, next);
    } else if x.Objects? {
      StreamObjectsRoundTrip(k, x.items, x.failure, next);
      assert Serve(k, ObjectsKind, FramesOf(ResponseTo(k, x)) + next).0 ==
             ObjectAnswer(StreamObjects(k, FramesOf(ResponseTo(k, x)) + next).0);
    } else {
      ResponseHead(k, x.status, x.body, next);
    }
  }

  lemma BytesOverflow<T(!new)>(k: Link<T>, x: Exchange<T>, next: seq<byte>)
    requires ValidLink(k) && x.Bytes? && WellFormed(x) && Sendable(ResponseTo(k, x))
    requires !AllFitIn(k, ResponseTo(k, x)) && EndsWhereAwaited(x)
    ensures Overflowed(Serve(k, KindOf(x), FramesOf(ResponseTo(k, x)) + next).0)
  {
    var mid := SendChunks(k, x.chunks) + [k.pack(StopOf(x.ending))];
    var after := AfterStop(k, x.wantsReport, x.ending);
    BytesLayout(k, x, next);
    ServeHead(k, x.head, x.wantsReport, FramesOf(mid + after) + next);
    StreamAndReport(k, x.chunks, x.ending, after, next);
    ReportOverflows(k, x.wantsReport, x.ending, next);
  }

  lemma ReportOverflows<T(!new)>(k: Link<T>, wantsReport: bool, ending: Ending<T>, next: seq<byte>)
    requires ValidLink(k) && Sendable(AfterStop(k, wantsReport, ending)) && EndsOnReport(wantsReport, ending)
    ensures var after := AfterStop(k, wantsReport, ending);
            !AllFitIn(k, after) ==>
              ServeReport(k, wantsReport, FramesOf(after) + next).0 == Some(Err(BufferOverflow))
  {
    var after := AfterStop(k, wantsReport, ending);
    if after != [] {
      var w := if ending.Complete? then Pair(200, ending.report) else Pair(ending.status, ending.body);
      assert after == [k.pack(w)] && after[0] == k.pack(w);
      ResponseHead(k, w.status, w.body, next);
    }
  }

  // ------------------------------------------------------------------
  // Any response at all
  // ------------------------------------------------------------------

  /** The stream stopped for another reason than the end of what the child sent. */
  ghost predicate ReachesItsEnd<T>(k: Link<T>, response: seq<byte>) {
    var out := StreamBytes(k, response).0;
    !EndsIn(out, EndOfPipe) && !EndsIn(out, Waiting)
  }

  lemma ReadChunkExtends<T>(k: Link<T>, input: seq<byte>, next: seq<byte>)
    requires ReadChunk(k, input).0 !in {Err(EndOfPipe), Err(Waiting)}
    ensures var (r, left) := ReadChunk(k, input); ReadChunk(k, input + next) == (r, left + next)
  {
    ReadFrameExtends(input, next, k.capacity);
    if ReadEnvelop(k, input).0 == Ok(ByteChunk) {
      ReadFrameExtends(ReadEnvelop(k, input).1, next, k.capacity);
    }
  }

  /** Whatever the child sent, what a stream leaves of it is exactly what the next reader finds first. */
  lemma {:induction false} LeftoversComeFirst<T>(k: Link<T>, response: seq<byte>, next: seq<byte>)
    requires ReachesItsEnd(k, response)
    ensures StreamBytes(k, response + next) == (StreamBytes(k, response).0, StreamBytes(k, response).1 + next)
    decreases |response|
  {
    var (r, more) := ReadChunk(k, response);
    assert r.Err? ==> EndsIn(StreamBytes(k, response).0, r.error);
    ReadChunkExtends(k, response, next);
    if r.Ok? && r.value.Continue? {
      var out := StreamBytes(k, more).0;
      if EndsIn(out, EndOfPipe) || EndsIn(out, Waiting) {
        EndsInAfterItem(r.value.item, out, if EndsIn(out, EndOfPipe) then EndOfPipe else Waiting);
        assert false;
      }
      LeftoversComeFirst(k, more, next);
    }
  }

  // ------------------------------------------------------------------
  // What goes wrong otherwise
  // ------------------------------------------------------------------

  /**
  A chunk longer than the buffer: the stream ends in an error, the handle is still marked as done,
  so nothing is drained, and the next request is read from the middle of the chunk.
   */
  lemma OversizedChunkLeaks<T(!new)>(k: Link<T>, p: seq<byte>, next: seq<byte>)
    requires ValidLink(k) && Fits(k, k.pack(Scalar(206))) && !Fits(k, p)
    requires Sendable(SendChunks(k, [p]) + [k.pack(Scalar(204))]) && Sendable([k.pack(Scalar(204))])
    ensures StreamBytes(k, FramesOf(SendChunks(k, [p]) + [k.pack(Scalar(204))]) + next) ==
            ([Fault(BufferOverflow)], p + FramesOf([k.pack(Scalar(204))]) + next)
  {
    var a, stop := k.pack(Scalar(206)), [k.pack(Scalar(204))];
    assert [p][1..] == [] && SendChunks(k, [p]) == SendChunk(k, p) + SendChunks(k, [p][1..]);
    assert SendChunks(k, [p]) + stop == [a] + ([p] + stop);
    StreamTakesChunk(k, p, stop, next);
    BehindTwo(k, a, p, stop);
  }

  /** A handler that raises after the sentinel, no report being awaited: its error answers the next request. */
  lemma LateErrorAnswersNextRequest<T(!new)>(
    k: Link<T>, head: T, chunks: seq<seq<byte>>, status: int, body: T, next: seq<byte>)
    requires ValidLink(k) && NonEmpty(chunks) && IsFailure(status)
    requires var x := Bytes(head, chunks, false, Late(status, body));
             Sendable(ResponseTo(k, x)) && AllFitIn(k, ResponseTo(k, x))
    ensures var x := Bytes(head, chunks, false, Late(status, body));
            var (a, left) := Serve(k, KindOf(x), FramesOf(ResponseTo(k, x)) + next);
            a == Expected(x) && ReadResponse(k, left) == (Err(ResponseError(status, body)), next)
  {
    var x := Bytes(head, chunks, false, Late(status, body));
    var p, mid := k.pack(Pair(status, body)), SendChunks(k, chunks) + [k.pack(StopOf(x.ending))];
    BytesLayout(k, x, next);
    assert AfterStop(k, false, x.ending) == [p] && [p][0] == p;
    ServeHead(k, head, false, FramesOf(mid + [p]) + next);
    StreamAndReport(k, chunks, x.ending, [p], next);
    ResponseHead(k, status, body, next);
  }

  /** A handler that raises before the sentinel, a report being awaited: the next response is taken for it. */
  lemma BrokenStreamSwallowsNextResponse<T(!new)>(
    k: Link<T>, head: T, chunks: seq<seq<byte>>, status: int, body: T, next: seq<byte>)
    requires ValidLink(k) && NonEmpty(chunks) && IsFailure(status)
    requires var x := Bytes(head, chunks, true, Broken(status, body));
             Sendable(ResponseTo(k, x)) && AllFitIn(k, ResponseTo(k, x))
    ensures var x := Bytes(head, chunks, true, Broken(status, body));
            var (a, left) := Serve(k, KindOf(x), FramesOf(ResponseTo(k, x)) + next);
            a.ByteAnswer? && a.report == Some(ReadResponse(k, next).0) && left == ReadResponse(k, next).1
  {
    var x := Bytes(head, chunks, true, Broken(status, body));
    var mid, none := SendChunks(k, chunks) + [k.pack(StopOf(x.ending))], AfterStop(k, true, x.ending);
    BytesLayout(k, x, next);
    ServeHead(k, head, true, FramesOf(mid + none) + next);
    StreamAndReport(k, chunks, x.ending, none, next);
    assert FramesOf(none) + next == next;
  }

  // ------------------------------------------------------------------
  // The objects
  // ------------------------------------------------------------------

  /** The reading half of a worker's pipe; `patience` bounds the wait for a body that never comes. */
  class Io<T(!new)> {
    const link: Link<T>
    const pipe: Pipe

    ghost predicate Valid()
      reads this
    {
      pipe.buffer.Length == link.capacity
    }

    constructor (link: Link<T>, stdout: seq<byte>)
      ensures Valid() && this.link == link && pipe.stdout == stdout && fresh(pipe) && fresh(pipe.buffer)
    {
      this.link := link;
      pipe := new Pipe(stdout, link.capacity);
    }

    method NextResponse(patience: nat) returns (r: Result<T, (int, T)>)
      requires Valid()
      modifies pipe, pipe.buffer
      ensures (r, pipe.stdout) == ReadResponse(link, old(pipe.stdout))
    {
      var frame := pipe.ReadBytes(patience);
      r := AsResponse(Open(link, frame));
    }

    method NextObject(patience: nat) returns (r: Result<T, Flow<T>>)
      requires Valid()
      modifies pipe, pipe.buffer
      ensures (r, pipe.stdout) == ReadStream(link, old(pipe.stdout))
    {
      var frame := pipe.ReadBytes(patience);
      r := AsObject(Open(link, frame));
    }

    method NextChunk(patience: nat) returns (r: Result<T, Flow<seq<byte>>>)
      requires Valid()
      modifies pipe, pipe.buffer
      ensures (r, pipe.stdout) == ReadChunk(link, old(pipe.stdout))
    {
      var frame := pipe.ReadBytes(patience);
      var e := Open(link, frame);
      if e.Ok? && e.value.ByteChunk? {
        frame := pipe.ReadBytes(patience);
        r := AsChunk(frame);
      } else {
        r := AsChunkEnd(e);
      }
    }
  }

  class ByteStream<T(!new)> {
    const io: Io<T>
    var done: bool

    constructor (io: Io<T>)
      ensures this.io == io && !done
    {
      this.io, done := io, false;
    }

    /** Once done, it answers None for ever and reads nothing. */
    method Next(patience: nat) returns (r: Result<T, Option<seq<byte>>>)
      requires io.Valid()
      modifies this, io.pipe, io.pipe.buffer
      ensures old(done) ==> r == Ok(None) && done && io.pipe.stdout == old(io.pipe.stdout)
      ensures !old(done) ==> io.pipe.stdout == ReadChunk(io.link, old(io.pipe.stdout)).1
      ensures !old(done) ==>
                match ReadChunk(io.link, old(io.pipe.stdout)).0
                case Ok(Continue(data)) => r == Ok(Some(data)) && !done
                case Ok(Break(_)) => r == Ok(None) && done
                case Err(e) => r == Err(e) && done
    {
      if done {
        return Ok(None);
      }
      var control := io.NextChunk(patience);
      match control
      case Ok(Continue(data)) => r := Ok(Some(data));
      case Ok(Break(_)) => done := true; r := Ok(None);
      case Err(e) => done := true; r := Err(e);
    }
  }

  class ObjectStream<T(!new)> {
    const io: Io<T>
    var done: bool

    constructor (io: Io<T>)
      ensures this.io == io && !done
    {
      this.io, done := io, false;
    }

    method Next(patience: nat) returns (r: Result<T, Option<T>>)
      requires io.Valid()
      modifies this, io.pipe, io.pipe.buffer
      ensures old(done) ==> r == Ok(None) && done && io.pipe.stdout == old(io.pipe.stdout)
      ensures !old(done) ==> io.pipe.stdout == ReadStream(io.link, old(io.pipe.stdout)).1
      ensures !old(done) ==>
                match ReadStream(io.link, old(io.pipe.stdout)).0
                case Ok(Continue(x)) => r == Ok(Some(x)) && !done
                case Ok(Break(v)) => r == Ok(v) && done
                case Err(e) => r == Err(e) && done
    {
      if done {
        return Ok(None);
      }
      var control := io.NextObject(patience);
      match control
      case Ok(Continue(x)) => r := Ok(Some(x));
      case Ok(Break(v)) => done := true; r := Ok(v);
      case Err(e) => done := true; r := Err(e);
    }
  }

  /** What has been delivered and what is still to come make up the whole stream. */
  ghost predicate Progress<T>(
    k: Link<T>, all: (Outputs<T>, seq<byte>), out: Outputs<T>, left: seq<byte>, done: bool)
  {
    if done then all == (out, left) else all == (out + StreamBytes(k, left).0, StreamBytes(k, left).1)
  }

  lemma ProgressStep<T>(
    k: Link<T>, all: (Outputs<T>, seq<byte>), out: Outputs<T>, left: seq<byte>)
    requires Progress(k, all, out, left, false)
    ensures var (r, more) := ReadChunk(k, left);
            match r
            case Ok(Continue(data)) => Progress(k, all, out + [Item(data)], more, false)
            case Ok(Break(_)) => Progress(k, all, out, more, true)
            case Err(e) => Progress(k, all, out + [Fault(e)], more, true)
  {
    var (r, more) := ReadChunk(k, left);
    if r.Ok? && r.value.Continue? {
      var item, rest := [Item(r.value.item)], StreamBytes(k, more).0;
      assert out + (item + rest) == (out + item) + rest;
    } else if r.Ok? {
      assert out + [] == out;
    }
  }

  /** The loop of `stream_bytes`: errors are passed on, and the next call ends the loop. */
  method ForwardBytes<T(!new)>(io: Io<T>, patience: nat) returns (out: seq<Output<T, seq<byte>>>)
    requires io.Valid()
    modifies io.pipe, io.pipe.buffer
    ensures (out, io.pipe.stdout) == StreamBytes(io.link, old(io.pipe.stdout))
  {
    var stream := new ByteStream(io);
    out := [];
    var open := true;
    ghost var all := StreamBytes(io.link, io.pipe.stdout);
    assert out + all.0 == all.0;
    while open
      invariant fresh(stream) && stream.io == io && (!open ==> stream.done)
      invariant Progress(io.link, all, out, io.pipe.stdout, stream.done)
      decreases open, !stream.done, |io.pipe.stdout|
    {
      if !stream.done {
        ProgressStep(io.link, all, out, io.pipe.stdout);
      }
      var r := stream.Next(patience);
      match r
      case Ok(Some(data)) => out := out + [Item(data)];
      case Ok(None) => open := false;
      case Err(e) => out := out + [Fault(e)];
    }
  }
}

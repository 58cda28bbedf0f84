/**
 * SIP message framing (src/sip/framing.rs), as functions of the input buffer.
 *
 * Sections 7.5, 18.3 and 20.14 of RFC 3261: a message is a start line, header
 * lines that may be folded, an empty line and a body of `Content-Length` bytes.
 */
module Framing {
  import opened Wrappers

  const MAX_LINE_BYTES: nat := 8 * 1024
  const MAX_HEADER_COUNT: nat := 128
  const MAX_HEADER_BYTES: nat := 64 * 1024
  const MAX_BODY_BYTES: nat := 1024 * 1024
  const MAX_MESSAGE_BYTES: nat := MAX_HEADER_BYTES + MAX_BODY_BYTES
  const USIZE_MAX: nat := U64_MAX

  const TAB: Byte := 9
  const LF: Byte := 10
  const CR: Byte := 13
  const SPACE: Byte := 32
  const COLON: Byte := 58

  type Bytes = seq<Byte>

  datatype Mode = Stream | Datagram

  datatype Boundary = Boundary(
    messageOffset: nat,
    headerBytes: nat,
    bodyBytes: nat,
    messageBytes: nat,
    consumedBytes: nat)
  {
    predicate FitsIn(input: Bytes) {
      && messageBytes == headerBytes + bodyBytes
      && messageOffset + messageBytes <= consumedBytes <= |input|
    }
  }

  datatype Status = NeedMoreData(requiredTotal: Option<nat>) | Complete(boundary: Boundary)

  datatype Error =
    | HeaderTooLarge | LineTooLong | TooManyHeaders | InvalidStartLine | InvalidHeaderSyntax | InvalidHeaderName
    | InvalidLineEnding | MissingContentLength | DuplicateContentLength | InvalidContentLength | ContentLengthOverflow
    | BodyTooLarge | MessageTooLarge | TruncatedDatagram

  datatype HeaderScan = HeaderScan(headerBytes: nat, contentLength: Option<nat>)

  predicate IsBlank(b: Byte) { b == SPACE || b == TAB }

  // ---------------------------------------------------------------------------
  // Lines
  // ---------------------------------------------------------------------------

  datatype LineEnd = At(index: nat) | Unfinished | BadEnding

  /** `find_line_end`: the first CRLF at or after `start`, if no stray CR or LF precedes it. */
  function FindLineEnd(input: Bytes, start: nat): (r: LineEnd)
    ensures r.At? ==> start <= r.index && r.index + 2 <= |input| && input[r.index] == CR && input[r.index + 1] == LF
    decreases |input| - start
  {
    if start >= |input| then Unfinished
    else if input[start] == CR then
      if start + 1 >= |input| then Unfinished else if input[start + 1] != LF then BadEnding else At(start)
    else if input[start] == LF then BadEnding
    else FindLineEnd(input, start + 1)
  }

  /** `skip_stream_prefix`: keep-alive CRLF pairs before a message. */
  function SkipPrefix(input: Bytes, offset: nat): (r: nat)
    requires offset <= |input|
    ensures offset <= r <= |input|
    decreases |input| - offset
  {
    if offset + 2 <= |input| && input[offset] == CR && input[offset + 1] == LF then SkipPrefix(input, offset + 2)
    else offset
  }

  // ---------------------------------------------------------------------------
  // Content-Length
  // ---------------------------------------------------------------------------

  datatype Length = Length(value: nat, sawDigit: bool, trailing: bool)

  const NO_DIGITS := Length(0, false, false)

  predicate IsDigit(b: Byte) { 48 <= b <= 57 }

  function PushByte(p: Length, b: Byte): Result<Length, Error> {
    if IsDigit(b) then
      if p.trailing then Err(InvalidContentLength)
      else if p.value * 10 + (b - 48) > USIZE_MAX then Err(ContentLengthOverflow)
      else Ok(Length(p.value * 10 + (b - 48), true, false))
    else if IsBlank(b) then Ok(if p.sawDigit then p.(trailing := true) else p)
    else Err(InvalidContentLength)
  }

  /** `ContentLengthParser::push`. */
  function Push(p: Length, input: Bytes): Result<Length, Error>
    decreases |input|
  {
    if input == [] then Ok(p)
    else match PushByte(p, input[0])
      case Err(error) => Err(error)
      case Ok(next) => Push(next, input[1..])
  }

  function Finish(p: Length): Result<nat, Error> {
    if p.sawDigit then Ok(p.value) else Err(InvalidContentLength)
  }

  // ---------------------------------------------------------------------------
  // Header lines
  // ---------------------------------------------------------------------------

  /** Position of the first colon, or the length when there is none. */
  function ColonIn(line: Bytes): (r: nat)
    ensures r <= |line| && (r < |line| ==> line[r] == COLON) && COLON !in line[..r]
  {
    if line == [] then 0 else if line[0] == COLON then 0
    else
      var r := ColonIn(line[1..]);
      assert line[..r + 1] == [line[0]] + line[1..][..r];
      1 + r
  }

  function TrimTrailing(input: Bytes): (r: Bytes)
    ensures r <= input && (r == [] || !IsBlank(r[|r| - 1]))
    ensures forall i | |r| <= i < |input| :: IsBlank(input[i])
  {
    if input != [] && IsBlank(input[|input| - 1]) then TrimTrailing(input[..|input| - 1]) else input
  }

  predicate IsTokenByte(b: Byte) {
    || 48 <= b <= 57 || 65 <= b <= 90 || 97 <= b <= 122
    || b == 45 || b == 46 || b == 33 || b == 37 || b == 42 || b == 95 || b == 43 || b == 96 || b == 39 || b == 126
  }

  function SplitHeader(line: Bytes): Result<(Bytes, Bytes), Error> {
    var colon := ColonIn(line);
    if colon == |line| then Err(InvalidHeaderSyntax)
    else
      var name := TrimTrailing(line[..colon]);
      if name == [] || exists b | b in name :: !IsTokenByte(b) then Err(InvalidHeaderName)
      else Ok((name, line[colon + 1..]))
  }

  function Lower(b: Byte): Byte { if 65 <= b <= 90 then b + 32 else b }

  predicate EqualsIgnoreCase(a: Bytes, b: Bytes) {
    |a| == |b| && forall i | 0 <= i < |a| :: Lower(a[i]) == Lower(b[i])
  }

  /** "content-length" and "l" in ASCII. */
  const CONTENT_LENGTH: Bytes := [99, 111, 110, 116, 101, 110, 116, 45, 108, 101, 110, 103, 116, 104]
  const COMPACT_FORM: Bytes := [108]

  predicate IsContentLengthName(name: Bytes) {
    EqualsIgnoreCase(name, CONTENT_LENGTH) || EqualsIgnoreCase(name, COMPACT_FORM)
  }

  /** What the scan remembers between lines. */
  datatype Fields = Fields(
    firstLine: bool,
    headerCount: nat,
    previousHeader: bool,
    contentLength: Option<nat>,
    active: Option<Length>)

  const NO_FIELDS := Fields(true, 0, false, None, None)

  datatype Progress = More(fields: Fields) | Done(contentLength: Option<nat>)

  function FinalizeLength(f: Fields): Result<Fields, Error> {
    match f.active
    case None => Ok(f)
    case Some(p) =>
      if f.contentLength.Some? then Err(DuplicateContentLength)
      else match Finish(p)
        case Err(error) => Err(error)
        case Ok(n) => Ok(f.(active := None, contentLength := Some(n)))
  }

  function AcceptStartLine(f: Fields, line: Bytes): Result<Progress, Error> {
    if line == [] || IsBlank(line[0]) then Err(InvalidStartLine) else Ok(More(f.(firstLine := false)))
  }

  function AcceptContinuation(f: Fields, line: Bytes): Result<Progress, Error> {
    if !f.previousHeader then Err(InvalidHeaderSyntax)
    else match f.active
      case None => Ok(More(f))
      case Some(p) =>
        match Push(p, line)
        case Err(error) => Err(error)
        case Ok(q) => Ok(More(f.(active := Some(q))))
  }

  function AcceptHeader(f: Fields, line: Bytes): Result<Progress, Error> {
    match FinalizeLength(f)
    case Err(error) => Err(error)
    case Ok(g) =>
      if g.headerCount + 1 > MAX_HEADER_COUNT then Err(TooManyHeaders)
      else match SplitHeader(line)
        case Err(error) => Err(error)
        case Ok((name, value)) =>
          var counted := g.(headerCount := g.headerCount + 1, previousHeader := true);
          if !IsContentLengthName(name) then Ok(More(counted))
          else if g.contentLength.Some? then Err(DuplicateContentLength)
          else match Push(NO_DIGITS, value)
            case Err(error) => Err(error)
            case Ok(p) => Ok(More(counted.(active := Some(p))))
  }

  /** The effect of one complete line. */
  function AcceptLine(f: Fields, line: Bytes): (r: Result<Progress, Error>)
    ensures r.Ok? ==> (r.value.Done? <==> line == [])
  {
    if f.firstLine then AcceptStartLine(f, line)
    else if line == [] then
      match FinalizeLength(f)
      case Err(error) => Err(error)
      case Ok(g) => Ok(Done(g.contentLength))
    else if IsBlank(line[0]) then AcceptContinuation(f, line)
    else AcceptHeader(f, line)
  }

  // ---------------------------------------------------------------------------
  // The scan and the decision
  // ---------------------------------------------------------------------------

  /** `enforce_incomplete_limits`: bounds that hold even before a line ends. */
  function UnfinishedError(input: Bytes, offset: nat, position: nat): Option<Error>
    requires offset <= position <= |input|
  {
    if |input| - position > MAX_LINE_BYTES then Some(LineTooLong)
    else if |input| - offset > MAX_HEADER_BYTES then Some(HeaderTooLarge)
    else None
  }

  datatype Step = Stop(result: Result<Option<HeaderScan>, Error>) | Go(position: nat, fields: Fields)

  /** One round of `scan_headers`; `Stop(Ok(None))` means that no line ends in time. */
  function LineStep(input: Bytes, offset: nat, position: nat, f: Fields): (r: Step)
    requires offset <= position <= |input|
    ensures r.Go? ==> position < r.position <= |input|
    ensures r.Stop? && r.result.Ok? && r.result.value.Some? ==>
              && 2 <= r.result.value.value.headerBytes <= MAX_HEADER_BYTES
              && position < offset + r.result.value.value.headerBytes <= |input|
  {
    match FindLineEnd(input, position)
    case BadEnding => Stop(Err(InvalidLineEnding))
    case Unfinished =>
      var error := UnfinishedError(input, offset, position);
      Stop(if error.Some? then Err(error.value) else Ok(None))
    case At(end) =>
      if end - position > MAX_LINE_BYTES then Stop(Err(LineTooLong))
      else if end + 2 - offset > MAX_HEADER_BYTES then Stop(Err(HeaderTooLarge))
      else match AcceptLine(f, input[position..end])
        case Err(error) => Stop(Err(error))
        case Ok(Done(contentLength)) => Stop(Ok(Some(HeaderScan(end + 2 - offset, contentLength))))
        case Ok(More(g)) => Go(end + 2, g)
  }

  /** `scan_headers` from a line start. */
  function Scan(input: Bytes, offset: nat, position: nat, f: Fields): (r: Result<Option<HeaderScan>, Error>)
    requires offset <= position <= |input|
    ensures r.Ok? && r.value.Some? ==> 2 <= r.value.value.headerBytes <= MAX_HEADER_BYTES
    ensures r.Ok? && r.value.Some? ==> position < offset + r.value.value.headerBytes <= |input|
    decreases |input| - position
  {
    match LineStep(input, offset, position, f)
    case Stop(result) => result
    case Go(next, g) => Scan(input, offset, next, g)
  }

  function SizeError(headerBytes: nat, bodyBytes: nat): Option<Error> {
    if bodyBytes > MAX_BODY_BYTES then Some(BodyTooLarge)
    else if headerBytes + bodyBytes > MAX_MESSAGE_BYTES then Some(MessageTooLarge)
    else None
  }

  function InspectStream(input: Bytes, offset: nat, h: HeaderScan): (r: Result<Status, Error>)
    requires offset + h.headerBytes <= |input|
    ensures r.Ok? && r.value.Complete? ==>
              && r.value.boundary.FitsIn(input)
              && r.value.boundary.consumedBytes == offset + r.value.boundary.messageBytes
              && r.value.boundary.headerBytes == h.headerBytes && r.value.boundary.messageOffset == offset
  {
    match h.contentLength
    case None => Err(MissingContentLength)
    case Some(body) =>
      if SizeError(h.headerBytes, body).Some? then Err(SizeError(h.headerBytes, body).value)
      else
        var total := offset + h.headerBytes + body;
        Ok(if |input| < total then NeedMoreData(Some(total))
           else Complete(Boundary(offset, h.headerBytes, body, h.headerBytes + body, total)))
  }

  function InspectDatagram(input: Bytes, offset: nat, h: HeaderScan): (r: Result<Status, Error>)
    requires offset + h.headerBytes <= |input|
    ensures r.Ok? ==>
              && r.value.Complete? && r.value.boundary.FitsIn(input)
              && r.value.boundary.headerBytes == h.headerBytes
  {
    var available := |input| - (offset + h.headerBytes);
    if h.contentLength.Some? && available < h.contentLength.value then Err(TruncatedDatagram)
    else
      var body := if h.contentLength.Some? then h.contentLength.value else available;
      if SizeError(h.headerBytes, body).Some? then Err(SizeError(h.headerBytes, body).value)
      else Ok(Complete(Boundary(offset, h.headerBytes, body, h.headerBytes + body, |input|)))
  }

  function OffsetOf(input: Bytes, mode: Mode): (r: nat)
    ensures r <= |input|
  {
    if mode.Stream? then SkipPrefix(input, 0) else 0
  }

  /** `inspect`. */
  function Inspect(input: Bytes, mode: Mode): (r: Result<Status, Error>)
    ensures r.Ok? && r.value.Complete? ==> r.value.boundary.FitsIn(input) && 2 <= r.value.boundary.headerBytes
    ensures mode.Stream? && r.Ok? && r.value.Complete? ==>
              r.value.boundary.consumedBytes == r.value.boundary.messageOffset + r.value.boundary.messageBytes
  {
    var offset := OffsetOf(input, mode);
    if offset >= |input| then Incomplete(mode)
    else match Scan(input, offset, offset, NO_FIELDS)
      case Err(error) => Err(error)
      case Ok(None) => Incomplete(mode)
      case Ok(Some(h)) =>
        if mode.Stream? then InspectStream(input, offset, h) else InspectDatagram(input, offset, h)
  }

  function Incomplete(mode: Mode): Result<Status, Error> {
    if mode.Stream? then Ok(NeedMoreData(None)) else Err(TruncatedDatagram)
  }

  /**
   * Whenever the stream reading completes at offset 0, the datagram reading of
   * the same bytes yields the same message and the same body.
   */
  lemma DatagramAgreesWithStream(input: Bytes)
    requires var s := Inspect(input, Stream); s.Ok? && s.value.Complete? && s.value.boundary.messageOffset == 0
    ensures var d := Inspect(input, Datagram);
            && d.Ok? && d.value.Complete?
            && d.value.boundary == Inspect(input, Stream).value.boundary.(consumedBytes := |input|)
  {
  }
}

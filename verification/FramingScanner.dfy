/**
 * The framing loops of src/sip/framing.rs, each proved to compute the function
 * of module Framing that specifies it.
 */
module FramingScanner {
  import opened Wrappers
  import opened Framing

  method SkipStreamPrefix(input: Bytes) returns (offset: nat)
    ensures offset == SkipPrefix(input, 0)
  {
    offset := 0;
    while offset + 2 <= |input| && input[offset] == CR && input[offset + 1] == LF
      invariant offset <= |input| && SkipPrefix(input, offset) == SkipPrefix(input, 0)
    {
      offset := offset + 2;
    }
  }

  method FindEnd(input: Bytes, start: nat) returns (r: LineEnd)
    ensures r == FindLineEnd(input, start)
  {
    var index := start;
    while index < |input|
      invariant FindLineEnd(input, index) == FindLineEnd(input, start)
    {
      if input[index] == CR {
        if index + 1 >= |input| {
          return Unfinished;
        }
        return if input[index + 1] != LF then BadEnding else At(index);
      }
      if input[index] == LF {
        return BadEnding;
      }
      index := index + 1;
    }
    return Unfinished;
  }

  method FindColon(line: Bytes) returns (colon: nat)
    ensures colon == ColonIn(line)
  {
    colon := 0;
    while colon < |line| && line[colon] != COLON
      invariant colon <= |line| && ColonIn(line) == colon + ColonIn(line[colon..])
    {
      assert line[colon..][1..] == line[colon + 1..];
      colon := colon + 1;
    }
  }

  method TrimEnd(input: Bytes) returns (r: Bytes)
    ensures r == TrimTrailing(input)
  {
    r := input;
    while r != [] && IsBlank(r[|r| - 1])
      invariant TrimTrailing(r) == TrimTrailing(input)
    {
      r := r[..|r| - 1];
    }
  }

  method IsToken(name: Bytes) returns (r: bool)
    ensures r <==> forall b | b in name :: IsTokenByte(b)
  {
    for i := 0 to |name|
      invariant forall b | b in name[..i] :: IsTokenByte(b)
    {
      if !IsTokenByte(name[i]) {
        return false;
      }
      assert name[..i + 1] == name[..i] + [name[i]];
    }
    assert name[..|name|] == name;
    return true;
  }

  method Split(line: Bytes) returns (r: Result<(Bytes, Bytes), Error>)
    ensures r == SplitHeader(line)
  {
    var colon := FindColon(line);
    if colon == |line| {
      return Err(InvalidHeaderSyntax);
    }
    var name := TrimEnd(line[..colon]);
    if name == [] {
      return Err(InvalidHeaderName);
    }
    var token := IsToken(name);
    if !token {
      return Err(InvalidHeaderName);
    }
    return Ok((name, line[colon + 1..]));
  }

  class ContentLengthParser {
    var value: nat
    var sawDigit: bool
    var trailingWhitespace: bool

    function AsLength(): Length
      reads this
    {
      Length(value, sawDigit, trailingWhitespace)
    }

    constructor ()
      ensures AsLength() == NO_DIGITS
    {
      value, sawDigit, trailingWhitespace := 0, false, false;
    }

    /** After an error the parser is abandoned. */
    method PushAll(input: Bytes) returns (error: Option<Error>)
      modifies this
      ensures Push(old(AsLength()), input) == if error.Some? then Err(error.value) else Ok(AsLength())
    {
      for i := 0 to |input|
        invariant Push(AsLength(), input[i..]) == Push(old(AsLength()), input)
      {
        var b := input[i];
        assert input[i..][1..] == input[i + 1..];
        if IsDigit(b) {
          if trailingWhitespace {
            return Some(InvalidContentLength);
          }
          sawDigit := true;
          if value * 10 > USIZE_MAX || value * 10 + (b - 48) > USIZE_MAX {
            return Some(ContentLengthOverflow);
          }
          value := value * 10 + (b - 48);
        } else if IsBlank(b) {
          if sawDigit {
            trailingWhitespace := true;
          }
        } else {
          return Some(InvalidContentLength);
        }
      }
      return None;
    }
  }

  /** The local variables of the scan, updated in place line by line. */
  class HeaderScanner {
    var firstLine: bool
    var headerCount: nat
    var previousHeader: bool
    var contentLength: Option<nat>
    var active: ContentLengthParser?

    ghost function AsFields(): Fields
      reads this, active
    {
      Fields(firstLine, headerCount, previousHeader, contentLength,
             if active == null then None else Some(active.AsLength()))
    }

    constructor ()
      ensures AsFields() == NO_FIELDS && active == null
    {
      firstLine, headerCount, previousHeader, contentLength, active := true, 0, false, None, null;
    }

    /** `finalize_content_length`: the open value, if any, must be a number and the only one. */
    method FinalizeContentLength() returns (error: Option<Error>)
      modifies this
      ensures match FinalizeLength(old(AsFields()))
              case Err(e) => error == Some(e)
              case Ok(f) => error == None && AsFields() == f
      ensures active == null
    {
      var parser := active;
      active := null;
      if parser == null {
        return None;
      }
      if contentLength.Some? {
        return Some(DuplicateContentLength);
      }
      if !parser.sawDigit {
        return Some(InvalidContentLength);
      }
      contentLength := Some(parser.value);
      return None;
    }

    method HeaderLine(line: Bytes) returns (error: Option<Error>)
      modifies this
      ensures match AcceptHeader(old(AsFields()), line)
              case Err(e) => error == Some(e)
              case Ok(progress) => error == None && AsFields() == progress.fields
      ensures active == null || active == old(active) || fresh(active)
    {
      error := FinalizeContentLength();
      if error.Some? {
        return;
      }
      headerCount := headerCount + 1;
      if headerCount > MAX_HEADER_COUNT {
        return Some(TooManyHeaders);
      }
      var split := Split(line);
      if split.Err? {
        return Some(split.error);
      }
      if IsContentLengthName(split.value.0) {
        if contentLength.Some? {
          return Some(DuplicateContentLength);
        }
        var parser := new ContentLengthParser();
        error := parser.PushAll(split.value.1);
        if error.Some? {
          return;
        }
        active := parser;
      }
      previousHeader := true;
    }

    method ContinuationLine(line: Bytes) returns (error: Option<Error>)
      modifies this, active
      ensures match AcceptContinuation(old(AsFields()), line)
              case Err(e) => error == Some(e)
              case Ok(progress) => error == None && AsFields() == progress.fields
      ensures active == old(active)
    {
      if !previousHeader {
        return Some(InvalidHeaderSyntax);
      }
      if active == null {
        return None;
      }
      error := active.PushAll(line);
    }

    /** One line that is not the empty line at the end. */
    method TakeLine(line: Bytes) returns (error: Option<Error>)
      requires firstLine || line != []
      modifies this, active
      ensures match AcceptLine(old(AsFields()), line)
              case Err(e) => error == Some(e)
              case Ok(progress) => error == None && AsFields() == progress.fields
      ensures active == null || active == old(active) || fresh(active)
    {
      if firstLine {
        if line == [] || IsBlank(line[0]) {
          return Some(InvalidStartLine);
        }
        firstLine := false;
        return None;
      }
      if IsBlank(line[0]) {
        error := ContinuationLine(line);
      } else {
        error := HeaderLine(line);
      }
    }
  }

  /** What an unfinished header section means to the caller. */
  function OrTruncated(r: Result<Option<HeaderScan>, Error>, mode: Mode): Result<Option<HeaderScan>, Error> {
    if r == Ok(None) && mode.Datagram? then Err(TruncatedDatagram) else r
  }

  method ScanHeaders(input: Bytes, offset: nat, mode: Mode) returns (r: Result<Option<HeaderScan>, Error>)
    requires offset <= |input|
    ensures r == OrTruncated(Scan(input, offset, offset, NO_FIELDS), mode)
  {
    hide FindLineEnd, UnfinishedError, FinalizeLength, AcceptHeader, AcceptContinuation;
    var scanner := new HeaderScanner();
    var position := offset;
    while true
      invariant offset <= position <= |input| && fresh(scanner) && (scanner.active != null ==> fresh(scanner.active))
      invariant Scan(input, offset, position, scanner.AsFields()) == Scan(input, offset, offset, NO_FIELDS)
      decreases |input| - position
    {
      ghost var f := scanner.AsFields();
      ghost var step := LineStep(input, offset, position, f);
      var found := FindEnd(input, position);
      if found.BadEnding? {
        return Err(InvalidLineEnding);
      }
      if found.Unfinished? {
        return OrTruncated(Unfinishable(input, offset, position), mode);
      }
      var end := found.index;
      if end - position > MAX_LINE_BYTES {
        return Err(LineTooLong);
      }
      if end + 2 - offset > MAX_HEADER_BYTES {
        return Err(HeaderTooLarge);
      }
      var line := input[position..end];
      if !scanner.firstLine && line == [] {
        var problem := scanner.FinalizeContentLength();
        return if problem.Some? then Err(problem.value)
               else Ok(Some(HeaderScan(end + 2 - offset, scanner.contentLength)));
      }
      var error := scanner.TakeLine(line);
      if error.Some? {
        return Err(error.value);
      }
      assert step == Go(end + 2, scanner.AsFields());
      position := end + 2;
    }
  }

  function Unfinishable(input: Bytes, offset: nat, position: nat): Result<Option<HeaderScan>, Error>
    requires offset <= position <= |input|
  {
    var error := UnfinishedError(input, offset, position);
    if error.Some? then Err(error.value) else Ok(None)
  }

  method InspectBytes(input: Bytes, mode: Mode) returns (r: Result<Status, Error>)
    ensures r == Inspect(input, mode)
  {
    var offset := 0;
    if mode.Stream? {
      offset := SkipStreamPrefix(input);
    }
    if offset >= |input| {
      return Incomplete(mode);
    }
    var scan := ScanHeaders(input, offset, mode);
    match scan
    case Err(error) => return Err(error);
    case Ok(None) => return Ok(NeedMoreData(None));
    case Ok(Some(h)) =>
      return if mode.Stream? then InspectStream(input, offset, h) else InspectDatagram(input, offset, h);
  }
}

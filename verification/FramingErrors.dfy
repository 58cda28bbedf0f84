/**
 * Why a message is refused (src/sip/framing.rs): the first thing that is wrong
 * with it, said by its lines and fields.
 */
module FramingErrors {
  import opened Wrappers
  import opened Framing
  import opened FramingHeaders
  import opened FramingMessages

  // ---------------------------------------------------------------------------
  // What is wrong with a Content-Length value
  // ---------------------------------------------------------------------------

  /** `v[..k]` is a number so far, and the byte at `k` is the first that does not fit. */
  predicate WrongByte(v: Bytes, i: nat, j: nat, k: nat, error: Error) {
    && k < |v| && NumberAt(v[..k], i, j)
    && match error
       case ContentLengthOverflow => j == k && IsDigit(v[k]) && Decimal(v[i..k]) * 10 + (v[k] - 48) > USIZE_MAX
       case InvalidContentLength => (!IsDigit(v[k]) && !IsBlank(v[k])) || (IsDigit(v[k]) && i < j < k)
       case _ => false
  }

  ghost predicate WrongValue(v: Bytes, error: Error) {
    exists i: nat, j: nat, k: nat :: WrongByte(v, i, j, k, error)
  }

  lemma {:induction false} PushFindsError(v: Bytes, error: Error) returns (i: nat, j: nat, k: nat)
    requires Push(NO_DIGITS, v) == Err(error)
    ensures WrongByte(v, i, j, k, error)
  {
    var init := v[..|v| - 1];
    PushLast(v);
    if Push(NO_DIGITS, init).Err? {
      i, j, k := PushFindsError(init, error);
      assert init[..k] == v[..k] && init[i..k] == v[i..k];
    } else {
      k := |init|;
      i, j := FindsNumber(init);
      AcceptsNumber(init, i, j);
      assert v[..k] == init && v[i..k] == init[i..k];
    }
  }

  lemma {:induction false} PushKeepsError(v: Bytes, k: nat, error: Error)
    requires k <= |v| && Push(NO_DIGITS, v[..k]) == Err(error)
    ensures Push(NO_DIGITS, v) == Err(error)
  {
    assert v == v[..k] + v[k..];
    PushConcatenates(NO_DIGITS, v[..k], v[k..]);
  }

  lemma ErrorIsPushed(v: Bytes, i: nat, j: nat, k: nat, error: Error)
    requires WrongByte(v, i, j, k, error)
    ensures Push(NO_DIGITS, v) == Err(error)
  {
    AcceptsNumber(v[..k], i, j);
    PushLast(v[..k + 1]);
    assert v[..k + 1][..k] == v[..k] && v[..k + 1][k] == v[k];
    assert v[..k][i..j] == v[i..j];
    PushKeepsError(v, k + 1, error);
  }

  /** The parser fails exactly at the first byte that does not fit. */
  lemma PushFailsExactly(v: Bytes, error: Error)
    ensures Push(NO_DIGITS, v) == Err(error) <==> WrongValue(v, error)
  {
    if Push(NO_DIGITS, v) == Err(error) {
      var i, j, k := PushFindsError(v, error);
    }
    if WrongValue(v, error) {
      var i: nat, j: nat, k: nat :| WrongByte(v, i, j, k, error);
      ErrorIsPushed(v, i, j, k, error);
    }
  }

  // ---------------------------------------------------------------------------
  // What is wrong with a line
  // ---------------------------------------------------------------------------

  /** The `Content-Length` field still open has no digit in it. */
  predicate NoNumber(fields: seq<Field>) {
    LastIsLength(fields) && Blanks(fields[|fields| - 1].value)
  }

  /** The first thing that is wrong with this header line after these fields; the empty line ends them. */
  ghost predicate LineFault(fields: seq<Field>, line: Bytes, error: Error) {
    if line == [] then error == InvalidContentLength && NoNumber(fields)
    else if IsBlank(line[0]) then
      if fields == [] then error == InvalidHeaderSyntax
      else LastIsLength(fields) && WrongValue(fields[|fields| - 1].value + line, error)
    else if NoNumber(fields) then error == InvalidContentLength
    else if |fields| >= MAX_HEADER_COUNT then error == TooManyHeaders
    else match FieldIn(line)
      case None => error == if COLON in line then InvalidHeaderName else InvalidHeaderSyntax
      case Some(field) =>
        && IsContentLengthName(field.name)
        && if LengthValues(fields) != [] then error == DuplicateContentLength else WrongValue(field.value, error)
  }

  lemma BlankMeansNoDigit(v: Bytes)
    requires Push(NO_DIGITS, v).Ok?
    ensures Finish(Push(NO_DIGITS, v).value).Err? <==> Blanks(v)
    ensures Finish(Push(NO_DIGITS, v).value).Err? ==> Finish(Push(NO_DIGITS, v).value) == Err(InvalidContentLength)
  {
    var i, j := FindsNumber(v);
    AcceptsNumber(v, i, j);
    if i == j {
      assert v[..i] == v;
    } else {
      assert v[i..j][0] == v[i];
    }
  }

  lemma ClosingFault(f: Fields, fields: seq<Field>)
    requires Summarises(f, fields)
    ensures FinalizeLength(f).Err? <==> NoNumber(fields)
    ensures FinalizeLength(f).Err? ==> FinalizeLength(f) == Err(InvalidContentLength)
  {
    if f.active.Some? {
      BlankMeansNoDigit(fields[|fields| - 1].value);
    }
  }

  lemma ContinuationFault(f: Fields, fields: seq<Field>, line: Bytes, error: Error)
    requires Summarises(f, fields) && line != [] && IsBlank(line[0])
    ensures AcceptContinuation(f, line) == Err(error) <==> LineFault(fields, line, error)
  {
    if LastIsLength(fields) {
      PushConcatenates(NO_DIGITS, fields[|fields| - 1].value, line);
      PushFailsExactly(fields[|fields| - 1].value + line, error);
    }
  }

  lemma HeaderFault(f: Fields, fields: seq<Field>, line: Bytes, error: Error)
    requires Summarises(f, fields) && line != [] && !IsBlank(line[0])
    ensures AcceptHeader(f, line) == Err(error) <==> LineFault(fields, line, error)
  {
    hide WrongValue, IsField, Spells, SplitHeader, Push;
    ClosingFault(f, fields);
    if !NoNumber(fields) {
      FinalizeCloses(f, fields);
      FieldIsSplit(line);
      SplitIsExact(line, Field([], []));
      KnownLengths(fields);
      if FieldIn(line).Some? {
        PushFailsExactly(FieldIn(line).value.value, error);
      }
    }
  }

  lemma KnownLengths(fields: seq<Field>)
    requires Closed(fields).Ok?
    ensures Closed(fields).value.Some? <==> LengthValues(fields) != []
  {
  }

  /** A line is refused exactly for its first fault. */
  lemma LineFaultIsExact(f: Fields, fields: seq<Field>, line: Bytes, error: Error)
    requires Summarises(f, fields)
    ensures AcceptLine(f, line) == Err(error) <==> LineFault(fields, line, error)
  {
    hide FinalizeLength, AcceptHeader, AcceptContinuation, NoNumber;
    if line == [] {
      ClosingFault(f, fields);
    } else if IsBlank(line[0]) {
      ContinuationFault(f, fields, line, error);
    } else {
      HeaderFault(f, fields, line, error);
    }
  }

  // ---------------------------------------------------------------------------
  // What is wrong with the bytes at a line start
  // ---------------------------------------------------------------------------

  predicate Unbroken(input: Bytes, position: nat, end: nat)
    requires position <= end <= |input|
  {
    forall i | position <= i < end :: input[i] != CR && input[i] != LF
  }

  /** The first CR or LF from `position` on is not a line end. */
  predicate Stray(input: Bytes, position: nat, i: nat) {
    && position <= i < |input| && Unbroken(input, position, i)
    && (input[i] == LF || (input[i] == CR && i + 1 < |input| && input[i + 1] != LF))
  }

  /** No line end comes, except perhaps for half of one at the very end. */
  predicate Endless(input: Bytes, position: nat) {
    position <= |input| &&
    (Unbroken(input, position, |input|)
     || (position < |input| && input[|input| - 1] == CR && Unbroken(input, position, |input| - 1)))
  }

  ghost predicate HasStray(input: Bytes, position: nat) { exists i :: Stray(input, position, i) }

  lemma StrayLater(input: Bytes, position: nat)
    requires position < |input| && input[position] != CR && input[position] != LF
    ensures HasStray(input, position) <==> HasStray(input, position + 1)
  {
    var next := position + 1;
    if HasStray(input, next) {
      var i :| Stray(input, next, i);
      assert Stray(input, position, i);
    }
    if HasStray(input, position) {
      var i :| Stray(input, position, i);
      assert Stray(input, next, i);
    }
  }

  lemma {:induction false} LineEndIs(input: Bytes, position: nat)
    requires position <= |input|
    ensures FindLineEnd(input, position).BadEnding? <==> HasStray(input, position)
    ensures FindLineEnd(input, position).Unfinished? <==> Endless(input, position)
    decreases |input| - position
  {
    if position < |input| {
      if input[position] == CR || input[position] == LF {
        if HasStray(input, position) {
          var i :| Stray(input, position, i);
          assert i == position;
        }
        assert FindLineEnd(input, position).BadEnding? ==> Stray(input, position, position);
      } else {
        LineEndIs(input, position + 1);
        StrayLater(input, position);
      }
    }
  }

  predicate IsNextLine(input: Bytes, position: nat, line: Bytes) {
    LineAt(input, position, line) && CR !in line && LF !in line
  }

  lemma NextLineIs(input: Bytes, position: nat, line: Bytes)
    requires position <= |input|
    ensures IsNextLine(input, position, line) <==>
            FindLineEnd(input, position) == At(position + |line|) && input[position..position + |line|] == line
  {
    if IsNextLine(input, position, line) {
      forall i | position <= i < position + |line| ensures input[i] != CR && input[i] != LF {
        assert input[i] == line[i - position];
      }
      LineFound(input, position, position + |line|);
    }
    if FindLineEnd(input, position) == At(position + |line|) && input[position..position + |line|] == line {
      LineBefore(input, position, position + |line|);
    }
  }

  /** The first thing that is wrong from `position` on, where a line starts after these lines. */
  ghost predicate FaultAt(input: Bytes, offset: nat, position: nat, lines: seq<Bytes>, error: Error)
    requires offset <= position <= |input| && NonEmpty(lines)
  {
    || (error == InvalidLineEnding && HasStray(input, position))
    || (Endless(input, position) && TooLong(|input| - position, |input| - offset, error))
    || exists line :: IsNextLine(input, position, line) && FaultIn(line, position + |line| + 2 - offset, lines, error)
  }

  predicate TooLong(lineBytes: nat, headerBytes: nat, error: Error) {
    match error
    case LineTooLong => lineBytes > MAX_LINE_BYTES
    case HeaderTooLarge => lineBytes <= MAX_LINE_BYTES && headerBytes > MAX_HEADER_BYTES
    case _ => false
  }

  ghost predicate FaultIn(line: Bytes, headerBytes: nat, lines: seq<Bytes>, error: Error)
    requires NonEmpty(lines)
  {
    || TooLong(|line|, headerBytes, error)
    || (|line| <= MAX_LINE_BYTES && headerBytes <= MAX_HEADER_BYTES && ContentFault(line, lines, error))
  }

  /** The start line must not be empty or blank; any other line is judged by the fields before it. */
  ghost predicate ContentFault(line: Bytes, lines: seq<Bytes>, error: Error)
    requires NonEmpty(lines)
  {
    if lines == [] then error == InvalidStartLine && (line == [] || IsBlank(line[0]))
    else NonEmpty(lines[1..]) && FieldsOf(lines[1..]).Some? && LineFault(FieldsOf(lines[1..]).value, line, error)
  }

  /** What the scan knows after these lines. */
  predicate Knows(f: Fields, lines: seq<Bytes>)
    requires NonEmpty(lines)
  {
    Fold(NO_FIELDS, lines) == Ok(f)
  }

  lemma KnowsFields(f: Fields, lines: seq<Bytes>)
    requires NonEmpty(lines) && Knows(f, lines) && lines != []
    ensures NonEmpty(lines[1..]) && FieldsOf(lines[1..]).Some? && Summarises(f, FieldsOf(lines[1..]).value)
  {
    assert Fold(NO_FIELDS, lines) == Fold(STARTED, lines[1..]);
    FoldIsFields(lines[1..]);
  }

  lemma ContentFaultIsExact(f: Fields, lines: seq<Bytes>, line: Bytes, error: Error)
    requires NonEmpty(lines) && Knows(f, lines)
    ensures AcceptLine(f, line) == Err(error) <==> ContentFault(line, lines, error)
  {
    hide LineFault, FieldsOf, AcceptHeader, AcceptContinuation, FinalizeLength;
    if lines != [] {
      KnowsFields(f, lines);
      LineFaultIsExact(f, FieldsOf(lines[1..]).value, line, error);
    }
  }

  /** One round of the scan fails exactly for the first fault it meets. */
  lemma StepFailsExactly(input: Bytes, offset: nat, position: nat, f: Fields, lines: seq<Bytes>, error: Error)
    requires offset <= position <= |input| && NonEmpty(lines) && Knows(f, lines)
    ensures LineStep(input, offset, position, f) == Stop(Err(error)) <==> FaultAt(input, offset, position, lines, error)
  {
    hide FindLineEnd, AcceptLine, ContentFault, Knows, IsNextLine, HasStray, Endless;
    LineEndIs(input, position);
    match FindLineEnd(input, position)
    case BadEnding => NoNextLine(input, position);
    case Unfinished => NoNextLine(input, position);
    case At(end) =>
      var line := input[position..end];
      NextLineIs(input, position, line);
      ContentFaultIsExact(f, lines, line, error);
      forall other | IsNextLine(input, position, other) ensures other == line {
        NextLineIs(input, position, other);
      }
  }

  lemma NoNextLine(input: Bytes, position: nat)
    requires position <= |input| && !FindLineEnd(input, position).At?
    ensures forall line :: !IsNextLine(input, position, line)
  {
    forall line ensures !IsNextLine(input, position, line) {
      NextLineIs(input, position, line);
    }
  }

  // ---------------------------------------------------------------------------
  // The first fault of a header section
  // ---------------------------------------------------------------------------

  /** The scan gets past these lines. */
  predicate GetsPast(input: Bytes, offset: nat, position: nat, f: Fields, lines: seq<Bytes>)
    decreases |lines|
  {
    lines != [] ==>
      && IsLine(lines[0]) && LineAt(input, position, lines[0]) && offset <= position
      && position + |lines[0]| + 2 - offset <= MAX_HEADER_BYTES && AcceptLine(f, lines[0]).Ok?
      && GetsPast(input, offset, position + |lines[0]| + 2, AcceptLine(f, lines[0]).value.fields, lines[1..])
  }

  lemma {:induction false} GetsPastInParts(input: Bytes, offset: nat, position: nat, f: Fields, lines: seq<Bytes>)
    requires offset <= position <= |input| && position - offset <= MAX_HEADER_BYTES
    ensures GetsPast(input, offset, position, f, lines) <==>
              && AllLines(lines) && Join(lines) <= input[position..]
              && position + |Join(lines)| - offset <= MAX_HEADER_BYTES && NonEmpty(lines) && Fold(f, lines).Ok?
    decreases |lines|
  {
    hide AcceptLine;
    if lines != [] {
      var line, rest := lines[0], lines[1..];
      AllLinesFirst(lines);
      LineAtIsPrefix(input, position, line, Join(rest));
      if IsLine(line) && LineAt(input, position, line) && AcceptLine(f, line).Ok? {
        var next := position + |line| + 2;
        if next - offset <= MAX_HEADER_BYTES {
          GetsPastInParts(input, offset, next, AcceptLine(f, line).value.fields, rest);
        }
      }
    }
  }

  /** After these lines the scan stops with this error. */
  ghost predicate StopsAfter(input: Bytes, offset: nat, position: nat, f: Fields, lines: seq<Bytes>, error: Error)
    requires offset <= position <= |input|
  {
    && NonEmpty(lines) && GetsPast(input, offset, position, f, lines) && Fold(f, lines).Ok?
    && position + Span(lines) <= |input|
    && LineStep(input, offset, position + Span(lines), Fold(f, lines).value) == Stop(Err(error))
  }

  lemma StopsFirst(input: Bytes, offset: nat, position: nat, f: Fields, line: Bytes, rest: seq<Bytes>, error: Error)
    requires offset <= position <= |input| && IsLine(line) && LineAt(input, position, line)
    requires position + |line| + 2 - offset <= MAX_HEADER_BYTES && AcceptLine(f, line).Ok?
    ensures StopsAfter(input, offset, position, f, [line] + rest, error) <==>
            StopsAfter(input, offset, position + |line| + 2, AcceptLine(f, line).value.fields, rest, error)
  {
    hide AcceptLine, LineStep;
    assert ([line] + rest)[1..] == rest;
    assert NonEmpty([line] + rest) <==> NonEmpty(rest) by {
      if NonEmpty([line] + rest) {
        forall i | 0 <= i < |rest| ensures rest[i] != [] { assert rest[i] == ([line] + rest)[i + 1]; }
      }
    }
  }

  lemma {:induction false} ScanStops(input: Bytes, offset: nat, position: nat, f: Fields, error: Error)
    returns (lines: seq<Bytes>)
    requires offset <= position <= |input| && Scan(input, offset, position, f) == Err(error)
    ensures StopsAfter(input, offset, position, f, lines, error)
    decreases |input| - position
  {
    hide AcceptLine, FindLineEnd, StopsAfter, LineStep;
    match LineStep(input, offset, position, f)
    case Stop(_) =>
      lines := [];
      StopsNow(input, offset, position, f, error);
    case Go(next, g) =>
      var line := StepReads(input, offset, position, f);
      GoIsWithin(input, offset, position, f);
      var rest := ScanStops(input, offset, next, g, error);
      StopsFirst(input, offset, position, f, line, rest, error);
      lines := [line] + rest;
  }

  lemma StopsNow(input: Bytes, offset: nat, position: nat, f: Fields, error: Error)
    requires offset <= position <= |input| && LineStep(input, offset, position, f) == Stop(Err(error))
    ensures StopsAfter(input, offset, position, f, [], error)
  {
  }

  lemma GoIsWithin(input: Bytes, offset: nat, position: nat, f: Fields)
    requires offset <= position <= |input| && LineStep(input, offset, position, f).Go?
    ensures LineStep(input, offset, position, f).position - offset <= MAX_HEADER_BYTES
  {
  }

  lemma {:induction false} StopIsScanned(
    input: Bytes, offset: nat, position: nat, f: Fields, lines: seq<Bytes>, error: Error)
    requires offset <= position <= |input| && StopsAfter(input, offset, position, f, lines, error)
    ensures Scan(input, offset, position, f) == Err(error)
    decreases |lines|
  {
    if lines != [] {
      var line, rest := lines[0], lines[1..];
      assert lines == [line] + rest;
      StopsFirst(input, offset, position, f, line, rest, error);
      StopIsScanned(input, offset, position + |line| + 2, AcceptLine(f, line).value.fields, rest, error);
      StepOverLine(input, offset, position, f, line);
    }
  }

  /** Whole lines that nothing is wrong with: a start line and fields so far. */
  ghost predicate Admissible(lines: seq<Bytes>) {
    && AllLines(lines) && NonEmpty(lines)
    && (lines != [] ==>
          && !IsBlank(lines[0][0]) && NonEmpty(lines[1..])
          && FieldsOf(lines[1..]).Some? && Viable(FieldsOf(lines[1..]).value))
  }

  lemma AdmissibleFolds(lines: seq<Bytes>)
    requires AllLines(lines) && NonEmpty(lines)
    ensures Fold(NO_FIELDS, lines).Ok? <==> Admissible(lines)
  {
    if lines != [] {
      var rest := lines[1..];
      AllLinesFirst(lines);
      assert NonEmpty(rest);
      FoldIsFields(rest);
      assert IsBlank(lines[0][0]) || Fold(NO_FIELDS, lines) == Fold(STARTED, rest);
    }
  }

  /** After whole lines that are admissible comes the first fault. */
  ghost predicate FaultAfter(input: Bytes, offset: nat, lines: seq<Bytes>, error: Error)
    requires offset <= |input|
  {
    && Admissible(lines) && Join(lines) <= input[offset..] && |Join(lines)| <= MAX_HEADER_BYTES
    && FaultAt(input, offset, offset + |Join(lines)|, lines, error)
  }

  lemma FaultIsStop(input: Bytes, offset: nat, lines: seq<Bytes>, error: Error)
    requires offset <= |input|
    ensures FaultAfter(input, offset, lines, error) <==> StopsAfter(input, offset, offset, NO_FIELDS, lines, error)
  {
    hide LineStep, FaultAt, Admissible, GetsPast;
    GetsPastInParts(input, offset, offset, NO_FIELDS, lines);
    SpanIsLength(lines);
    if Admissible(lines) || NonEmpty(lines) {
      LinesOfAdmissible(lines);
      if AllLines(lines) && NonEmpty(lines) {
        AdmissibleFolds(lines);
        if Fold(NO_FIELDS, lines).Ok? && offset + |Join(lines)| <= |input| {
          StepFailsExactly(input, offset, offset + |Join(lines)|, Fold(NO_FIELDS, lines).value, lines, error);
        }
      }
    }
  }

  lemma LinesOfAdmissible(lines: seq<Bytes>)
    ensures Admissible(lines) ==> AllLines(lines) && NonEmpty(lines)
  {
  }

  ghost predicate Faulty(input: Bytes, offset: nat, error: Error)
    requires offset <= |input|
  {
    exists lines :: FaultAfter(input, offset, lines, error)
  }

  /** The scan fails exactly for the first fault of the header section. */
  lemma ScanFailsExactly(input: Bytes, offset: nat, error: Error)
    requires offset <= |input|
    ensures Scan(input, offset, offset, NO_FIELDS) == Err(error) <==> Faulty(input, offset, error)
  {
    hide FaultAfter, StopsAfter;
    if Scan(input, offset, offset, NO_FIELDS) == Err(error) {
      var lines := ScanStops(input, offset, offset, NO_FIELDS, error);
      FaultIsStop(input, offset, lines, error);
    }
    if Faulty(input, offset, error) {
      var lines :| FaultAfter(input, offset, lines, error);
      FaultIsStop(input, offset, lines, error);
      StopIsScanned(input, offset, offset, NO_FIELDS, lines, error);
    }
  }

  // ---------------------------------------------------------------------------
  // The whole decision
  // ---------------------------------------------------------------------------

  /** A stream must declare its body, within the limit. */
  predicate StreamFault(h: HeaderScan, error: Error) {
    match error
    case MissingContentLength => h.contentLength.None?
    case BodyTooLarge => h.contentLength.Some? && h.contentLength.value > MAX_BODY_BYTES
    case _ => false
  }

  /** A datagram must hold the body it declares; its body must be within the limit. */
  predicate DatagramFault(available: nat, h: HeaderScan, error: Error) {
    match error
    case TruncatedDatagram => h.contentLength.Some? && h.contentLength.value > available
    case BodyTooLarge =>
      && (h.contentLength.Some? ==> h.contentLength.value <= available)
      && (if h.contentLength.Some? then h.contentLength.value else available) > MAX_BODY_BYTES
    case _ => false
  }

  /** There is neither a fault nor a whole header section: the headers are not all there yet. */
  ghost predicate Unended(input: Bytes, offset: nat)
    requires offset <= |input|
  {
    (forall error :: !Faulty(input, offset, error)) && (forall h :: !HasHeaderSection(input, offset, h))
  }

  ghost predicate StreamFaulty(input: Bytes, offset: nat, error: Error) {
    exists h :: HasHeaderSection(input, offset, h) && StreamFault(h, error)
  }

  ghost predicate DatagramFaulty(input: Bytes, error: Error) {
    exists h :: HasHeaderSection(input, 0, h) && h.headerBytes <= |input|
                && DatagramFault(|input| - h.headerBytes, h, error)
  }

  lemma ScanTells(input: Bytes, offset: nat)
    requires offset <= |input|
    ensures forall h :: HasHeaderSection(input, offset, h) <==> Scan(input, offset, offset, NO_FIELDS) == Ok(Some(h))
    ensures forall e :: Faulty(input, offset, e) <==> Scan(input, offset, offset, NO_FIELDS) == Err(e)
    ensures Unended(input, offset) <==> Scan(input, offset, offset, NO_FIELDS) == Ok(None)
    ensures offset == |input| ==> Scan(input, offset, offset, NO_FIELDS) == Ok(None)
  {
    hide HasHeaderSection, Faulty;
    var scan := Scan(input, offset, offset, NO_FIELDS);
    forall h ensures HasHeaderSection(input, offset, h) <==> scan == Ok(Some(h)) {
      FramingMessages.SectionIsScanned(input, offset, h);
    }
    forall e ensures Faulty(input, offset, e) <==> scan == Err(e) {
      ScanFailsExactly(input, offset, e);
    }
    if scan.Ok? && scan.value.Some? {
      assert HasHeaderSection(input, offset, scan.value.value);
    } else if scan.Err? {
      assert Faulty(input, offset, scan.error);
    }
  }

  /** A stream is refused exactly for a fault of its header section or for a body undeclared or too large. */
  lemma StreamRefusedExactly(input: Bytes, error: Error)
    ensures var offset := SkipPrefix(input, 0);
            Inspect(input, Stream) == Err(error) <==> Faulty(input, offset, error) || StreamFaulty(input, offset, error)
  {
    hide Faulty, HasHeaderSection, Scan, SkipPrefix;
    var offset := SkipPrefix(input, 0);
    ScanTells(input, offset);
    var scan := Scan(input, offset, offset, NO_FIELDS);
    if scan.Ok? && scan.value.Some? {
      StreamErrorIs(input, offset, scan.value.value, error);
      assert HasHeaderSection(input, offset, scan.value.value);
    }
  }

  lemma StreamErrorIs(input: Bytes, offset: nat, h: HeaderScan, error: Error)
    requires offset <= |input| && Scan(input, offset, offset, NO_FIELDS) == Ok(Some(h))
    ensures offset + h.headerBytes <= |input| && offset < |input|
    ensures InspectStream(input, offset, h) == Err(error) <==> StreamFault(h, error)
  {
  }

  /** A stream asks for more without saying how much exactly while its header section is not all there. */
  lemma StreamWaitsExactly(input: Bytes)
    ensures Inspect(input, Stream) == Ok(NeedMoreData(None)) <==> Unended(input, SkipPrefix(input, 0))
  {
    hide Faulty, HasHeaderSection, Unended, SkipPrefix;
    ScanTells(input, SkipPrefix(input, 0));
  }

  /** A datagram is refused exactly for a fault, an unended header section, or a body missing or too large. */
  lemma DatagramRefusedExactly(input: Bytes, error: Error)
    ensures Inspect(input, Datagram) == Err(error) <==>
              || Faulty(input, 0, error) || DatagramFaulty(input, error)
              || (error == TruncatedDatagram && Unended(input, 0))
  {
    hide Faulty, HasHeaderSection, Unended, Scan;
    ScanTells(input, 0);
    var scan := Scan(input, 0, 0, NO_FIELDS);
    if scan.Ok? && scan.value.Some? {
      DatagramErrorIs(input, scan.value.value, error);
      assert HasHeaderSection(input, 0, scan.value.value);
    }
  }

  lemma DatagramErrorIs(input: Bytes, h: HeaderScan, error: Error)
    requires Scan(input, 0, 0, NO_FIELDS) == Ok(Some(h))
    ensures h.headerBytes <= |input| && |input| > 0
    ensures InspectDatagram(input, 0, h) == Err(error) <==> DatagramFault(|input| - h.headerBytes, h, error)
  {
  }
}

/**
 * Which inputs are complete messages (src/sip/framing.rs), said by what they
 * hold: keep-alive bytes, a header section, a body.
 */
module FramingMessages {
  import opened Wrappers
  import opened Framing
  import FramingHeaders

  ghost predicate HasHeaderSection(input: Bytes, offset: nat, h: HeaderScan) {
    exists start, lines :: FramingHeaders.IsHeaderSection(input, offset, start, lines, h)
  }

  lemma SectionIsScanned(input: Bytes, offset: nat, h: HeaderScan)
    requires offset <= |input|
    ensures HasHeaderSection(input, offset, h) <==> Scan(input, offset, offset, NO_FIELDS) == Ok(Some(h))
  {
    FramingHeaders.ScanIsExact(input, offset, h);
  }

  /** Only CRLF pairs are skipped, and every one of them. */
  lemma {:induction false} SkipsPairs(input: Bytes, offset: nat) returns (pairs: nat)
    requires offset <= |input|
    ensures SkipPrefix(input, offset) == offset + 2 * pairs
    ensures forall i | 0 <= i < pairs :: input[offset + 2 * i] == CR && input[offset + 2 * i + 1] == LF
    ensures var r := SkipPrefix(input, offset); !(r + 2 <= |input| && input[r] == CR && input[r + 1] == LF)
    decreases |input| - offset
  {
    if offset + 2 <= |input| && input[offset] == CR && input[offset + 1] == LF {
      var rest := SkipsPairs(input, offset + 2);
      pairs := rest + 1;
      forall i | 0 <= i < pairs
        ensures input[offset + 2 * i] == CR && input[offset + 2 * i + 1] == LF
      {
        if i > 0 {
          assert input[offset + 2 + 2 * (i - 1)] == CR && input[offset + 2 + 2 * (i - 1) + 1] == LF;
        }
      }
    } else {
      pairs := 0;
    }
  }

  /** The boundary of a stream message with this header section. */
  predicate StreamBoundary(input: Bytes, offset: nat, b: Boundary) {
    && b.messageOffset == offset && b.bodyBytes <= MAX_BODY_BYTES && b.messageBytes == b.headerBytes + b.bodyBytes
    && b.consumedBytes == b.messageOffset + b.messageBytes <= |input|
  }

  lemma StreamDecision(input: Bytes, offset: nat, h: HeaderScan, b: Boundary)
    requires offset + h.headerBytes <= |input| && h.headerBytes <= MAX_HEADER_BYTES
    ensures InspectStream(input, offset, h) == Ok(Complete(b)) <==>
            h == HeaderScan(b.headerBytes, Some(b.bodyBytes)) && StreamBoundary(input, offset, b)
  {
  }

  /**
   * A stream is complete with this boundary exactly when, after its keep-alive
   * bytes, it holds a header section that declares the body, and the body.
   */
  lemma StreamCompletesExactly(input: Bytes, b: Boundary)
    ensures Inspect(input, Stream) == Ok(Complete(b)) <==>
              && StreamBoundary(input, SkipPrefix(input, 0), b)
              && HasHeaderSection(input, b.messageOffset, HeaderScan(b.headerBytes, Some(b.bodyBytes)))
  {
    var offset := SkipPrefix(input, 0);
    SectionIsScanned(input, offset, HeaderScan(b.headerBytes, Some(b.bodyBytes)));
    var scan := Scan(input, offset, offset, NO_FIELDS);
    if scan.Ok? && scan.value.Some? {
      StreamDecision(input, offset, scan.value.value, b);
    }
  }

  /** The boundary of a datagram: everything is consumed, and an undeclared body is all that is left. */
  predicate DatagramBoundary(input: Bytes, h: HeaderScan, b: Boundary) {
    && b.messageOffset == 0 && b.consumedBytes == |input| && b.headerBytes == h.headerBytes
    && b.bodyBytes <= MAX_BODY_BYTES && b.messageBytes == b.headerBytes + b.bodyBytes <= |input|
    && (if h.contentLength.Some? then b.bodyBytes == h.contentLength.value else b.messageBytes == |input|)
  }

  lemma DatagramDecision(input: Bytes, h: HeaderScan, b: Boundary)
    requires h.headerBytes <= |input| && h.headerBytes <= MAX_HEADER_BYTES
    ensures InspectDatagram(input, 0, h) == Ok(Complete(b)) <==> DatagramBoundary(input, h, b)
  {
  }

  lemma DatagramCompletesExactly(input: Bytes, b: Boundary)
    ensures Inspect(input, Datagram) == Ok(Complete(b)) <==>
            exists h :: HasHeaderSection(input, 0, h) && DatagramBoundary(input, h, b)
  {
    var scan := Scan(input, 0, 0, NO_FIELDS);
    forall h
      ensures HasHeaderSection(input, 0, h) <==> scan == Ok(Some(h))
    {
      SectionIsScanned(input, 0, h);
    }
    if scan.Ok? && scan.value.Some? {
      DatagramDecision(input, scan.value.value, b);
      assert HasHeaderSection(input, 0, scan.value.value);
    }
  }

  /** The header section is there, and with the body it declares the input would be `total` bytes long. */
  ghost predicate Lacks(input: Bytes, offset: nat, h: HeaderScan, total: nat) {
    && HasHeaderSection(input, offset, h) && h.contentLength.Some? && h.contentLength.value <= MAX_BODY_BYTES
    && |input| < total == offset + h.headerBytes + h.contentLength.value
  }

  lemma StreamAsks(input: Bytes, offset: nat, h: HeaderScan, total: nat)
    requires offset + h.headerBytes <= |input| && h.headerBytes <= MAX_HEADER_BYTES
    ensures InspectStream(input, offset, h) == Ok(NeedMoreData(Some(total))) <==>
              && h.contentLength.Some? && h.contentLength.value <= MAX_BODY_BYTES
              && |input| < total == offset + h.headerBytes + h.contentLength.value
  {
  }

  ghost predicate LacksBody(input: Bytes, total: nat) {
    exists h :: Lacks(input, SkipPrefix(input, 0), h, total)
  }

  lemma LackingStreamAsks(input: Bytes, h: HeaderScan, total: nat)
    requires Lacks(input, SkipPrefix(input, 0), h, total)
    ensures Inspect(input, Stream) == Ok(NeedMoreData(Some(total)))
  {
    SectionIsScanned(input, SkipPrefix(input, 0), h);
    StreamAsks(input, SkipPrefix(input, 0), h, total);
  }

  /** A stream whose header section is there asks for exactly the bytes that the declared body still lacks. */
  lemma StreamAsksExactly(input: Bytes, total: nat)
    ensures Inspect(input, Stream) == Ok(NeedMoreData(Some(total))) <==> LacksBody(input, total)
  {
    if LacksBody(input, total) {
      var h :| Lacks(input, SkipPrefix(input, 0), h, total);
      LackingStreamAsks(input, h, total);
    } else if Inspect(input, Stream) == Ok(NeedMoreData(Some(total))) {
      var offset := SkipPrefix(input, 0);
      var h := Scan(input, offset, offset, NO_FIELDS).value.value;
      SectionIsScanned(input, offset, h);
      StreamAsks(input, offset, h, total);
      assert Lacks(input, offset, h, total);
    }
  }

  // ---------------------------------------------------------------------------
  // One message, byte for byte
  // ---------------------------------------------------------------------------

  const START: Bytes := [88]
  const LENGTH_NAME: Bytes := [67, 111, 110, 116, 101, 110, 116, 45, 76, 101, 110, 103, 116, 104]
  const LENGTH_VALUE: Bytes := [SPACE, 53]
  const LENGTH_LINE: Bytes := LENGTH_NAME + [COLON] + LENGTH_VALUE
  const BODY: Bytes := [104, 101, 108, 108, 111]

  lemma FiveIsDeclared()
    ensures FramingHeaders.IsLength(LENGTH_VALUE, 5)
  {
    var v := LENGTH_VALUE;
    assert v[..1] == [SPACE] && v[1..2] == [53] && v[2..] == [] && [53][..0] == [];
    assert FramingHeaders.Decimal([]) == 0;
    assert FramingHeaders.Decimal([53]) == 5;
    assert FramingHeaders.NumberAt(v, 1, 2);
  }

  lemma OneField(line: Bytes, field: FramingHeaders.Field)
    requires line != [] && !IsBlank(line[0]) && FramingHeaders.IsField(line, field)
    ensures FramingHeaders.FieldsOf([line]) == Some([field])
    ensures FramingHeaders.LengthValues([field]) == if IsContentLengthName(field.name) then [field.value] else []
  {
    hide SplitHeader, FramingHeaders.IsField, FramingHeaders.FieldIn;
    FramingHeaders.SplitIsExact(line, field);
    FramingHeaders.FieldIsSplit(line);
    assert [line][..0] == [] && [field][..0] == [];
    var none: seq<FramingHeaders.Field> := [];
    assert none + [field] == [field];
    assert FramingHeaders.FieldIn(line) == Some(field);
    assert FramingHeaders.AddLine(none, line) == Some([field]);
  }

  lemma NameIsToken()
    ensures FramingHeaders.IsToken(LENGTH_NAME)
  {
  }

  lemma NameIsContentLength()
    ensures IsContentLengthName(LENGTH_NAME)
  {
    assert |LENGTH_NAME| == |CONTENT_LENGTH| == 14;
    assert EqualsIgnoreCase(LENGTH_NAME, CONTENT_LENGTH);
  }

  lemma LineIsField()
    ensures FramingHeaders.IsField(LENGTH_LINE, FramingHeaders.Field(LENGTH_NAME, LENGTH_VALUE))
  {
    hide FramingHeaders.IsToken;
    NameIsToken();
    assert LENGTH_LINE == LENGTH_NAME + [] + [COLON] + LENGTH_VALUE;
    assert FramingHeaders.Spells(LENGTH_LINE, FramingHeaders.Field(LENGTH_NAME, LENGTH_VALUE), []);
  }

  lemma LineDeclaresFive()
    ensures FramingHeaders.FieldsOf([LENGTH_LINE]).Some?
    ensures FramingHeaders.Declares(FramingHeaders.FieldsOf([LENGTH_LINE]).value, Some(5))
    ensures |FramingHeaders.FieldsOf([LENGTH_LINE]).value| == 1
  {
    hide FramingHeaders.FieldsOf, FramingHeaders.IsLength, FramingHeaders.LengthValues, FramingHeaders.IsField,
         IsContentLengthName;
    LineIsField();
    NameIsContentLength();
    OneField(LENGTH_LINE, FramingHeaders.Field(LENGTH_NAME, LENGTH_VALUE));
    FiveIsDeclared();
  }

  lemma TwoLines(start: Bytes, line: Bytes)
    ensures FramingHeaders.Join([start, line]) + [CR, LF] == start + [CR, LF] + line + [CR, LF] + [CR, LF]
  {
    assert [start, line][1..] == [line] && [line][1..] == [];
    assert FramingHeaders.Join([line]) == line + [CR, LF] + [];
  }

  /** "X", "Content-Length: 5", an empty line, "hello": 24 header bytes and 5 body bytes, whatever follows. */
  lemma AMessage(more: Bytes)
    ensures Inspect(START + [CR, LF] + LENGTH_LINE + [CR, LF] + [CR, LF] + BODY + more, Stream) ==
            Ok(Complete(Boundary(0, 24, 5, 29, 29)))
  {
    hide FramingHeaders.FieldsOf, FramingHeaders.Declares, FramingHeaders.Join, Inspect;
    var input := START + [CR, LF] + LENGTH_LINE + [CR, LF] + [CR, LF] + BODY + more;
    TwoLines(START, LENGTH_LINE);
    LineDeclaresFive();
    assert [START] + [LENGTH_LINE] == [START, LENGTH_LINE];
    assert input[0..] == input;
    assert FramingHeaders.IsHeaderSection(input, 0, START, [LENGTH_LINE], HeaderScan(24, Some(5)));
    StreamCompletesExactly(input, Boundary(0, 24, 5, 29, 29));
  }
}

/**
 * Framing a byte stream that arrives in pieces (src/sip/framing.rs).
 *
 * What a decision on a prefix says about every longer input, and what a
 * receiver that frames again after each piece delivers.
 */
module FramingStream {
  import opened Wrappers
  import opened Framing

  // ---------------------------------------------------------------------------
  // One line
  // ---------------------------------------------------------------------------

  /** The line end search never changes its mind; an unfinished line can only end past what was seen. */
  lemma {:induction false} LineEndIsStable(x: Bytes, y: Bytes, start: nat)
    requires start <= |x|
    ensures !FindLineEnd(x, start).Unfinished? ==> FindLineEnd(x + y, start) == FindLineEnd(x, start)
    ensures var e := FindLineEnd(x + y, start);
            FindLineEnd(x, start).Unfinished? && e.At? ==> e.index >= |x| || SplitLine(x, y, e.index)
    ensures FindLineEnd(x, start).Unfinished? && start < |x| && x[|x| - 1] == CR && y != [] ==>
              FindLineEnd(x + y, start) == if y[0] == LF then At(|x| - 1) else BadEnding
    decreases |x| - start
  {
    if start < |x| && x[start] != CR && x[start] != LF {
      LineEndIsStable(x, y, start + 1);
    }
  }

  /** The cut falls between the CR and the LF of the line ending at `index`. */
  predicate SplitLine(x: Bytes, y: Bytes, index: nat) {
    index + 1 == |x| && x[index] == CR && y != [] && y[0] == LF
  }

  /**
   * The input stops inside a header line right after its 8192 bytes and a CR:
   * the one place where a line of legal length already looks too long.
   */
  predicate AtTheBrim(x: Bytes, position: nat)
    requires position <= |x|
    decreases |x| - position
  {
    match FindLineEnd(x, position)
    case BadEnding => false
    case Unfinished => |x| == position + MAX_LINE_BYTES + 1 && x[|x| - 1] == CR
    case At(end) => end != position && AtTheBrim(x, end + 2)
  }

  // ---------------------------------------------------------------------------
  // The header scan
  // ---------------------------------------------------------------------------

  lemma StepIsStable(x: Bytes, y: Bytes, offset: nat, position: nat, f: Fields)
    requires offset <= position <= |x|
    requires !FindLineEnd(x, position).Unfinished?
    ensures LineStep(x + y, offset, position, f) == LineStep(x, offset, position, f)
  {
    LineEndIsStable(x, y, position);
    if FindLineEnd(x, position).At? {
      assert (x + y)[position..FindLineEnd(x, position).index] == x[position..FindLineEnd(x, position).index];
    }
  }

  lemma {:induction false} ScanIsStable(x: Bytes, y: Bytes, offset: nat, position: nat, f: Fields)
    requires offset <= position <= |x|
    ensures Scan(x, offset, position, f).Ok? && Scan(x, offset, position, f).value.Some? ==>
              Scan(x + y, offset, position, f) == Scan(x, offset, position, f)
    decreases |x| - position
  {
    var step := LineStep(x, offset, position, f);
    if !FindLineEnd(x, position).Unfinished? {
      StepIsStable(x, y, offset, position, f);
      if step.Go? {
        ScanIsStable(x, y, offset, step.position, step.fields);
      }
    }
  }

  /** A header error is withdrawn only at the brim, and only by the missing LF. */
  lemma {:induction false} ScanErrorIsFinal(x: Bytes, y: Bytes, offset: nat, position: nat, f: Fields)
    requires offset <= position <= |x|
    ensures Scan(x, offset, position, f).Err? ==>
              Scan(x + y, offset, position, f).Err? || (AtTheBrim(x, position) && y != [] && y[0] == LF)
    decreases |x| - position
  {
    hide FindLineEnd, AcceptLine;
    var step := LineStep(x, offset, position, f);
    if FindLineEnd(x, position).Unfinished? {
      if UnfinishedError(x, offset, position).Some? {
        UnfinishedErrorIsFinal(x, y, offset, position, f);
      }
    } else {
      StepIsStable(x, y, offset, position, f);
      if step.Go? {
        ScanErrorIsFinal(x, y, offset, step.position, step.fields);
      }
    }
  }

  lemma UnfinishedErrorIsFinal(x: Bytes, y: Bytes, offset: nat, position: nat, f: Fields)
    requires offset <= position <= |x|
    requires FindLineEnd(x, position).Unfinished? && UnfinishedError(x, offset, position).Some?
    ensures var step := LineStep(x + y, offset, position, f);
            (step.Stop? && step.result.Err?) || (AtTheBrim(x, position) && y != [] && y[0] == LF)
  {
    LineEndIsStable(x, y, position);
  }

  /** Some header line from `position` on has exactly 8192 bytes. */
  predicate HasFullLine(input: Bytes, position: nat)
    requires position <= |input|
    decreases |input| - position
  {
    match FindLineEnd(input, position)
    case BadEnding => false
    case Unfinished => false
    case At(end) =>
      end - position == MAX_LINE_BYTES || (end != position && HasFullLine(input, end + 2))
  }

  lemma {:induction false} BrimIsAFullLine(x: Bytes, y: Bytes, position: nat)
    requires position <= |x|
    requires AtTheBrim(x, position) && y != [] && y[0] == LF
    ensures HasFullLine(x + y, position)
    decreases |x| - position
  {
    LineEndIsStable(x, y, position);
    if FindLineEnd(x, position).At? {
      BrimIsAFullLine(x, y, FindLineEnd(x, position).index + 2);
    }
  }

  /** Cutting between the CR and the LF of a full line is refused. */
  lemma {:induction false} FullLineRefusesACut(m: Bytes, offset: nat, position: nat, f: Fields) returns (k: nat)
    requires offset <= position <= |m|
    requires HasFullLine(m, position)
    requires Scan(m, offset, position, f).Ok? && Scan(m, offset, position, f).value.Some?
    ensures position < k < offset + Scan(m, offset, position, f).value.value.headerBytes
    ensures Scan(m[..k], offset, position, f).Err?
    decreases |m| - position
  {
    var end := FindLineEnd(m, position).index;
    var step := LineStep(m, offset, position, f);
    if end - position == MAX_LINE_BYTES {
      k := end + 1;
      FullLineIsCut(m, offset, position, f);
    } else {
      k := FullLineRefusesACut(m, offset, end + 2, step.fields);
      StepWithin(m, offset, position, f, k);
    }
  }

  lemma FullLineIsCut(m: Bytes, offset: nat, position: nat, f: Fields)
    requires offset <= position <= |m|
    requires FindLineEnd(m, position) == At(position + MAX_LINE_BYTES)
    ensures LineStep(m[..position + MAX_LINE_BYTES + 1], offset, position, f) == Stop(Err(LineTooLong))
  {
    UnfinishedBefore(m, position, position + MAX_LINE_BYTES);
  }

  lemma StepWithin(m: Bytes, offset: nat, position: nat, f: Fields, k: nat)
    requires offset <= position <= k <= |m|
    requires FindLineEnd(m, position).At? && FindLineEnd(m, position).index + 2 <= k
    ensures LineStep(m[..k], offset, position, f) == LineStep(m, offset, position, f)
  {
    LineEndWithin(m, position, k);
    assert m[..k][position..FindLineEnd(m, position).index] == m[position..FindLineEnd(m, position).index];
  }

  lemma {:induction false} UnfinishedBefore(m: Bytes, position: nat, end: nat)
    requires FindLineEnd(m, position) == At(end)
    ensures FindLineEnd(m[..end + 1], position) == Unfinished
    decreases |m| - position
  {
    if position != end {
      UnfinishedBefore(m, position + 1, end);
    }
  }

  lemma {:induction false} LineEndWithin(m: Bytes, position: nat, k: nat)
    requires FindLineEnd(m, position).At? && FindLineEnd(m, position).index + 2 <= k <= |m|
    ensures FindLineEnd(m[..k], position) == FindLineEnd(m, position)
    decreases |m| - position
  {
    if m[position] != CR {
      LineEndWithin(m, position + 1, k);
    }
  }

  // ---------------------------------------------------------------------------
  // The decision on a prefix
  // ---------------------------------------------------------------------------

  lemma {:induction false} SkipIsStable(x: Bytes, y: Bytes, offset: nat)
    requires offset <= |x|
    ensures var s := SkipPrefix(x, offset);
            s < |x| && !(s + 1 == |x| && x[s] == CR) ==> SkipPrefix(x + y, offset) == s
    decreases |x| - offset
  {
    if offset + 2 <= |x| && x[offset] == CR && x[offset + 1] == LF {
      SkipIsStable(x, y, offset + 2);
    }
  }

  lemma {:induction false} SkipWithin(m: Bytes, offset: nat, k: nat)
    requires offset <= |m| && SkipPrefix(m, offset) <= k <= |m|
    ensures SkipPrefix(m[..k], offset) == SkipPrefix(m, offset)
    decreases |m| - offset
  {
    if SkipPrefix(m, offset) != offset {
      SkipWithin(m, offset + 2, k);
    }
  }

  /** Once the decision is more than "wait", the offset of the message is fixed. */
  lemma OffsetIsStable(x: Bytes, y: Bytes)
    requires Inspect(x, Stream) != Ok(NeedMoreData(None))
    ensures SkipPrefix(x + y, 0) == SkipPrefix(x, 0) < |x|
  {
    var s := SkipPrefix(x, 0);
    SkipIsStable(x, y, 0);
    if s + 1 == |x| && x[s] == CR {
      assert FindLineEnd(x, s) == Unfinished;
      assert Scan(x, s, s, NO_FIELDS) == Ok(None);
    }
  }

  lemma HeadersAreStable(x: Bytes, y: Bytes)
    requires Inspect(x, Stream).Ok? && Inspect(x, Stream) != Ok(NeedMoreData(None))
    ensures SkipPrefix(x + y, 0) == SkipPrefix(x, 0) < |x|
    ensures var s := SkipPrefix(x, 0);
            && Scan(x, s, s, NO_FIELDS).Ok? && Scan(x, s, s, NO_FIELDS).value.Some?
            && Inspect(x, Stream) == InspectStream(x, s, Scan(x, s, s, NO_FIELDS).value.value)
            && Inspect(x + y, Stream) == InspectStream(x + y, s, Scan(x, s, s, NO_FIELDS).value.value)
  {
    OffsetIsStable(x, y);
    ScanIsStable(x, y, SkipPrefix(x, 0), SkipPrefix(x, 0), NO_FIELDS);
  }

  /** A complete message stays complete, with the same boundary, whatever follows it. */
  lemma CompleteIsStable(x: Bytes, y: Bytes, b: Boundary)
    requires Inspect(x, Stream) == Ok(Complete(b))
    ensures Inspect(x + y, Stream) == Ok(Complete(b))
  {
    HeadersAreStable(x, y);
  }

  /** A required total is exact: waiting until that many bytes are there, and no longer, completes the message. */
  lemma RequiredTotalIsExact(x: Bytes, y: Bytes, n: nat)
    requires Inspect(x, Stream) == Ok(NeedMoreData(Some(n)))
    ensures |x| < n
    ensures |x + y| < n ==> Inspect(x + y, Stream) == Ok(NeedMoreData(Some(n)))
    ensures |x + y| >= n ==>
              var r := Inspect(x + y, Stream);
              r.Ok? && r.value.Complete? && r.value.boundary.consumedBytes == n
  {
    HeadersAreStable(x, y);
  }

  predicate Brim(x: Bytes) {
    AtTheBrim(x, SkipPrefix(x, 0))
  }

  lemma ErrorIsFinal(x: Bytes, y: Bytes)
    requires Inspect(x, Stream).Err?
    ensures Inspect(x + y, Stream).Err? || (Brim(x) && y != [] && y[0] == LF)
  {
    var s := SkipPrefix(x, 0);
    OffsetIsStable(x, y);
    ScanIsStable(x, y, s, s, NO_FIELDS);
    ScanErrorIsFinal(x, y, s, s, NO_FIELDS);
  }

  /** A refusal is final unless the very next byte saves the input. */
  lemma ErrorsAreFinalUnlessSaved(x: Bytes)
    requires Inspect(x, Stream).Err?
    ensures (forall y :: Inspect(x + y, Stream).Err?) <==> !(Brim(x) && Inspect(x + [LF], Stream).Ok?)
  {
    forall y | !(Brim(x) && Inspect(x + [LF], Stream).Ok?)
      ensures Inspect(x + y, Stream).Err?
    {
      ErrorIsFinal(x, y);
      if Brim(x) && y != [] && y[0] == LF {
        LineFeedEndsNoBrim(x + [LF], SkipPrefix(x + [LF], 0));
        ErrorIsFinal(x + [LF], y[1..]);
        assert x + y == x + [LF] + y[1..];
      }
    }
  }

  lemma {:induction false} LineFeedEndsNoBrim(x: Bytes, position: nat)
    requires position <= |x| && x != [] && x[|x| - 1] == LF
    ensures !AtTheBrim(x, position)
    decreases |x| - position
  {
    if FindLineEnd(x, position).At? {
      LineFeedEndsNoBrim(x, FindLineEnd(x, position).index + 2);
    }
  }

  lemma {:induction false} EndsInCarriageReturn(x: Bytes, start: nat)
    requires start < |x| && x[|x| - 1] == CR
    requires forall i | start <= i < |x| - 1 :: x[i] != CR && x[i] != LF
    ensures FindLineEnd(x, start) == Unfinished
    decreases |x| - start
  {
    if start + 1 < |x| {
      EndsInCarriageReturn(x, start + 1);
    }
  }

  /** A start line of 8192 bytes is legal, yet refused while its LF is still on the way. */
  lemma OneByteEarly(x: Bytes)
    requires x == seq(MAX_LINE_BYTES, _ => 97) + [CR]
    ensures Inspect(x, Stream) == Err(LineTooLong)
    ensures Inspect(x + [LF], Stream) == Ok(NeedMoreData(None))
  {
    EndsInCarriageReturn(x, 0);
    LineEndIsStable(x, [LF], 0);
    var f := NO_FIELDS.(firstLine := false);
    assert LineStep(x + [LF], 0, 0, NO_FIELDS) == Go(|x| + 1, f);
    assert LineStep(x + [LF], 0, |x| + 1, f) == Stop(Ok(None));
    assert Scan(x + [LF], 0, |x| + 1, f) == Ok(None);
    assert (x + [LF])[0] == 97;
  }

  /** One whole message, with the keep-alive bytes before it. */
  predicate IsMessage(m: Bytes) {
    var r := Inspect(m, Stream);
    r.Ok? && r.value.Complete? && r.value.boundary.consumedBytes == |m|
  }

  predicate Waits(x: Bytes) {
    Inspect(x, Stream).Ok? && Inspect(x, Stream).value.NeedMoreData?
  }

  /** A message can be cut anywhere exactly when none of its header lines has the full 8192 bytes. */
  lemma PrefixesWaitExactly(m: Bytes)
    requires IsMessage(m)
    ensures (forall k | 0 <= k < |m| :: Waits(m[..k])) <==> !HasFullLine(m, SkipPrefix(m, 0))
  {
    if HasFullLine(m, SkipPrefix(m, 0)) {
      var s := SkipPrefix(m, 0);
      var k := FullLineRefusesACut(m, s, s, NO_FIELDS);
      SkipWithin(m, 0, k);
      assert !Waits(m[..k]);
    } else {
      forall k | 0 <= k < |m|
        ensures Waits(m[..k])
      {
        CutWaits(m, k);
      }
    }
  }

  lemma CutWaits(m: Bytes, k: nat)
    requires IsMessage(m) && k < |m| && !HasFullLine(m, SkipPrefix(m, 0))
    ensures Waits(m[..k])
  {
    var x, y := m[..k], m[k..];
    assert m == x + y;
    if Inspect(x, Stream).Err? {
      ErrorIsFinal(x, y);
      OffsetIsStable(x, y);
      BrimIsAFullLine(x, y, SkipPrefix(x, 0));
    } else if Inspect(x, Stream).value.Complete? {
      CompleteIsStable(x, y, Inspect(x, Stream).value.boundary);
    }
  }

  // ---------------------------------------------------------------------------
  // A receiver that frames after every piece
  // ---------------------------------------------------------------------------

  /** What a receiver has taken out of the stream so far, and what it still holds. */
  datatype Received = Received(messages: seq<Bytes>, rest: Bytes, failed: Option<Error>) {
    function Before(message: Bytes): Received {
      this.(messages := [message] + messages)
    }

    function Then(later: Received): Received {
      later.(messages := messages + later.messages)
    }

    /** One more piece arrives. */
    function Receive(piece: Bytes): Received {
      if failed.Some? then this else Then(FrameAll(rest + piece))
    }
  }

  function ReceiveAll(pieces: seq<Bytes>): Received {
    if pieces == [] then Received([], [], None)
    else ReceiveAll(pieces[..|pieces| - 1]).Receive(pieces[|pieces| - 1])
  }

  function Flatten(pieces: seq<Bytes>): Bytes {
    if pieces == [] then [] else pieces[0] + Flatten(pieces[1..])
  }

  function Payload(m: Bytes, b: Boundary): Bytes
    requires b.messageOffset + b.messageBytes <= |m|
  {
    m[b.messageOffset..b.messageOffset + b.messageBytes]
  }

  function BoundaryOf(m: Bytes): (b: Boundary)
    requires Inspect(m, Stream).Ok? && Inspect(m, Stream).value.Complete?
    ensures 0 < b.consumedBytes == b.messageOffset + b.messageBytes <= |m|
  {
    Inspect(m, Stream).value.boundary
  }

  /** Take complete messages off the front until the buffer waits or is refused. */
  function FrameAll(buffer: Bytes): Received
    decreases |buffer|
  {
    match Inspect(buffer, Stream)
    case Err(error) => Received([], buffer, Some(error))
    case Ok(NeedMoreData(_)) => Received([], buffer, None)
    case Ok(Complete(_)) =>
      var b := BoundaryOf(buffer);
      FrameAll(buffer[b.consumedBytes..]).Before(Payload(buffer, b))
  }

  /** Framing early is harmless: what was taken out of a prefix is what framing the whole input takes out first. */
  lemma {:induction false} FramingComposes(x: Bytes, y: Bytes)
    requires FrameAll(x).failed.None?
    ensures FrameAll(x + y) == FrameAll(x).Then(FrameAll(FrameAll(x).rest + y))
    decreases |x|
  {
    if Inspect(x, Stream).value.Complete? {
      var b := BoundaryOf(x);
      CompleteIsStable(x, y, b);
      FramingComposes(x[b.consumedBytes..], y);
      SlicesOfConcatenation(x, y, b.messageOffset, b.consumedBytes);
      ThenAfterBefore(FrameAll(x[b.consumedBytes..]), FrameAll(FrameAll(x).rest + y), Payload(x, b));
    } else {
      assert [] + FrameAll(x + y).messages == FrameAll(x + y).messages;
    }
  }

  lemma SlicesOfConcatenation(x: Bytes, y: Bytes, i: nat, j: nat)
    requires i <= j <= |x|
    ensures (x + y)[i..j] == x[i..j]
    ensures (x + y)[j..] == x[j..] + y
  {
  }

  lemma PrefixOfSum(x: Bytes, y: Bytes, n: nat)
    requires n <= |x + y|
    ensures (x + y)[..n] == if n < |x| then x[..n] else x + y[..n - |x|]
  {
  }

  lemma ThenAfterBefore(first: Received, later: Received, message: Bytes)
    ensures first.Before(message).Then(later) == first.Then(later).Before(message)
  {
    assert [message] + first.messages + later.messages == [message] + (first.messages + later.messages);
  }

  /** As long as nothing is refused, how the stream was cut into pieces does not show. */
  lemma {:induction false} PiecesDoNotShow(pieces: seq<Bytes>)
    requires ReceiveAll(pieces).failed.None?
    ensures ReceiveAll(pieces) == FrameAll(Flatten(pieces))
  {
    if pieces != [] {
      var init, last := pieces[..|pieces| - 1], pieces[|pieces| - 1];
      PiecesDoNotShow(init);
      FramingComposes(Flatten(init), last);
      FlattenLast(pieces);
    }
  }

  lemma {:induction false} FlattenLast(pieces: seq<Bytes>)
    requires pieces != []
    ensures Flatten(pieces) == Flatten(pieces[..|pieces| - 1]) + pieces[|pieces| - 1]
  {
    if |pieces| == 1 {
      assert pieces[1..] == [] && pieces[..0] == [];
    } else {
      var init, last := pieces[..|pieces| - 1], pieces[|pieces| - 1];
      FlattenLast(pieces[1..]);
      assert pieces[1..][..|pieces| - 2] == init[1..];
      assert init[0] + (Flatten(init[1..]) + last) == init[0] + Flatten(init[1..]) + last;
    }
  }

  // ---------------------------------------------------------------------------
  // Messages back to back
  // ---------------------------------------------------------------------------

  /** Messages that may be cut anywhere. */
  predicate Cuttable(ms: seq<Bytes>) {
    forall m | m in ms :: IsMessage(m) && !HasFullLine(m, SkipPrefix(m, 0))
  }

  function Payloads(ms: seq<Bytes>): seq<Bytes>
    requires forall m | m in ms :: IsMessage(m)
  {
    if ms == [] then []
    else
      assert IsMessage(ms[0]);
      [Payload(ms[0], BoundaryOf(ms[0]))] + Payloads(ms[1..])
  }

  lemma CutFrames(m: Bytes, k: nat)
    requires IsMessage(m) && k < |m| && !HasFullLine(m, SkipPrefix(m, 0))
    ensures FrameAll(m[..k]).failed.None?
  {
    CutWaits(m, k);
  }

  lemma MessageAlone(m: Bytes)
    requires IsMessage(m)
    ensures FrameAll(m) == Received([Payload(m, BoundaryOf(m))], [], None)
  {
    assert m[|m|..] == [];
    assert FrameAll([]) == Received([], [], None);
  }

  lemma MessageComesFirst(m: Bytes, more: Bytes)
    requires IsMessage(m)
    ensures FrameAll(m + more) == FrameAll(more).Before(Payload(m, BoundaryOf(m)))
  {
    MessageAlone(m);
    FramingComposes(m, more);
    assert [] + more == more;
  }

  lemma {:induction false} RunFrames(ms: seq<Bytes>)
    requires forall m | m in ms :: IsMessage(m)
    ensures FrameAll(Flatten(ms)) == Received(Payloads(ms), [], None)
  {
    if ms == [] {
      assert FrameAll([]) == Received([], [], None);
    } else {
      RunFrames(ms[1..]);
      MessageComesFirst(ms[0], Flatten(ms[1..]));
    }
  }

  /** Whatever prefix of a run of messages is there, framing it fails nowhere. */
  lemma {:induction false} PrefixOfRunFrames(ms: seq<Bytes>, n: nat)
    requires Cuttable(ms) && n <= |Flatten(ms)|
    ensures FrameAll(Flatten(ms)[..n]).failed.None?
  {
    if ms == [] {
      assert FrameAll([]) == Received([], [], None);
    } else {
      PrefixOfSum(ms[0], Flatten(ms[1..]), n);
      if n < |ms[0]| {
        CutFrames(ms[0], n);
      } else {
        PrefixOfRunFrames(ms[1..], n - |ms[0]|);
        MessageComesFirst(ms[0], Flatten(ms[1..])[..n - |ms[0]|]);
      }
    }
  }

  lemma {:induction false} FlattenPrefix(pieces: seq<Bytes>, k: nat)
    requires k <= |pieces|
    ensures Flatten(pieces[..k]) <= Flatten(pieces)
    decreases |pieces| - k
  {
    if k < |pieces| {
      FlattenPrefix(pieces, k + 1);
      FlattenLast(pieces[..k + 1]);
      assert pieces[..k + 1][..k] == pieces[..k];
    } else {
      assert pieces[..k] == pieces;
    }
  }

  /**
   * A run of messages sent back to back arrives as exactly those messages, in
   * order and with nothing left over, however the transport cuts the stream.
   */
  lemma MessagesSurviveAnyCut(ms: seq<Bytes>, pieces: seq<Bytes>)
    requires Cuttable(ms) && Flatten(pieces) == Flatten(ms)
    ensures ReceiveAll(pieces) == Received(Payloads(ms), [], None)
  {
    ReceivingFailsNowhere(ms, pieces, |pieces|);
    assert pieces[..|pieces|] == pieces;
    PiecesDoNotShow(pieces);
    RunFrames(ms);
  }

  lemma {:induction false} ReceivingFailsNowhere(ms: seq<Bytes>, pieces: seq<Bytes>, k: nat)
    requires Cuttable(ms) && Flatten(pieces) == Flatten(ms) && k <= |pieces|
    ensures ReceiveAll(pieces[..k]).failed.None?
  {
    if k > 0 {
      ReceivingFailsNowhere(ms, pieces, k - 1);
      assert pieces[..k][..k - 1] == pieces[..k - 1];
      LastPiece(pieces[..k]);
      FlattenPrefix(pieces, k);
      PrefixOfRunFrames(ms, |Flatten(pieces[..k])|);
      assert Flatten(ms)[..|Flatten(pieces[..k])|] == Flatten(pieces[..k]);
    }
  }

  lemma LastPiece(pieces: seq<Bytes>)
    requires pieces != [] && ReceiveAll(pieces[..|pieces| - 1]).failed.None?
    ensures ReceiveAll(pieces).failed == FrameAll(Flatten(pieces)).failed
  {
    PiecesDoNotShow(pieces[..|pieces| - 1]);
    FramingComposes(Flatten(pieces[..|pieces| - 1]), pieces[|pieces| - 1]);
    FlattenLast(pieces);
  }
}

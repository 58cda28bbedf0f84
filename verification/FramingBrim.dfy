/**
 * The one refusal that is not final (src/sip/framing.rs): exactly which refused
 * stream prefixes the next byte can still save, said by the lines they hold.
 */
module FramingBrim {
  import opened Wrappers
  import opened Framing
  import opened FramingStream
  import opened FramingHeaders

  /** These lines, each accepted in turn, reach from `position` to the end of the input. */
  predicate Covers(input: Bytes, position: nat, f: Fields, lines: seq<Bytes>)
    decreases |lines|
  {
    if lines == [] then position == |input|
    else
      && IsLine(lines[0]) && LineAt(input, position, lines[0]) && AcceptLine(f, lines[0]).Ok?
      && Covers(input, position + |lines[0]| + 2, AcceptLine(f, lines[0]).value.fields, lines[1..])
  }

  lemma NothingLeft(input: Bytes, offset: nat, f: Fields)
    requires offset <= |input| && |input| - offset <= MAX_HEADER_BYTES
    ensures Scan(input, offset, |input|, f) == Ok(None)
  {
    assert LineStep(input, offset, |input|, f) == Stop(Ok(None));
  }

  /** Lines that reach the end within the header limit leave the scan waiting for more. */
  lemma {:induction false} CoveredWaits(input: Bytes, offset: nat, position: nat, f: Fields, lines: seq<Bytes>)
    requires offset <= position <= |input| && Covers(input, position, f, lines)
    requires |input| - offset <= MAX_HEADER_BYTES
    ensures Scan(input, offset, position, f) == Ok(None)
    decreases |lines|
  {
    hide AcceptLine, Scan;
    if lines == [] {
      NothingLeft(input, offset, f);
    } else {
      CoveredWaits(input, offset, position + |lines[0]| + 2, AcceptLine(f, lines[0]).value.fields, lines[1..]);
      StepOverLine(input, offset, position, f, lines[0]);
    }
  }

  /** The last of these lines has the full length. */
  predicate LastIsFull(lines: seq<Bytes>) {
    lines != [] && |lines[|lines| - 1]| == MAX_LINE_BYTES
  }

  lemma BrimLine(x: Bytes, position: nat)
    requires position < |x| && FindLineEnd(x, position).Unfinished?
    requires |x| == position + MAX_LINE_BYTES + 1 && x[|x| - 1] == CR
    ensures FindLineEnd(x + [LF], position) == At(|x| - 1)
  {
    LineEndIsStable(x, [LF], position);
  }

  lemma StepIsGo(input: Bytes, offset: nat, position: nat, f: Fields)
    requires offset <= position <= |input| && Scan(input, offset, position, f).Ok?
    requires FindLineEnd(input, position).At? && FindLineEnd(input, position).index != position
    ensures LineStep(input, offset, position, f).Go?
    ensures LineStep(input, offset, position, f).position == FindLineEnd(input, position).index + 2
    ensures FindLineEnd(input, position).index + 2 - offset <= MAX_HEADER_BYTES
  {
  }

  lemma AddLineInFront(input: Bytes, position: nat, f: Fields, line: Bytes, rest: seq<Bytes>)
    requires IsLine(line) && LineAt(input, position, line) && AcceptLine(f, line).Ok?
    requires Covers(input, position + |line| + 2, AcceptLine(f, line).value.fields, rest)
    ensures Covers(input, position, f, [line] + rest)
  {
    hide AcceptLine;
    assert ([line] + rest)[1..] == rest;
  }

  /** At the brim, an accepted LF makes everything whole lines, the last one full. */
  lemma {:induction false} BrimIsCovered(x: Bytes, offset: nat, position: nat, f: Fields) returns (lines: seq<Bytes>)
    requires offset <= position <= |x| && AtTheBrim(x, position) && Scan(x + [LF], offset, position, f).Ok?
    ensures Covers(x + [LF], position, f, lines) && LastIsFull(lines)
    ensures |x| + 1 - offset <= MAX_HEADER_BYTES
    decreases |x| - position
  {
    var input := x + [LF];
    LineEndIsStable(x, [LF], position);
    if FindLineEnd(x, position).Unfinished? {
      BrimLine(x, position);
      StepIsGo(input, offset, position, f);
      var line := StepReads(input, offset, position, f);
      AddLineInFront(input, position, f, line, []);
      lines := [line] + [];
    } else {
      StepIsGo(input, offset, position, f);
      var line := StepReads(input, offset, position, f);
      var next := position + |line| + 2;
      var rest := BrimIsCovered(x, offset, next, AcceptLine(f, line).value.fields);
      AddLineInFront(input, position, f, line, rest);
      lines := [line] + rest;
      assert lines[|lines| - 1] == rest[|rest| - 1];
    }
  }

  lemma CoveredLineEnds(input: Bytes, position: nat, line: Bytes)
    requires IsLine(line) && LineAt(input, position, line)
    ensures FindLineEnd(input, position) == At(position + |line|)
  {
    forall i | position <= i < position + |line|
      ensures input[i] != CR && input[i] != LF
    {
      assert input[i] == line[i - position];
    }
    LineFound(input, position, position + |line|);
  }

  lemma LastLineIsUnfinished(x: Bytes, position: nat, line: Bytes)
    requires IsLine(line) && LineAt(x + [LF], position, line) && position + |line| + 2 == |x| + 1
    ensures position <= |x| && FindLineEnd(x, position).Unfinished? && x[|x| - 1] == CR
  {
    CoveredLineEnds(x + [LF], position, line);
    UnfinishedBefore(x + [LF], position, position + |line|);
    assert (x + [LF])[..position + |line| + 1] == x;
    assert (x + [LF])[position + |line|] == CR;
  }

  lemma EarlierLineEnds(x: Bytes, position: nat, line: Bytes)
    requires IsLine(line) && LineAt(x + [LF], position, line) && position + |line| + 2 <= |x|
    ensures FindLineEnd(x, position) == At(position + |line|)
  {
    CoveredLineEnds(x + [LF], position, line);
    LineEndWithin(x + [LF], position, |x|);
    assert (x + [LF])[..|x|] == x;
  }

  lemma {:induction false} CoveredEndsInside(input: Bytes, position: nat, f: Fields, lines: seq<Bytes>)
    requires Covers(input, position, f, lines)
    ensures position + 2 * |lines| <= |input|
    decreases |lines|
  {
    if lines != [] {
      CoveredEndsInside(input, position + |lines[0]| + 2, AcceptLine(f, lines[0]).value.fields, lines[1..]);
    }
  }

  /** Conversely, whole lines with a full last one are at the brim without their last byte. */
  lemma {:induction false} CoveredIsBrim(x: Bytes, position: nat, f: Fields, lines: seq<Bytes>)
    requires Covers(x + [LF], position, f, lines) && LastIsFull(lines)
    ensures position <= |x| && AtTheBrim(x, position)
    decreases |lines|
  {
    hide AcceptLine, FindLineEnd;
    var line, next := lines[0], position + |lines[0]| + 2;
    if |lines| == 1 {
      assert lines[1..] == [];
      LastLineIsUnfinished(x, position, line);
    } else {
      CoveredEndsInside(x + [LF], next, AcceptLine(f, line).value.fields, lines[1..]);
      EarlierLineEnds(x, position, line);
      CoveredIsBrim(x, next, AcceptLine(f, line).value.fields, lines[1..]);
    }
  }

  // ---------------------------------------------------------------------------
  // Said by lines and fields
  // ---------------------------------------------------------------------------

  lemma LineThenRest(input: Bytes, position: nat, line: Bytes, more: Bytes)
    requires position <= |input|
    ensures input[position..] == line + [CR, LF] + more <==>
              LineAt(input, position, line) && input[position + |line| + 2..] == more
  {
    LineAtIsPrefix(input, position, line, more);
    if input[position..] == line + [CR, LF] + more {
      assert line + [CR, LF] + more <= input[position..];
      assert |input| == position + |line| + 2 + |more|;
    }
    if LineAt(input, position, line) && input[position + |line| + 2..] == more {
      assert |line + [CR, LF] + more| == |input[position..]|;
    }
  }

  lemma {:induction false} CoversInParts(input: Bytes, position: nat, f: Fields, lines: seq<Bytes>)
    requires position <= |input| && AllLines(lines)
    ensures NonEmpty(lines)
    ensures Covers(input, position, f, lines) <==> input[position..] == Join(lines) && Fold(f, lines).Ok?
    decreases |lines|
  {
    hide AcceptLine;
    if lines == [] {
      assert input[position..] == [] <==> position == |input|;
    } else {
      var line, rest := lines[0], lines[1..];
      AllLinesFirst(lines);
      LineThenRest(input, position, line, Join(rest));
      if LineAt(input, position, line) && AcceptLine(f, line).Ok? {
        CoversInParts(input, position + |line| + 2, AcceptLine(f, line).value.fields, rest);
      }
    }
  }

  lemma {:induction false} CoveredAreLines(input: Bytes, position: nat, f: Fields, lines: seq<Bytes>)
    requires Covers(input, position, f, lines)
    ensures position <= |input| && AllLines(lines)
    decreases |lines|
  {
    if lines != [] {
      CoveredAreLines(input, position + |lines[0]| + 2, AcceptLine(f, lines[0]).value.fields, lines[1..]);
      AllLinesFirst(lines);
    }
  }

  /**
   * With one LF more, `x` would be, after its keep-alive bytes, a start line
   * and header lines whose fields are all admissible, within the header limit,
   * the last of the lines having the full 8192 bytes.
   */
  ghost predicate OneByteShort(x: Bytes, start: Bytes, lines: seq<Bytes>) {
    var offset := SkipPrefix(x, 0);
    && IsLine(start) && AllLines(lines) && LastIsFull([start] + lines)
    && x[offset..] + [LF] == Join([start] + lines) && |x| + 1 - offset <= MAX_HEADER_BYTES
    && !IsBlank(start[0]) && FieldsOf(lines).Some? && Viable(FieldsOf(lines).value)
  }

  ghost predicate IsOneByteShort(x: Bytes) {
    exists start, lines :: OneByteShort(x, start, lines)
  }

  lemma StartFolds(start: Bytes, lines: seq<Bytes>)
    requires start != [] && NonEmpty(lines)
    ensures NonEmpty([start] + lines)
    ensures Fold(NO_FIELDS, [start] + lines).Ok? <==>
              !IsBlank(start[0]) && FieldsOf(lines).Some? && Viable(FieldsOf(lines).value)
  {
    assert ([start] + lines)[1..] == lines;
    FoldIsFields(lines);
  }

  lemma ShortIsCovered(x: Bytes, start: Bytes, lines: seq<Bytes>)
    requires IsLine(start) && AllLines(lines)
    ensures var offset := SkipPrefix(x, 0);
            Covers(x + [LF], offset, NO_FIELDS, [start] + lines) <==>
              && x[offset..] + [LF] == Join([start] + lines) && !IsBlank(start[0])
              && FieldsOf(lines).Some? && Viable(FieldsOf(lines).value)
  {
    var offset := SkipPrefix(x, 0);
    assert ([start] + lines)[1..] == lines;
    AllLinesFirst([start] + lines);
    CoversInParts(x + [LF], offset, NO_FIELDS, [start] + lines);
    StartFolds(start, lines);
    assert (x + [LF])[offset..] == x[offset..] + [LF];
  }

  lemma ShortIsSaved(x: Bytes, start: Bytes, lines: seq<Bytes>)
    requires Inspect(x, Stream).Err? && OneByteShort(x, start, lines)
    ensures Brim(x) && Inspect(x + [LF], Stream).Ok?
  {
    var offset := SkipPrefix(x, 0);
    ShortIsCovered(x, start, lines);
    CoveredIsBrim(x, offset, NO_FIELDS, [start] + lines);
    OffsetIsStable(x, [LF]);
    CoveredWaits(x + [LF], offset, offset, NO_FIELDS, [start] + lines);
  }

  lemma SavedIsShort(x: Bytes)
    requires Inspect(x, Stream).Err? && Brim(x) && Inspect(x + [LF], Stream).Ok?
    ensures IsOneByteShort(x)
  {
    var offset := SkipPrefix(x, 0);
    OffsetIsStable(x, [LF]);
    var all := BrimIsCovered(x, offset, offset, NO_FIELDS);
    CoveredAreLines(x + [LF], offset, NO_FIELDS, all);
    AllLinesFirst(all);
    assert all == [all[0]] + all[1..];
    ShortIsCovered(x, all[0], all[1..]);
    assert OneByteShort(x, all[0], all[1..]);
  }

  /**
   * A refused prefix stays refused however it continues, exactly when it is not
   * one LF short of whole admissible lines, the last one full.
   */
  lemma RefusalsAreFinalExactly(x: Bytes)
    requires Inspect(x, Stream).Err?
    ensures (forall y :: Inspect(x + y, Stream).Err?) <==> !IsOneByteShort(x)
  {
    ErrorsAreFinalUnlessSaved(x);
    if IsOneByteShort(x) {
      var start, lines :| OneByteShort(x, start, lines);
      ShortIsSaved(x, start, lines);
    } else if Brim(x) && Inspect(x + [LF], Stream).Ok? {
      SavedIsShort(x);
    }
  }

  // ---------------------------------------------------------------------------
  // Refused streams
  // ---------------------------------------------------------------------------

  /** What was taken before a final refusal is all that is ever taken. */
  lemma {:induction false} RefusalEndsTheStream(x: Bytes, y: Bytes)
    requires FrameAll(x).failed.Some? && !IsOneByteShort(FrameAll(x).rest)
    ensures FrameAll(x + y).failed.Some? && FrameAll(x + y).messages == FrameAll(x).messages
    decreases |x|
  {
    if Inspect(x, Stream).Err? {
      RefusalsAreFinalExactly(x);
    } else {
      var b := BoundaryOf(x);
      CompleteIsStable(x, y, b);
      SlicesOfConcatenation(x, y, b.messageOffset, b.consumedBytes);
      RefusalEndsTheStream(x[b.consumedBytes..], y);
    }
  }

  /** No piece ends one LF short of saving what would be refused. */
  ghost predicate CutCleanly(pieces: seq<Bytes>) {
    forall k | 0 <= k <= |pieces| :: !IsOneByteShort(FrameAll(Flatten(pieces[..k])).rest)
  }

  /**
   * Refused or not, the messages received do not depend on how the stream was
   * cut, as long as no cut falls right before the LF of a full line.
   */
  lemma {:induction false} CutsDoNotShow(pieces: seq<Bytes>)
    requires CutCleanly(pieces)
    ensures ReceiveAll(pieces).messages == FrameAll(Flatten(pieces)).messages
    ensures ReceiveAll(pieces).failed.Some? == FrameAll(Flatten(pieces)).failed.Some?
    decreases |pieces|
  {
    if ReceiveAll(pieces).failed.None? {
      PiecesDoNotShow(pieces);
    } else if pieces != [] {
      var init, last := pieces[..|pieces| - 1], pieces[|pieces| - 1];
      assert forall k | 0 <= k <= |init| :: init[..k] == pieces[..k];
      FlattenLast(pieces);
      if ReceiveAll(init).failed.None? {
        PiecesDoNotShow(init);
        FramingComposes(Flatten(init), last);
      } else {
        CutsDoNotShow(init);
        assert pieces[..|init|] == init;
        RefusalEndsTheStream(Flatten(init), last);
      }
    }
  }
}

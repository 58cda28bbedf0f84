/**
 * What an accepted header section is (src/sip/framing.rs), said without the
 * scanner: lines, logical fields with their folded continuations, and the one
 * `Content-Length` among them.
 */
module FramingHeaders {
  import opened Wrappers
  import opened Framing

  // ---------------------------------------------------------------------------
  // A Content-Length value is one decimal number between blanks
  // ---------------------------------------------------------------------------

  predicate Blanks(s: Bytes) { forall i | 0 <= i < |s| :: IsBlank(s[i]) }

  predicate Digits(s: Bytes) { forall i | 0 <= i < |s| :: IsDigit(s[i]) }

  function Decimal(digits: Bytes): nat
    requires Digits(digits)
  {
    if digits == [] then 0 else Decimal(digits[..|digits| - 1]) * 10 + (digits[|digits| - 1] - 48)
  }

  /** `v[i..j]` is the number, everything around it is blank. */
  predicate NumberAt(v: Bytes, i: nat, j: nat) {
    && i <= j <= |v| && (i == j ==> j == |v|)
    && Blanks(v[..i]) && Digits(v[i..j]) && Blanks(v[j..])
    && Decimal(v[i..j]) <= USIZE_MAX
  }

  ghost predicate IsLength(v: Bytes, n: nat) {
    exists i: nat, j: nat :: NumberAt(v, i, j) && i < j && Decimal(v[i..j]) == n
  }

  function ParseLength(v: Bytes): Result<nat, Error> {
    match Push(NO_DIGITS, v)
    case Err(error) => Err(error)
    case Ok(p) => Finish(p)
  }

  /** Feeding a folded value line by line is feeding the unfolded value. */
  lemma {:induction false} PushConcatenates(p: Length, a: Bytes, b: Bytes)
    ensures Push(p, a + b) ==
              match Push(p, a)
              case Err(error) => Err(error)
              case Ok(q) => Push(q, b)
    decreases |a|
  {
    if a == [] {
      assert a + b == b;
    } else if PushByte(p, a[0]).Ok? {
      PushConcatenates(PushByte(p, a[0]).value, a[1..], b);
      assert (a + b)[1..] == a[1..] + b;
    }
  }

  lemma PushLast(v: Bytes)
    requires v != []
    ensures Push(NO_DIGITS, v) ==
              match Push(NO_DIGITS, v[..|v| - 1])
              case Err(error) => Err(error)
              case Ok(q) => PushByte(q, v[|v| - 1])
  {
    var init, last := v[..|v| - 1], v[|v| - 1];
    assert v == init + [last];
    PushConcatenates(NO_DIGITS, init, [last]);
    if Push(NO_DIGITS, init).Ok? {
      OneByte(Push(NO_DIGITS, init).value, last);
    }
  }

  lemma OneByte(p: Length, b: Byte)
    ensures Push(p, [b]) == PushByte(p, b)
  {
    assert [b][1..] == [];
  }

  function After(v: Bytes, i: nat, j: nat): Length
    requires NumberAt(v, i, j)
  {
    Length(Decimal(v[i..j]), i < j, i < j < |v|)
  }

  lemma DigitExtends(v: Bytes, d: Byte, i: nat)
    requires i <= |v|
    ensures NumberAt(v + [d], i, |v| + 1) <==>
              && NumberAt(v, i, |v|) && IsDigit(d)
              && Decimal(v[i..|v|]) * 10 + (d - 48) <= USIZE_MAX
    ensures NumberAt(v + [d], i, |v| + 1) ==>
              Decimal((v + [d])[i..|v| + 1]) == Decimal(v[i..|v|]) * 10 + (d - 48)
  {
    var w, digits := v + [d], v[i..|v|];
    assert w[..i] == v[..i] && w[|v| + 1..] == [] && v[|v|..] == [];
    assert w[i..|v| + 1] == digits + [d];
    assert (digits + [d])[..|digits|] == digits && (digits + [d])[|digits|] == d;
    assert Digits(digits + [d]) ==> Digits((digits + [d])[..|digits|]);
  }

  lemma BlankExtends(v: Bytes, b: Byte, i: nat, j: nat)
    requires i < j <= |v|
    ensures NumberAt(v + [b], i, j) <==> NumberAt(v, i, j) && IsBlank(b)
    ensures (v + [b])[i..j] == v[i..j]
  {
    var w := v + [b];
    assert w[i..j] == v[i..j] && w[..i] == v[..i];
    assert w[j..] == v[j..] + [b];
    assert w[j..][|v| - j] == b && w[j..][..|v| - j] == v[j..];
    assert Blanks(w[j..]) ==> Blanks(w[j..][..|v| - j]);
  }

  lemma BlanksExtend(v: Bytes, b: Byte)
    ensures NumberAt(v + [b], |v| + 1, |v| + 1) <==> NumberAt(v, |v|, |v|) && IsBlank(b)
  {
    var w := v + [b];
    assert w[..|v| + 1] == w && v[..|v|] == v && w[|v|] == b && w[..|v|] == v;
    assert Blanks(w) ==> Blanks(w[..|v|]);
  }

  lemma {:induction false} AcceptsNumber(v: Bytes, i: nat, j: nat)
    requires NumberAt(v, i, j)
    ensures Push(NO_DIGITS, v) == Ok(After(v, i, j))
    decreases |v|
  {
    if v != [] {
      var init, last := v[..|v| - 1], v[|v| - 1];
      assert v == init + [last];
      PushLast(v);
      if i == j {
        BlanksExtend(init, last);
        AcceptsNumber(init, |init|, |init|);
      } else if j < |v| {
        BlankExtends(init, last, i, j);
        AcceptsNumber(init, i, j);
      } else {
        DigitExtends(init, last, i);
        AcceptsNumber(init, i, |init|);
      }
    }
  }

  lemma {:induction false} FindsNumber(v: Bytes) returns (i: nat, j: nat)
    requires Push(NO_DIGITS, v).Ok?
    ensures NumberAt(v, i, j)
    decreases |v|
  {
    if v == [] {
      i, j := 0, 0;
    } else {
      var init, last := v[..|v| - 1], v[|v| - 1];
      PushLast(v);
      i, j := FindsNumber(init);
      AcceptsNumber(init, i, j);
      assert v == init + [last];
      if IsDigit(last) {
        DigitExtends(init, last, i);
        j := |v|;
      } else if i == j {
        BlanksExtend(init, last);
        i, j := |v|, |v|;
      } else {
        BlankExtends(init, last, i, j);
      }
    }
  }

  /** The accepted values, and the number each stands for. */
  lemma LengthIsDecimal(v: Bytes, n: nat)
    ensures ParseLength(v) == Ok(n) <==> IsLength(v, n)
  {
    if ParseLength(v) == Ok(n) {
      var i, j := FindsNumber(v);
      AcceptsNumber(v, i, j);
    }
    if IsLength(v, n) {
      var i: nat, j: nat :| NumberAt(v, i, j) && i < j && Decimal(v[i..j]) == n;
      AcceptsNumber(v, i, j);
    }
  }

  // ---------------------------------------------------------------------------
  // Names
  // ---------------------------------------------------------------------------

  /** A name without regard to case, as text. */
  function Folded(name: Bytes): string {
    seq(|name|, i requires 0 <= i < |name| => FoldedChar(name[i]))
  }

  function FoldedChar(b: nat): char
    requires b < 256
  {
    if 'A' as int <= b <= 'Z' as int then (b + 32) as char else b as char
  }

  /** Section 25.1 of RFC 3261: letters, digits and ten marks. */
  lemma TokenCharacters(b: Byte)
    ensures IsTokenByte(b) <==>
              || '0' as int <= b <= '9' as int || 'A' as int <= b <= 'Z' as int || 'a' as int <= b <= 'z' as int
              || (b as char) in "-.!%*_+`'~"
    ensures IsBlank(b) <==> (b as char) in " \t"
    ensures IsDigit(b) <==> (b as char) in "0123456789"
  {
  }

  lemma FoldedText(name: Bytes, text: Bytes, letters: string)
    requires |text| == |letters| && forall i | 0 <= i < |text| :: text[i] == letters[i] as int == Lower(text[i])
    ensures EqualsIgnoreCase(name, text) <==> Folded(name) == letters
  {
    forall b: Byte ensures FoldedChar(b) as int == Lower(b) {}
    if EqualsIgnoreCase(name, text) {
      forall i | 0 <= i < |name| ensures Folded(name)[i] == letters[i] {
        assert Lower(name[i]) == Lower(text[i]);
      }
    }
    if Folded(name) == letters {
      forall i | 0 <= i < |name| ensures Lower(name[i]) == Lower(text[i]) {
        assert Folded(name)[i] == letters[i];
      }
    }
  }

  /** Section 20.14 of RFC 3261: the name in full or in compact form, in any case. */
  lemma LengthNames(name: Bytes)
    ensures IsContentLengthName(name) <==> Folded(name) == "content-length" || Folded(name) == "l"
  {
    FoldedText(name, CONTENT_LENGTH, "content-length");
    FoldedText(name, COMPACT_FORM, "l");
  }

  // ---------------------------------------------------------------------------
  // Lines into fields
  // ---------------------------------------------------------------------------

  datatype Field = Field(name: Bytes, value: Bytes)

  predicate IsToken(name: Bytes) { name != [] && forall b | b in name :: IsTokenByte(b) }

  /** `line` is a name, blanks, a colon and the value. */
  predicate Spells(line: Bytes, field: Field, blanks: Bytes) {
    IsToken(field.name) && Blanks(blanks) && line == field.name + blanks + [COLON] + field.value
  }

  ghost predicate IsField(line: Bytes, field: Field) { exists blanks :: Spells(line, field, blanks) }

  lemma SplitSpells(line: Bytes, field: Field) returns (blanks: Bytes)
    requires SplitHeader(line) == Ok((field.name, field.value))
    ensures Spells(line, field, blanks)
  {
    var colon := ColonIn(line);
    blanks := line[|field.name|..colon];
    assert line[..colon] == field.name + blanks;
    assert line == line[..colon] + [line[colon]] + line[colon + 1..];
    forall i | 0 <= i < |blanks| ensures IsBlank(blanks[i]) {
      assert blanks[i] == line[..colon][|field.name| + i];
    }
  }

  lemma {:induction false} ColonFound(head: Bytes, value: Bytes)
    requires COLON !in head
    ensures ColonIn(head + [COLON] + value) == |head|
  {
    if head == [] {
      assert (head + [COLON] + value)[0] == COLON;
    } else {
      ColonFound(head[1..], value);
      assert (head + [COLON] + value)[1..] == head[1..] + [COLON] + value;
    }
  }

  lemma {:induction false} TrimmedName(name: Bytes, blanks: Bytes)
    requires IsToken(name) && Blanks(blanks)
    ensures TrimTrailing(name + blanks) == name
  {
    if blanks == [] {
      assert name + blanks == name && name[|name| - 1] in name;
    } else {
      TrimmedName(name, blanks[..|blanks| - 1]);
      assert (name + blanks)[..|name + blanks| - 1] == name + blanks[..|blanks| - 1];
    }
  }

  lemma SpelledIsSplit(line: Bytes, field: Field, blanks: Bytes)
    requires Spells(line, field, blanks)
    ensures SplitHeader(line) == Ok((field.name, field.value))
  {
    var head := field.name + blanks;
    ColonFound(head, field.value);
    TrimmedName(field.name, blanks);
    assert line[..|head|] == head && line[|head| + 1..] == field.value;
  }

  /** A header line splits exactly as it is spelled, and the two errors tell what is missing. */
  lemma SplitIsExact(line: Bytes, field: Field)
    ensures SplitHeader(line) == Ok((field.name, field.value)) <==> IsField(line, field)
    ensures SplitHeader(line) == Err(InvalidHeaderSyntax) <==> COLON !in line
    ensures SplitHeader(line) == Err(InvalidHeaderName) <==> COLON in line && forall other :: !IsField(line, other)
  {
    if SplitHeader(line) == Ok((field.name, field.value)) {
      var blanks := SplitSpells(line, field);
    }
    if blanks :| Spells(line, field, blanks) {
      SpelledIsSplit(line, field, blanks);
    }
    assert line[..|line|] == line;
    forall other | IsField(line, other) ensures SplitHeader(line) == Ok((other.name, other.value)) {
      var blanks :| Spells(line, other, blanks);
      SpelledIsSplit(line, other, blanks);
    }
    if SplitHeader(line).Ok? {
      var found := Field(SplitHeader(line).value.0, SplitHeader(line).value.1);
      var blanks := SplitSpells(line, found);
      assert IsField(line, found);
    }
  }

  lemma FieldIsSplit(line: Bytes)
    ensures FieldIn(line) ==
              match SplitHeader(line)
              case Err(_) => None
              case Ok((name, value)) => Some(Field(name, value))
  {
    if SplitHeader(line).Ok? {
      SplitIsExact(line, Field(SplitHeader(line).value.0, SplitHeader(line).value.1));
    }
    if FieldIn(line).Some? {
      SplitIsExact(line, FieldIn(line).value);
    }
  }

  /** The field that a line spells, if it spells one; there is never a second. */
  ghost function FieldIn(line: Bytes): (r: Option<Field>)
    ensures r.None? ==> forall field :: !IsField(line, field)
    ensures r.Some? ==> IsField(line, r.value)
  {
    if exists field :: IsField(line, field) then
      var field :| IsField(line, field);
      Some(field)
    else None
  }

  /** Add one line: a line that starts with a blank continues the last field, any other line starts one. */
  ghost function AddLine(fields: seq<Field>, line: Bytes): Option<seq<Field>>
    requires line != []
  {
    if IsBlank(line[0]) then
      if fields == [] then None
      else
        var last := fields[|fields| - 1];
        Some(fields[..|fields| - 1] + [last.(value := last.value + line)])
    else match FieldIn(line)
      case None => None
      case Some(field) => Some(fields + [field])
  }

  predicate NonEmpty(lines: seq<Bytes>) { forall i | 0 <= i < |lines| :: lines[i] != [] }

  /** The logical fields of header lines, if they form any. */
  ghost function FieldsOf(lines: seq<Bytes>): Option<seq<Field>>
    requires NonEmpty(lines)
  {
    if lines == [] then Some([])
    else match FieldsOf(lines[..|lines| - 1])
      case None => None
      case Some(fields) => AddLine(fields, lines[|lines| - 1])
  }

  /** The values of the `Content-Length` fields, in order. */
  function LengthValues(fields: seq<Field>): seq<Bytes> {
    if fields == [] then []
    else
      var last := fields[|fields| - 1];
      LengthValues(fields[..|fields| - 1]) + (if IsContentLengthName(last.name) then [last.value] else [])
  }

  /** The body length that the fields declare. */
  ghost predicate Declares(fields: seq<Field>, length: Option<nat>) {
    match length
    case None => LengthValues(fields) == []
    case Some(n) => |LengthValues(fields)| == 1 && IsLength(LengthValues(fields)[0], n)
  }

  function Closed(fields: seq<Field>): Result<Option<nat>, Error> {
    var values := LengthValues(fields);
    if values == [] then Ok(None)
    else if |values| > 1 then Err(DuplicateContentLength)
    else match ParseLength(values[0])
      case Err(error) => Err(error)
      case Ok(n) => Ok(Some(n))
  }

  lemma ClosedIsDeclared(fields: seq<Field>, length: Option<nat>)
    ensures Closed(fields) == Ok(length) <==> Declares(fields, length)
  {
    var values := LengthValues(fields);
    if |values| == 1 && length.Some? {
      LengthIsDecimal(values[0], length.value);
    }
  }

  predicate LastIsLength(fields: seq<Field>) {
    fields != [] && IsContentLengthName(fields[|fields| - 1].name)
  }

  /** The scan's memory after the lines that make up `fields`. */
  predicate Summarises(f: Fields, fields: seq<Field>) {
    && !f.firstLine && f.headerCount == |fields| <= MAX_HEADER_COUNT && f.previousHeader == (fields != [])
    && f.active.Some? == LastIsLength(fields)
    && if f.active.Some? then
         && f.contentLength == None && Closed(fields[..|fields| - 1]) == Ok(None)
         && Push(NO_DIGITS, fields[|fields| - 1].value) == Ok(f.active.value)
       else Closed(fields) == Ok(f.contentLength)
  }

  /** Nothing in `fields` is refused yet; a `Content-Length` that is still open need not be a number so far. */
  predicate Viable(fields: seq<Field>) {
    && |fields| <= MAX_HEADER_COUNT
    && if LastIsLength(fields) then
         LengthValues(fields[..|fields| - 1]) == [] && Push(NO_DIGITS, fields[|fields| - 1].value).Ok?
       else Closed(fields).Ok?
  }

  lemma LengthValuesLast(fields: seq<Field>, field: Field)
    ensures LengthValues(fields + [field]) ==
              LengthValues(fields) + if IsContentLengthName(field.name) then [field.value] else []
  {
    assert (fields + [field])[..|fields|] == fields;
  }

  /** Closing the open field gives exactly what the fields declare. */
  lemma FinalizeCloses(f: Fields, fields: seq<Field>)
    requires Summarises(f, fields)
    ensures FinalizeLength(f).Ok? <==> Closed(fields).Ok?
    ensures FinalizeLength(f).Ok? ==>
              FinalizeLength(f).value == f.(active := None, contentLength := Closed(fields).value)
  {
    if f.active.Some? {
      var init, last := fields[..|fields| - 1], fields[|fields| - 1];
      assert fields == init + [last];
      LengthValuesLast(init, last);
    }
  }

  lemma ContinuationStep(f: Fields, fields: seq<Field>, line: Bytes)
    requires Summarises(f, fields) && line != [] && IsBlank(line[0])
    ensures AcceptContinuation(f, line).Ok? <==> AddLine(fields, line).Some? && Viable(AddLine(fields, line).value)
    ensures AcceptContinuation(f, line).Ok? ==>
              Summarises(AcceptContinuation(f, line).value.fields, AddLine(fields, line).value)
  {
    if fields != [] {
      var init, last := fields[..|fields| - 1], fields[|fields| - 1];
      var longer := last.(value := last.value + line);
      assert fields == init + [last];
      assert (init + [longer])[..|init|] == init;
      LengthValuesLast(init, last);
      LengthValuesLast(init, longer);
      PushConcatenates(NO_DIGITS, last.value, line);
    }
  }

  lemma HeaderStep(f: Fields, fields: seq<Field>, line: Bytes)
    requires Summarises(f, fields) && line != [] && !IsBlank(line[0])
    ensures AcceptHeader(f, line).Ok? <==> AddLine(fields, line).Some? && Viable(AddLine(fields, line).value)
    ensures AcceptHeader(f, line).Ok? ==>
              Summarises(AcceptHeader(f, line).value.fields, AddLine(fields, line).value)
  {
    FinalizeCloses(f, fields);
    FieldIsSplit(line);
    if SplitHeader(line).Ok? {
      var field := FieldIn(line).value;
      assert (fields + [field])[..|fields|] == fields;
      LengthValuesLast(fields, field);
    }
  }

  lemma ViableBeforeContinuation(init: seq<Field>, last: Field, line: Bytes)
    requires Viable(init + [last.(value := last.value + line)])
    ensures Viable(init + [last])
  {
    var longer := last.(value := last.value + line);
    assert (init + [last])[..|init|] == init == (init + [longer])[..|init|];
    LengthValuesLast(init, last);
    LengthValuesLast(init, longer);
    PushConcatenates(NO_DIGITS, last.value, line);
  }

  lemma ViableBeforeHeader(fields: seq<Field>, field: Field)
    requires Viable(fields + [field])
    ensures Viable(fields)
  {
    assert (fields + [field])[..|fields|] == fields;
    LengthValuesLast(fields, field);
    if Closed(fields).Ok? {
      ClosedIsViable(fields);
    }
  }

  lemma ClosedIsViable(fields: seq<Field>)
    requires Closed(fields).Ok? && |fields| <= MAX_HEADER_COUNT
    ensures Viable(fields)
  {
    if LastIsLength(fields) {
      var init, last := fields[..|fields| - 1], fields[|fields| - 1];
      assert fields == init + [last];
      LengthValuesLast(init, last);
    }
  }

  lemma ViableBefore(fields: seq<Field>, line: Bytes)
    requires line != [] && AddLine(fields, line).Some? && Viable(AddLine(fields, line).value)
    ensures Viable(fields)
  {
    if IsBlank(line[0]) {
      var init, last := fields[..|fields| - 1], fields[|fields| - 1];
      assert fields == init + [last];
      ViableBeforeContinuation(init, last, line);
    } else {
      ViableBeforeHeader(fields, FieldIn(line).value);
    }
  }

  // ---------------------------------------------------------------------------
  // The scan as a fold over lines
  // ---------------------------------------------------------------------------

  const STARTED := NO_FIELDS.(firstLine := false)

  function Fold(f: Fields, lines: seq<Bytes>): Result<Fields, Error>
    requires NonEmpty(lines)
    decreases |lines|
  {
    if lines == [] then Ok(f)
    else match AcceptLine(f, lines[0])
      case Err(error) => Err(error)
      case Ok(progress) => Fold(progress.fields, lines[1..])
  }

  /** The lines pass, and the empty line after them ends the section with this body length. */
  predicate Passes(f: Fields, lines: seq<Bytes>, length: Option<nat>)
    requires NonEmpty(lines)
    decreases |lines|
  {
    if lines == [] then AcceptLine(f, []) == Ok(Done(length))
    else AcceptLine(f, lines[0]).Ok? && Passes(AcceptLine(f, lines[0]).value.fields, lines[1..], length)
  }

  lemma {:induction false} PassesIsFold(f: Fields, lines: seq<Bytes>, length: Option<nat>)
    requires NonEmpty(lines)
    ensures Passes(f, lines, length) <==>
              Fold(f, lines).Ok? && AcceptLine(Fold(f, lines).value, []) == Ok(Done(length))
    decreases |lines|
  {
    if lines != [] && AcceptLine(f, lines[0]).Ok? {
      PassesIsFold(AcceptLine(f, lines[0]).value.fields, lines[1..], length);
    }
  }

  lemma {:induction false} FoldLast(f: Fields, lines: seq<Bytes>)
    requires NonEmpty(lines) && lines != []
    ensures Fold(f, lines) ==
              match Fold(f, lines[..|lines| - 1])
              case Err(error) => Err(error)
              case Ok(g) =>
                match AcceptLine(g, lines[|lines| - 1])
                case Err(error) => Err(error)
                case Ok(progress) => Ok(progress.fields)
    decreases |lines|
  {
    if |lines| > 1 && AcceptLine(f, lines[0]).Ok? {
      FoldLast(AcceptLine(f, lines[0]).value.fields, lines[1..]);
      assert lines[1..][..|lines| - 2] == lines[..|lines| - 1][1..];
    }
  }

  /** The header lines pass the scan exactly when they form fields of which none is refused. */
  lemma {:induction false} FoldIsFields(lines: seq<Bytes>)
    requires NonEmpty(lines)
    ensures Fold(STARTED, lines).Ok? <==> FieldsOf(lines).Some? && Viable(FieldsOf(lines).value)
    ensures Fold(STARTED, lines).Ok? ==> Summarises(Fold(STARTED, lines).value, FieldsOf(lines).value)
  {
    if lines != [] {
      var init, line := lines[..|lines| - 1], lines[|lines| - 1];
      FoldIsFields(init);
      FoldLast(STARTED, lines);
      if Fold(STARTED, init).Ok? {
        if IsBlank(line[0]) {
          ContinuationStep(Fold(STARTED, init).value, FieldsOf(init).value, line);
        } else {
          HeaderStep(Fold(STARTED, init).value, FieldsOf(init).value, line);
        }
      } else if FieldsOf(lines).Some? && Viable(FieldsOf(lines).value) {
        ViableBefore(FieldsOf(init).value, line);
      }
    }
  }

  // ---------------------------------------------------------------------------
  // Bytes into lines
  // ---------------------------------------------------------------------------

  function Join(lines: seq<Bytes>): Bytes {
    if lines == [] then [] else lines[0] + [CR, LF] + Join(lines[1..])
  }

  predicate IsLine(line: Bytes) {
    line != [] && |line| <= MAX_LINE_BYTES && CR !in line && LF !in line
  }

  predicate AllLines(lines: seq<Bytes>) { forall i | 0 <= i < |lines| :: IsLine(lines[i]) }

  /** The bytes that lines take, with their line ends. */
  function Span(lines: seq<Bytes>): nat {
    if lines == [] then 0 else |lines[0]| + 2 + Span(lines[1..])
  }

  /** `line` and its line end stand at `position`. */
  predicate LineAt(input: Bytes, position: nat, line: Bytes) {
    && position + |line| + 2 <= |input|
    && input[position..position + |line|] == line
    && input[position + |line|] == CR && input[position + |line| + 1] == LF
  }

  /** These lines and an empty one stand at `position`. */
  predicate Holds(input: Bytes, position: nat, lines: seq<Bytes>)
    decreases |lines|
  {
    if lines == [] then LineAt(input, position, [])
    else
      && IsLine(lines[0]) && LineAt(input, position, lines[0])
      && Holds(input, position + |lines[0]| + 2, lines[1..])
  }

  lemma {:induction false} LineBefore(input: Bytes, position: nat, end: nat)
    requires FindLineEnd(input, position) == At(end)
    ensures forall i | position <= i < end :: input[i] != CR && input[i] != LF
    decreases |input| - position
  {
    if position < end {
      LineBefore(input, position + 1, end);
    }
  }

  lemma {:induction false} LineFound(input: Bytes, position: nat, end: nat)
    requires position <= end && end + 2 <= |input| && input[end] == CR && input[end + 1] == LF
    requires forall i | position <= i < end :: input[i] != CR && input[i] != LF
    ensures FindLineEnd(input, position) == At(end)
    decreases end - position
  {
    if position < end {
      LineFound(input, position + 1, end);
    }
  }

  lemma LineAtIsPrefix(input: Bytes, position: nat, line: Bytes, more: Bytes)
    requires position <= |input|
    ensures line + [CR, LF] + more <= input[position..] <==>
              && LineAt(input, position, line)
              && more <= input[position + |line| + 2..]
  {
    var tail, a := input[position..], line + [CR, LF];
    if position + |a| <= |input| {
      assert tail[|a|..] == input[position + |a|..];
      if a + more <= tail {
        assert tail[|a|..][..|more|] == (a + more)[|a|..] == more;
        assert tail[..|line|] == (a + more)[..|line|] == line;
        assert tail[|line|] == (a + more)[|line|] && tail[|line| + 1] == (a + more)[|line| + 1];
        assert input[position..position + |line|] == tail[..|line|];
      }
      if LineAt(input, position, line) && more <= tail[|a|..] {
        assert tail[..|a|] == a;
        assert tail == tail[..|a|] + tail[|a|..];
      }
    }
  }

  /** Said at once: the lines are well formed, and their bytes and an empty line are the next ones. */
  lemma {:induction false} HoldsIsPrefix(input: Bytes, position: nat, lines: seq<Bytes>)
    requires position <= |input|
    ensures Holds(input, position, lines) <==> AllLines(lines) && Join(lines) + [CR, LF] <= input[position..]
    decreases |lines|
  {
    if lines == [] {
      LineAtIsPrefix(input, position, [], []);
      assert Join(lines) + [CR, LF] == [] + [CR, LF] + [];
    } else {
      var line, rest := lines[0], lines[1..];
      AllLinesFirst(lines);
      JoinFirst(line, Join(rest));
      LineAtIsPrefix(input, position, line, Join(rest) + [CR, LF]);
      if LineAt(input, position, line) {
        HoldsIsPrefix(input, position + |line| + 2, rest);
      }
    }
  }

  lemma JoinFirst(line: Bytes, rest: Bytes)
    ensures line + [CR, LF] + rest + [CR, LF] == line + [CR, LF] + (rest + [CR, LF])
  {
  }

  lemma {:induction false} SpanIsLength(lines: seq<Bytes>)
    ensures |Join(lines)| == Span(lines)
  {
    if lines != [] {
      SpanIsLength(lines[1..]);
    }
  }

  lemma AllLinesFirst(lines: seq<Bytes>)
    requires lines != []
    ensures AllLines(lines) <==> IsLine(lines[0]) && AllLines(lines[1..])
  {
    if IsLine(lines[0]) && AllLines(lines[1..]) {
      forall i | 0 <= i < |lines|
        ensures IsLine(lines[i])
      {
        assert i == 0 || lines[i] == lines[1..][i - 1];
      }
    }
  }

  // ---------------------------------------------------------------------------
  // The accepted header sections
  // ---------------------------------------------------------------------------

  lemma LastStepReads(input: Bytes, offset: nat, position: nat, f: Fields, h: HeaderScan)
    requires offset <= position <= |input| && LineStep(input, offset, position, f) == Stop(Ok(Some(h)))
    ensures LineAt(input, position, []) && position + 2 == offset + h.headerBytes
    ensures AcceptLine(f, []) == Ok(Done(h.contentLength))
  {
    assert input[position..FindLineEnd(input, position).index] == [];
  }

  lemma StepReads(input: Bytes, offset: nat, position: nat, f: Fields) returns (line: Bytes)
    requires offset <= position <= |input| && LineStep(input, offset, position, f).Go?
    ensures IsLine(line) && LineAt(input, position, line)
    ensures AcceptLine(f, line).Ok?
    ensures LineStep(input, offset, position, f) == Go(position + |line| + 2, AcceptLine(f, line).value.fields)
  {
    line := input[position..FindLineEnd(input, position).index];
    LineBefore(input, position, FindLineEnd(input, position).index);
  }

  /** The scan from `position` reads these lines, the empty line, and reports `h`. */
  predicate Reads(input: Bytes, offset: nat, position: nat, f: Fields, lines: seq<Bytes>, h: HeaderScan)
    decreases |lines|
  {
    if lines == [] then
      && LineAt(input, position, []) && position + 2 == offset + h.headerBytes
      && AcceptLine(f, []) == Ok(Done(h.contentLength))
    else
      && IsLine(lines[0]) && LineAt(input, position, lines[0]) && AcceptLine(f, lines[0]).Ok?
      && Reads(input, offset, position + |lines[0]| + 2, AcceptLine(f, lines[0]).value.fields, lines[1..], h)
  }

  lemma {:induction false} ReadsInParts(input: Bytes, offset: nat, position: nat, f: Fields, lines: seq<Bytes>,
                                        h: HeaderScan)
    ensures Reads(input, offset, position, f, lines, h) <==>
              && Holds(input, position, lines) && position + Span(lines) + 2 == offset + h.headerBytes
              && NonEmpty(lines) && Passes(f, lines, h.contentLength)
    decreases |lines|
  {
    hide AcceptLine, LineAt;
    if lines != [] && lines[0] != [] && AcceptLine(f, lines[0]).Ok? {
      ReadsInParts(input, offset, position + |lines[0]| + 2, AcceptLine(f, lines[0]).value.fields, lines[1..], h);
      assert lines == [lines[0]] + lines[1..];
    }
  }

  lemma {:induction false} ScanReadsLines(input: Bytes, offset: nat, position: nat, f: Fields, h: HeaderScan)
    returns (lines: seq<Bytes>)
    requires offset <= position <= |input| && Scan(input, offset, position, f) == Ok(Some(h))
    ensures Reads(input, offset, position, f, lines, h)
    decreases |input| - position
  {
    hide AcceptLine, LineStep, FindLineEnd;
    match LineStep(input, offset, position, f) {
      case Stop(_) =>
        lines := [];
        LastStepReads(input, offset, position, f, h);
      case Go(next, g) =>
        var line := StepReads(input, offset, position, f);
        var rest := ScanReadsLines(input, offset, next, g, h);
        lines := [line] + rest;
        assert lines[1..] == rest;
    }
  }

  lemma StepOverEmptyLine(input: Bytes, offset: nat, position: nat, f: Fields, h: HeaderScan)
    requires offset <= position && LineAt(input, position, [])
    requires position + 2 == offset + h.headerBytes && h.headerBytes <= MAX_HEADER_BYTES
    requires AcceptLine(f, []) == Ok(Done(h.contentLength))
    ensures Scan(input, offset, position, f) == Ok(Some(h))
  {
    LineFound(input, position, position);
    assert input[position..position] == [];
    assert LineStep(input, offset, position, f) == Stop(Ok(Some(h)));
  }

  lemma StepOverLine(input: Bytes, offset: nat, position: nat, f: Fields, line: Bytes)
    requires IsLine(line) && offset <= position && LineAt(input, position, line)
    requires position + |line| + 2 - offset <= MAX_HEADER_BYTES && AcceptLine(f, line).Ok?
    ensures Scan(input, offset, position, f) ==
              Scan(input, offset, position + |line| + 2, AcceptLine(f, line).value.fields)
  {
    hide AcceptLine;
    forall i | position <= i < position + |line|
      ensures input[i] != CR && input[i] != LF
    {
      assert input[i] == line[i - position];
    }
    LineFound(input, position, position + |line|);
    assert LineStep(input, offset, position, f) == Go(position + |line| + 2, AcceptLine(f, line).value.fields);
  }

  lemma {:induction false} LinesAreScanned(input: Bytes, offset: nat, position: nat, f: Fields, lines: seq<Bytes>,
                                           h: HeaderScan)
    requires offset <= position <= |input| && Reads(input, offset, position, f, lines, h)
    requires h.headerBytes <= MAX_HEADER_BYTES
    ensures position + 2 <= offset + h.headerBytes
    ensures Scan(input, offset, position, f) == Ok(Some(h))
    decreases |lines|
  {
    hide AcceptLine, Scan;
    if lines == [] {
      StepOverEmptyLine(input, offset, position, f, h);
    } else {
      LinesAreScanned(input, offset, position + |lines[0]| + 2, AcceptLine(f, lines[0]).value.fields, lines[1..], h);
      StepOverLine(input, offset, position, f, lines[0]);
    }
  }

  /**
   * A start line, header lines that form at most 128 fields with at most one
   * `Content-Length`, and an empty line, all within the size limits.
   */
  ghost predicate IsHeaderSection(input: Bytes, offset: nat, start: Bytes, lines: seq<Bytes>, h: HeaderScan) {
    && offset <= |input| && IsLine(start) && AllLines(lines) && !IsBlank(start[0])
    && Join([start] + lines) + [CR, LF] <= input[offset..]
    && h.headerBytes == |Join([start] + lines)| + 2 <= MAX_HEADER_BYTES
    && FieldsOf(lines).Some? && |FieldsOf(lines).value| <= MAX_HEADER_COUNT
    && Declares(FieldsOf(lines).value, h.contentLength)
  }

  lemma StartLine(start: Bytes, lines: seq<Bytes>, length: Option<nat>)
    requires start != [] && NonEmpty(lines)
    ensures NonEmpty([start] + lines)
    ensures Passes(NO_FIELDS, [start] + lines, length) <==> !IsBlank(start[0]) && Passes(STARTED, lines, length)
  {
    assert ([start] + lines)[1..] == lines;
  }

  lemma EndOfHeaders(lines: seq<Bytes>, length: Option<nat>)
    requires NonEmpty(lines)
    ensures Passes(STARTED, lines, length) <==>
              && FieldsOf(lines).Some? && |FieldsOf(lines).value| <= MAX_HEADER_COUNT
              && Declares(FieldsOf(lines).value, length)
  {
    PassesIsFold(STARTED, lines, length);
    FoldIsFields(lines);
    if FieldsOf(lines).Some? {
      ClosedIsDeclared(FieldsOf(lines).value, length);
      if Fold(STARTED, lines).Ok? {
        FinalizeCloses(Fold(STARTED, lines).value, FieldsOf(lines).value);
      } else if Closed(FieldsOf(lines).value).Ok? && |FieldsOf(lines).value| <= MAX_HEADER_COUNT {
        ClosedIsViable(FieldsOf(lines).value);
      }
    }
  }

  /** The scanner accepts exactly the header sections, and reports their size and declared body length. */
  lemma ScanIsExact(input: Bytes, offset: nat, h: HeaderScan)
    requires offset <= |input|
    ensures Scan(input, offset, offset, NO_FIELDS) == Ok(Some(h)) <==>
            exists start, lines :: IsHeaderSection(input, offset, start, lines, h)
  {
    if Scan(input, offset, offset, NO_FIELDS) == Ok(Some(h)) {
      var all := ScanReadsLines(input, offset, offset, NO_FIELDS, h);
      ReadsInParts(input, offset, offset, NO_FIELDS, all, h);
      assert all == [all[0]] + all[1..];
      LinesAreASection(input, offset, all[0], all[1..], h);
    }
    if start, lines :| IsHeaderSection(input, offset, start, lines, h) {
      SectionIsScanned(input, offset, start, lines, h);
    }
  }

  lemma LinesAreASection(input: Bytes, offset: nat, start: Bytes, lines: seq<Bytes>, h: HeaderScan)
    requires offset <= |input| && start != [] && NonEmpty(lines)
    requires NonEmpty([start] + lines) && Holds(input, offset, [start] + lines)
    requires Span([start] + lines) + 2 == h.headerBytes <= MAX_HEADER_BYTES
    requires Passes(NO_FIELDS, [start] + lines, h.contentLength)
    ensures IsHeaderSection(input, offset, start, lines, h)
  {
    StartLine(start, lines, h.contentLength);
    EndOfHeaders(lines, h.contentLength);
    HoldsIsPrefix(input, offset, [start] + lines);
    SpanIsLength([start] + lines);
    AllLinesFirst([start] + lines);
    assert ([start] + lines)[1..] == lines;
  }

  lemma SectionIsScanned(input: Bytes, offset: nat, start: Bytes, lines: seq<Bytes>, h: HeaderScan)
    requires IsHeaderSection(input, offset, start, lines, h)
    ensures Scan(input, offset, offset, NO_FIELDS) == Ok(Some(h))
  {
    StartLine(start, lines, h.contentLength);
    EndOfHeaders(lines, h.contentLength);
    HoldsIsPrefix(input, offset, [start] + lines);
    SpanIsLength([start] + lines);
    AllLinesFirst([start] + lines);
    assert ([start] + lines)[1..] == lines;
    ReadsInParts(input, offset, offset, NO_FIELDS, [start] + lines, h);
    LinesAreScanned(input, offset, offset, NO_FIELDS, [start] + lines, h);
  }
}

/**
 * RTP header extensions (src/rtp/packet/extension.rs): the RFC 3550 block, and
 * the one-byte and two-byte element formats of RFC 8285 inside it.
 */
module HeaderExtension {
  import opened Wrappers

  const EXTENSION_PREAMBLE_BYTES: nat := 4
  const ONE_BYTE_PROFILE: nat := 0xBEDE
  const TWO_BYTE_PROFILE_BASE: nat := 0x1000
  const MAX_EXTENSION_DATA_BYTES: nat := 16 * 1024
  const MAX_EXTENSION_ELEMENTS: nat := 256
  const RESERVED_ID: nat := 15

  type Bytes = seq<Byte>

  datatype Format = OneByte | TwoByte(appBits: nat) | Opaque

  datatype Element = Element(id: nat, data: Bytes)

  datatype Error =
    | Truncated(required: nat, available: nat)
    | DataTooLarge(actual: nat)
    | DataNotWordAligned(actual: nat)
    | StructuredProfileRequiresParsing(profile: nat)
    | ElementHeaderTruncated(offset: nat)
    | ElementTruncated(offset: nat, needed: nat, left: nat)
    | NonPaddingAfterReservedId(offset: nat)
    | TooManyElements(attempted: nat)

  function FormatFor(profile: nat): Format {
    if profile == ONE_BYTE_PROFILE then OneByte
    else if profile - profile % 16 == TWO_BYTE_PROFILE_BASE then TwoByte(profile % 16)
    else Opaque
  }

  // ---------------------------------------------------------------------------
  // Elements
  // ---------------------------------------------------------------------------

  /** What stands at the front of element data. */
  datatype Head = PadHead | ReservedHead | CutHead | ElementHead(id: nat, length: nat, skip: nat)

  function HeadOf(format: Format, data: Bytes): (h: Head)
    requires data != [] && !format.Opaque?
    ensures h.ElementHead? ==> 1 <= h.skip <= |data|
  {
    if data[0] == 0 then PadHead
    else if format.OneByte? then
      if data[0] / 16 == RESERVED_ID then ReservedHead else ElementHead(data[0] / 16, data[0] % 16 + 1, 1)
    else if |data| < 2 then CutHead
    else ElementHead(data[0], data[1], 2)
  }

  predicate Zeros(data: Bytes) { forall i | 0 <= i < |data| :: data[i] == 0 }

  /** `validate_one_byte` and `validate_two_byte`, from a position where `count` elements precede. */
  function Validate(format: Format, data: Bytes, offset: nat, count: nat): Result<nat, Error>
    requires !format.Opaque?
    decreases |data|
  {
    if data == [] then Ok(count)
    else match HeadOf(format, data)
      case PadHead => Validate(format, data[1..], offset + 1, count)
      case ReservedHead => if Zeros(data[1..]) then Ok(count) else Err(NonPaddingAfterReservedId(offset))
      case CutHead => Err(ElementHeaderTruncated(offset))
      case ElementHead(_, length, skip) =>
        if |data| - skip < length then Err(ElementTruncated(offset, length, |data| - skip))
        else if count + 1 > MAX_EXTENSION_ELEMENTS then Err(TooManyElements(count + 1))
        else Validate(format, data[skip + length..], offset + skip + length, count + 1)
  }

  /** A step of the iterator; `OutOfRange` is a split past the end, which aborts the program. */
  datatype Next = Yield(element: Element, rest: Bytes) | End | OutOfRange

  function NextElement(format: Format, data: Bytes): (r: Next)
    ensures r.Yield? ==> |r.rest| < |data|
    decreases |data|
  {
    if format.Opaque? || data == [] then End
    else match HeadOf(format, data)
      case PadHead => NextElement(format, data[1..])
      case ReservedHead => End
      case CutHead => End
      case ElementHead(id, length, skip) =>
        if |data| - skip < length then OutOfRange
        else Yield(Element(id, data[skip..skip + length]), data[skip + length..])
  }

  /** Everything the iterator yields, unless it runs out of range. */
  function Iterate(format: Format, data: Bytes): Option<seq<Element>>
    decreases |data|
  {
    match NextElement(format, data)
    case End => Some([])
    case OutOfRange => None
    case Yield(element, rest) =>
      var later := Iterate(format, rest);
      if later.None? then None else Some([element] + later.value)
  }

  // ---------------------------------------------------------------------------
  // The layouts behind the bytes
  // ---------------------------------------------------------------------------

  datatype Item = Pad | Item(element: Element)

  /** What each format can carry; a one-byte element that would read as padding is not one. */
  predicate Carries(format: Format, item: Item) {
    match item
    case Pad => true
    case Item(Element(id, data)) =>
      match format
      case OneByte => id < RESERVED_ID && 1 <= |data| <= 16 && !(id == 0 && |data| == 1)
      case TwoByte(_) => 1 <= id < 256 && |data| < 256
      case Opaque => false
  }

  predicate AllCarried(format: Format, items: seq<Item>) { forall i | 0 <= i < |items| :: Carries(format, items[i]) }

  /** After the reserved one-byte identifier only padding may follow. */
  predicate IsTrailer(format: Format, trailer: Bytes) {
    trailer == [] || (format.OneByte? && trailer[0] / 16 == RESERVED_ID && Zeros(trailer[1..]))
  }

  function RenderItem(format: Format, item: Item): (r: Bytes)
    requires Carries(format, item)
    ensures r != []
  {
    match item
    case Pad => [0]
    case Item(Element(id, data)) =>
      if format.OneByte? then [id * 16 + (|data| - 1)] + data else [id, |data|] + data
  }

  function Render(format: Format, items: seq<Item>): Bytes
    requires AllCarried(format, items)
  {
    if items == [] then [] else RenderItem(format, items[0]) + Render(format, items[1..])
  }

  function ElementsOf(items: seq<Item>): seq<Element> {
    if items == [] then []
    else if items[0].Pad? then ElementsOf(items[1..])
    else [items[0].element] + ElementsOf(items[1..])
  }

  /** The head of rendered data is the item that was rendered. */
  lemma HeadOfRendered(format: Format, element: Element, more: Bytes)
    requires !format.Opaque? && Carries(format, Item(element))
    ensures var data := RenderItem(format, Item(element)) + more;
            var skip := if format.OneByte? then 1 else 2;
            && HeadOf(format, data) == ElementHead(element.id, |element.data|, skip)
            && |RenderItem(format, Item(element))| == skip + |element.data|
            && data[skip..skip + |element.data|] == element.data
            && data[skip + |element.data|..] == more
  {
  }

  function Before(element: Element, later: Option<seq<Element>>): Option<seq<Element>> {
    if later.None? then None else Some([element] + later.value)
  }

  lemma PadIterates(format: Format, data: Bytes)
    requires !format.Opaque? && data != [] && data[0] == 0
    ensures Iterate(format, data) == Iterate(format, data[1..])
  {
  }

  lemma ElementValidates(format: Format, data: Bytes, element: Element, more: Bytes,
                         offset: nat, count: nat, total: nat)
    requires !format.Opaque? && Carries(format, Item(element)) && count < MAX_EXTENSION_ELEMENTS
    requires data == RenderItem(format, Item(element)) + more
    requires Validate(format, more, offset + |data| - |more|, count + 1) == Ok(total)
    ensures Validate(format, data, offset, count) == Ok(total)
  {
    HeadOfRendered(format, element, more);
  }

  lemma PadValidates(format: Format, data: Bytes, more: Bytes, offset: nat, count: nat, total: nat)
    requires !format.Opaque? && data != [] && data[0] == 0 && data[1..] == more
    requires Validate(format, more, offset + 1, count) == Ok(total)
    ensures Validate(format, data, offset, count) == Ok(total)
  {
  }

  lemma ElementIterates(format: Format, data: Bytes, element: Element, more: Bytes)
    requires !format.Opaque? && Carries(format, Item(element))
    requires data == RenderItem(format, Item(element)) + more
    ensures Iterate(format, data) == Before(element, Iterate(format, more))
  {
    HeadOfRendered(format, element, more);
    assert NextElement(format, data) == Yield(element, more);
  }

  lemma TrailerSteps(format: Format, trailer: Bytes, offset: nat, count: nat)
    requires !format.Opaque? && IsTrailer(format, trailer)
    ensures Validate(format, trailer, offset, count) == Ok(count) && Iterate(format, trailer) == Some([])
  {
  }

  /** `data` is these items one after the other, then the trailer. */
  predicate LaidOut(format: Format, data: Bytes, items: seq<Item>, trailer: Bytes)
    decreases |items|
  {
    if items == [] then data == trailer && IsTrailer(format, trailer)
    else
      && Carries(format, items[0])
      && var size := |RenderItem(format, items[0])|;
         size <= |data| && data[..size] == RenderItem(format, items[0]) &&
         LaidOut(format, data[size..], items[1..], trailer)
  }

  /** The same, said with concatenation. */
  lemma {:induction false} LaidOutIsRendered(format: Format, data: Bytes, items: seq<Item>, trailer: Bytes)
    requires AllCarried(format, items)
    ensures LaidOut(format, data, items, trailer) <==>
            IsTrailer(format, trailer) && data == Render(format, items) + trailer
    decreases |items|
  {
    if items != [] {
      var item, size := RenderItem(format, items[0]), |RenderItem(format, items[0])|;
      var more := Render(format, items[1..]) + trailer;
      assert Render(format, items) + trailer == item + more;
      if size <= |data| {
        LaidOutIsRendered(format, data[size..], items[1..], trailer);
        assert data == data[..size] + data[size..];
        assert data == item + more ==> data[..size] == item && data[size..] == more;
      }
    }
  }

  lemma {:induction false} LaidOutIsCarried(format: Format, data: Bytes, items: seq<Item>, trailer: Bytes)
    requires LaidOut(format, data, items, trailer)
    ensures AllCarried(format, items)
    decreases |items|
  {
    if items != [] {
      LaidOutIsCarried(format, data[|RenderItem(format, items[0])|..], items[1..], trailer);
      assert items == [items[0]] + items[1..];
    }
  }

  lemma FirstItem(format: Format, data: Bytes, items: seq<Item>, trailer: Bytes) returns (more: Bytes)
    requires LaidOut(format, data, items, trailer) && items != []
    ensures data == RenderItem(format, items[0]) + more && LaidOut(format, more, items[1..], trailer)
    ensures items[0].Pad? ==> data[0] == 0 && data[1..] == more
  {
    more := data[|RenderItem(format, items[0])|..];
  }

  lemma AddItem(format: Format, data: Bytes, item: Item, rest: seq<Item>, trailer: Bytes) returns (items: seq<Item>)
    requires Carries(format, item) && |RenderItem(format, item)| <= |data|
    requires data[..|RenderItem(format, item)|] == RenderItem(format, item)
    requires LaidOut(format, data[|RenderItem(format, item)|..], rest, trailer)
    ensures LaidOut(format, data, items, trailer)
    ensures |ElementsOf(items)| == |ElementsOf(rest)| + (if item.Pad? then 0 else 1)
  {
    items := [item] + rest;
    assert items[1..] == rest;
  }

  /** Whatever is laid out by the rules is accepted, with its number of elements. */
  lemma {:induction false} LayoutValidates(
    format: Format, data: Bytes, items: seq<Item>, trailer: Bytes, offset: nat, count: nat, total: nat)
    requires !format.Opaque? && LaidOut(format, data, items, trailer)
    requires count + |ElementsOf(items)| == total <= MAX_EXTENSION_ELEMENTS
    ensures Validate(format, data, offset, count) == Ok(total)
    decreases |items|
  {
    if items == [] {
      TrailerSteps(format, trailer, offset, count);
    } else {
      var more := FirstItem(format, data, items, trailer);
      if items[0].Pad? {
        LayoutValidates(format, more, items[1..], trailer, offset + 1, count, total);
        PadValidates(format, data, more, offset, count, total);
      } else {
        LayoutValidates(format, more, items[1..], trailer, offset + |data| - |more|, count + 1, total);
        ElementValidates(format, data, items[0].element, more, offset, count, total);
      }
    }
  }

  /** The iterator reads a layout back. */
  lemma {:induction false} LayoutIterates(format: Format, data: Bytes, items: seq<Item>, trailer: Bytes)
    requires !format.Opaque? && LaidOut(format, data, items, trailer)
    ensures Iterate(format, data) == Some(ElementsOf(items))
    decreases |items|
  {
    if items == [] {
      assert data == trailer;
      TrailerSteps(format, trailer, 0, 0);
    } else {
      var more := FirstItem(format, data, items, trailer);
      LayoutIterates(format, more, items[1..], trailer);
      if items[0].Pad? {
        PadIterates(format, data);
      } else {
        ElementIterates(format, data, items[0].element, more);
      }
    }
  }

  lemma ElementFound(format: Format, data: Bytes) returns (element: Element)
    requires !format.Opaque? && data != [] && HeadOf(format, data).ElementHead?
    requires |data| - HeadOf(format, data).skip >= HeadOf(format, data).length
    ensures Carries(format, Item(element))
    ensures var size := |RenderItem(format, Item(element))|;
            && size == HeadOf(format, data).skip + HeadOf(format, data).length
            && data[..size] == RenderItem(format, Item(element))
  {
    var h := HeadOf(format, data);
    element := Element(h.id, data[h.skip..h.skip + h.length]);
    assert data[..h.skip + h.length] == data[..h.skip] + element.data;
  }

  /** Whatever is accepted is laid out by the rules. */
  lemma {:induction false} AcceptedIsLayout(format: Format, data: Bytes, offset: nat, count: nat, total: nat)
    returns (items: seq<Item>, trailer: Bytes)
    requires !format.Opaque? && count <= MAX_EXTENSION_ELEMENTS && Validate(format, data, offset, count) == Ok(total)
    ensures LaidOut(format, data, items, trailer)
    ensures count + |ElementsOf(items)| == total <= MAX_EXTENSION_ELEMENTS
    decreases |data|
  {
    if data == [] || HeadOf(format, data).ReservedHead? {
      items, trailer := [], data;
    } else if data[0] == 0 {
      var rest;
      rest, trailer := AcceptedIsLayout(format, data[1..], offset + 1, count, total);
      items := AddItem(format, data, Pad, rest, trailer);
    } else {
      var element := ElementFound(format, data);
      var size, rest := |RenderItem(format, Item(element))|, [];
      rest, trailer := AcceptedIsLayout(format, data[size..], offset + size, count + 1, total);
      items := AddItem(format, data, Item(element), rest, trailer);
    }
  }

  /** On accepted data the iterator stays in range and yields exactly the validated number of elements. */
  lemma IteratorAgrees(format: Format, data: Bytes)
    requires !format.Opaque? && Validate(format, data, 0, 0).Ok?
    ensures Iterate(format, data).Some?
    ensures |Iterate(format, data).value| == Validate(format, data, 0, 0).value
  {
    var items, trailer := AcceptedIsLayout(format, data, 0, 0, Validate(format, data, 0, 0).value);
    LayoutIterates(format, data, items, trailer);
  }

  ghost predicate HasLayout(format: Format, data: Bytes, total: nat) {
    exists items, trailer :: LaidOut(format, data, items, trailer) && |ElementsOf(items)| == total
  }

  lemma LayoutIsAccepted(format: Format, data: Bytes, total: nat)
    requires !format.Opaque? && total <= MAX_EXTENSION_ELEMENTS && HasLayout(format, data, total)
    ensures Validate(format, data, 0, 0) == Ok(total)
  {
    var items, trailer :| LaidOut(format, data, items, trailer) && |ElementsOf(items)| == total;
    LayoutValidates(format, data, items, trailer, 0, 0, total);
  }

  /** The validator accepts exactly the layouts of at most 256 elements, and counts their elements. */
  lemma ValidatorIsExact(format: Format, data: Bytes, total: nat)
    requires !format.Opaque?
    ensures Validate(format, data, 0, 0) == Ok(total) <==>
            total <= MAX_EXTENSION_ELEMENTS && HasLayout(format, data, total)
  {
    if Validate(format, data, 0, 0) == Ok(total) {
      var items, trailer := AcceptedIsLayout(format, data, 0, 0, total);
    } else if total <= MAX_EXTENSION_ELEMENTS && HasLayout(format, data, total) {
      LayoutIsAccepted(format, data, total);
    }
  }

  // ---------------------------------------------------------------------------
  // The block
  // ---------------------------------------------------------------------------

  datatype Extension = Extension(profile: nat, data: Bytes, elementCount: nat) {
    /** What parsing and the opaque constructor establish. */
    predicate Valid() {
      && profile <= U16_MAX && |data| % 4 == 0 && |data| <= MAX_EXTENSION_DATA_BYTES
      && ValidateElements(FormatFor(profile), data) == Ok(elementCount)
    }
  }

  function ValidateElements(format: Format, data: Bytes): Result<nat, Error> {
    if format.Opaque? then Ok(0) else Validate(format, data, 0, 0)
  }

  function BigEndian(high: nat, low: nat): nat { high * 256 + low }

  function Parse(input: Bytes): Result<(Extension, nat), Error> {
    if |input| < EXTENSION_PREAMBLE_BYTES then Err(Truncated(EXTENSION_PREAMBLE_BYTES, |input|))
    else
      var profile := BigEndian(input[0], input[1]);
      var length := BigEndian(input[2], input[3]) * 4;
      var consumed := EXTENSION_PREAMBLE_BYTES + length;
      if length > MAX_EXTENSION_DATA_BYTES then Err(DataTooLarge(length))
      else if |input| < consumed then Err(Truncated(consumed, |input|))
      else
        var data := input[EXTENSION_PREAMBLE_BYTES..consumed];
        match ValidateElements(FormatFor(profile), data)
        case Err(error) => Err(error)
        case Ok(count) => Ok((Extension(profile, data, count), consumed))
  }

  function OpaqueExtension(profile: nat, data: Bytes): Result<Extension, Error> {
    if !FormatFor(profile).Opaque? then Err(StructuredProfileRequiresParsing(profile))
    else if |data| > MAX_EXTENSION_DATA_BYTES then Err(DataTooLarge(|data|))
    else if |data| % 4 != 0 then Err(DataNotWordAligned(|data|))
    else Ok(Extension(profile, data, 0))
  }

  function Encode(e: Extension): Bytes
    requires e.Valid()
  {
    var words := |e.data| / 4;
    [e.profile / 256, e.profile % 256, words / 256, words % 256] + e.data
  }

  lemma BigEndianOf(n: nat)
    ensures BigEndian(n / 256, n % 256) == n
  {
  }

  /** Parsing an encoded extension, whatever follows it, returns it and its length. */
  lemma ParseEncoded(e: Extension, more: Bytes)
    requires e.Valid()
    ensures Parse(Encode(e) + more) == Ok((e, |Encode(e)|))
  {
    var input, words := Encode(e) + more, |e.data| / 4;
    BigEndianOf(e.profile);
    BigEndianOf(words);
    assert BigEndian(input[0], input[1]) == e.profile && BigEndian(input[2], input[3]) == words;
    assert input[EXTENSION_PREAMBLE_BYTES..EXTENSION_PREAMBLE_BYTES + |e.data|] == e.data;
  }

  /** Encoding a parsed extension returns the bytes that were consumed. */
  lemma EncodeParsed(input: Bytes)
    requires Parse(input).Ok?
    ensures var (e, consumed) := Parse(input).value;
            e.Valid() && consumed <= |input| && Encode(e) == input[..consumed]
  {
    var (e, consumed) := Parse(input).value;
    assert input[..consumed] == input[..EXTENSION_PREAMBLE_BYTES] + e.data;
    assert input[..EXTENSION_PREAMBLE_BYTES] == [input[0], input[1], input[2], input[3]];
  }

  lemma OpaqueIsValid(profile: nat, data: Bytes)
    requires profile <= U16_MAX && OpaqueExtension(profile, data).Ok?
    ensures OpaqueExtension(profile, data).value.Valid()
    ensures Iterate(FormatFor(profile), data) == Some([])
  {
  }

  // ---------------------------------------------------------------------------
  // The loops
  // ---------------------------------------------------------------------------

  method AllZero(data: Bytes) returns (r: bool)
    ensures r == Zeros(data)
  {
    for i := 0 to |data|
      invariant forall k | 0 <= k < i :: data[k] == 0
    {
      if data[i] != 0 {
        return false;
      }
    }
    return true;
  }

  method ValidateOneByte(block: Bytes) returns (r: Result<nat, Error>)
    ensures r == Validate(OneByte, block, 0, 0)
  {
    var data, count, offset := block, 0, 0;
    while data != []
      invariant Validate(OneByte, data, offset, count) == Validate(OneByte, block, 0, 0)
      decreases |data|
    {
      var header := data[0];
      ghost var before := data;
      data := data[1..];
      if header == 0 {
        offset := offset + 1;
        continue;
      }
      if header / 16 == RESERVED_ID {
        var padding := AllZero(data);
        return if padding then Ok(count) else Err(NonPaddingAfterReservedId(offset));
      }
      var length := header % 16 + 1;
      if |data| < length {
        return Err(ElementTruncated(offset, length, |data|));
      }
      if count + 1 > MAX_EXTENSION_ELEMENTS {
        return Err(TooManyElements(count + 1));
      }
      assert data[length..] == before[1 + length..];
      data, offset, count := data[length..], offset + 1 + length, count + 1;
    }
    return Ok(count);
  }

  method ValidateTwoByte(appBits: nat, block: Bytes) returns (r: Result<nat, Error>)
    ensures r == Validate(TwoByte(appBits), block, 0, 0)
  {
    var data, count, offset := block, 0, 0;
    while data != []
      invariant Validate(TwoByte(appBits), data, offset, count) == Validate(TwoByte(appBits), block, 0, 0)
      decreases |data|
    {
      var id := data[0];
      ghost var before := data;
      data := data[1..];
      if id == 0 {
        offset := offset + 1;
        continue;
      }
      if data == [] {
        return Err(ElementHeaderTruncated(offset));
      }
      var length := data[0];
      data := data[1..];
      if |data| < length {
        return Err(ElementTruncated(offset, length, |data|));
      }
      if count + 1 > MAX_EXTENSION_ELEMENTS {
        return Err(TooManyElements(count + 1));
      }
      assert data[length..] == before[2 + length..];
      data, offset, count := data[length..], offset + 2 + length, count + 1;
    }
    return Ok(count);
  }

  class ExtensionElementIter {
    const format: Format
    var remaining: Bytes
    var emitted: nat

    constructor (format: Format, data: Bytes)
      ensures this.format == format && remaining == data && emitted == 0
    {
      this.format, remaining, emitted := format, data, 0;
    }

    /** The next element; the iterator may only be asked while the split stays in range. */
    method Next() returns (r: Option<Element>)
      requires Iterate(format, remaining).Some?
      modifies this
      ensures r.None? ==> old(Iterate(format, remaining)) == Some([]) && Iterate(format, remaining) == Some([])
      ensures r.Some? ==> Iterate(format, remaining).Some? && emitted == old(emitted) + 1
      ensures r.Some? ==> old(Iterate(format, remaining)) == Before(r.value, Iterate(format, remaining))
    {
      if format.Opaque? {
        return None;
      }
      while remaining != []
        invariant Iterate(format, remaining) == old(Iterate(format, remaining)) && emitted == old(emitted)
        decreases |remaining|
      {
        var header := remaining[0];
        ghost var before := remaining;
        remaining := remaining[1..];
        if header == 0 {
          PadIterates(format, before);
          continue;
        }
        if format.OneByte? && header / 16 == RESERVED_ID {
          remaining := [];
          return None;
        }
        var length := header % 16 + 1;
        if format.TwoByte? {
          if remaining == [] {
            return None;
          }
          length := remaining[0];
          remaining := remaining[1..];
        }
        var id := if format.OneByte? then header / 16 else header;
        r := Some(Element(id, remaining[..length]));
        assert NextElement(format, before) == Yield(r.value, remaining[length..]);
        remaining := remaining[length..];
        emitted := emitted + 1;
        return;
      }
      return None;
    }
  }
}

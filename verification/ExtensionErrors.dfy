/**
 * Why RTP header extension data is refused (src/rtp/packet/extension.rs), said
 * by the items before the first fault.
 */
module ExtensionErrors {
  import opened Wrappers
  import opened HeaderExtension

  /** What stands at the front of `rest`, `offset` bytes and `count` elements in, is neither an item nor a trailer. */
  predicate Broken(format: Format, rest: Bytes, offset: nat, count: nat, error: Error) {
    rest != [] && rest[0] != 0 &&
    match format
    case OneByte =>
      if rest[0] / 16 == 15 then error == NonPaddingAfterReservedId(offset) && !Zeros(rest[1..])
      else Spilled(rest[0] % 16 + 1, |rest| - 1, offset, count, error)
    case TwoByte(_) =>
      if |rest| == 1 then error == ElementHeaderTruncated(offset)
      else Spilled(rest[1], |rest| - 2, offset, count, error)
    case Opaque => false
  }

  /** An element of this length does not fit the bytes left, or is the 257th. */
  predicate Spilled(length: nat, left: nat, offset: nat, count: nat, error: Error) {
    if left < length then error == ElementTruncated(offset, length, left)
    else error == TooManyElements(count + 1) && count >= 256
  }

  function Weight(item: Item): nat { if item.Pad? then 0 else 1 }

  /** `data` is these items one after the other, and then something broken. */
  predicate BreaksAfter(format: Format, data: Bytes, items: seq<Item>, rest: Bytes, offset: nat, count: nat,
                        error: Error)
  {
    && AllCarried(format, items) && data == Render(format, items) + rest && count + |ElementsOf(items)| <= 256
    && Broken(format, rest, offset + |Render(format, items)|, count + |ElementsOf(items)|, error)
  }

  lemma FirstItemFirst(format: Format, item: Item, items: seq<Item>, rest: Bytes)
    ensures AllCarried(format, [item] + items) <==> Carries(format, item) && AllCarried(format, items)
    ensures |ElementsOf([item] + items)| == Weight(item) + |ElementsOf(items)|
    ensures AllCarried(format, [item] + items) ==>
              && Render(format, [item] + items) == RenderItem(format, item) + Render(format, items)
              && Render(format, [item] + items) + rest == RenderItem(format, item) + (Render(format, items) + rest)
  {
    var all := [item] + items;
    assert all[1..] == items && all[0] == item;
    if AllCarried(format, all) {
      forall i | 0 <= i < |items| ensures Carries(format, items[i]) { assert items[i] == all[i + 1]; }
    }
  }

  /** One item more in front. */
  lemma BreaksLater(format: Format, item: Item, more: Bytes, items: seq<Item>, rest: Bytes, offset: nat, count: nat,
                    error: Error)
    requires Carries(format, item)
    ensures BreaksAfter(format, RenderItem(format, item) + more, [item] + items, rest, offset, count, error) <==>
            BreaksAfter(format, more, items, rest, offset + |RenderItem(format, item)|, count + Weight(item), error)
  {
    hide RenderItem, Render, ElementsOf, AllCarried, Broken, Carries;
    FirstItemFirst(format, item, items, rest);
    if AllCarried(format, items) {
      SameFront(RenderItem(format, item), more, Render(format, items) + rest);
    }
  }

  lemma SameFront(front: Bytes, one: Bytes, two: Bytes)
    ensures front + one == front + two <==> one == two
  {
    if front + one == front + two {
      assert one == (front + one)[|front|..] && two == (front + two)[|front|..];
    }
  }

  lemma {:induction false} ValidatorBreaks(format: Format, data: Bytes, offset: nat, count: nat, error: Error)
    returns (items: seq<Item>, rest: Bytes)
    requires !format.Opaque? && count <= 256 && Validate(format, data, offset, count) == Err(error)
    ensures BreaksAfter(format, data, items, rest, offset, count, error)
    decreases |data|
  {
    hide BreaksAfter, RenderItem, Carries;
    var h := HeadOf(format, data);
    if h.PadHead? {
      items, rest := ValidatorBreaks(format, data[1..], offset + 1, count, error);
      PadRenders(format, data);
      BreaksLater(format, Pad, data[1..], items, rest, offset, count, error);
      items := [Pad] + items;
    } else if h.ElementHead? && |data| - h.skip >= h.length && count < 256 {
      var element := ElementFound(format, data);
      var size := |RenderItem(format, Item(element))|;
      assert data == data[..size] + data[size..];
      items, rest := ValidatorBreaks(format, data[size..], offset + size, count + 1, error);
      BreaksLater(format, Item(element), data[size..], items, rest, offset, count, error);
      items := [Item(element)] + items;
    } else {
      items, rest := [], data;
      BreaksNow(format, data, offset, count, error);
    }
  }

  lemma PadRenders(format: Format, data: Bytes)
    requires data != [] && data[0] == 0
    ensures Carries(format, Pad) && RenderItem(format, Pad) == [0] && data == RenderItem(format, Pad) + data[1..]
  {
  }

  lemma BreaksNow(format: Format, data: Bytes, offset: nat, count: nat, error: Error)
    requires !format.Opaque? && count <= 256 && Validate(format, data, offset, count) == Err(error)
    requires var h := HeadOf(format, data);
             !h.PadHead? && (h.ElementHead? ==> |data| - h.skip < h.length || count == 256)
    ensures BreaksAfter(format, data, [], data, offset, count, error)
  {
    assert Render(format, []) + data == data;
  }

  lemma BrokenFails(format: Format, rest: Bytes, offset: nat, count: nat, error: Error)
    requires !format.Opaque? && count <= 256 && Broken(format, rest, offset, count, error)
    ensures Validate(format, rest, offset, count) == Err(error)
  {
  }

  /** The validator gets past an item. */
  lemma ItemPasses(format: Format, item: Item, more: Bytes, offset: nat, count: nat)
    requires !format.Opaque? && Carries(format, item) && count + Weight(item) <= 256
    ensures Validate(format, RenderItem(format, item) + more, offset, count) ==
            Validate(format, more, offset + |RenderItem(format, item)|, count + Weight(item))
  {
    var data := RenderItem(format, item) + more;
    if item.Pad? {
      assert data[1..] == more;
    } else {
      HeadOfRendered(format, item.element, more);
    }
  }

  lemma {:induction false} BreaksFail(
    format: Format, data: Bytes, items: seq<Item>, rest: Bytes, offset: nat, count: nat, error: Error)
    requires !format.Opaque? && count <= 256 && BreaksAfter(format, data, items, rest, offset, count, error)
    ensures Validate(format, data, offset, count) == Err(error)
    decreases |items|
  {
    hide RenderItem, Broken, Carries, Validate;
    if items == [] {
      assert data == rest;
      BrokenFails(format, rest, offset, count, error);
    } else {
      var item, later := items[0], items[1..];
      assert items == [item] + later;
      FirstItemFirst(format, item, later, rest);
      var more := Render(format, later) + rest;
      BreaksLater(format, item, more, later, rest, offset, count, error);
      BreaksFail(format, more, later, rest, offset + |RenderItem(format, item)|, count + Weight(item), error);
      ItemPasses(format, item, more, offset, count);
    }
  }

  ghost predicate BrokenLayout(format: Format, data: Bytes, error: Error) {
    exists items, rest :: BreaksAfter(format, data, items, rest, 0, 0, error)
  }

  /** The validators fail exactly for the first thing after well-formed items that is not one. */
  lemma ValidatorFailsExactly(format: Format, data: Bytes, error: Error)
    requires !format.Opaque?
    ensures Validate(format, data, 0, 0) == Err(error) <==> BrokenLayout(format, data, error)
  {
    if Validate(format, data, 0, 0) == Err(error) {
      var items, rest := ValidatorBreaks(format, data, 0, 0, error);
    }
    if BrokenLayout(format, data, error) {
      var items, rest :| BreaksAfter(format, data, items, rest, 0, 0, error);
      BreaksFail(format, data, items, rest, 0, 0, error);
    }
  }

  // ---------------------------------------------------------------------------
  // The iterator on any data
  // ---------------------------------------------------------------------------

  /** Nothing more is read: the end, the reserved identifier, or half a two-byte header. */
  predicate Stops(format: Format, rest: Bytes) {
    rest == [] || (rest[0] != 0 && if format.OneByte? then rest[0] / 16 == 15 else |rest| == 1)
  }

  /** An element that is longer than what is left. */
  predicate Overruns(format: Format, rest: Bytes) {
    && rest != [] && rest[0] != 0
    && if format.OneByte? then rest[0] / 16 != 15 && |rest| - 1 < rest[0] % 16 + 1
       else |rest| >= 2 && |rest| - 2 < rest[1]
  }

  /** `data` is these items and then `rest`. */
  predicate Leads(format: Format, data: Bytes, items: seq<Item>, rest: Bytes) {
    AllCarried(format, items) && data == Render(format, items) + rest
  }

  lemma ItemIterates(format: Format, item: Item, more: Bytes)
    requires !format.Opaque? && Carries(format, item)
    ensures Iterate(format, RenderItem(format, item) + more) ==
            if item.Pad? then Iterate(format, more) else Before(item.element, Iterate(format, more))
  {
    var data := RenderItem(format, item) + more;
    if item.Pad? {
      assert data[1..] == more;
      PadIterates(format, data);
    } else {
      ElementIterates(format, data, item.element, more);
    }
  }

  lemma {:induction false} LeadingItemsIterate(format: Format, data: Bytes, items: seq<Item>, rest: Bytes)
    requires !format.Opaque? && Leads(format, data, items, rest) && (Stops(format, rest) || Overruns(format, rest))
    ensures Iterate(format, data) == if Stops(format, rest) then Some(ElementsOf(items)) else None
    decreases |items|
  {
    if items == [] {
      assert data == rest;
    } else {
      var item, later := items[0], items[1..];
      assert items == [item] + later;
      FirstItemFirst(format, item, later, rest);
      var more := Render(format, later) + rest;
      LeadingItemsIterate(format, more, later, rest);
      ItemIterates(format, item, more);
    }
  }

  lemma {:induction false} ItemsLead(format: Format, data: Bytes) returns (items: seq<Item>, rest: Bytes)
    requires !format.Opaque?
    ensures Leads(format, data, items, rest) && (Stops(format, rest) || Overruns(format, rest))
    decreases |data|
  {
    hide RenderItem, Carries;
    if Stops(format, data) || Overruns(format, data) {
      items, rest := [], data;
      assert Render(format, []) + data == data;
    } else if data[0] == 0 {
      PadRenders(format, data);
      items, rest := ItemsLead(format, data[1..]);
      FirstItemFirst(format, Pad, items, rest);
      items := [Pad] + items;
    } else {
      var element := ElementFound(format, data);
      var size := |RenderItem(format, Item(element))|;
      assert data == data[..size] + data[size..];
      items, rest := ItemsLead(format, data[size..]);
      FirstItemFirst(format, Item(element), items, rest);
      items := [Item(element)] + items;
    }
  }

  ghost predicate YieldsAll(format: Format, data: Bytes, elements: seq<Element>) {
    exists items, rest :: Leads(format, data, items, rest) && Stops(format, rest) && ElementsOf(items) == elements
  }

  ghost predicate RunsOver(format: Format, data: Bytes) {
    exists items, rest :: Leads(format, data, items, rest) && Overruns(format, rest)
  }

  /** On any data the iterator yields the elements of its leading items, or splits out of range. */
  lemma IteratesExactly(format: Format, data: Bytes, elements: seq<Element>)
    requires !format.Opaque?
    ensures Iterate(format, data) == Some(elements) <==> YieldsAll(format, data, elements)
    ensures Iterate(format, data).None? <==> RunsOver(format, data)
  {
    hide Leads, Iterate, Stops, Overruns;
    var items, rest := ItemsLead(format, data);
    LeadingItemsIterate(format, data, items, rest);
    if YieldsAll(format, data, elements) {
      var some, left :| Leads(format, data, some, left) && Stops(format, left) && ElementsOf(some) == elements;
      LeadingItemsIterate(format, data, some, left);
    }
    if RunsOver(format, data) {
      var some, left :| Leads(format, data, some, left) && Overruns(format, left);
      NotBoth(format, left);
      LeadingItemsIterate(format, data, some, left);
    }
  }

  lemma NotBoth(format: Format, rest: Bytes)
    requires Overruns(format, rest)
    ensures !Stops(format, rest)
  {
  }

  // ---------------------------------------------------------------------------
  // The block
  // ---------------------------------------------------------------------------

  /** Two bytes, the high one first. */
  function Word(high: nat, low: nat): nat { 256 * high + low }

  /** Section 5.3.1 of RFC 3550: a profile and the data's length in 32-bit words. */
  predicate Preamble(input: Bytes, profile: nat, length: nat) {
    |input| >= 4 && profile == Word(input[0], input[1]) && length == 4 * Word(input[2], input[3])
  }

  predicate Wellformed(format: Format, data: Bytes, count: nat) {
    if format.Opaque? then count == 0 else Validate(format, data, 0, 0) == Ok(count)
  }

  /** A block is accepted exactly when it is a preamble and as much data as that says, well formed for the profile. */
  lemma ParsesExactly(input: Bytes, e: Extension, consumed: nat)
    ensures Parse(input) == Ok((e, consumed)) <==>
              && Preamble(input, e.profile, |e.data|) && consumed == 4 + |e.data| <= |input|
              && |e.data| <= 16 * 1024 && e.data == input[4..consumed]
              && Wellformed(FormatFor(e.profile), e.data, e.elementCount)
  {
  }

  /** And refused exactly for what is missing, too large or broken. */
  lemma ParseFailsExactly(input: Bytes, error: Error)
    ensures Parse(input) == Err(error) <==>
              if |input| < 4 then error == Truncated(4, |input|)
              else
                var length := 4 * Word(input[2], input[3]);
                if length > 16 * 1024 then error == DataTooLarge(length)
                else if |input| < 4 + length then error == Truncated(4 + length, |input|)
                else
                  var format := FormatFor(Word(input[0], input[1]));
                  !format.Opaque? && BrokenLayout(format, input[4..4 + length], error)
  {
    hide BrokenLayout, Validate;
    if |input| >= 4 {
      var length := 4 * Word(input[2], input[3]);
      var format := FormatFor(Word(input[0], input[1]));
      if |input| >= 4 + length && !format.Opaque? {
        ValidatorFailsExactly(format, input[4..4 + length], error);
      }
    }
  }

  /** Section 4 of RFC 8285: one profile for one-byte headers, sixteen for two-byte headers. */
  lemma ProfilesAre(profile: nat)
    ensures FormatFor(profile) == OneByte <==> profile == 0xBEDE
    ensures FormatFor(profile).TwoByte? <==> 0x1000 <= profile <= 0x100F
    ensures FormatFor(profile).TwoByte? ==> FormatFor(profile).appBits == profile - 0x1000
  {
  }

  /** The opaque constructor takes aligned data within the bound for any other profile. */
  lemma OpaqueExactly(profile: nat, data: Bytes)
    ensures OpaqueExtension(profile, data).Ok? <==>
              FormatFor(profile).Opaque? && |data| <= 16 * 1024 && |data| % 4 == 0
    ensures OpaqueExtension(profile, data).Ok? ==> OpaqueExtension(profile, data).value == Extension(profile, data, 0)
    ensures OpaqueExtension(profile, data) == Err(StructuredProfileRequiresParsing(profile)) <==>
              !FormatFor(profile).Opaque?
    ensures OpaqueExtension(profile, data) == Err(DataTooLarge(|data|)) <==>
              FormatFor(profile).Opaque? && |data| > 16 * 1024
  {
  }
}

/** The two tag-length-value lists of the protocol: additional location items (server/src/protocol/location.js, a
    one-byte ID) and terminal parameters (server/src/protocol/messages.js, a four-byte ID). */
module Tlv {
  import opened Bytes

  datatype Kind = LocationItem | Parameter

  datatype Item = Item(id: nat, value: seq<byte>)

  function HeadLength(kind: Kind): nat
  {
    if kind == LocationItem then 2 else 5
  }

  predicate ValidId(kind: Kind, id: nat)
  {
    id < if kind == LocationItem then 0x100 else 0x1_0000_0000
  }

  function IdBytes(kind: Kind, id: nat): seq<byte>
    requires ValidId(kind, id)
  {
    if kind == LocationItem then [id] else DwordBytes(id)
  }

  function ReadId(kind: Kind, buf: seq<byte>): nat
    requires |buf| >= HeadLength(kind)
  {
    if kind == LocationItem then buf[0] else ReadDword(buf, 0)
  }

  /** One item; the length is written into a single byte, which keeps only its low eight bits. */
  function ItemBytes(kind: Kind, item: Item): seq<byte>
    requires ValidId(kind, item.id)
  {
    IdBytes(kind, item.id) + [|item.value| % 0x100] + item.value
  }

  predicate ValidIds(kind: Kind, items: seq<Item>)
  {
    forall i :: 0 <= i < |items| ==> ValidId(kind, items[i].id)
  }

  function ListBytes(kind: Kind, items: seq<Item>): seq<byte>
    requires ValidIds(kind, items)
  {
    if items == [] then [] else ItemBytes(kind, items[0]) + ListBytes(kind, items[1..])
  }

  /** The complete items of a buffer and the tail that holds no complete item. */
  datatype Parsed = Parsed(items: seq<Item>, tail: seq<byte>)

  /** Whether the buffer starts with a complete item. */
  predicate Complete(kind: Kind, buf: seq<byte>)
  {
    |buf| >= HeadLength(kind) && |buf| >= HeadLength(kind) + buf[HeadLength(kind) - 1]
  }

  function FirstLength(kind: Kind, buf: seq<byte>): (n: nat)
    requires Complete(kind, buf)
    ensures 2 <= n <= |buf|
  {
    HeadLength(kind) + buf[HeadLength(kind) - 1]
  }

  function FirstItem(kind: Kind, buf: seq<byte>): Item
    requires Complete(kind, buf)
  {
    Item(ReadId(kind, buf), buf[HeadLength(kind)..FirstLength(kind, buf)])
  }

  function Parse(kind: Kind, buf: seq<byte>): Parsed
    decreases |buf|
  {
    if !Complete(kind, buf) then Parsed([], buf)
    else
      var rest := Parse(kind, buf[FirstLength(kind, buf)..]);
      Parsed([FirstItem(kind, buf)] + rest.items, rest.tail)
  }

  // ---------- the loops of the source ----------

  /** The error decodeAdditionalItems and decodeParamList record for a tail. */
  datatype TailError = TruncatedHead(offset: nat) | TruncatedValue(id: nat, declared: nat, left: nat)

  function TailErrors(kind: Kind, buf: seq<byte>, tail: seq<byte>): seq<TailError>
    requires |tail| <= |buf|
  {
    if tail == [] then []
    else if |tail| < HeadLength(kind) then [TruncatedHead(|buf| - |tail|)]
    else [TruncatedValue(ReadId(kind, tail), tail[HeadLength(kind) - 1], |tail| - HeadLength(kind))]
  }

  lemma {:induction false} TailIsShort(kind: Kind, buf: seq<byte>)
    ensures |Parse(kind, buf).tail| <= |buf|
    ensures !Complete(kind, Parse(kind, buf).tail)
    decreases |buf|
  {
    if Complete(kind, buf) {
      TailIsShort(kind, buf[FirstLength(kind, buf)..]);
    }
  }

  /** The shared loop: reads items until the end or the first incomplete one. */
  method DecodeList(kind: Kind, buf: seq<byte>) returns (items: seq<Item>, errors: seq<TailError>)
    ensures items == Parse(kind, buf).items
    ensures |Parse(kind, buf).tail| <= |buf|
    ensures errors == TailErrors(kind, buf, Parse(kind, buf).tail)
  {
    hide ReadId, Parse;
    items, errors := [], [];
    var i, head := 0, HeadLength(kind);
    assert buf[0..] == buf;
    while i < |buf|
      invariant 0 <= i <= |buf|
      invariant Ahead(kind, items, buf[i..]) == Parse(kind, buf)
    {
      ghost var rest := buf[i..];
      ParseStops(kind, items, rest);
      if i + head > |buf| {
        errors := [TruncatedHead(i)];
        return;
      }
      var id, len := ReadId(kind, buf[i..]), buf[i + head - 1];
      assert rest[head - 1] == len;
      if i + head + len > |buf| {
        errors := [TruncatedValue(id, len, |buf| - i - head)];
        return;
      }
      var value := buf[i + head..i + head + len];
      ParseNext(kind, items, rest);
      SliceOfTail(buf, i, head, head + len);
      assert FirstItem(kind, rest) == Item(id, value);
      items := items + [Item(id, value)];
      i := i + head + len;
    }
    ParseStops(kind, items, buf[i..]);
  }

  lemma SliceOfTail(buf: seq<byte>, i: nat, j: nat, k: nat)
    requires j <= k && i + k <= |buf|
    ensures buf[i..][j..k] == buf[i + j..i + k] && buf[i..][k..] == buf[i + k..]
  {
  }

  /** Items read so far in front of what the rest of the buffer parses to. */
  function Ahead(kind: Kind, items: seq<Item>, rest: seq<byte>): Parsed
  {
    Parsed(items + Parse(kind, rest).items, Parse(kind, rest).tail)
  }

  lemma ParseStops(kind: Kind, items: seq<Item>, rest: seq<byte>)
    ensures !Complete(kind, rest) ==> Ahead(kind, items, rest) == Parsed(items, rest)
  {
    assert items + [] == items;
  }

  lemma ParseNext(kind: Kind, items: seq<Item>, rest: seq<byte>)
    requires Complete(kind, rest)
    ensures Ahead(kind, items, rest) == Ahead(kind, items + [FirstItem(kind, rest)], rest[FirstLength(kind, rest)..])
  {
    var more := Parse(kind, rest[FirstLength(kind, rest)..]).items;
    assert items + ([FirstItem(kind, rest)] + more) == items + [FirstItem(kind, rest)] + more;
  }

  /** encodeSetParams after its count byte, and the item part of encodeLocationReport. */
  method EncodeList(kind: Kind, items: seq<Item>) returns (out: seq<byte>)
    requires ValidIds(kind, items)
    ensures out == ListBytes(kind, items)
  {
    out := [];
    for i := 0 to |items|
      invariant out == ListBytes(kind, items[..i])
    {
      ListAppend(kind, items[..i], items[i]);
      assert items[..i + 1] == items[..i] + [items[i]];
      out := out + ItemBytes(kind, items[i]);
    }
    assert items[..|items|] == items;
  }

  lemma {:induction false} ListAppend(kind: Kind, items: seq<Item>, last: Item)
    requires ValidIds(kind, items + [last])
    ensures ValidIds(kind, items) && ValidId(kind, last.id)
    ensures ListBytes(kind, items + [last]) == ListBytes(kind, items) + ItemBytes(kind, last)
  {
    var all := items + [last];
    assert forall i :: 0 <= i < |items| ==> items[i] == all[i];
    assert all[|items|] == last;
    if items == [] {
      assert all[1..] == [];
    } else {
      assert all[1..] == items[1..] + [last];
      ListAppend(kind, items[1..], last);
    }
  }

  // ---------- totality and round trip ----------

  lemma ItemRebuilt(kind: Kind, buf: seq<byte>)
    requires Complete(kind, buf)
    ensures
      var item := FirstItem(kind, buf);
      ValidId(kind, item.id) && |item.value| <= 0xff && ItemBytes(kind, item) == buf[..FirstLength(kind, buf)]
  {
    var h := HeadLength(kind);
    var n := FirstLength(kind, buf);
    assert buf[..n] == buf[..h - 1] + [buf[h - 1]] + buf[h..n];
    if kind == Parameter {
      WordRoundTrip(0, buf[0..2]);
      WordRoundTrip(0, buf[2..4]);
      assert buf[..4] == buf[0..2] + buf[2..4];
      var d := ReadDword(buf, 0);
      assert d / 0x1_0000 == ReadWord(buf, 0) && d % 0x1_0000 == ReadWord(buf, 2);
      assert DwordBytes(d) == buf[..4];
    } else {
      assert buf[..1] == [buf[0]];
    }
  }

  lemma ListCons(kind: Kind, first: Item, items: seq<Item>)
    requires ValidId(kind, first.id) && ValidIds(kind, items)
    ensures ValidIds(kind, [first] + items)
    ensures ListBytes(kind, [first] + items) == ItemBytes(kind, first) + ListBytes(kind, items)
  {
    assert ([first] + items)[1..] == items;
  }

  lemma {:induction false} ItemsValid(kind: Kind, buf: seq<byte>)
    ensures ValidIds(kind, Parse(kind, buf).items)
    ensures forall i :: 0 <= i < |Parse(kind, buf).items| ==> |Parse(kind, buf).items[i].value| <= 0xff
    decreases |buf|
  {
    if Complete(kind, buf) {
      hide ReadId, ItemBytes, FirstItem, FirstLength;
      ItemRebuilt(kind, buf);
      ItemsValid(kind, buf[FirstLength(kind, buf)..]);
    }
  }

  lemma ParseUnfolds(kind: Kind, buf: seq<byte>)
    ensures !Complete(kind, buf) ==> Parse(kind, buf) == Parsed([], buf)
    ensures Complete(kind, buf) ==>
              var rest := Parse(kind, buf[FirstLength(kind, buf)..]);
              Parse(kind, buf) == Parsed([FirstItem(kind, buf)] + rest.items, rest.tail)
  {
  }

  lemma {:induction false} ItemsRebuild(kind: Kind, buf: seq<byte>)
    requires ValidIds(kind, Parse(kind, buf).items)
    ensures ListBytes(kind, Parse(kind, buf).items) + Parse(kind, buf).tail == buf
    decreases |buf|
  {
    hide Parse, ReadId, ItemBytes, FirstItem, FirstLength, ValidId, Complete;
    ParseUnfolds(kind, buf);
    if Complete(kind, buf) {
      var n := FirstLength(kind, buf);
      var first, rest := FirstItem(kind, buf), Parse(kind, buf[n..]);
      ItemRebuilt(kind, buf);
      ItemsValid(kind, buf[n..]);
      ItemsRebuild(kind, buf[n..]);
      ListCons(kind, first, rest.items);
      hide ListBytes, ValidIds;
      Reassociate(buf[..n], ListBytes(kind, rest.items), rest.tail, buf[n..]);
      assert buf == buf[..n] + buf[n..];
    } else {
      assert [] + buf == buf;
    }
  }

  lemma Reassociate(a: seq<byte>, b: seq<byte>, c: seq<byte>, d: seq<byte>)
    requires b + c == d
    ensures a + b + c == a + d
  {
    assert a + b + c == a + (b + c);
  }

  /** Parsing loses nothing: the complete items, written back, and the tail are the buffer; an error is reported
      exactly when the tail is not empty. */
  lemma ParseRebuilds(kind: Kind, buf: seq<byte>)
    ensures
      var p := Parse(kind, buf);
      && ValidIds(kind, p.items)
      && (forall i :: 0 <= i < |p.items| ==> |p.items[i].value| <= 0xff)
      && ListBytes(kind, p.items) + p.tail == buf
      && |p.tail| <= |buf| && (TailErrors(kind, buf, p.tail) != [] <==> p.tail != [])
  {
    hide Parse, ListBytes;
    TailIsShort(kind, buf);
    ItemsValid(kind, buf);
    ItemsRebuild(kind, buf);
  }

  lemma IdRoundTrip(kind: Kind, id: nat, rest: seq<byte>)
    requires ValidId(kind, id)
    ensures
      var buf := IdBytes(kind, id) + rest;
      |buf| >= HeadLength(kind) ==> ReadId(kind, buf) == id
  {
    if kind == Parameter {
      DwordRoundTrip(id);
      var b, buf := DwordBytes(id), DwordBytes(id) + rest;
      assert buf[0] == b[0] && buf[1] == b[1] && buf[2] == b[2] && buf[3] == b[3];
    }
  }

  lemma FirstOfEncoded(kind: Kind, item: Item, rest: seq<byte>)
    requires ValidId(kind, item.id)
    ensures
      var buf := ItemBytes(kind, item) + rest;
      && Complete(kind, buf) && FirstLength(kind, buf) == HeadLength(kind) + |item.value| % 0x100
      && (FirstItem(kind, buf) == item <==> |item.value| <= 0xff)
      && (|item.value| <= 0xff ==> buf[FirstLength(kind, buf)..] == rest)
  {
    var h := HeadLength(kind);
    var buf := ItemBytes(kind, item) + rest;
    assert buf == IdBytes(kind, item.id) + ([|item.value| % 0x100] + item.value + rest);
    IdRoundTrip(kind, item.id, [|item.value| % 0x100] + item.value + rest);
    assert buf[h - 1] == |item.value| % 0x100;
    assert buf[h..h + |item.value|] == item.value;
  }

  lemma ParsedFirst(kind: Kind, item: Item, rest: seq<byte>)
    requires ValidId(kind, item.id)
    ensures |item.value| <= 0xff ==>
        Parse(kind, ItemBytes(kind, item) + rest) == Parsed([item] + Parse(kind, rest).items, Parse(kind, rest).tail)
    ensures |item.value| > 0xff ==>
              var p := Parse(kind, ItemBytes(kind, item) + rest); p.items != [] && p.items[0] != item
  {
    hide Parse, ItemBytes, FirstItem, FirstLength, Complete;
    FirstOfEncoded(kind, item, rest);
    ParseUnfolds(kind, ItemBytes(kind, item) + rest);
  }

  lemma ShortValues(items: seq<Item>)
    requires items != []
    ensures AllShort(items) <==> |items[0].value| <= 0xff && AllShort(items[1..])
  {
    assert forall i :: 0 < i < |items| ==> items[i] == items[1..][i - 1];
  }

  lemma ConsEqual(first: Item, a: seq<Item>, b: seq<Item>)
    ensures [first] + a == [first] + b <==> a == b
  {
    assert ([first] + a)[1..] == a && ([first] + b)[1..] == b;
  }

  predicate AllShort(items: seq<Item>)
  {
    forall i :: 0 <= i < |items| ==> |items[i].value| <= 0xff
  }

  lemma ListStep(kind: Kind, item: Item, items: seq<Item>, rest: seq<byte>)
    requires ValidId(kind, item.id)
    ensures Parse(kind, ItemBytes(kind, item) + rest) == Parsed([item] + items, [])
       <==> |item.value| <= 0xff && Parse(kind, rest) == Parsed(items, [])
  {
    hide Parse, ItemBytes;
    ParsedFirst(kind, item, rest);
    ConsEqual(item, Parse(kind, rest).items, items);
  }

  /** A list of items comes back whole, with no tail, exactly when every value fits its length byte. */
  lemma {:induction false} ListRoundTrip(kind: Kind, items: seq<Item>)
    requires ValidIds(kind, items)
    ensures Parse(kind, ListBytes(kind, items)) == Parsed(items, []) <==> AllShort(items)
  {
    if items != [] {
      ShortValues(items);
      assert ListBytes(kind, items) == ItemBytes(kind, items[0]) + ListBytes(kind, items[1..]);
      hide Parse, ItemBytes, ListBytes, AllShort;
      ListRoundTrip(kind, items[1..]);
      ListStep(kind, items[0], items[1..], ListBytes(kind, items[1..]));
      assert items == [items[0]] + items[1..];
    }
  }

  // ---------- parameter lists ----------

  /** encodeSetParams: a count byte, then the parameters. */
  function SetParamsBytes(items: seq<Item>): seq<byte>
    requires ValidIds(Parameter, items)
  {
    [|items| % 0x100] + ListBytes(Parameter, items)
  }

  datatype ParamList = ParamList(params: seq<Item>, errors: seq<TailError>, countMatches: bool)

  /** decodeSetParams. */
  function DecodeSetParams(body: seq<byte>): Result<ParamList>
  {
    if body == [] then Err("Empty set-parameters body")
    else
      var p := Parse(Parameter, body[1..]);
      TailIsShort(Parameter, body[1..]);
      Ok(ParamList(p.items, TailErrors(Parameter, body[1..], p.tail), body[0] == |p.items|))
  }

  lemma SetParamsAre(body: seq<byte>)
    requires body != []
    ensures
      var p := Parse(Parameter, body[1..]);
      |p.tail| < |body|
        && DecodeSetParams(body)
            == Ok(ParamList(p.items, TailErrors(Parameter, body[1..], p.tail), body[0] == |p.items|))
  {
    TailIsShort(Parameter, body[1..]);
  }

  lemma SetParamsBody(items: seq<Item>)
    requires ValidIds(Parameter, items)
    ensures
      var body := SetParamsBytes(items);
      |body| > 0 && body[0] == |items| % 0x100 && body[1..] == ListBytes(Parameter, items)
  {
    hide ListBytes;
  }

  /** Parameters are recovered without any error exactly when there are at most 255 of them, each of at most 255
      bytes. */
  lemma SetParamsRoundTrip(items: seq<Item>)
    requires ValidIds(Parameter, items)
    ensures DecodeSetParams(SetParamsBytes(items)) == Ok(ParamList(items, [], true))
        <==> |items| <= 0xff && AllShort(items)
  {
    hide *;
    var body := SetParamsBytes(items);
    SetParamsBody(items);
    SetParamsAre(body);
    ListRoundTrip(Parameter, items);
    ParseRebuilds(Parameter, body[1..]);
  }
}

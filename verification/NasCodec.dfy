/** NAS messages with optional information elements, for any table of elements in the style of the messages. */
module NasCodec {
  import opened Wrappers
  import opened Bytes

  /** The element formats of section 11.2.1.1 of TS 24.007, as they follow the type octet; the struct of an element
      with an 8-bit length has room for some octets only. */
  datatype Format = Fixed(size: nat) | Length8(capacity: nat) | Length16 | Half

  datatype Ie = Ie(tag: Byte, format: Format)

  /** The value part of an element; of a half-octet element, the whole octet. */
  type Content = seq<Byte>

  /** The optional fields of a message: a field is there if its presence bit is set. */
  type Fields = seq<Option<Content>>

  /** What the decoding loop takes for the type: of octets from 0x80 on, the upper half only. */
  function Mask(b: Byte): Byte {
    if b >= 0x80 then b / 16 * 16 else b
  }

  /** The types can be told apart. */
  ghost predicate TableOk(table: seq<Ie>) {
    && (forall i :: 0 <= i < |table| ==>
          Mask(table[i].tag) == table[i].tag && (table[i].format.Half? ==> table[i].tag >= 0x80))
    && forall i, j :: 0 <= i < j < |table| ==> table[i].tag != table[j].tag
  }

  // ---- encoding

  predicate ContentOk(f: Format, c: Content) {
    match f
    case Fixed(size) => |c| == size
    case Length8(capacity) => |c| <= capacity && |c| < 0x100
    case Length16 => |c| < 0x1_0000
    case Half => |c| == 1
  }

  ghost predicate FieldsOk(table: seq<Ie>, fields: Fields) {
    |fields| == |table| &&
    forall i :: 0 <= i < |table| && fields[i].Some? ==> ContentOk(table[i].format, fields[i].value)
  }

  /** The octets of an element; a half-octet element carries its type in the upper half. */
  function EncodeIe(ie: Ie, c: Content): (bytes: seq<Byte>)
    requires ContentOk(ie.format, c)
    ensures |bytes| > 0
  {
    match ie.format
    case Fixed(_) => [ie.tag] + c
    case Length8(_) => [ie.tag] + [|c|] + c
    case Length16 => [ie.tag] + BigEndian(|c|, 2) + c
    case Half => [ie.tag / 16 * 16 + c[0] % 16]
  }

  function EncodeField(ie: Ie, field: Option<Content>): seq<Byte>
    requires field.Some? ==> ContentOk(ie.format, field.value)
  {
    if field.Some? then EncodeIe(ie, field.value) else []
  }

  /** The present fields from number `i` on, in the order of the table. */
  function EncodeFrom(table: seq<Ie>, fields: Fields, i: nat): seq<Byte>
    requires FieldsOk(table, fields) && i <= |table|
    decreases |table| - i
  {
    if i == |table| then [] else EncodeField(table[i], fields[i]) + EncodeFrom(table, fields, i + 1)
  }

  /** The octets of an element, by its format. */
  lemma IeOctets(ie: Ie, c: Content)
    requires ContentOk(ie.format, c)
    ensures match ie.format
      case Fixed(size) => |c| == size && EncodeIe(ie, c) == [ie.tag] + c
      case Length8(_) => |c| < 256 && EncodeIe(ie, c) == [ie.tag, |c|] + c
      case Length16 => |c| < 0x1_0000 && EncodeIe(ie, c) == [ie.tag, |c| / 256, |c| % 256] + c
      case Half => |c| == 1 && EncodeIe(ie, c) == [ie.tag / 16 * 16 + c[0] % 16]
  {
    hide BigEndian;
    TwoOctets(|c|);
  }

  /** The type the decoder looks for: of octets from 0x80 on the lower half does not count. */
  lemma TypeOf(b: Byte)
    ensures b < 0x80 ==> Mask(b) == b
    ensures b >= 0x80 ==> Mask(b) == b - b % 16
  {
  }

  // ---- decoding

  /** An octet at the cursor or behind it; what is left of the packet may end before it. */
  function Peek(bytes: seq<Byte>, after: seq<Byte>, i: nat): Byte {
    if i < |bytes| then bytes[i] else if i - |bytes| < |after| then after[i - |bytes|] else 0
  }

  /** How reading an element ends: an assertion fails; or it is copied past the end of its struct; or it is taken. */
  datatype Attempt<+T> = Failed | Spilled | Took(value: T)
  {
    predicate IsFailure() {
      !Took?
    }

    function PropagateFailure<U>(): Attempt<U>
      requires !Took?
    {
      if Failed? then Failed else Spilled
    }

    function Extract(): T
      requires Took?
    {
      value
    }
  }

  /** A content, and how far the cursor moved. */
  datatype Taken = Taken(content: Content, size: nat)

  /** Where the element takes more octets than are left, an assertion fails; sizes are kept in 16 bits. */
  function DecodeContent(f: Format, prev: Byte, bytes: seq<Byte>, after: seq<Byte>): (t: Attempt<Taken>)
    ensures t.Took? ==> t.value.size <= |bytes|
  {
    match f
    case Fixed(size) => if size <= |bytes| then Took(Taken(bytes[..size], size)) else Failed
    case Length8(capacity) =>
      var length := Peek(bytes, after, 0);
      if 1 + length > |bytes| then Failed
      else if length > capacity then Spilled
      else Took(Taken(bytes[1..1 + length], 1 + length))
    case Length16 =>
      var length := LengthAt(bytes, after);
      var size := (length + 2) % 0x1_0000;
      if size <= |bytes| then Took(Taken(PeekMany(bytes, after, length), size)) else Failed
    case Half => Took(Taken([prev], 0))
  }

  /** `n` octets behind a 16-bit length field. */
  function PeekMany(bytes: seq<Byte>, after: seq<Byte>, n: nat): (r: seq<Byte>)
    ensures |r| == n
  {
    seq(n, i requires 0 <= i => Peek(bytes, after, 2 + i))
  }

  function LengthAt(bytes: seq<Byte>, after: seq<Byte>): nat {
    var high: nat := Peek(bytes, after, 0);
    high * 256 + Peek(bytes, after, 1)
  }

  /** The element with a type, by its number. */
  function Find(table: seq<Ie>, tag: Byte): (k: nat)
    ensures k <= |table|
    ensures k < |table| ==> table[k].tag == tag
  {
    if table == [] then 0 else if table[0].tag == tag then 0 else 1 + Find(table[1..], tag)
  }

  /** What one type octet and its element do; a type that is not known is skipped alone. */
  datatype Next = Next(size: nat, fields: Fields)

  function DecodeNext(table: seq<Ie>, prev: Byte, bytes: seq<Byte>, after: seq<Byte>, fields: Fields): (n: Attempt<Next>)
    requires |fields| == |table|
    ensures n.Took? ==> n.value.size <= |bytes| && |n.value.fields| == |table|
  {
    var k := Find(table, Mask(prev));
    if k == |table| then Took(Next(0, fields))
    else
      var t :- DecodeContent(table[k].format, prev, bytes, after);
      Took(Next(t.size, fields[k := Some(t.content)]))
  }

  /** The loop over the optional elements. */
  function DecodeAll(table: seq<Ie>, bytes: seq<Byte>, after: seq<Byte>, fields: Fields): (d: Attempt<Fields>)
    requires |fields| == |table|
    ensures d.Took? ==> |d.value| == |table|
    decreases |bytes|
  {
    if bytes == [] then Took(fields)
    else
      var n :- DecodeNext(table, bytes[0], bytes[1..], after, fields);
      DecodeAll(table, bytes[1..][n.size..], after, n.fields)
  }

  lemma DecodeAllStep(table: seq<Ie>, bytes: seq<Byte>, after: seq<Byte>, fields: Fields)
    requires |fields| == |table| && bytes != []
    ensures DecodeAll(table, bytes, after, fields) ==
      var n := DecodeNext(table, bytes[0], bytes[1..], after, fields);
      if !n.Took? then n.PropagateFailure<Fields>() else DecodeAll(table, bytes[1..][n.value.size..], after, n.value.fields)
  {
    hide DecodeNext;
  }

  // ---- the round trip

  /** What encoding makes of a content: a half-octet element takes on its type. */
  function Stamped(ie: Ie, c: Content): Content
    requires ContentOk(ie.format, c)
  {
    if ie.format.Half? then [ie.tag / 16 * 16 + c[0] % 16] else c
  }

  function StampedField(ie: Ie, field: Option<Content>): Option<Content>
    requires field.Some? ==> ContentOk(ie.format, field.value)
  {
    if field.Some? then Some(Stamped(ie, field.value)) else None
  }

  function StampedFrom(table: seq<Ie>, fields: Fields, i: nat): (r: Fields)
    requires FieldsOk(table, fields) && i <= |table|
    ensures |r| == |table| - i
    decreases |table| - i
  {
    if i == |table| then [] else [StampedField(table[i], fields[i])] + StampedFrom(table, fields, i + 1)
  }

  /** The lengths stay where a 16-bit size does not wrap. */
  ghost predicate Short(table: seq<Ie>, fields: Fields)
    requires |fields| == |table|
  {
    forall i :: 0 <= i < |table| && fields[i].Some? && table[i].format.Length16? ==> |fields[i].value| < 0xFFFE
  }

  lemma {:induction false} FindTag(table: seq<Ie>, i: nat)
    requires i < |table| && forall j :: 0 <= j < i ==> table[j].tag != table[i].tag
    ensures Find(table, table[i].tag) == i
  {
    if i > 0 {
      assert table[i].tag == table[1..][i - 1].tag;
      assert forall j :: 0 <= j < i - 1 ==> table[1..][j] == table[j + 1];
      FindTag(table[1..], i - 1);
    }
  }

  lemma Pieces(a: seq<Byte>, h: seq<Byte>, c: seq<Byte>, rest: seq<Byte>)
    ensures a + h + c + rest == a + (h + c + rest)
    ensures var body := h + c + rest;
      body[..|h|] == h && body[|h|..|h| + |c|] == c && body[|h| + |c|..] == rest
    ensures (a + (h + c + rest))[|a| + |h| + |c|..] == rest
  {
  }

  lemma BodyOf(tag: Byte, body: seq<Byte>, n: nat)
    requires n <= |body|
    ensures ([tag] + body)[1..] == body && ([tag] + body)[1 + n..] == body[n..]
  {
  }

  lemma PeekInside(bytes: seq<Byte>, after: seq<Byte>, n: nat)
    requires 2 + n <= |bytes|
    ensures PeekMany(bytes, after, n) == bytes[2..2 + n]
  {
  }

  lemma ContainerBody(c: Content, rest: seq<Byte>, after: seq<Byte>)
    requires |c| < 0x1_0000
    ensures var body := BigEndian(|c|, 2) + c + rest;
      && LengthAt(body, after) == |c|
      && PeekMany(body, after, |c|) == c
      && body[2 + |c|..] == rest
  {
    hide BigEndian, PeekMany, LengthAt;
    var head := BigEndian(|c|, 2);
    var body := head + c + rest;
    LengthOctets(|c|);
    Pieces([], head, c, rest);
    PeekInside(body, after, |c|);
    assert body[..2][0] == body[0] && body[..2][1] == body[1];
    LengthIs(body, after, |c|);
  }

  lemma LengthOctets(n: nat)
    requires n < 0x1_0000
    ensures BigEndian(n, 2) == [n / 256, n % 256]
  {
    TwoOctets(n);
  }

  lemma LengthIs(body: seq<Byte>, after: seq<Byte>, n: nat)
    requires |body| >= 2 && body[0] == n / 256 && body[1] == n % 256
    ensures LengthAt(body, after) == n
  {
  }

  lemma TakenWhole(tag: Byte, c: Content, body: seq<Byte>, after: seq<Byte>)
    requires LengthAt(body, after) == |c| && PeekMany(body, after, |c|) == c
    requires |c| < 0x1_0000 && 2 + |c| <= |body|
    ensures DecodeContent(Length16, tag, body, after) == Took(Taken(c, (2 + |c|) % 0x1_0000))
  {
    hide LengthAt, PeekMany;
  }

  lemma Length16Encoded(tag: Byte, c: Content, rest: seq<Byte>, after: seq<Byte>)
    requires |c| < 0xFFFE
    ensures var bytes := EncodeIe(Ie(tag, Length16), c) + rest;
      && bytes[0] == tag
      && DecodeContent(Length16, tag, bytes[1..], after) == Took(Taken(c, 2 + |c|))
      && bytes[1 + (2 + |c|)..] == rest
  {
    hide BigEndian, LengthAt, PeekMany, DecodeContent;
    var body := BigEndian(|c|, 2) + c + rest;
    Pieces([tag], BigEndian(|c|, 2), c, rest);
    BodyOf(tag, body, 2 + |c|);
    ContainerBody(c, rest, after);
    TakenWhole(tag, c, body, after);
  }

  /** An element that was encoded is taken off the front. */
  lemma DecodeEncoded(ie: Ie, c: Content, rest: seq<Byte>, after: seq<Byte>)
    requires ContentOk(ie.format, c) && (ie.format.Length16? ==> |c| < 0xFFFE)
    requires Mask(ie.tag) == ie.tag && (ie.format.Half? ==> ie.tag >= 0x80)
    ensures var bytes := EncodeIe(ie, c) + rest;
      && Mask(bytes[0]) == ie.tag
      && var t := DecodeContent(ie.format, bytes[0], bytes[1..], after);
      && t.Took? && t.value.content == Stamped(ie, c)
      && bytes[1 + t.value.size..] == rest
  {
    hide BigEndian, LengthAt, PeekMany;
    var bytes := EncodeIe(ie, c) + rest;
    match ie.format
    case Fixed(size) =>
      assert bytes[1..] == c + rest;
    case Length8(_) =>
      assert bytes[1..] == [|c|] + c + rest;
    case Length16 =>
      Length16Encoded(ie.tag, c, rest, after);
    case Half =>
      assert bytes[1..] == rest;
  }

  function Nones(n: nat): (r: Fields)
    ensures |r| == n
  {
    seq(n, i => None)
  }

  /** One encoded element is decoded into its field. */
  lemma DecodeStep(table: seq<Ie>, i: nat, c: Content, rest: seq<Byte>, after: seq<Byte>, fields: Fields)
    requires TableOk(table) && i < |table| && |fields| == |table|
    requires ContentOk(table[i].format, c) && (table[i].format.Length16? ==> |c| < 0xFFFE)
    ensures DecodeAll(table, EncodeIe(table[i], c) + rest, after, fields)
         == DecodeAll(table, rest, after, fields[i := Some(Stamped(table[i], c))])
  {
    hide EncodeIe, DecodeContent, Stamped, Mask;
    DecodeEncoded(table[i], c, rest, after);
    FindTag(table, i);
    var bytes := EncodeIe(table[i], c) + rest;
    var t := DecodeContent(table[i].format, bytes[0], bytes[1..], after);
    assert bytes[1..][t.value.size..] == bytes[1 + t.value.size..];
  }

  lemma Placed(sofar: Fields, next: Option<Content>, tail: Fields, n: nat)
    requires n > 0
    ensures (sofar + Nones(n))[|sofar| := next] == sofar + [next] + Nones(n - 1)
    ensures next.None? ==> sofar + Nones(n) == sofar + [next] + Nones(n - 1)
    ensures sofar + [next] + tail == sofar + ([next] + tail)
    ensures sofar + Nones(0) == sofar == sofar + []
  {
  }

  lemma FieldShort(table: seq<Ie>, fields: Fields, i: nat)
    requires |fields| == |table| && Short(table, fields) && i < |table|
    ensures fields[i].Some? && table[i].format.Length16? ==> |fields[i].value| < 0xFFFE
  {
  }

  /** Decoding goes on from field `i` when those before it are in place. */
  lemma {:induction false} DecodeFrom(table: seq<Ie>, fields: Fields, i: nat, sofar: Fields, after: seq<Byte>)
    requires TableOk(table) && FieldsOk(table, fields) && Short(table, fields) && i <= |table| && |sofar| == i
    ensures DecodeAll(table, EncodeFrom(table, fields, i), after, sofar + Nones(|table| - i))
         == Took(sofar + StampedFrom(table, fields, i))
    decreases |table| - i
  {
    hide EncodeIe, DecodeContent, Stamped, Mask, TableOk, Find, Nones, Short;
    if i == |table| {
      Placed(sofar, None, [], 1);
    } else {
      var next := StampedField(table[i], fields[i]);
      var rest := EncodeFrom(table, fields, i + 1);
      assert EncodeFrom(table, fields, i) == EncodeField(table[i], fields[i]) + rest;
      assert StampedFrom(table, fields, i) == [next] + StampedFrom(table, fields, i + 1);
      FieldShort(table, fields, i);
      hide DecodeAll, EncodeFrom, StampedFrom, FieldsOk;
      Placed(sofar, next, StampedFrom(table, fields, i + 1), |table| - i);
      DecodeFrom(table, fields, i + 1, sofar + [next], after);
      if fields[i].Some? {
        DecodeStep(table, i, fields[i].value, rest, after, sofar + Nones(|table| - i));
      } else {
        assert [] + rest == rest;
      }
    }
  }

  /** For every table and every subset of the fields, decoding what was encoded gives the fields back. */
  lemma FieldsRoundTrip(table: seq<Ie>, fields: Fields, after: seq<Byte>)
    requires TableOk(table) && FieldsOk(table, fields) && Short(table, fields)
    ensures DecodeAll(table, EncodeFrom(table, fields, 0), after, Nones(|table|))
         == Took(StampedFrom(table, fields, 0))
  {
    DecodeFrom(table, fields, 0, [], after);
    assert [] + Nones(|table|) == Nones(|table|);
    assert [] + StampedFrom(table, fields, 0) == StampedFrom(table, fields, 0);
  }

  /** Stamping changes half-octet elements only, and those not twice: encoding again gives the same octets. */
  lemma {:induction false} StampedTwice(table: seq<Ie>, fields: Fields, i: nat, k: nat)
    requires FieldsOk(table, fields) && i <= k < |table|
    ensures StampedFrom(table, fields, i)[k - i] == StampedField(table[k], fields[k])
    ensures fields[k].Some? && !table[k].format.Half? ==> StampedFrom(table, fields, i)[k - i] == fields[k]
    ensures fields[k].Some? ==> EncodeIe(table[k], Stamped(table[k], fields[k].value)) == EncodeIe(table[k], fields[k].value)
    decreases k - i
  {
    if i < k { StampedTwice(table, fields, i + 1, k); }
  }

  // ---- where the 16-bit size wraps

  /** Fields that were found stay found. */
  lemma {:induction false} FoundStays(table: seq<Ie>, bytes: seq<Byte>, after: seq<Byte>, fields: Fields, k: nat)
    requires |fields| == |table| && k < |table| && fields[k].Some?
    ensures var d := DecodeAll(table, bytes, after, fields);
      d.Took? ==> d.value[k].Some?
    decreases |bytes|
  {
    if bytes != [] {
      var n := DecodeNext(table, bytes[0], bytes[1..], after, fields);
      if n.Took? { FoundStays(table, bytes[1..][n.value.size..], after, n.value.fields, k); }
    }
  }

  /** From a length of 0xFFFE on the cursor stays at the length field of the container. */
  lemma WrappedContainer(tag: Byte, c: Content, rest: seq<Byte>, after: seq<Byte>)
    requires 0xFFFE <= |c| < 0x1_0000
    ensures var body := BigEndian(|c|, 2) + c + rest;
      DecodeContent(Length16, tag, body, after) == Took(Taken(c, |c| - 0xFFFE))
  {
    hide BigEndian, LengthAt, PeekMany, DecodeContent;
    ContainerBody(c, rest, after);
    TakenWhole(tag, c, BigEndian(|c|, 2) + c + rest, after);
  }
}

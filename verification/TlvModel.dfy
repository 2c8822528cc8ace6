/** TLV messages driven by descriptor trees: what printing and parsing compute.

    A message struct is a sequence of cells, one for each byte offset; the cell at the offset of a
    field holds its presence word and its content, the other cells are not used. */
module TlvModel {
  import opened Wrappers
  import opened Bytes

  // ---- descriptors

  datatype Ctype = Uint8 | Uint16 | Uint24 | Uint32 | Int8 | Int16 | Int24 | Int32 | FixedStr | VarStr | Null

  /** More(n) follows a field that may occur up to n times. */
  datatype Desc =
    | Leaf(ctype: Ctype, kind: nat, instance: nat, length: nat, vsize: nat)
    | More(length: nat)
    | Compound(kind: nat, instance: nat, vsize: nat, children: seq<Desc>)
  {
    function Tag(): (nat, nat) {
      if More? then (0, 0) else (kind, instance)
    }

    function VSize(): nat {
      if More? then 0 else vsize
    }
  }

  /** sizeof(ogs_tlv_presence_t) */
  const PRESENCE_SIZE := 8
  const MAX_DEPTH := 8

  predicate Repeats(cs: seq<Desc>) {
    |cs| >= 2 && cs[1].More?
  }

  /** How often the first field of `cs` may occur. */
  function Capacity(cs: seq<Desc>): nat
    requires cs != []
  {
    if Repeats(cs) then cs[1].length else 1
  }

  function Rest(cs: seq<Desc>): (rest: seq<Desc>)
    requires cs != []
    ensures |rest| < |cs|
  {
    if Repeats(cs) then cs[2..] else cs[1..]
  }

  /** `k` slots of `v` bytes. */
  function Span(v: nat, k: nat): nat {
    if k == 0 then 0 else v + Span(v, k - 1)
  }

  function HeadSize(cs: seq<Desc>): nat
    requires cs != []
  {
    Span(cs[0].VSize(), Capacity(cs))
  }

  function Extent(cs: seq<Desc>): nat {
    if cs == [] then 0 else HeadSize(cs) + Extent(Rest(cs))
  }

  /** The tags of the fields. */
  function Tags(cs: seq<Desc>): seq<(nat, nat)> {
    if cs == [] then [] else [cs[0].Tag()] + Tags(Rest(cs))
  }

  /** A field has room for its presence word, and a compound for its children; tags differ and are not zero. */
  predicate WellFormed(cs: seq<Desc>) {
    cs == [] ||
    (&& FieldOk(cs[0])
     && cs[0].Tag() != (0, 0) && cs[0].Tag() !in Tags(Rest(cs))
     && WellFormed(Rest(cs)))
  }

  predicate FieldOk(d: Desc) {
    && !d.More?
    && 0 <= d.kind < 256 && 0 <= d.instance < 16
    && PRESENCE_SIZE <= d.vsize
    && (d.Leaf? ==> d.length < 0x1_0000)
    && (d.Compound? ==> WellFormed(d.children) && PRESENCE_SIZE + Extent(d.children) <= d.vsize)
  }

  // ---- memory

  datatype Value = Zero | Number(n: nat) | Octets(data: seq<Byte>, len: nat)
  datatype Cell = Cell(presence: nat, value: Value)

  function Zeros(n: nat): (m: seq<Cell>)
    ensures |m| == n
  {
    seq(n, i => Cell(0, Zero))
  }

  /** The octets a numeric field puts on the wire; a string has none. */
  function Width(c: Ctype): nat {
    match c
    case Uint8 => 1 case Int8 => 1
    case Uint16 => 2 case Int16 => 2
    case Uint24 => 3 case Int24 => 3
    case Uint32 => 4 case Int32 => 4
    case _ => 0
  }

  /** The size of the integer it is kept in. */
  function Stored(c: Ctype): nat {
    if c.Uint24? || c.Int24? then 4 else Width(c)
  }

  /** The content has the C type of the field; string pointers reach as far as they are read. */
  predicate Typed(d: Desc, value: Value)
    requires d.Leaf?
  {
    match d.ctype
    case FixedStr => value.Octets? && d.length <= |value.data|
    case VarStr => value.Octets? && value.len <= |value.data|
    case Null => true
    case _ => value.Number? && value.n < Pow256(Stored(d.ctype))
  }

  // ---- TLVs

  /** A TLV; a compound carries the ones embedded in it. */
  datatype Tlv = Tlv(kind: nat, instance: nat, value: seq<Byte>, embedded: seq<Tlv>)
  {
    function Tag(): (nat, nat) {
      (kind, instance)
    }
  }

  function Payload(t: Tlv): seq<Byte>
    decreases t, 0
  {
    if t.embedded == [] then t.value else Render(t.embedded)
  }

  /** Type, 2-octet length and instance, then the value (section 8.2 of TS 29.274). */
  function RenderOne(t: Tlv): seq<Byte>
    decreases t, 1
  {
    [t.kind % 256] + BigEndian(|Payload(t)|, 2) + [t.instance % 16] + Payload(t)
  }

  function Render(ts: seq<Tlv>): seq<Byte>
    decreases ts
  {
    if ts == [] then [] else RenderOne(ts[0]) + Render(ts[1..])
  }

  function ParseBlock(bytes: seq<Byte>): Option<seq<Tlv>> {
    if bytes == [] then Some([])
    else if |bytes| < 4 then None
    else
      var length := FromBigEndian(bytes[1..3]);
      if |bytes| < 4 + length then None
      else
        var rest := ParseBlock(bytes[4 + length..]);
        if rest.None? then None
        else Some([Tlv(bytes[0], bytes[3] % 16, bytes[4..4 + length], [])] + rest.value)
  }

  /** Without embedded TLVs, as the parser sees it. */
  function Flat(t: Tlv): Tlv {
    Tlv(t.kind, t.instance, Payload(t), [])
  }

  function FlatAll(ts: seq<Tlv>): seq<Tlv> {
    if ts == [] then [] else [Flat(ts[0])] + FlatAll(ts[1..])
  }

  // ---- printing

  /** tlv_add_leaf. A 16-bit signed field reaches a failing assertion, and so does an empty string. */
  function LeafBytes(d: Desc, value: Value): Outcome<seq<Byte>>
    requires d.Leaf?
  {
    if !Typed(d, value) then Abort
    else match d.ctype
      case Int16 => Abort
      case FixedStr => Done(value.data[..d.length])
      case VarStr => if value.len > 0 then Done(value.data[..value.len]) else Abort
      case Null => Done([])
      case _ => Done(BigEndian(value.n, Width(d.ctype)))
  }

  /** One field, present at the start of `s`. */
  function PrintOne(d: Desc, s: seq<Cell>, depth: nat): Outcome<Tlv>
    requires FieldOk(d) && |s| == d.VSize()
    decreases d, 1, 0
  {
    match d
    case Leaf(_, _, _, _, _) =>
      var bytes :- LeafBytes(d, s[0].value);
      Done(Tlv(d.kind, d.instance, bytes, []))
    case Compound(_, _, _, children) =>
      if depth >= MAX_DEPTH then Abort else
      var kids :- Print(children, s[PRESENCE_SIZE..], depth + 1);
      if kids == [] then Abort else Done(Tlv(d.kind, d.instance, [], kids))
  }

  /** The present slots of a field, up to the first absent one. */
  function PrintSlots(d: Desc, k: nat, r: seq<Cell>, depth: nat): Outcome<seq<Tlv>>
    requires FieldOk(d) && |r| == Span(d.VSize(), k)
    decreases d, 2, k
  {
    if k == 0 || r[0].presence == 0 then Done([])
    else
      var x :- PrintOne(d, r[..d.VSize()], depth);
      var xs :- PrintSlots(d, k - 1, r[d.VSize()..], depth);
      Done([x] + xs)
  }

  /** tlv_add_compound */
  function Print(cs: seq<Desc>, m: seq<Cell>, depth: nat): Outcome<seq<Tlv>>
    requires WellFormed(cs) && Extent(cs) <= |m|
    decreases cs, 0, 0
  {
    if cs == [] then Done([])
    else
      var xs :- PrintSlots(cs[0], Capacity(cs), m[..HeadSize(cs)], depth);
      var ys :- Print(Rest(cs), m[HeadSize(cs)..], depth);
      Done(xs + ys)
  }

  // ---- parsing

  datatype Parse<+T> = Parsed(value: T) | Invalid | Fatal
  {
    predicate IsFailure() {
      !Parsed?
    }

    function PropagateFailure<U>(): Parse<U>
      requires !Parsed?
    {
      if Invalid? then Invalid else Fatal
    }

    function Extract(): T
      requires Parsed?
    {
      value
    }
  }

  /** tlv_parse_leaf: the content of a field after `bytes` arrived. */
  function ParseLeaf(d: Desc, before: Value, bytes: seq<Byte>): Parse<Value>
    requires d.Leaf?
  {
    match d.ctype
    case FixedStr => if |bytes| == d.length then Parsed(Octets(bytes, |bytes|)) else Invalid
    case VarStr => Parsed(Octets(bytes, |bytes|))
    case Null => if |bytes| == 0 then Parsed(before) else Invalid
    case _ => if |bytes| == Width(d.ctype) then Parsed(Number(FromBigEndian(bytes))) else Invalid
  }

  /** One TLV into the slot at the start of `s`. */
  function FillOne(d: Desc, s: seq<Cell>, t: Tlv, depth: nat): (p: Parse<seq<Cell>>)
    requires FieldOk(d) && |s| == d.VSize()
    ensures p.Parsed? ==> |p.value| == |s| && p.value[0].presence == 1
    decreases d, 1, 0
  {
    match d
    case Leaf(_, _, _, _, _) =>
      var value :- ParseLeaf(d, s[0].value, t.value);
      Parsed([Cell(1, value)] + s[1..])
    case Compound(_, _, _, children) =>
      var kids := ParseBlock(t.value);
      if kids.None? || kids.value == [] then Invalid
      else if depth >= MAX_DEPTH then Fatal
      else
        var sub :- ParseAll(children, s[PRESENCE_SIZE..], kids.value, depth + 1);
        Parsed([Cell(1, s[0].value)] + s[1..PRESENCE_SIZE] + sub)
  }

  /** One TLV into the first free slot of a repeated field. */
  function FillSlot(d: Desc, k: nat, r: seq<Cell>, t: Tlv, depth: nat): (p: Parse<seq<Cell>>)
    requires FieldOk(d) && |r| == Span(d.VSize(), k)
    ensures p.Parsed? ==> |p.value| == |r|
    decreases d, 2, k
  {
    if k == 0 then Fatal
    else
      var v := d.VSize();
      if r[0].presence == 0 then
        var s :- FillOne(d, r[..v], t, depth);
        Parsed(s + r[v..])
      else
        var rest :- FillSlot(d, k - 1, r[v..], t, depth);
        Parsed(r[..v] + rest)
  }

  /** One TLV into the first field of `cs`; a field that does not repeat is overwritten. */
  function FillHead(cs: seq<Desc>, r: seq<Cell>, t: Tlv, depth: nat): (p: Parse<seq<Cell>>)
    requires WellFormed(cs) && cs != [] && |r| == HeadSize(cs)
    ensures p.Parsed? ==> |p.value| == |r|
    decreases cs, 0, 0, 0
  {
    assert Span(cs[0].VSize(), 1) == cs[0].VSize() + Span(cs[0].VSize(), 0);
    if Repeats(cs) then FillSlot(cs[0], Capacity(cs), r, t, depth)
    else FillOne(cs[0], r, t, depth)
  }

  /** One TLV of a block into the struct: the field with its tag takes it. */
  function ParseOne(cs: seq<Desc>, m: seq<Cell>, t: Tlv, depth: nat): (p: Parse<seq<Cell>>)
    requires WellFormed(cs) && Extent(cs) <= |m|
    ensures p.Parsed? ==> |p.value| == |m|
    decreases cs, 0, 0, 1
  {
    if cs == [] then Invalid
    else
      var n := HeadSize(cs);
      if cs[0].Tag() == t.Tag() then
        var head :- FillHead(cs, m[..n], t, depth);
        Parsed(head + m[n..])
      else if Repeats(cs) && t.Tag() == (0, 0) then Fatal
      else
        var rest :- ParseOne(Rest(cs), m[n..], t, depth);
        Parsed(m[..n] + rest)
  }

  /** tlv_parse_compound */
  function ParseAll(cs: seq<Desc>, m: seq<Cell>, ts: seq<Tlv>, depth: nat): (p: Parse<seq<Cell>>)
    requires WellFormed(cs) && Extent(cs) <= |m|
    ensures p.Parsed? ==> |p.value| == |m|
    decreases cs, 0, |ts|, 2
  {
    if ts == [] then Parsed(m)
    else
      var m1 :- ParseOne(cs, m, ts[0], depth);
      ParseAll(cs, m1, ts[1..], depth)
  }

  // ---- whole messages

  /** ogs_tlv_build_msg: a message with no field present reaches a failing assertion. */
  function BuildMsg(cs: seq<Desc>, m: seq<Cell>): Outcome<seq<Byte>>
    requires WellFormed(cs) && Extent(cs) <= |m|
  {
    var ts :- Print(cs, m, 0);
    if ts == [] then Abort else Done(Render(ts))
  }

  /** ogs_tlv_parse_msg */
  function ParseMsg(cs: seq<Desc>, m: seq<Cell>, bytes: seq<Byte>): Parse<seq<Cell>>
    requires WellFormed(cs) && Extent(cs) <= |m|
  {
    var ts := ParseBlock(bytes);
    if ts.None? || ts.value == [] then Invalid else ParseAll(cs, m, ts.value, 0)
  }
}

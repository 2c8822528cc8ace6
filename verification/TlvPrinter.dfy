/** The TLV printer, over a message struct updated in place. */
module TlvPrinter {
  import opened Wrappers
  import opened Bytes
  import opened TlvModel
  import opened TlvMemory

  // ---- what printing leaves behind in the source message

  /** Integers wider than an octet are put into network order where they are. */
  function SwappedValue(d: Desc, value: Value): Value
    requires d.Leaf? && LeafBytes(d, value).Done?
  {
    match d.ctype
    case Uint16 => Number(Swap(value.n, 2))
    case Uint24 => Number(Swap(value.n * 256 % 0x1_0000_0000, 4))
    case Int24 => Number(Swap(value.n * 256 % 0x1_0000_0000, 4))
    case Uint32 => Number(Swap(value.n, 4))
    case Int32 => Number(Swap(value.n, 4))
    case _ => value
  }

  function SwapOne(d: Desc, s: seq<Cell>, depth: nat): (r: seq<Cell>)
    requires FieldOk(d) && |s| == d.VSize() && PrintOne(d, s, depth).Done?
    ensures |r| == |s|
    decreases d, 1, 0
  {
    match d
    case Leaf(_, _, _, _, _) => [Cell(s[0].presence, SwappedValue(d, s[0].value))] + s[1..]
    case Compound(_, _, _, children) => s[..PRESENCE_SIZE] + SwapAll(children, s[PRESENCE_SIZE..], depth + 1)
  }

  function SwapSlots(d: Desc, k: nat, r: seq<Cell>, depth: nat): (t: seq<Cell>)
    requires FieldOk(d) && |r| == Span(d.VSize(), k) && PrintSlots(d, k, r, depth).Done?
    ensures |t| == |r|
    decreases d, 2, k
  {
    if k == 0 || r[0].presence == 0 then r
    else SwapOne(d, r[..d.VSize()], depth) + SwapSlots(d, k - 1, r[d.VSize()..], depth)
  }

  /** The source message after tlv_add_compound. */
  function SwapAll(cs: seq<Desc>, m: seq<Cell>, depth: nat): (t: seq<Cell>)
    requires WellFormed(cs) && Extent(cs) <= |m| && Print(cs, m, depth).Done?
    ensures |t| == |m|
    decreases cs, 0, 0
  {
    if cs == [] then m
    else SwapSlots(cs[0], Capacity(cs), m[..HeadSize(cs)], depth) + SwapAll(Rest(cs), m[HeadSize(cs)..], depth)
  }

  // ---- printing

  lemma {:induction false} BigEndianMod(n: nat, k: nat)
    ensures Pow256(k) > 0 && BigEndian(n % Pow256(k), k) == BigEndian(n, k)
  {
    PowPositive(k);
    if k > 0 {
      ModShift(n, k);
      BigEndianMod(n / 256, k - 1);
    }
  }

  lemma ShiftedOctet(n: nat)
    ensures (n * 256 % 0x1_0000_0000) / 256 == n % 0x100_0000
  {
  }

  /** Shifted left by an octet and swapped, a 24-bit integer shows its three octets first. */
  lemma ThreeOctets(n: nat)
    ensures LittleEndian(Swap(n * 256 % 0x1_0000_0000, 4), 4)[..3] == BigEndian(n, 3)
  {
    hide LittleEndian, FromLittleEndian, Swap, Pow256;
    var shifted := n * 256 % 0x1_0000_0000;
    SwapIsNetworkOrder(shifted, 4);
    ShiftedOctet(n);
    assert BigEndian(shifted, 4) == BigEndian(shifted / 256, 3) + [shifted % 256];
    BigEndianMod(n, 3);
    PowValues();
  }

  /** tlv_add_leaf: the octets of the field, which is swapped in place on the way. */
  method AddLeaf(msg: array<Cell>, o: nat, d: Desc) returns (bytes: Outcome<seq<Byte>>)
    requires d.Leaf? && o < msg.Length
    modifies msg
    ensures bytes == LeafBytes(d, old(msg[o].value))
    ensures bytes.Done? ==>
      msg[..] == old(msg[..])[o := Cell(old(msg[o].presence), SwappedValue(d, old(msg[o].value)))]
  {
    if !Typed(d, msg[o].value) { return Abort; }
    match d.ctype {
      case Int16 => bytes := Abort;
      case FixedStr => bytes := Done(msg[o].value.data[..d.length]);
      case VarStr =>
        if msg[o].value.len == 0 { return Abort; }
        bytes := Done(msg[o].value.data[..msg[o].value.len]);
      case Null => bytes := Done([]);
      case Uint8 => bytes := AddNumber(msg, o, 1);
      case Int8 => bytes := AddNumber(msg, o, 1);
      case Uint16 => bytes := AddNumber(msg, o, 2);
      case Uint24 => bytes := AddNumber24(msg, o);
      case Int24 => bytes := AddNumber24(msg, o);
      case Uint32 => bytes := AddNumber(msg, o, 4);
      case Int32 => bytes := AddNumber(msg, o, 4);
    }
  }

  lemma OneOctet(n: nat)
    requires n < 256
    ensures Swap(n, 1) == n
  {
    assert BigEndian(n / 256, 0) == [];
    assert BigEndian(n, 1) == [n];
    assert FromLittleEndian([]) == 0 && [n][1..] == [];
  }

  /** htons or htonl, then the octets as they lie in memory. */
  method AddNumber(msg: array<Cell>, o: nat, k: nat) returns (bytes: Outcome<seq<Byte>>)
    requires o < msg.Length && msg[o].value.Number? && (k == 1 ==> msg[o].value.n < 256)
    modifies msg
    ensures bytes == Done(BigEndian(old(msg[o].value.n), k))
    ensures msg[..] == old(msg[..])[o := Cell(old(msg[o].presence), Number(Swap(old(msg[o].value.n), k)))]
    ensures k == 1 ==> msg[..] == old(msg[..])
  {
    var n := msg[o].value.n;
    SwapIsNetworkOrder(n, k);
    if k == 1 { OneOctet(n); }
    msg[o] := Cell(msg[o].presence, Number(Swap(n, k)));
    bytes := Done(LittleEndian(msg[o].value.n, k));
  }

  method AddNumber24(msg: array<Cell>, o: nat) returns (bytes: Outcome<seq<Byte>>)
    requires o < msg.Length && msg[o].value.Number?
    modifies msg
    ensures bytes == Done(BigEndian(old(msg[o].value.n), 3))
    ensures msg[..] ==
      old(msg[..])[o := Cell(old(msg[o].presence), Number(Swap(old(msg[o].value.n) * 256 % 0x1_0000_0000, 4)))]
  {
    var n := msg[o].value.n;
    ThreeOctets(n);
    msg[o] := Cell(msg[o].presence, Number(Swap(n * 256 % 0x1_0000_0000, 4)));
    bytes := Done(LittleEndian(msg[o].value.n, 4)[..3]);
  }

  method AddField(msg: array<Cell>, o: nat, d: Desc, depth: nat) returns (tlv: Outcome<Tlv>)
    requires FieldOk(d) && o + d.VSize() <= msg.Length
    modifies msg
    ensures tlv == PrintOne(d, old(msg[..])[o..o + d.VSize()], depth)
    ensures tlv.Done? ==>
      msg[..] == Splice(old(msg[..]), o, SwapOne(d, old(msg[..])[o..o + d.VSize()], depth))
    decreases d, 1, 0
  {
    hide LeafBytes, SwappedValue, Print, SwapAll, WellFormed, Extent, Splice;
    var v := d.VSize();
    ghost var all := msg[..];
    ghost var s := all[o..o + v];
    match d {
      case Leaf(_, _, _, _, _) =>
        var bytes := AddLeaf(msg, o, d);
        if bytes.Abort? { return Abort; }
        tlv := Done(Tlv(d.kind, d.instance, bytes.value, []));
        SpliceCell(all, o, v, Cell(s[0].presence, SwappedValue(d, s[0].value)));
      case Compound(_, _, _, children) =>
        if depth >= MAX_DEPTH { return Abort; }
        SliceOfSlice(all, o, v, PRESENCE_SIZE, v);
        var kids := AddCompound(msg, o + PRESENCE_SIZE, v - PRESENCE_SIZE, children, depth + 1);
        if kids.Abort? || kids.value == [] { return Abort; }
        tlv := Done(Tlv(d.kind, d.instance, [], kids.value));
        SpliceEnd(all, o, v, PRESENCE_SIZE, SwapAll(children, s[PRESENCE_SIZE..], depth + 1));
    }
  }

  ghost function Prefixed(done: seq<Tlv>, rest: Outcome<seq<Tlv>>): Outcome<seq<Tlv>> {
    if rest.Done? then Done(done + rest.value) else Abort
  }

  /** `root` and `done` are what the first slots of a field gave; `k` slots, the end of `r`, are left. */
  ghost predicate SlotsSoFar(d: Desc, length: nat, r: seq<Cell>, depth: nat, root: seq<Tlv>, done: seq<Cell>, k: nat)
    requires FieldOk(d) && |r| == Span(d.VSize(), length)
  {
    && |done| + Span(d.VSize(), k) == |r|
    && var all, left := PrintSlots(d, length, r, depth), PrintSlots(d, k, r[|done|..], depth);
    && all == Prefixed(root, left)
    && (all.Done? ==> SwapSlots(d, length, r, depth) == done + SwapSlots(d, k, r[|done|..], depth))
  }

  lemma SlotsUnfold(d: Desc, k: nat, r: seq<Cell>, depth: nat)
    requires FieldOk(d) && |r| == Span(d.VSize(), k) && k > 0 && r[0].presence != 0
    ensures |r| == d.VSize() + Span(d.VSize(), k - 1)
    ensures PrintSlots(d, k, r, depth) ==
      var x := PrintOne(d, r[..d.VSize()], depth);
      if x.Abort? then Abort else Prefixed([x.value], PrintSlots(d, k - 1, r[d.VSize()..], depth))
    ensures PrintSlots(d, k, r, depth).Done? ==>
      SwapSlots(d, k, r, depth) == SwapOne(d, r[..d.VSize()], depth) + SwapSlots(d, k - 1, r[d.VSize()..], depth)
  {
    hide PrintOne, SwapOne;
  }

  lemma PrefixTwice(root: seq<Tlv>, xs: seq<Tlv>, rest: Outcome<seq<Tlv>>)
    ensures Prefixed(root, Prefixed(xs, rest)) == Prefixed(root + xs, rest)
  {
    if rest.Done? { assert root + (xs + rest.value) == root + xs + rest.value; }
  }

  lemma SlotsStep(d: Desc, length: nat, r: seq<Cell>, depth: nat, root: seq<Tlv>, done: seq<Cell>, k: nat)
    requires FieldOk(d) && |r| == Span(d.VSize(), length) && k > 0
    requires SlotsSoFar(d, length, r, depth, root, done, k) && |done| < |r| && r[|done|].presence != 0
    ensures |done| + d.VSize() <= |r|
    ensures var x := PrintOne(d, r[|done|..|done| + d.VSize()], depth);
      if x.Abort? then PrintSlots(d, length, r, depth).Abort?
      else
        var after := SwapOne(d, r[|done|..|done| + d.VSize()], depth);
        SlotsSoFar(d, length, r, depth, root + [x.value], done + after, k - 1)
  {
    hide PrintOne, SwapOne, PrintSlots, SwapSlots, FieldOk, Span;
    var v, rest := d.VSize(), r[|done|..];
    SlotsUnfold(d, k, rest, depth);
    Slices(r, |done|, v);
    var x := PrintOne(d, rest[..v], depth);
    if x.Done? {
      var after := SwapOne(d, rest[..v], depth);
      var xs := PrintSlots(d, k - 1, rest[v..], depth);
      PrefixTwice(root, [x.value], xs);
      if xs.Done? { Reassociate(done, after, SwapSlots(d, k - 1, rest[v..], depth)); }
    }
  }

  /** An absent slot ends the field. */
  lemma SlotsEnd(d: Desc, length: nat, r: seq<Cell>, depth: nat, root: seq<Tlv>, done: seq<Cell>, k: nat)
    requires FieldOk(d) && |r| == Span(d.VSize(), length)
    requires SlotsSoFar(d, length, r, depth, root, done, k) && (k == 0 || (|done| < |r| && r[|done|].presence == 0))
    ensures PrintSlots(d, length, r, depth) == Done(root)
    ensures SwapSlots(d, length, r, depth) == done + r[|done|..]
  {
    assert root + [] == root;
  }

  /** The loop over a repeated field: up to `length` slots, stopping at the first absent one. */
  method AddRepeats(msg: array<Cell>, offset: nat, d: Desc, length: nat, depth: nat) returns (tlvs: Outcome<seq<Tlv>>)
    requires FieldOk(d) && offset + Span(d.VSize(), length) <= msg.Length
    modifies msg
    ensures var r := old(msg[..])[offset..offset + Span(d.VSize(), length)];
      && tlvs == PrintSlots(d, length, r, depth)
      && (tlvs.Done? ==> msg[..] == Splice(old(msg[..]), offset, SwapSlots(d, length, r, depth)))
    decreases d, 2, length
  {
    hide *;
    FieldRoom(d);
    var v := d.VSize();
    ghost var n := Span(v, length);
    ghost var all := msg[..];
    ghost var r := all[offset..offset + n];
    ghost var done: seq<Cell> := [];
    var root := [];
    var offset2, j := offset, 0;
    SlotsStart(d, length, r, depth);
    SpliceSame(all, offset, 0);
    while j < length
      invariant j <= length && offset2 == offset + |done| && offset2 + Span(v, length - j) == offset + n
      invariant msg[..] == Splice(all, offset, done)
      invariant SlotsSoFar(d, length, r, depth, root, done, length - j)
    {
      SpanStep(v, length - j);
      SliceOfSlice(all, offset, n, |done|, |done| + v);
      SpliceTwice(all, offset, done, all[offset2..offset2 + v]);
      assert msg[offset2] == msg[..][offset2..offset2 + v][0] == r[|done|];
      if msg[offset2].presence == 0 { break; }
      SlotsStep(d, length, r, depth, root, done, length - j);
      var x := AddField(msg, offset2, d, depth);
      if x.Abort? { return Abort; }
      ghost var after := SwapOne(d, all[offset2..offset2 + v], depth);
      SpliceTwice(all, offset, done, after);
      root, done := root + [x.value], done + after;
      offset2 := offset2 + v;
      j := j + 1;
    }
    SlotsEnd(d, length, r, depth, root, done, length - j);
    SpliceShort(all, offset, n, done);
    tlvs := Done(root);
  }

  lemma SlotsStart(d: Desc, length: nat, r: seq<Cell>, depth: nat)
    requires FieldOk(d) && |r| == Span(d.VSize(), length)
    ensures SlotsSoFar(d, length, r, depth, [], [], length)
  {
    assert r[0..] == r;
    var all := PrintSlots(d, length, r, depth);
    if all.Done? { assert [] + all.value == all.value; }
  }

  /** `root` and `done` are what the children before `cs` gave; `cs` and the end of `m` are left. */
  ghost predicate FieldsSoFar(all: seq<Desc>, m: seq<Cell>, depth: nat, root: seq<Tlv>, done: seq<Cell>, cs: seq<Desc>)
    requires WellFormed(all) && Extent(all) <= |m|
  {
    && WellFormed(cs) && |done| + Extent(cs) <= |m|
    && var whole, left := Print(all, m, depth), Print(cs, m[|done|..], depth);
    && whole == Prefixed(root, left)
    && (whole.Done? ==> SwapAll(all, m, depth) == done + SwapAll(cs, m[|done|..], depth))
  }

  lemma FieldsStart(cs: seq<Desc>, m: seq<Cell>, depth: nat)
    requires WellFormed(cs) && Extent(cs) <= |m|
    ensures FieldsSoFar(cs, m, depth, [], [], cs)
  {
    assert m[0..] == m;
    var all := Print(cs, m, depth);
    if all.Done? { assert [] + all.value == all.value; }
  }

  lemma FieldsUnfold(cs: seq<Desc>, m: seq<Cell>, depth: nat)
    requires WellFormed(cs) && cs != [] && Extent(cs) <= |m|
    ensures FieldOk(cs[0]) && WellFormed(Rest(cs)) && Extent(cs) == HeadSize(cs) + Extent(Rest(cs))
    ensures HeadSize(cs) == Span(cs[0].VSize(), Capacity(cs))
    ensures Print(cs, m, depth) ==
      var xs := PrintSlots(cs[0], Capacity(cs), m[..HeadSize(cs)], depth);
      if xs.Abort? then Abort else Prefixed(xs.value, Print(Rest(cs), m[HeadSize(cs)..], depth))
    ensures Print(cs, m, depth).Done? ==>
      SwapAll(cs, m, depth)
      == SwapSlots(cs[0], Capacity(cs), m[..HeadSize(cs)], depth) + SwapAll(Rest(cs), m[HeadSize(cs)..], depth)
  {
    hide PrintSlots, SwapSlots, FieldOk;
  }

  lemma FieldsStep(all: seq<Desc>, m: seq<Cell>, depth: nat, root: seq<Tlv>, done: seq<Cell>, cs: seq<Desc>)
    requires WellFormed(all) && Extent(all) <= |m| && cs != []
    requires FieldsSoFar(all, m, depth, root, done, cs)
    ensures FieldOk(cs[0]) && |done| + HeadSize(cs) <= |m|
    ensures HeadSize(cs) == Span(cs[0].VSize(), Capacity(cs))
    ensures var r := m[|done|..|done| + HeadSize(cs)];
      var xs := PrintSlots(cs[0], Capacity(cs), r, depth);
      if xs.Abort? then Print(all, m, depth).Abort?
      else FieldsSoFar(all, m, depth, root + xs.value, done + SwapSlots(cs[0], Capacity(cs), r, depth), Rest(cs))
  {
    hide Print, SwapAll, PrintSlots, SwapSlots, FieldOk, WellFormed, Extent, HeadSize, Rest, Span;
    var n, rest := HeadSize(cs), m[|done|..];
    FieldsUnfold(cs, rest, depth);
    Slices(m, |done|, n);
    var xs := PrintSlots(cs[0], Capacity(cs), rest[..n], depth);
    if xs.Done? {
      var after := SwapSlots(cs[0], Capacity(cs), rest[..n], depth);
      var ys := Print(Rest(cs), rest[n..], depth);
      PrefixTwice(root, xs.value, ys);
      if ys.Done? { Reassociate(done, after, SwapAll(Rest(cs), rest[n..], depth)); }
    }
  }

  lemma FieldsEnd(all: seq<Desc>, m: seq<Cell>, depth: nat, root: seq<Tlv>, done: seq<Cell>)
    requires WellFormed(all) && Extent(all) <= |m| && FieldsSoFar(all, m, depth, root, done, [])
    ensures Print(all, m, depth) == Done(root)
    ensures SwapAll(all, m, depth) == done + m[|done|..]
  {
    assert root + [] == root;
  }

  /** The children a step of the walk takes, and the offset it adds. */
  lemma HeadStep(cs: seq<Desc>, i: nat)
    requires i < |cs|
    ensures var repeats := i + 1 < |cs| && cs[i + 1].More?;
      && Capacity(cs[i..]) == (if repeats then cs[i + 1].length else 1)
      && Rest(cs[i..]) == cs[if repeats then i + 2 else i + 1..]
    ensures HeadSize(cs[i..]) == cs[i].VSize() * Capacity(cs[i..]) == Span(cs[i].VSize(), Capacity(cs[i..]))
  {
    SpanIsProduct(cs[i].VSize(), Capacity(cs[i..]));
  }

  /** tlv_add_compound: walk the descriptors, adding up offsets. */
  method AddCompound(msg: array<Cell>, base: nat, size: nat, cs: seq<Desc>, depth: nat) returns (tlvs: Outcome<seq<Tlv>>)
    requires WellFormed(cs) && Extent(cs) <= size && base + size <= msg.Length
    modifies msg
    ensures tlvs == Print(cs, old(msg[..])[base..base + size], depth)
    ensures tlvs.Done? ==>
      msg[..] == Splice(old(msg[..]), base, SwapAll(cs, old(msg[..])[base..base + size], depth))
    decreases cs, 0, 0
  {
    hide *;
    ghost var all := msg[..];
    ghost var m := all[base..base + size];
    ghost var done: seq<Cell> := [];
    var root := [];
    var offset: nat, i: nat := 0, 0;
    FieldsStart(cs, m, depth);
    SpliceSame(all, base, 0);
    assert cs[0..] == cs;
    while i < |cs|
      invariant i <= |cs| && |done| == offset <= size
      invariant msg[..] == Splice(all, base, done)
      invariant FieldsSoFar(cs, m, depth, root, done, cs[i..])
    {
      var d := cs[i];
      var length, next := 1, i + 1;
      if i + 1 < |cs| && cs[i + 1].More? {
        length, next := cs[i + 1].length, i + 2;
      }
      FieldsStep(cs, m, depth, root, done, cs[i..]);
      HeadStep(cs, i);
      ghost var n := HeadSize(cs[i..]);
      SliceOfSlice(all, base, size, offset, offset + n);
      SpliceTwice(all, base, done, all[base + offset..base + offset + n]);
      var xs := AddRepeats(msg, base + offset, d, length, depth);
      if xs.Abort? { return Abort; }
      ghost var after := SwapSlots(d, length, all[base + offset..base + offset + n], depth);
      SpliceTwice(all, base, done, after);
      root, done := root + xs.value, done + after;
      offset := offset + d.VSize() * length;
      i := next;
    }
    assert cs[i..] == [];
    FieldsEnd(cs, m, depth, root, done);
    SpliceShort(all, base, size, done);
    tlvs := Done(root);
  }

  /** ogs_tlv_build_msg */
  method Build(msg: array<Cell>, cs: seq<Desc>) returns (bytes: Outcome<seq<Byte>>)
    requires WellFormed(cs) && Extent(cs) <= msg.Length
    modifies msg
    ensures bytes == BuildMsg(cs, old(msg[..]))
    ensures bytes.Done? ==> msg[..] == SwapAll(cs, old(msg[..]), 0)
  {
    hide Print, SwapAll, WellFormed, Extent, Render;
    ghost var all := msg[..];
    assert all[0..msg.Length] == all;
    var root := AddCompound(msg, 0, msg.Length, cs, 0);
    if root.Abort? || root.value == [] { return Abort; }
    bytes := Done(Render(root.value));
  }
}

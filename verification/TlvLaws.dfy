/** The octets of TLV messages, and what printing and parsing leave in the struct, octet by octet and cell by cell. */
module TlvLaws {
  import opened Bytes
  import opened TlvModel
  import opened TlvPrinter
  import opened TlvParser
  import opened TlvMemory
  import opened TlvOffsets
  import opened TlvAfter
  import opened TlvSize

  // ---- octets

  /** The octets of a leaf, by its type. */
  lemma LeafOctets(d: Desc, value: Value)
    requires d.Leaf? && LeafBytes(d, value).Done?
    ensures var bytes := LeafBytes(d, value).value;
      match d.ctype
      case Uint8 => value.Number? && bytes == [value.n]
      case Int8 => value.Number? && bytes == [value.n]
      case Uint16 => value.Number? && bytes == [value.n / 256, value.n % 256]
      case Int16 => false
      case Uint24 => value.Number? && bytes == [value.n / 0x1_0000 % 256, value.n / 256 % 256, value.n % 256]
      case Int24 => value.Number? && bytes == [value.n / 0x1_0000 % 256, value.n / 256 % 256, value.n % 256]
      case Uint32 =>
        value.Number? && bytes == [value.n / 0x100_0000, value.n / 0x1_0000 % 256, value.n / 256 % 256, value.n % 256]
      case Int32 =>
        value.Number? && bytes == [value.n / 0x100_0000, value.n / 0x1_0000 % 256, value.n / 256 % 256, value.n % 256]
      case FixedStr => value.Octets? && d.length <= |value.data| && bytes == value.data[..d.length]
      case VarStr => value.Octets? && 0 < value.len <= |value.data| && bytes == value.data[..value.len]
      case Null => bytes == []
  {
    hide BigEndian;
    PowValues();
    if value.Number? {
      TwoOctets(value.n);
      FourOctets(value.n);
    }
  }

  /** What a leaf becomes, by its type and the octets that arrive. */
  lemma LeafRead(d: Desc, before: Value, b: seq<Byte>)
    requires d.Leaf?
    ensures ParseLeaf(d, before, b) ==
      match d.ctype
      case Uint8 => if |b| == 1 then Parsed(Number(b[0])) else Invalid
      case Int8 => if |b| == 1 then Parsed(Number(b[0])) else Invalid
      case Uint16 => if |b| == 2 then Parsed(Number(b[0] as int * 0x100 + b[1])) else Invalid
      case Int16 => if |b| == 2 then Parsed(Number(b[0] as int * 0x100 + b[1])) else Invalid
      case Uint24 => if |b| == 3 then Parsed(Number(b[0] as int * 0x1_0000 + b[1] as int * 0x100 + b[2])) else Invalid
      case Int24 => if |b| == 3 then Parsed(Number(b[0] as int * 0x1_0000 + b[1] as int * 0x100 + b[2])) else Invalid
      case Uint32 =>
        if |b| == 4 then Parsed(Number(b[0] as int * 0x100_0000 + b[1] as int * 0x1_0000 + b[2] as int * 0x100 + b[3])) else Invalid
      case Int32 =>
        if |b| == 4 then Parsed(Number(b[0] as int * 0x100_0000 + b[1] as int * 0x1_0000 + b[2] as int * 0x100 + b[3])) else Invalid
      case FixedStr => if |b| == d.length then Parsed(Octets(b, d.length)) else Invalid
      case VarStr => Parsed(Octets(b, |b|))
      case Null => if b == [] then Parsed(before) else Invalid
  {
    hide FromBigEndian;
    Shifts(b);
  }

  /** Type, length and instance are in front of the value, and the values of a block follow each other. */
  lemma TlvOctets(t: Tlv, rest: seq<Tlv>)
    requires t.kind < 256 && t.instance < 16 && |Payload(t)| < 0x1_0000
    ensures var bytes, n := Render([t] + rest), |Payload(t)|;
      && |bytes| == 4 + n + |Render(rest)|
      && bytes[0] == t.kind && bytes[1] == n / 256 && bytes[2] == n % 256 && bytes[3] == t.instance
      && bytes[4..4 + n] == Payload(t) && bytes[4 + n..] == Render(rest)
  {
    hide BigEndian, Payload;
    TwoOctets(|Payload(t)|);
    assert ([t] + rest)[0] == t && ([t] + rest)[1..] == rest;
  }

  // ---- what printing leaves in the struct

  /** The memory of an integer that was printed shows its octets, most significant first; all else is as it was. */
  ghost predicate LeftLeaf(d: Desc, before: Value, after: Value, bytes: seq<Byte>)
    requires d.Leaf?
  {
    match d.ctype
    case Uint16 => after.Number? && |bytes| == 2 && LittleEndian(after.n, 2) == bytes
    case Uint24 => after.Number? && |bytes| == 3 && LittleEndian(after.n, 4) == bytes + [0]
    case Int24 => after.Number? && |bytes| == 3 && LittleEndian(after.n, 4) == bytes + [0]
    case Uint32 => after.Number? && |bytes| == 4 && LittleEndian(after.n, 4) == bytes
    case Int32 => after.Number? && |bytes| == 4 && LittleEndian(after.n, 4) == bytes
    case _ => after == before
  }

  ghost predicate LeftOne(d: Desc, s: seq<Cell>, t: seq<Cell>, x: Tlv)
    requires FieldOk(d) && |s| == |t| == d.VSize()
    decreases d, 1, 0
  {
    match d
    case Leaf(_, _, _, _, _) =>
      t[0].presence == s[0].presence && LeftLeaf(d, s[0].value, t[0].value, x.value) && t[1..] == s[1..]
    case Compound(_, _, _, children) => t[..8] == s[..8] && LeftAll(children, s[8..], t[8..], x.embedded)
  }

  ghost predicate LeftSlots(d: Desc, k: nat, r: seq<Cell>, t: seq<Cell>, xs: seq<Tlv>)
    requires FieldOk(d) && |r| == |t| == Span(d.VSize(), k)
    decreases d, 2, k
  {
    if k == 0 || r[0].presence == 0 then t == r && xs == []
    else
      var v := d.VSize();
      && xs != [] && LeftOne(d, r[..v], t[..v], xs[0])
      && LeftSlots(d, k - 1, r[v..], t[v..], xs[1..])
  }

  /** Field by field: what is not printed is as it was, and each printed leaf is left as its TLV says. */
  ghost predicate LeftAll(cs: seq<Desc>, m: seq<Cell>, t: seq<Cell>, xs: seq<Tlv>)
    requires WellFormed(cs) && Extent(cs) <= |m| == |t|
    decreases cs, 0, 0
  {
    if cs == [] then t == m && xs == []
    else
      var n := HeadSize(cs);
      exists i :: 0 <= i <= |xs| && LeftSlots(cs[0], Capacity(cs), m[..n], t[..n], xs[..i])
               && LeftAll(Rest(cs), m[n..], t[n..], xs[i..])
  }

  lemma LeafIsLeft(d: Desc, value: Value)
    requires d.Leaf? && LeafBytes(d, value).Done?
    ensures LeftLeaf(d, value, SwappedValue(d, value), LeafBytes(d, value).value)
  {
    hide LittleEndian, Swap, BigEndian;
    if d.ctype in {Uint16, Uint32, Int32} {
      SwapIsNetworkOrder(value.n, Width(d.ctype));
    } else if d.ctype in {Uint24, Int24} {
      ShiftedMemory(value.n);
    }
  }

  lemma ShiftedMemory(n: nat)
    ensures LittleEndian(Swap(n * 256 % 0x1_0000_0000, 4), 4) == BigEndian(n, 3) + [0]
  {
    hide LittleEndian, Swap;
    var shifted := n * 256 % 0x1_0000_0000;
    SwapIsNetworkOrder(shifted, 4);
    FourOctets(shifted);
    FourOctets(n);
    ShiftedOctets(n);
  }

  lemma ShiftedOctets(n: nat)
    ensures var m := n * 256 % 0x1_0000_0000;
      && m / 0x100_0000 % 256 == n / 0x1_0000 % 256 && m / 0x1_0000 % 256 == n / 256 % 256
      && m / 256 % 256 == n % 256 && m % 256 == 0
  {
    var m := n * 256 % 0x1_0000_0000;
    ShiftedOctet(n);
    Quotients(m);
    Quotients(n);
    LowThree(n);
  }

  /** The lowest three octets of what is left of a number modulo 2^24. */
  lemma LowThree(n: nat)
    ensures var r := n % 0x100_0000;
      r % 256 == n % 256 && r / 256 % 256 == n / 256 % 256 && r / 256 / 256 % 256 == n / 256 / 256 % 256
  {
    var q, r := n / 0x100_0000, n % 0x100_0000;
    assert n == 256 * (0x1_0000 * q) + r;
    assert n / 256 == 256 * (0x100 * q) + r / 256;
    assert n / 256 / 256 == 256 * q + r / 256 / 256;
  }

  lemma {:induction false} OneIsLeft(d: Desc, s: seq<Cell>, depth: nat)
    requires FieldOk(d) && |s| == d.VSize() && PrintOne(d, s, depth).Done?
    ensures LeftOne(d, s, SwapOne(d, s, depth), PrintOne(d, s, depth).value)
    decreases d, 1, 0
  {
    hide LeafBytes, SwappedValue, LeftLeaf, LeftAll, Print, SwapAll;
    match d
    case Leaf(_, _, _, _, _) => LeafIsLeft(d, s[0].value);
    case Compound(_, _, _, children) => AllIsLeft(children, s[8..], depth + 1);
  }

  lemma {:induction false} SlotsAreLeft(d: Desc, k: nat, r: seq<Cell>, depth: nat)
    requires FieldOk(d) && |r| == Span(d.VSize(), k) && PrintSlots(d, k, r, depth).Done?
    ensures LeftSlots(d, k, r, SwapSlots(d, k, r, depth), PrintSlots(d, k, r, depth).value)
    decreases d, 2, k
  {
    hide LeftOne, PrintOne, SwapOne;
    if k > 0 && r[0].presence != 0 {
      var v := d.VSize();
      OneIsLeft(d, r[..v], depth);
      SlotsAreLeft(d, k - 1, r[v..], depth);
    }
  }

  /** Printing leaves every presence word, every string, every 8-bit integer and all that is not printed as it was, and each
      wider integer in the order of its octets on the wire. */
  lemma {:induction false} AllIsLeft(cs: seq<Desc>, m: seq<Cell>, depth: nat)
    requires WellFormed(cs) && Extent(cs) <= |m| && Print(cs, m, depth).Done?
    ensures LeftAll(cs, m, SwapAll(cs, m, depth), Print(cs, m, depth).value)
    decreases cs, 0, 0
  {
    hide LeftSlots, PrintSlots, SwapSlots;
    if cs != [] {
      var n := HeadSize(cs);
      SlotsAreLeft(cs[0], Capacity(cs), m[..n], depth);
      AllIsLeft(Rest(cs), m[n..], depth);
      var xs, ys := PrintSlots(cs[0], Capacity(cs), m[..n], depth).value, Print(Rest(cs), m[n..], depth).value;
      assert (xs + ys)[..|xs|] == xs && (xs + ys)[|xs|..] == ys;
    }
  }

  /** No presence word and no string is another one, and what changes is an integer and stays one. */
  ghost predicate OnlyNumbersDiffer(m: seq<Cell>, t: seq<Cell>) {
    |m| == |t| && forall i :: 0 <= i < |m| ==>
      t[i].presence == m[i].presence && (t[i].value == m[i].value || (t[i].value.Number? && m[i].value.Number?))
  }

  lemma DifferApart(m: seq<Cell>, t: seq<Cell>, a: seq<Cell>, b: seq<Cell>)
    requires OnlyNumbersDiffer(m, a) && OnlyNumbersDiffer(t, b)
    ensures OnlyNumbersDiffer(m + t, a + b)
  {
  }

  lemma {:induction false} OneDiffers(d: Desc, s: seq<Cell>, depth: nat)
    requires FieldOk(d) && |s| == d.VSize() && PrintOne(d, s, depth).Done?
    ensures OnlyNumbersDiffer(s, SwapOne(d, s, depth))
    decreases d, 1, 0
  {
    hide LeafBytes, OnlyNumbersDiffer, Print, SwapAll;
    match d
    case Leaf(_, _, _, _, _) =>
      assert OnlyNumbersDiffer(s, SwapOne(d, s, depth)) by { LeafDiffers(d, s, depth); }
    case Compound(_, _, _, children) =>
      AllDiffer(children, s[8..], depth + 1);
      NoneDiffer(s[..8]);
      DifferApart(s[..8], s[8..], s[..8], SwapAll(children, s[8..], depth + 1));
      assert s[..8] + s[8..] == s;
  }

  lemma LeafDiffers(d: Desc, s: seq<Cell>, depth: nat)
    requires d.Leaf? && FieldOk(d) && |s| == d.VSize() && PrintOne(d, s, depth).Done?
    ensures OnlyNumbersDiffer(s, SwapOne(d, s, depth))
  {
    hide Swap, BigEndian;
  }

  lemma NoneDiffer(m: seq<Cell>)
    ensures OnlyNumbersDiffer(m, m)
  {
  }

  lemma {:induction false} SlotsDiffer(d: Desc, k: nat, r: seq<Cell>, depth: nat)
    requires FieldOk(d) && |r| == Span(d.VSize(), k) && PrintSlots(d, k, r, depth).Done?
    ensures OnlyNumbersDiffer(r, SwapSlots(d, k, r, depth))
    decreases d, 2, k
  {
    hide OnlyNumbersDiffer, PrintOne, SwapOne;
    if k == 0 || r[0].presence == 0 {
      NoneDiffer(r);
    } else {
      var v := d.VSize();
      OneDiffers(d, r[..v], depth);
      SlotsDiffer(d, k - 1, r[v..], depth);
      DifferApart(r[..v], r[v..], SwapOne(d, r[..v], depth), SwapSlots(d, k - 1, r[v..], depth));
      assert r[..v] + r[v..] == r;
    }
  }

  lemma {:induction false} AllDiffer(cs: seq<Desc>, m: seq<Cell>, depth: nat)
    requires WellFormed(cs) && Extent(cs) <= |m| && Print(cs, m, depth).Done?
    ensures OnlyNumbersDiffer(m, SwapAll(cs, m, depth))
    decreases cs, 0, 0
  {
    hide OnlyNumbersDiffer, PrintSlots, SwapSlots;
    if cs == [] {
      NoneDiffer(m);
    } else {
      var n := HeadSize(cs);
      SlotsDiffer(cs[0], Capacity(cs), m[..n], depth);
      AllDiffer(Rest(cs), m[n..], depth);
      DifferApart(m[..n], m[n..], SwapSlots(cs[0], Capacity(cs), m[..n], depth), SwapAll(Rest(cs), m[n..], depth));
      assert m[..n] + m[n..] == m;
    }
  }

  // ---- what parsing leaves in the struct

  /** A field that does not repeat takes the last of its TLVs. */
  lemma LastWins(cs: seq<Desc>, m: seq<Cell>, i: nat, t: Tlv, u: Tlv, depth: nat)
    requires WellFormed(cs) && Extent(cs) <= |m| && i < |cs| && cs[i].Leaf? && !Repeats(cs[i..])
    requires cs[i].Tag() == t.Tag() == u.Tag() && forall j :: 0 <= j < i ==> cs[j].Tag() != t.Tag()
    requires ParseOne(cs, m, t, depth).Parsed? && !cs[i].ctype.Null?
    ensures Extent(cs) <= |ParseOne(cs, m, t, depth).value|
    ensures ParseOne(cs, ParseOne(cs, m, t, depth).value, u, depth) == ParseOne(cs, m, u, depth)
  {
    hide WellFormed, Extent, ParseOne, PrintOffset, HeadSize;
    var m1 := ParseOne(cs, m, t, depth).value;
    ParseOneAt(cs, m, t, depth, i);
    ParseOneAt(cs, m, u, depth, i);
    ParseOneAt(cs, m1, u, depth, i);
    var ds, o := cs[i..], PrintOffset(cs, i);
    assert ds[0] == cs[i];
    FilledTwice(ds, m, t, u, depth, o);
  }

  lemma FilledTwice(ds: seq<Desc>, m: seq<Cell>, t: Tlv, u: Tlv, depth: nat, o: nat)
    requires WellFormed(ds) && ds != [] && ds[0].Leaf? && !Repeats(ds) && !ds[0].ctype.Null? && o + HeadSize(ds) <= |m|
    requires FillAt(ds, m, t, depth, o).Parsed?
    ensures |FillAt(ds, m, t, depth, o).value| == |m|
    ensures FillAt(ds, FillAt(ds, m, t, depth, o).value, u, depth, o) == FillAt(ds, m, u, depth, o)
  {
    hide ParseLeaf;
    var d, n := ds[0], HeadSize(ds);
    SingleSlotSpan(d);
    var s := m[o..o + n];
    var m1 := FillAt(ds, m, t, depth, o).value;
    var first := FillOne(d, s, t, depth).value;
    assert m1 == Splice(m, o, first);
    SplicedTwice(m, o, first);
    assert ParseLeaf(d, first[0].value, u.value) == ParseLeaf(d, s[0].value, u.value) by {
      LeafRead(d, first[0].value, u.value);
      LeafRead(d, s[0].value, u.value);
    }
    assert first[1..] == s[1..] && m1[o..o + n] == first;
    assert FillOne(d, first, u, depth) == FillOne(d, s, u, depth);
    if FillOne(d, s, u, depth).Parsed? { SpliceOver(m, o, first, FillOne(d, s, u, depth).value); }
  }

  lemma SplicedTwice(m: seq<Cell>, o: nat, w: seq<Cell>)
    requires o + |w| <= |m|
    ensures Splice(m, o, w)[o..o + |w|] == w
  {
  }

  /** Where a block is refused, the TLVs before the one refused are in the struct, and that one has left what it leaves. */
  lemma {:induction false} RefusedAt(cs: seq<Desc>, m: seq<Cell>, ts: seq<Tlv>, depth: nat) returns (k: nat)
    requires WellFormed(cs) && Extent(cs) <= |m| && !ParseAll(cs, m, ts, depth).Parsed?
    ensures k < |ts| && ParseAll(cs, m, ts[..k], depth).Parsed?
    ensures var m1 := ParseAll(cs, m, ts[..k], depth).value;
      !ParseOne(cs, m1, ts[k], depth).Parsed? && AfterAll(cs, m, ts, depth) == AfterTlv(cs, m1, ts[k], depth)
    decreases |ts|
  {
    hide ParseOne, AfterTlv, WellFormed, Extent;
    TlvParsed(cs, m, ts[0], depth);
    var p := ParseOne(cs, m, ts[0], depth);
    if p.Parsed? {
      var j := RefusedAt(cs, p.value, ts[1..], depth);
      k := j + 1;
      assert ts[..k][0] == ts[0] && ts[..k][1..] == ts[1..][..j];
    } else {
      k := 0;
      assert ts[..0] == [];
    }
  }

  /** A refused leaf is as it was; a compound that is refused for what is in it keeps that, but not as present; one that is
      empty, or no block, or more than eight deep is as it was. */
  lemma RefusedSlot(d: Desc, s: seq<Cell>, t: Tlv, depth: nat)
    requires FieldOk(d) && |s| == d.VSize() && !FillOne(d, s, t, depth).Parsed?
    ensures match d
      case Leaf(_, _, _, _, _) => AfterOne(d, s, t, depth) == s
      case Compound(_, _, _, children) =>
        var kids := ParseBlock(t.value);
        if kids.None? || kids.value == [] || depth >= 8 then AfterOne(d, s, t, depth) == s
        else
          && AfterOne(d, s, t, depth)[..8] == s[..8]
          && AfterOne(d, s, t, depth)[8..] == AfterAll(children, s[8..], kids.value, depth + 1)
  {
    hide ParseLeaf, ParseBlock, ParseAll, AfterAll;
  }

  /** Compounds may be eight deep, when printed and when parsed. */
  lemma EightDeep(d: Desc, s: seq<Cell>, t: Tlv, depth: nat)
    requires d.Compound? && FieldOk(d) && |s| == d.VSize()
    ensures PrintOne(d, s, depth).Done? <==>
      depth < 8 && Print(d.children, s[8..], depth + 1).Done? && Print(d.children, s[8..], depth + 1).value != []
    ensures ParseBlock(t.value).Some? && ParseBlock(t.value).value != [] && depth >= 8 ==> FillOne(d, s, t, depth).Fatal?
    ensures FillOne(d, s, t, depth).Parsed? <==>
      && depth < 8 && ParseBlock(t.value).Some? && ParseBlock(t.value).value != []
      && ParseAll(d.children, s[8..], ParseBlock(t.value).value, depth + 1).Parsed?
    ensures FillOne(d, s, t, depth).Parsed? ==>
      FillOne(d, s, t, depth).value ==
        [Cell(1, s[0].value)] + s[1..8] + ParseAll(d.children, s[8..], ParseBlock(t.value).value, depth + 1).value
  {
    hide ParseBlock, ParseAll, Print;
  }
}

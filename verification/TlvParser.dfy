/** The TLV parser, over a message struct updated in place. */
module TlvParser {
  import opened Wrappers
  import opened Bytes
  import opened TlvModel
  import opened TlvMemory
  import opened TlvOffsets
  import opened TlvAfter

  /** tlv_find_desc: the first child with the tag of the TLV, and the offset of its memory. */
  method FindDesc(cs: seq<Desc>, t: Tlv) returns (found: bool, index: nat, offset: int)
    requires WellFormed(cs)
    ensures !found ==> forall j :: 0 <= j < |cs| ==> cs[j].Tag() != t.Tag()
    ensures found ==> index < |cs| && cs[index].Tag() == t.Tag() && forall j :: 0 <= j < index ==> cs[j].Tag() != t.Tag()
    ensures found && !cs[index].More? ==> offset == PrintOffset(cs, index)
  {
    hide WellFormed, PrintOffset;
    var prev := None;
    var i: nat := 0;
    offset := 0;
    found, index := false, 0;
    while i < |cs|
      invariant i <= |cs| && offset == FindOffset(cs, i)
      invariant prev == if i == 0 then None else Some(cs[i - 1])
      invariant forall j :: 0 <= j < i ==> cs[j].Tag() != t.Tag()
    {
      var d := cs[i];
      if d.Tag() == t.Tag() {
        found, index := true, i;
        if !d.More? { OffsetsAgree(cs, i); }
        return;
      }
      if d.More? {
        MoreFollowsField(cs, i);
        assert prev.Some? && !prev.value.More?;
        offset := offset + prev.value.VSize() * (d.length - 1);
      } else {
        offset := offset + d.VSize();
      }
      prev := Some(d);
      i := i + 1;
    }
  }

  // ---- leaves

  lemma Shifts(bytes: seq<Byte>)
    ensures |bytes| == 1 ==> FromBigEndian(bytes) == bytes[0]
    ensures |bytes| == 2 ==> FromBigEndian(bytes) == bytes[0] as int * 0x100 + bytes[1]
    ensures |bytes| == 3 ==> FromBigEndian(bytes) == bytes[0] as int * 0x1_0000 + bytes[1] as int * 0x100 + bytes[2]
    ensures |bytes| == 4 ==>
      FromBigEndian(bytes) == bytes[0] as int * 0x100_0000 + bytes[1] as int * 0x1_0000 + bytes[2] as int * 0x100 + bytes[3]
  {
    if 1 <= |bytes| <= 4 {
      var front := bytes[..|bytes| - 1];
      if front != [] { Shifts(front); }
    }
  }

  /** tlv_parse_leaf */
  method ReadLeaf(msg: array<Cell>, o: nat, d: Desc, bytes: seq<Byte>) returns (rv: Parse<()>)
    requires d.Leaf? && o < msg.Length
    modifies msg
    ensures var p := ParseLeaf(d, old(msg[o].value), bytes);
      && Same(rv, p)
      && msg[..] == old(msg[..])[o := Cell(old(msg[o].presence), if p.Parsed? then p.value else old(msg[o].value))]
  {
    var value := msg[o].value;
    match d.ctype {
      case Uint8 | Int8 =>
        if |bytes| != 1 { return Invalid; }
        value := Number(bytes[0]);
      case Uint16 | Int16 =>
        if |bytes| != 2 { return Invalid; }
        value := Number(bytes[0] as int * 0x100 + bytes[1]);
      case Uint24 | Int24 =>
        if |bytes| != 3 { return Invalid; }
        value := Number(bytes[0] as int * 0x1_0000 + bytes[1] as int * 0x100 + bytes[2]);
      case Uint32 | Int32 =>
        if |bytes| != 4 { return Invalid; }
        value := Number(bytes[0] as int * 0x100_0000 + bytes[1] as int * 0x1_0000 + bytes[2] as int * 0x100 + bytes[3]);
      case FixedStr =>
        if |bytes| != d.length { return Invalid; }
        value := Octets(bytes, |bytes|);
      case VarStr =>
        value := Octets(bytes, |bytes|);
      case Null =>
        if |bytes| != 0 { return Invalid; }
    }
    Shifts(bytes);
    msg[o] := Cell(msg[o].presence, value);
    rv := Parsed(());
  }

  /** The same result code. */
  predicate Same<T, U>(p: Parse<T>, q: Parse<U>) {
    p.Parsed? == q.Parsed? && p.Invalid? == q.Invalid?
  }

  // ---- fields

  /** A TLV into the slot at `o`: the rest of the loop body of tlv_parse_compound. */
  method ReadField(msg: array<Cell>, o: nat, d: Desc, t: Tlv, depth: nat) returns (rv: Parse<()>)
    requires FieldOk(d) && o + d.VSize() <= msg.Length
    modifies msg
    ensures var s := old(msg[..])[o..o + d.VSize()];
      Same(rv, FillOne(d, s, t, depth)) && msg[..] == Splice(old(msg[..]), o, AfterOne(d, s, t, depth))
    decreases d, 1, 0
  {
    hide ParseLeaf, ParseAll, AfterAll, WellFormed, Extent, Splice, ParseBlock;
    var v := d.VSize();
    ghost var all := msg[..];
    ghost var s := all[o..o + v];
    SpliceSame(all, o, v);
    match d {
      case Leaf(_, _, _, _, _) =>
        rv := ReadLeaf(msg, o, d, t.value);
        if !rv.Parsed? { return; }
        msg[o] := msg[o].(presence := 1);
        SpliceCell(all, o, v, msg[o]);
      case Compound(_, _, _, children) =>
        var embedded := ParseBlock(t.value);
        if embedded.None? || embedded.value == [] { return Invalid; }
        if depth + 1 > MAX_DEPTH { return Fatal; }
        SliceOfSlice(all, o, v, PRESENCE_SIZE, v);
        ghost var sub := AfterAll(children, s[PRESENCE_SIZE..], embedded.value, depth + 1);
        rv := ReadCompound(msg, o + PRESENCE_SIZE, v - PRESENCE_SIZE, children, embedded.value, depth + 1);
        SpliceEnd(all, o, v, PRESENCE_SIZE, sub);
        if !rv.Parsed? { return; }
        SpliceBehind(all, o, v, Cell(1, s[0].value), sub);
        SpliceKeeps(all, o + PRESENCE_SIZE, sub);
        msg[o] := msg[o].(presence := 1);
    }
  }

  lemma SpliceBehind(all: seq<Cell>, o: nat, v: nat, c: Cell, w: seq<Cell>)
    requires PRESENCE_SIZE <= v && o + v <= |all| && |w| == v - PRESENCE_SIZE
    ensures Splice(all, o + PRESENCE_SIZE, w)[o := c] == Splice(all, o, [c] + all[o..o + v][1..PRESENCE_SIZE] + w)
  {
  }

  lemma SpliceKeeps(all: seq<Cell>, o: nat, w: seq<Cell>)
    requires o + |w| <= |all|
    ensures forall x :: 0 <= x < o ==> Splice(all, o, w)[x] == all[x]
  {
  }

  // ---- repeats

  lemma FilledSlot(d: Desc, k: nat, r: seq<Cell>, t: Tlv, depth: nat)
    requires FieldOk(d) && k > 0 && |r| == Span(d.VSize(), k) && r[0].presence != 0
    ensures |r| == d.VSize() + Span(d.VSize(), k - 1)
    ensures FillSlot(d, k, r, t, depth) == Behind(r[..d.VSize()], FillSlot(d, k - 1, r[d.VSize()..], t, depth))
    ensures AfterSlot(d, k, r, t, depth) == r[..d.VSize()] + AfterSlot(d, k - 1, r[d.VSize()..], t, depth)
  {
  }

  lemma FreeSlot(d: Desc, k: nat, r: seq<Cell>, t: Tlv, depth: nat)
    requires FieldOk(d) && k > 0 && |r| == Span(d.VSize(), k) && r[0].presence == 0
    ensures |r| == d.VSize() + Span(d.VSize(), k - 1)
    ensures FillSlot(d, k, r, t, depth) ==
      var p := FillOne(d, r[..d.VSize()], t, depth);
      if p.Parsed? then Parsed(p.value + r[d.VSize()..]) else p
    ensures AfterSlot(d, k, r, t, depth) == AfterOne(d, r[..d.VSize()], t, depth) + r[d.VSize()..]
  {
  }

  function Behind(a: seq<Cell>, p: Parse<seq<Cell>>): Parse<seq<Cell>> {
    if p.Parsed? then Parsed(a + p.value) else p
  }

  lemma BehindTwice(a: seq<Cell>, b: seq<Cell>, p: Parse<seq<Cell>>)
    ensures Behind(a, Behind(b, p)) == Behind(a + b, p)
  {
    if p.Parsed? { Reassociate(a, b, p.value); }
  }

  /** The search for the first free slot: `j` slots of `length` are taken. */
  ghost predicate Searched(d: Desc, length: nat, r: seq<Cell>, t: Tlv, depth: nat, j: nat, past: nat)
    requires FieldOk(d) && |r| == Span(d.VSize(), length)
  {
    && j <= length && past + Span(d.VSize(), length - j) == |r|
    && FillSlot(d, length, r, t, depth) == Behind(r[..past], FillSlot(d, length - j, r[past..], t, depth))
    && AfterSlot(d, length, r, t, depth) == r[..past] + AfterSlot(d, length - j, r[past..], t, depth)
  }

  lemma SearchStarts(d: Desc, length: nat, r: seq<Cell>, t: Tlv, depth: nat)
    requires FieldOk(d) && |r| == Span(d.VSize(), length)
    ensures Searched(d, length, r, t, depth, 0, 0)
  {
    hide FillSlot, AfterSlot;
    assert r[0..] == r && r[..0] == [];
    var p, q := FillSlot(d, length, r, t, depth), AfterSlot(d, length, r, t, depth);
    if p.Parsed? { assert [] + p.value == p.value; }
    assert [] + q == q;
  }

  lemma SearchPast(d: Desc, length: nat, r: seq<Cell>, t: Tlv, depth: nat, j: nat, past: nat)
    requires FieldOk(d) && |r| == Span(d.VSize(), length) && j < length
    requires Searched(d, length, r, t, depth, j, past)
    requires past < |r| && r[past].presence != 0
    ensures Searched(d, length, r, t, depth, j + 1, past + d.VSize())
  {
    hide FillSlot, FillOne, AfterSlot, AfterOne, FieldOk;
    var v := d.VSize();
    SpanStep(v, length - j);
    Slices(r, past, v);
    var rest := r[past..];
    FilledSlot(d, length - j, rest, t, depth);
    BehindTwice(r[..past], rest[..v], FillSlot(d, length - j - 1, rest[v..], t, depth));
    Reassociate(r[..past], rest[..v], AfterSlot(d, length - j - 1, rest[v..], t, depth));
    assert r[..past] + rest[..v] == r[..past + v];
  }

  lemma SearchEnds(d: Desc, length: nat, r: seq<Cell>, t: Tlv, depth: nat, j: nat, past: nat)
    requires FieldOk(d) && |r| == Span(d.VSize(), length) && j < length
    requires Searched(d, length, r, t, depth, j, past)
    requires past + d.VSize() <= |r| && d.VSize() > 0 && r[past].presence == 0
    ensures var s := r[past..past + d.VSize()];
      && Same(FillSlot(d, length, r, t, depth), FillOne(d, s, t, depth))
      && AfterSlot(d, length, r, t, depth) == Splice(r, past, AfterOne(d, s, t, depth))
  {
    hide FillSlot, FillOne, AfterSlot, AfterOne, FieldOk;
    var v := d.VSize();
    SpanStep(v, length - j);
    Slices(r, past, v);
    FreeSlot(d, length - j, r[past..], t, depth);
    Reassociate(r[..past], AfterOne(d, r[past..][..v], t, depth), r[past..][v..]);
  }

  lemma SearchStep(d: Desc, length: nat, r: seq<Cell>, t: Tlv, depth: nat, j: nat, past: nat)
    requires FieldOk(d) && |r| == Span(d.VSize(), length) && j < length
    requires Searched(d, length, r, t, depth, j, past)
    ensures past + d.VSize() <= |r| && d.VSize() > 0
    ensures r[past].presence != 0 ==> Searched(d, length, r, t, depth, j + 1, past + d.VSize())
    ensures r[past].presence == 0 ==>
      var s := r[past..past + d.VSize()];
      && Same(FillSlot(d, length, r, t, depth), FillOne(d, s, t, depth))
      && AfterSlot(d, length, r, t, depth) == Splice(r, past, AfterOne(d, s, t, depth))
  {
    hide FillSlot, FillOne, AfterSlot, AfterOne, FieldOk, Splice;
    FieldRoom(d);
    SpanStep(d.VSize(), length - j);
    if r[past].presence != 0 {
      SearchPast(d, length, r, t, depth, j, past);
    } else {
      SearchEnds(d, length, r, t, depth, j, past);
    }
  }

  lemma SpliceWithin(all: seq<Cell>, o: nat, n: nat, past: nat, w: seq<Cell>)
    requires o + n <= |all| && past + |w| <= n
    ensures Splice(all, o, Splice(all[o..o + n], past, w)) == Splice(all, o + past, w)
  {
  }

  /** Another occurrence of a repeated field: into its first free slot. */
  method ReadRepeat(msg: array<Cell>, offset: nat, d: Desc, length: nat, t: Tlv, depth: nat) returns (rv: Parse<()>)
    requires FieldOk(d) && offset + Span(d.VSize(), length) <= msg.Length
    modifies msg
    ensures var r := old(msg[..])[offset..offset + Span(d.VSize(), length)];
      && Same(rv, FillSlot(d, length, r, t, depth))
      && msg[..] == Splice(old(msg[..]), offset, AfterSlot(d, length, r, t, depth))
    decreases d, 2, 0
  {
    hide *;
    ghost var all := msg[..];
    ghost var n := Span(d.VSize(), length);
    ghost var r := all[offset..offset + n];
    var j := 0;
    SearchStarts(d, length, r, t, depth);
    while j < length
      invariant j <= length && msg[..] == all
      invariant Searched(d, length, r, t, depth, j, d.VSize() * j)
    {
      SearchStep(d, length, r, t, depth, j, d.VSize() * j);
      assert d.VSize() * (j + 1) == d.VSize() * j + d.VSize();
      FieldRoom(d);
      assert r[d.VSize() * j] == all[offset + d.VSize() * j] == msg[offset + d.VSize() * j];
      if msg[offset + d.VSize() * j].presence == 0 {
        ghost var past := d.VSize() * j;
        SliceOfSlice(all, offset, n, past, past + d.VSize());
        ghost var s := r[past..past + d.VSize()];
        SpliceWithin(all, offset, n, past, AfterOne(d, s, t, depth));
        rv := ReadField(msg, offset + d.VSize() * j, d, t, depth);
        SameParsed(rv, FillOne(d, s, t, depth), FillSlot(d, length, r, t, depth));
        return;
      }
      j := j + 1;
    }
    SearchFails(d, length, r, t, depth, d.VSize() * j);
    SpliceSame(all, offset, n);
    rv := Fatal;
  }

  lemma SearchFails(d: Desc, length: nat, r: seq<Cell>, t: Tlv, depth: nat, past: nat)
    requires FieldOk(d) && |r| == Span(d.VSize(), length) && Searched(d, length, r, t, depth, length, past)
    ensures forall rv: Parse<()> :: rv.Fatal? ==> Same(rv, FillSlot(d, length, r, t, depth))
    ensures AfterSlot(d, length, r, t, depth) == r
  {
    assert r[..past] + r[past..] == r;
  }

  lemma SameParsed(rv: Parse<()>, p: Parse<seq<Cell>>, q: Parse<seq<Cell>>)
    requires Same(rv, p) && Same(q, p)
    ensures Same(rv, q)
  {
  }

  // ---- blocks

  lemma HeadIs(cs: seq<Desc>, r: seq<Cell>, t: Tlv, depth: nat)
    requires WellFormed(cs) && cs != [] && |r| == HeadSize(cs)
    ensures FieldOk(cs[0]) && HeadSize(cs) == Span(cs[0].VSize(), Capacity(cs))
    ensures Repeats(cs) ==>
      && FillHead(cs, r, t, depth) == FillSlot(cs[0], Capacity(cs), r, t, depth)
      && AfterHead(cs, r, t, depth) == AfterSlot(cs[0], Capacity(cs), r, t, depth)
    ensures !Repeats(cs) ==>
      && |r| == cs[0].VSize()
      && FillHead(cs, r, t, depth) == FillOne(cs[0], r, t, depth)
      && AfterHead(cs, r, t, depth) == AfterOne(cs[0], r, t, depth)
  {
    hide FillSlot, FillOne, AfterSlot, AfterOne;
  }

  /** One round of the loop of tlv_parse_compound. */
  method ReadTlv(msg: array<Cell>, base: nat, size: nat, cs: seq<Desc>, t: Tlv, depth: nat) returns (rv: Parse<()>)
    requires WellFormed(cs) && Extent(cs) <= size && base + size <= msg.Length
    modifies msg
    ensures var m := old(msg[..])[base..base + size];
      Same(rv, ParseOne(cs, m, t, depth)) && msg[..] == Splice(old(msg[..]), base, AfterTlv(cs, m, t, depth))
    decreases cs, 0, 0
  {
    hide WellFormed, Extent, ParseOne, FillHead, FillSlot, FillOne, AfterTlv, AfterHead, AfterSlot, AfterOne, Splice;
    hide HeadSize, PrintOffset, FieldOk, Span;
    ghost var all := msg[..];
    ghost var m := all[base..base + size];
    SpliceSame(all, base, size);
    var found, index, offset := FindDesc(cs, t);
    if !found {
      ParseOneNowhere(cs, m, t, depth);
      AfterNowhere(cs, m, t, depth);
      return Invalid;
    }
    var d := cs[index];
    ParseOneAt(cs, m, t, depth, index);
    AfterTlvAt(cs, m, t, depth, index);
    if d.More? { return Fatal; }
    ghost var h := HeadSize(cs[index..]);
    SliceOfSlice(all, base, size, offset, offset + h);
    HeadIs(cs[index..], m[offset..offset + h], t, depth);
    assert cs[index..][0] == d;
    SpliceWithin(all, base, size, offset, AfterHead(cs[index..], m[offset..offset + h], t, depth));
    if index + 1 < |cs| && cs[index + 1].More? {
      assert Repeats(cs[index..]) && Capacity(cs[index..]) == cs[index + 1].length;
      rv := ReadRepeat(msg, base + offset, d, cs[index + 1].length, t, depth);
    } else {
      rv := ReadField(msg, base + offset, d, t, depth);
    }
  }

  lemma AllStep(cs: seq<Desc>, m: seq<Cell>, ts: seq<Tlv>, depth: nat)
    requires WellFormed(cs) && Extent(cs) <= |m| && ts != []
    ensures var p, m1 := ParseOne(cs, m, ts[0], depth), AfterTlv(cs, m, ts[0], depth);
      && (p.Parsed? ==> p.value == m1)
      && Same(ParseAll(cs, m, ts, depth), if p.Parsed? then ParseAll(cs, m1, ts[1..], depth) else p)
      && AfterAll(cs, m, ts, depth) == if p.Parsed? then AfterAll(cs, m1, ts[1..], depth) else m1
  {
    hide ParseOne, AfterTlv;
    TlvParsed(cs, m, ts[0], depth);
  }

  /** tlv_parse_compound */
  method ReadCompound(msg: array<Cell>, base: nat, size: nat, cs: seq<Desc>, ts: seq<Tlv>, depth: nat)
    returns (rv: Parse<()>)
    requires WellFormed(cs) && Extent(cs) <= size && base + size <= msg.Length
    modifies msg
    ensures var m := old(msg[..])[base..base + size];
      Same(rv, ParseAll(cs, m, ts, depth)) && msg[..] == Splice(old(msg[..]), base, AfterAll(cs, m, ts, depth))
    decreases cs, 0, 1
  {
    hide WellFormed, Extent, ParseOne, AfterTlv, Splice;
    ghost var all := msg[..];
    ghost var m := all[base..base + size];
    var k := 0;
    SpliceSame(all, base, size);
    assert ts[0..] == ts;
    while k < |ts|
      invariant k <= |ts| && |m| == size
      invariant msg[..] == Splice(all, base, m)
      invariant Same(ParseAll(cs, all[base..base + size], ts, depth), ParseAll(cs, m, ts[k..], depth))
      invariant AfterAll(cs, all[base..base + size], ts, depth) == AfterAll(cs, m, ts[k..], depth)
    {
      SpliceAgain(all, base, m);
      assert ts[k..][0] == ts[k] && ts[k..][1..] == ts[k + 1..];
      AllStep(cs, m, ts[k..], depth);
      ghost var m1 := AfterTlv(cs, m, ts[k], depth);
      SpliceOver(all, base, m, m1);
      rv := ReadTlv(msg, base, size, cs, ts[k], depth);
      if !rv.Parsed? { return; }
      m := m1;
      k := k + 1;
    }
    rv := Parsed(());
  }

  lemma SpliceAgain(all: seq<Cell>, o: nat, w: seq<Cell>)
    requires o + |w| <= |all|
    ensures Splice(all, o, w)[o..o + |w|] == w
  {
  }

  lemma SpliceOver(all: seq<Cell>, o: nat, v: seq<Cell>, w: seq<Cell>)
    requires o + |v| <= |all| && |w| == |v|
    ensures Splice(Splice(all, o, v), o, w) == Splice(all, o, w)
  {
  }

  /** What a parse of a whole message leaves. */
  function AfterMsg(cs: seq<Desc>, m: seq<Cell>, bytes: seq<Byte>): (r: seq<Cell>)
    requires WellFormed(cs) && Extent(cs) <= |m|
  {
    var ts := ParseBlock(bytes);
    if ts.None? || ts.value == [] then m else AfterAll(cs, m, ts.value, 0)
  }

  /** ogs_tlv_parse_msg */
  method Read(msg: array<Cell>, cs: seq<Desc>, bytes: seq<Byte>) returns (rv: Parse<()>)
    requires WellFormed(cs) && Extent(cs) <= msg.Length
    modifies msg
    ensures var p := ParseMsg(cs, old(msg[..]), bytes);
      && Same(rv, p) && msg[..] == AfterMsg(cs, old(msg[..]), bytes)
      && (p.Parsed? ==> msg[..] == p.value)
  {
    hide WellFormed, Extent, ParseAll, AfterAll, ParseBlock;
    ghost var all := msg[..];
    assert all[0..msg.Length] == all;
    var root := ParseBlock(bytes);
    if root.None? || root.value == [] { return Invalid; }
    AllParsed(cs, all, root.value, 0);
    rv := ReadCompound(msg, 0, msg.Length, cs, root.value, 0);
  }
}

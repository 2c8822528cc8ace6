/** Where the fields of a struct are: the printer and the parser walk the descriptors differently. */
module TlvOffsets {
  import opened TlvModel
  import opened TlvMemory

  /** What tlv_find_desc adds to its offset after child `j`. */
  function Advance(cs: seq<Desc>, j: nat): int
    requires j < |cs|
  {
    if cs[j].More? then (if j == 0 then 0 else cs[j - 1].VSize() * (cs[j].length - 1)) else cs[j].VSize()
  }

  /** The offset tlv_find_desc has when it looks at child `i`. */
  function FindOffset(cs: seq<Desc>, i: nat): int
    requires i <= |cs|
  {
    if i == 0 then 0 else FindOffset(cs, i - 1) + Advance(cs, i - 1)
  }

  /** How many children describe the first field. */
  function Skip(cs: seq<Desc>): nat
    requires cs != []
  {
    if Repeats(cs) then 2 else 1
  }

  /** The offset tlv_add_compound has when it prints child `i`. */
  function PrintOffset(cs: seq<Desc>, i: nat): nat
    requires i < |cs|
    decreases |cs|
  {
    if i < Skip(cs) then 0 else HeadSize(cs) + PrintOffset(Rest(cs), i - Skip(cs))
  }

  lemma {:induction false} FindOffsetOfRest(cs: seq<Desc>, i: nat)
    requires cs != [] && WellFormed(cs) && Skip(cs) <= i <= |cs|
    ensures FindOffset(cs, i) == HeadSize(cs) + FindOffset(Rest(cs), i - Skip(cs))
    decreases i
  {
    SpanIsProduct(cs[0].VSize(), Capacity(cs));
    if i == Skip(cs) {
      assert FindOffset(cs, 1) == FindOffset(cs, 0) + cs[0].VSize();
      if Repeats(cs) {
        var v: int, k: int := cs[0].VSize(), cs[1].length;
        assert v + v * (k - 1) == v * k;
      }
    } else {
      FindOffsetOfRest(cs, i - 1);
      assert Rest(cs)[i - 1 - Skip(cs)] == cs[i - 1];
      assert i - 1 == Skip(cs) ==> !Rest(cs)[0].More?;
    }
  }

  /** Offset agreement: for every field, also after repeated ones, parser and printer look at the same place. */
  lemma {:induction false} OffsetsAgree(cs: seq<Desc>, i: nat)
    requires WellFormed(cs) && i < |cs| && !cs[i].More?
    ensures FindOffset(cs, i) == PrintOffset(cs, i)
    decreases |cs|
  {
    if i >= Skip(cs) {
      FindOffsetOfRest(cs, i);
      OffsetsAgree(Rest(cs), i - Skip(cs));
    }
  }

  /** A More never comes first and never follows another: the assertion of tlv_find_desc holds. */
  lemma {:induction false} MoreFollowsField(cs: seq<Desc>, i: nat)
    requires WellFormed(cs) && i < |cs| && cs[i].More?
    ensures i > 0 && !cs[i - 1].More?
    decreases |cs|
  {
    if i >= Skip(cs) {
      MoreFollowsField(Rest(cs), i - Skip(cs));
      assert Rest(cs)[i - 1 - Skip(cs)] == cs[i - 1];
    }
  }

  /** The children from a field on form a struct of their own, at the offset of the field. */
  lemma {:induction false} SuffixFits(cs: seq<Desc>, i: nat)
    requires WellFormed(cs) && i < |cs| && !cs[i].More?
    ensures WellFormed(cs[i..]) && PrintOffset(cs, i) + Extent(cs[i..]) == Extent(cs)
    decreases |cs|
  {
    if i >= Skip(cs) {
      SuffixFits(Rest(cs), i - Skip(cs));
      assert Rest(cs)[i - Skip(cs)..] == cs[i..];
    } else {
      assert cs[0..] == cs;
    }
  }

  /** Slot `a` of field `i`: where tlv_parse_compound puts an occurrence. */
  function SlotOffset(cs: seq<Desc>, i: nat, a: nat): int
    requires i < |cs|
  {
    FindOffset(cs, i) + cs[i].VSize() * a
  }

  lemma SlotsInOrder(v: nat, a: nat, b: nat)
    requires a < b
    ensures v * a + v <= v * b
  {
    assert v * b == v * a + v * (b - a);
    assert v * (b - a) == v + v * (b - a - 1);
    assert v * (b - a - 1) >= 0;
  }

  lemma SlotInField(cs: seq<Desc>, i: nat, a: nat)
    requires WellFormed(cs) && i < |cs| && !cs[i].More? && a < Capacity(cs[i..])
    ensures PrintOffset(cs, i) <= SlotOffset(cs, i, a)
    ensures SlotOffset(cs, i, a) + cs[i].VSize() <= PrintOffset(cs, i) + HeadSize(cs[i..])
  {
    hide WellFormed, FindOffset, PrintOffset, Capacity;
    OffsetsAgree(cs, i);
    var v, k := cs[i].VSize(), Capacity(cs[i..]);
    SpanIsProduct(v, k);
    SlotsInOrder(v, a, k);
  }

  /** A field ends before the next one starts. */
  lemma {:induction false} FieldsInOrder(cs: seq<Desc>, i: nat, j: nat)
    requires WellFormed(cs) && i < j < |cs| && !cs[i].More? && !cs[j].More?
    ensures PrintOffset(cs, i) + HeadSize(cs[i..]) <= PrintOffset(cs, j)
    decreases |cs|
  {
    if i >= Skip(cs) {
      FieldsInOrder(Rest(cs), i - Skip(cs), j - Skip(cs));
      assert Rest(cs)[i - Skip(cs)..] == cs[i..];
    } else {
      assert cs[0..] == cs;
    }
  }

  /** All slots of all fields lie inside the struct, and no two of them overlap. */
  lemma SlotsDisjoint(cs: seq<Desc>, i: nat, a: nat, j: nat, b: nat)
    requires WellFormed(cs) && i < |cs| && !cs[i].More? && j < |cs| && !cs[j].More?
    requires a < Capacity(cs[i..]) && b < Capacity(cs[j..]) && (i, a) != (j, b)
    ensures 0 <= SlotOffset(cs, i, a) && SlotOffset(cs, i, a) + cs[i].VSize() <= Extent(cs)
    ensures SlotOffset(cs, i, a) + cs[i].VSize() <= SlotOffset(cs, j, b)
         || SlotOffset(cs, j, b) + cs[j].VSize() <= SlotOffset(cs, i, a)
  {
    hide WellFormed, FindOffset, PrintOffset, HeadSize;
    SlotInField(cs, i, a);
    SlotInField(cs, j, b);
    SuffixFits(cs, i);
    if i < j {
      FieldsInOrder(cs, i, j);
    } else if j < i {
      FieldsInOrder(cs, j, i);
    } else if a < b {
      SlotsInOrder(cs[i].VSize(), a, b);
    } else {
      SlotsInOrder(cs[i].VSize(), b, a);
    }
  }

  // ---- what the parser does, at an offset

  /** One TLV into the first field of `ds`, whose memory starts at `o`. */
  function FillAt(ds: seq<Desc>, m: seq<Cell>, t: Tlv, depth: nat, o: nat): Parse<seq<Cell>>
    requires WellFormed(ds) && ds != [] && o + HeadSize(ds) <= |m|
  {
    var p := FillHead(ds, m[o..o + HeadSize(ds)], t, depth);
    if p.Parsed? then Parsed(Splice(m, o, p.value)) else p
  }

  lemma ParseOneHead(cs: seq<Desc>, m: seq<Cell>, t: Tlv, depth: nat)
    requires WellFormed(cs) && cs != [] && Extent(cs) <= |m| && cs[0].Tag() == t.Tag()
    ensures ParseOne(cs, m, t, depth) == FillAt(cs, m, t, depth, 0)
  {
    hide FillHead;
    var p := FillHead(cs, m[..HeadSize(cs)], t, depth);
    if p.Parsed? { assert m[..0] + p.value == p.value; }
  }

  lemma ParseOneTail(cs: seq<Desc>, m: seq<Cell>, t: Tlv, depth: nat)
    requires WellFormed(cs) && cs != [] && Extent(cs) <= |m| && cs[0].Tag() != t.Tag()
    requires Repeats(cs) ==> t.Tag() != (0, 0)
    ensures WellFormed(Rest(cs)) && HeadSize(cs) + Extent(Rest(cs)) <= |m|
    ensures ParseOne(cs, m, t, depth) ==
      var p := ParseOne(Rest(cs), m[HeadSize(cs)..], t, depth);
      if p.Parsed? then Parsed(m[..HeadSize(cs)] + p.value) else p
  {
  }

  lemma FillAtTail(ds: seq<Desc>, m: seq<Cell>, t: Tlv, depth: nat, n: nat, o: nat)
    requires WellFormed(ds) && ds != [] && n + o + HeadSize(ds) <= |m|
    ensures FillAt(ds, m, t, depth, n + o) ==
      var p := FillAt(ds, m[n..], t, depth, o);
      if p.Parsed? then Parsed(m[..n] + p.value) else p
  {
    hide FillHead, HeadSize, WellFormed;
    var h := HeadSize(ds);
    assert m[n..][o..o + h] == m[n + o..n + o + h];
    var p := FillHead(ds, m[n + o..n + o + h], t, depth);
    if p.Parsed? { SpliceTail(m, n, o, p.value); }
  }

  lemma SpliceTail(m: seq<Cell>, n: nat, o: nat, w: seq<Cell>)
    requires n + o + |w| <= |m|
    ensures m[..n] + Splice(m[n..], o, w) == Splice(m, n + o, w)
  {
  }

  lemma ShiftedChildren(cs: seq<Desc>, i: nat)
    requires cs != [] && Skip(cs) <= i < |cs|
    ensures |Rest(cs)| == |cs| - Skip(cs)
    ensures Rest(cs)[i - Skip(cs)] == cs[i] && Rest(cs)[i - Skip(cs)..] == cs[i..]
    ensures forall j :: 0 <= j < |Rest(cs)| ==> Rest(cs)[j] == cs[j + Skip(cs)]
  {
  }

  lemma FirstField(cs: seq<Desc>, i: nat, m: seq<Cell>, t: Tlv, depth: nat)
    requires WellFormed(cs) && Extent(cs) <= |m| && i < |cs| && cs[i].Tag() == t.Tag() && i < Skip(cs)
    requires forall j :: 0 <= j < i ==> cs[j].Tag() != t.Tag()
    ensures cs[i].More? ==> ParseOne(cs, m, t, depth).Fatal?
    ensures !cs[i].More? ==>
      i == 0 && cs[i..] == cs && HeadSize(cs) <= |m| && ParseOne(cs, m, t, depth) == FillAt(cs, m, t, depth, 0)
  {
    hide FillAt, FillHead;
    if !cs[i].More? { ParseOneHead(cs, m, t, depth); }
  }

  /** A TLV that matches child `i` and none before it goes to the field at that offset. */
  lemma {:induction false} ParseOneAt(cs: seq<Desc>, m: seq<Cell>, t: Tlv, depth: nat, i: nat)
    requires WellFormed(cs) && Extent(cs) <= |m| && i < |cs| && cs[i].Tag() == t.Tag()
    requires forall j :: 0 <= j < i ==> cs[j].Tag() != t.Tag()
    ensures cs[i].More? ==> ParseOne(cs, m, t, depth).Fatal?
    ensures !cs[i].More? ==>
      && WellFormed(cs[i..]) && PrintOffset(cs, i) + HeadSize(cs[i..]) <= |m|
      && ParseOne(cs, m, t, depth) == FillAt(cs[i..], m, t, depth, PrintOffset(cs, i))
    decreases |cs|
  {
    hide FillAt, WellFormed, Extent, HeadSize;
    if i < Skip(cs) {
      FirstField(cs, i, m, t, depth);
    } else {
      hide ParseOne;
      var n := HeadSize(cs);
      var k := i - Skip(cs);
      ShiftedChildren(cs, i);
      assert Repeats(cs) ==> cs[1].Tag() == (0, 0);
      ParseOneTail(cs, m, t, depth);
      ParseOneAt(Rest(cs), m[n..], t, depth, k);
      if !cs[i].More? { FillAtTail(cs[i..], m, t, depth, n, PrintOffset(Rest(cs), k)); }
    }
  }

  lemma {:induction false} ParseOneNowhere(cs: seq<Desc>, m: seq<Cell>, t: Tlv, depth: nat)
    requires WellFormed(cs) && Extent(cs) <= |m|
    requires forall j :: 0 <= j < |cs| ==> cs[j].Tag() != t.Tag()
    ensures ParseOne(cs, m, t, depth).Invalid?
    decreases |cs|
  {
    if cs != [] {
      forall j | 0 <= j < |Rest(cs)|
        ensures Rest(cs)[j].Tag() != t.Tag()
      {
        assert Rest(cs)[j] == cs[j + Skip(cs)];
      }
      ParseOneNowhere(Rest(cs), m[HeadSize(cs)..], t, depth);
    }
  }
}

/** What a parse leaves in the message struct, also where it fails. */
module TlvAfter {
  import opened TlvModel
  import opened TlvMemory
  import opened TlvOffsets

  /** One TLV into a slot. Where an embedded TLV is refused, those before it stay, and the slot is not marked present. */
  function AfterOne(d: Desc, s: seq<Cell>, t: Tlv, depth: nat): (r: seq<Cell>)
    requires FieldOk(d) && |s| == d.VSize()
    ensures |r| == |s|
    decreases d, 1, 0
  {
    match d
    case Leaf(_, _, _, _, _) =>
      var value := ParseLeaf(d, s[0].value, t.value);
      if value.Parsed? then [Cell(1, value.value)] + s[1..] else s
    case Compound(_, _, _, children) =>
      var kids := ParseBlock(t.value);
      if kids.None? || kids.value == [] || depth >= MAX_DEPTH then s
      else
        var sub := AfterAll(children, s[PRESENCE_SIZE..], kids.value, depth + 1);
        var marked := ParseAll(children, s[PRESENCE_SIZE..], kids.value, depth + 1).Parsed?;
        (if marked then [Cell(1, s[0].value)] + s[1..PRESENCE_SIZE] else s[..PRESENCE_SIZE]) + sub
  }

  /** One TLV into the first free slot; without one, nothing changes. */
  function AfterSlot(d: Desc, k: nat, r: seq<Cell>, t: Tlv, depth: nat): (q: seq<Cell>)
    requires FieldOk(d) && |r| == Span(d.VSize(), k)
    ensures |q| == |r|
    decreases d, 2, k
  {
    if k == 0 then r
    else if r[0].presence == 0 then AfterOne(d, r[..d.VSize()], t, depth) + r[d.VSize()..]
    else r[..d.VSize()] + AfterSlot(d, k - 1, r[d.VSize()..], t, depth)
  }

  function AfterHead(cs: seq<Desc>, r: seq<Cell>, t: Tlv, depth: nat): (q: seq<Cell>)
    requires WellFormed(cs) && cs != [] && |r| == HeadSize(cs)
    ensures |q| == |r|
    decreases cs, 0, 0, 0
  {
    assert Span(cs[0].VSize(), 1) == cs[0].VSize() + Span(cs[0].VSize(), 0);
    if Repeats(cs) then AfterSlot(cs[0], Capacity(cs), r, t, depth) else AfterOne(cs[0], r, t, depth)
  }

  /** One TLV of a block: without a field for it, nothing changes. */
  function AfterTlv(cs: seq<Desc>, m: seq<Cell>, t: Tlv, depth: nat): (r: seq<Cell>)
    requires WellFormed(cs) && Extent(cs) <= |m|
    ensures |r| == |m|
    decreases cs, 0, 0, 1
  {
    if cs == [] then m
    else
      var n := HeadSize(cs);
      if cs[0].Tag() == t.Tag() then AfterHead(cs, m[..n], t, depth) + m[n..]
      else if Repeats(cs) && t.Tag() == (0, 0) then m
      else m[..n] + AfterTlv(Rest(cs), m[n..], t, depth)
  }

  /** A block of TLVs, up to the first that is refused. */
  function AfterAll(cs: seq<Desc>, m: seq<Cell>, ts: seq<Tlv>, depth: nat): (r: seq<Cell>)
    requires WellFormed(cs) && Extent(cs) <= |m|
    ensures |r| == |m|
    decreases cs, 0, |ts|, 2
  {
    if ts == [] then m
    else
      var m1 := AfterTlv(cs, m, ts[0], depth);
      if ParseOne(cs, m, ts[0], depth).Parsed? then AfterAll(cs, m1, ts[1..], depth) else m1
  }

  // ---- where the parse succeeds, it is the result

  lemma {:induction false} OneParsed(d: Desc, s: seq<Cell>, t: Tlv, depth: nat)
    requires FieldOk(d) && |s| == d.VSize()
    ensures var p := FillOne(d, s, t, depth);
      p.Parsed? ==> AfterOne(d, s, t, depth) == p.value
    decreases d, 1, 0
  {
    hide ParseBlock, ParseAll, AfterAll, ParseLeaf;
    match d
    case Leaf(_, _, _, _, _) =>
    case Compound(_, _, _, children) =>
      var kids := ParseBlock(t.value);
      if kids.Some? { AllParsed(children, s[PRESENCE_SIZE..], kids.value, depth + 1); }
  }

  lemma {:induction false} SlotParsed(d: Desc, k: nat, r: seq<Cell>, t: Tlv, depth: nat)
    requires FieldOk(d) && |r| == Span(d.VSize(), k)
    ensures var p := FillSlot(d, k, r, t, depth);
      p.Parsed? ==> AfterSlot(d, k, r, t, depth) == p.value
    decreases d, 2, k
  {
    hide FillOne, AfterOne;
    if k > 0 {
      OneParsed(d, r[..d.VSize()], t, depth);
      SlotParsed(d, k - 1, r[d.VSize()..], t, depth);
    }
  }

  lemma {:induction false} HeadParsed(cs: seq<Desc>, r: seq<Cell>, t: Tlv, depth: nat)
    requires WellFormed(cs) && cs != [] && |r| == HeadSize(cs)
    ensures var p := FillHead(cs, r, t, depth);
      p.Parsed? ==> AfterHead(cs, r, t, depth) == p.value
    decreases cs, 0, 0, 0
  {
    hide FillOne, AfterOne, FillSlot, AfterSlot;
    assert Span(cs[0].VSize(), 1) == cs[0].VSize() + Span(cs[0].VSize(), 0);
    if Repeats(cs) {
      SlotParsed(cs[0], Capacity(cs), r, t, depth);
    } else {
      OneParsed(cs[0], r, t, depth);
    }
  }

  lemma {:induction false} TlvParsed(cs: seq<Desc>, m: seq<Cell>, t: Tlv, depth: nat)
    requires WellFormed(cs) && Extent(cs) <= |m|
    ensures var p := ParseOne(cs, m, t, depth);
      p.Parsed? ==> AfterTlv(cs, m, t, depth) == p.value
    decreases cs, 0, 0, 1
  {
    hide FillHead, AfterHead;
    if cs != [] {
      if cs[0].Tag() == t.Tag() {
        HeadParsed(cs, m[..HeadSize(cs)], t, depth);
      } else {
        TlvParsed(Rest(cs), m[HeadSize(cs)..], t, depth);
      }
    }
  }

  lemma {:induction false} AllParsed(cs: seq<Desc>, m: seq<Cell>, ts: seq<Tlv>, depth: nat)
    requires WellFormed(cs) && Extent(cs) <= |m|
    ensures var p := ParseAll(cs, m, ts, depth);
      p.Parsed? ==> AfterAll(cs, m, ts, depth) == p.value
    decreases cs, 0, |ts|, 2
  {
    hide ParseOne, AfterTlv;
    if ts != [] {
      TlvParsed(cs, m, ts[0], depth);
      var p := ParseOne(cs, m, ts[0], depth);
      if p.Parsed? { AllParsed(cs, p.value, ts[1..], depth); }
    }
  }

  // ---- at an offset

  /** The field at `o` after a TLV for it. */
  function AfterAt(ds: seq<Desc>, m: seq<Cell>, t: Tlv, depth: nat, o: nat): (r: seq<Cell>)
    requires WellFormed(ds) && ds != [] && o + HeadSize(ds) <= |m|
  {
    Splice(m, o, AfterHead(ds, m[o..o + HeadSize(ds)], t, depth))
  }

  lemma AfterAtTail(ds: seq<Desc>, m: seq<Cell>, t: Tlv, depth: nat, n: nat, o: nat)
    requires WellFormed(ds) && ds != [] && n + o + HeadSize(ds) <= |m|
    ensures AfterAt(ds, m, t, depth, n + o) == m[..n] + AfterAt(ds, m[n..], t, depth, o)
  {
    hide AfterHead, HeadSize, WellFormed;
    var h := HeadSize(ds);
    assert m[n..][o..o + h] == m[n + o..n + o + h];
    SpliceTail(m, n, o, AfterHead(ds, m[n + o..n + o + h], t, depth));
  }

  lemma AfterFirstField(cs: seq<Desc>, i: nat, m: seq<Cell>, t: Tlv, depth: nat)
    requires WellFormed(cs) && Extent(cs) <= |m| && i < |cs| && cs[i].Tag() == t.Tag() && i < Skip(cs)
    requires forall j :: 0 <= j < i ==> cs[j].Tag() != t.Tag()
    ensures cs[i].More? ==> AfterTlv(cs, m, t, depth) == m
    ensures !cs[i].More? ==>
      i == 0 && cs[i..] == cs && HeadSize(cs) <= |m| && AfterTlv(cs, m, t, depth) == AfterAt(cs, m, t, depth, 0)
  {
    hide AfterHead;
    if !cs[i].More? {
      var q := AfterHead(cs, m[..HeadSize(cs)], t, depth);
      assert m[0..HeadSize(cs)] == m[..HeadSize(cs)] && m[..0] + q == q;
    }
  }

  /** A TLV that matches child `i` and none before it changes the field at that offset and nothing else. */
  lemma {:induction false} AfterTlvAt(cs: seq<Desc>, m: seq<Cell>, t: Tlv, depth: nat, i: nat)
    requires WellFormed(cs) && Extent(cs) <= |m| && i < |cs| && cs[i].Tag() == t.Tag()
    requires forall j :: 0 <= j < i ==> cs[j].Tag() != t.Tag()
    ensures cs[i].More? ==> AfterTlv(cs, m, t, depth) == m
    ensures !cs[i].More? ==>
      && WellFormed(cs[i..]) && PrintOffset(cs, i) + HeadSize(cs[i..]) <= |m|
      && AfterTlv(cs, m, t, depth) == AfterAt(cs[i..], m, t, depth, PrintOffset(cs, i))
    decreases |cs|
  {
    hide AfterAt, WellFormed, Extent, HeadSize;
    if i < Skip(cs) {
      AfterFirstField(cs, i, m, t, depth);
    } else {
      var n := HeadSize(cs);
      var k := i - Skip(cs);
      ShiftedChildren(cs, i);
      assert Repeats(cs) ==> cs[1].Tag() == (0, 0);
      AfterTail(cs, m, t, depth);
      hide AfterTlv;
      AfterTlvAt(Rest(cs), m[n..], t, depth, k);
      if cs[i].More? {
        assert m[..n] + m[n..] == m;
      } else {
        AfterAtTail(cs[i..], m, t, depth, n, PrintOffset(Rest(cs), k));
      }
    }
  }

  lemma AfterTail(cs: seq<Desc>, m: seq<Cell>, t: Tlv, depth: nat)
    requires WellFormed(cs) && cs != [] && Extent(cs) <= |m| && cs[0].Tag() != t.Tag()
    requires Repeats(cs) ==> t.Tag() != (0, 0)
    ensures WellFormed(Rest(cs)) && HeadSize(cs) + Extent(Rest(cs)) <= |m|
    ensures AfterTlv(cs, m, t, depth) == m[..HeadSize(cs)] + AfterTlv(Rest(cs), m[HeadSize(cs)..], t, depth)
  {
  }

  lemma {:induction false} AfterNowhere(cs: seq<Desc>, m: seq<Cell>, t: Tlv, depth: nat)
    requires WellFormed(cs) && Extent(cs) <= |m|
    requires forall j :: 0 <= j < |cs| ==> cs[j].Tag() != t.Tag()
    ensures AfterTlv(cs, m, t, depth) == m
    decreases |cs|
  {
    if cs != [] {
      RestHasNone(cs, t.Tag());
      AfterTail(cs, m, t, depth);
      hide *;
      AfterNowhere(Rest(cs), m[HeadSize(cs)..], t, depth);
      assert m[..HeadSize(cs)] + m[HeadSize(cs)..] == m;
    } else {
      assert AfterTlv(cs, m, t, depth) == m;
    }
  }

  lemma RestHasNone(cs: seq<Desc>, tag: (nat, nat))
    requires cs != [] && forall j :: 0 <= j < |cs| ==> cs[j].Tag() != tag
    ensures forall j :: 0 <= j < |Rest(cs)| ==> Rest(cs)[j].Tag() != tag
    ensures Repeats(cs) ==> tag != (0, 0)
  {
    assert forall j :: 0 <= j < |Rest(cs)| ==> Rest(cs)[j] == cs[j + Skip(cs)];
    assert Repeats(cs) ==> cs[1].Tag() == (0, 0);
  }
}

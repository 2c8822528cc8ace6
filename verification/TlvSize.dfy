/** The 16-bit length field: exactly which messages survive being built and parsed. */
module TlvSize {
  import opened Bytes
  import opened TlvModel
  import opened TlvRoundTrip
  import opened TlvPrintable

  // ---- sizes

  /** The octets a value takes on the wire. */
  function ValueSize(d: Desc, value: Value): nat
    requires d.Leaf?
  {
    match d.ctype
    case FixedStr => d.length
    case VarStr => if value.Octets? then value.len else 0
    case Null => 0
    case _ => Width(d.ctype)
  }

  /** The octets of a field without its head of four octets. */
  function Content(d: Desc, s: seq<Cell>): nat
    requires FieldOk(d) && |s| == d.VSize()
    decreases d, 1, 0
  {
    match d
    case Leaf(_, _, _, _, _) => if s[0].presence == 0 then 0 else ValueSize(d, s[0].value)
    case Compound(_, _, _, children) => Size(children, s[PRESENCE_SIZE..])
  }

  function SlotsSize(d: Desc, k: nat, r: seq<Cell>): nat
    requires FieldOk(d) && |r| == Span(d.VSize(), k)
    decreases d, 2, k
  {
    if k == 0 then 0
    else (if r[0].presence == 0 then 0 else 4) + Content(d, r[..d.VSize()]) + SlotsSize(d, k - 1, r[d.VSize()..])
  }

  /** The octets of all fields of a struct, at every depth. */
  function Size(cs: seq<Desc>, m: seq<Cell>): nat
    requires WellFormed(cs) && Extent(cs) <= |m|
    decreases cs, 0, 0
  {
    if cs == [] then 0
    else SlotsSize(cs[0], Capacity(cs), m[..HeadSize(cs)]) + Size(Rest(cs), m[HeadSize(cs)..])
  }

  predicate SlotsShort(d: Desc, k: nat, r: seq<Cell>)
    requires FieldOk(d) && |r| == Span(d.VSize(), k)
    decreases k
  {
    k == 0 ||
    (&& Content(d, r[..d.VSize()]) < 0x1_0000
     && (r[0].presence == 0 ==> Content(d, r[..d.VSize()]) == 0)
     && SlotsShort(d, k - 1, r[d.VSize()..]))
  }

  /** The content of every field fits the length field, and a field that is absent has none. What is inside a compound is
      shorter than the compound, so this holds at every depth if it does of the outermost fields. */
  predicate Short(cs: seq<Desc>, m: seq<Cell>)
    requires WellFormed(cs) && Extent(cs) <= |m|
    decreases |cs|
  {
    cs == [] || (SlotsShort(cs[0], Capacity(cs), m[..HeadSize(cs)]) && Short(Rest(cs), m[HeadSize(cs)..]))
  }

  // ---- what is printed is no longer than the struct

  lemma {:induction false} RenderAppend(xs: seq<Tlv>, ys: seq<Tlv>)
    ensures Render(xs + ys) == Render(xs) + Render(ys)
  {
    hide RenderOne;
    if xs == [] {
      assert xs + ys == ys;
    } else {
      assert (xs + ys)[0] == xs[0] && (xs + ys)[1..] == xs[1..] + ys;
      RenderAppend(xs[1..], ys);
    }
  }

  lemma {:induction false} OnePrintedSize(d: Desc, s: seq<Cell>, depth: nat)
    requires FieldOk(d) && |s| == d.VSize() && s[0].presence != 0
    ensures var x := PrintOne(d, s, depth);
      x.Done? ==> x.value.kind < 256 && x.value.instance < 16 && |Payload(x.value)| <= Content(d, s)
    decreases d, 1, 0
  {
    hide Print, Size, Render;
    match d
    case Leaf(_, _, _, _, _) =>
    case Compound(_, _, _, children) => PrintedSize(children, s[PRESENCE_SIZE..], depth + 1);
  }

  lemma {:induction false} SlotsPrintedSize(d: Desc, k: nat, r: seq<Cell>, depth: nat)
    requires FieldOk(d) && |r| == Span(d.VSize(), k)
    ensures var xs := PrintSlots(d, k, r, depth);
      xs.Done? ==> |Render(xs.value)| <= SlotsSize(d, k, r)
    decreases d, 2, k
  {
    hide PrintOne, Content, Payload;
    if k > 0 && r[0].presence != 0 {
      OnePrintedSize(d, r[..d.VSize()], depth);
      SlotsPrintedSize(d, k - 1, r[d.VSize()..], depth);
      var x, xs := PrintOne(d, r[..d.VSize()], depth), PrintSlots(d, k - 1, r[d.VSize()..], depth);
      if x.Done? && xs.Done? { RenderFirst(x.value, xs.value); }
    }
  }

  lemma RenderFirst(x: Tlv, xs: seq<Tlv>)
    ensures |Render([x] + xs)| == 4 + |Payload(x)| + |Render(xs)|
  {
    assert ([x] + xs)[0] == x && ([x] + xs)[1..] == xs;
  }

  lemma {:induction false} PrintedSize(cs: seq<Desc>, m: seq<Cell>, depth: nat)
    requires WellFormed(cs) && Extent(cs) <= |m|
    ensures var xs := Print(cs, m, depth);
      xs.Done? ==> |Render(xs.value)| <= Size(cs, m)
    decreases cs, 0, 0
  {
    hide PrintSlots, SlotsSize, Render;
    if cs == [] {
      assert |Render([])| == 0 by { NothingRendered(); }
    } else {
      SlotsPrintedSize(cs[0], Capacity(cs), m[..HeadSize(cs)], depth);
      PrintedSize(Rest(cs), m[HeadSize(cs)..], depth);
      var xs, ys := PrintSlots(cs[0], Capacity(cs), m[..HeadSize(cs)], depth), Print(Rest(cs), m[HeadSize(cs)..], depth);
      if xs.Done? && ys.Done? { RenderAppend(xs.value, ys.value); }
    }
  }

  lemma NothingRendered()
    ensures |Render([])| == 0
  {
  }

  // ---- short structs are printed with lengths that fit

  /** Every TLV at every depth has a type and an instance of its field. */
  predicate Named(t: Tlv)
    decreases t, 1
  {
    t.kind < 256 && t.instance < 16 && AllNamed(t.embedded)
  }

  predicate AllNamed(ts: seq<Tlv>)
    decreases ts, 0
  {
    ts == [] || (Named(ts[0]) && AllNamed(ts[1..]))
  }

  lemma {:induction false} NamedAppend(xs: seq<Tlv>, ys: seq<Tlv>)
    requires AllNamed(xs) && AllNamed(ys)
    ensures AllNamed(xs + ys)
  {
    if xs == [] {
      assert xs + ys == ys;
    } else {
      assert (xs + ys)[0] == xs[0] && (xs + ys)[1..] == xs[1..] + ys;
      NamedAppend(xs[1..], ys);
    }
  }

  lemma {:induction false} OneIsNamed(d: Desc, s: seq<Cell>, depth: nat)
    requires FieldOk(d) && |s| == d.VSize()
    ensures PrintOne(d, s, depth).Done? ==> Named(PrintOne(d, s, depth).value)
    decreases d, 1, 0
  {
    hide Print;
    match d
    case Leaf(_, _, _, _, _) =>
    case Compound(_, _, _, children) => PrintIsNamed(children, s[PRESENCE_SIZE..], depth + 1);
  }

  lemma {:induction false} SlotsAreNamed(d: Desc, k: nat, r: seq<Cell>, depth: nat)
    requires FieldOk(d) && |r| == Span(d.VSize(), k)
    ensures PrintSlots(d, k, r, depth).Done? ==> AllNamed(PrintSlots(d, k, r, depth).value)
    decreases d, 2, k
  {
    hide PrintOne, Named;
    if k > 0 && r[0].presence != 0 {
      OneIsNamed(d, r[..d.VSize()], depth);
      SlotsAreNamed(d, k - 1, r[d.VSize()..], depth);
    }
  }

  lemma {:induction false} PrintIsNamed(cs: seq<Desc>, m: seq<Cell>, depth: nat)
    requires WellFormed(cs) && Extent(cs) <= |m|
    ensures Print(cs, m, depth).Done? ==> AllNamed(Print(cs, m, depth).value)
    decreases cs, 0, 0
  {
    hide PrintSlots, Named;
    if cs != [] {
      SlotsAreNamed(cs[0], Capacity(cs), m[..HeadSize(cs)], depth);
      PrintIsNamed(Rest(cs), m[HeadSize(cs)..], depth);
      var xs, ys := PrintSlots(cs[0], Capacity(cs), m[..HeadSize(cs)], depth), Print(Rest(cs), m[HeadSize(cs)..], depth);
      if xs.Done? && ys.Done? { NamedAppend(xs.value, ys.value); }
    }
  }

  /** TLVs inside a short one are short. */
  lemma {:induction false} ShortFits(t: Tlv)
    requires Named(t) && |Payload(t)| < 0x1_0000
    ensures Fits(t)
    decreases t, 1
  {
    if t.embedded != [] { ShortAllFit(t.embedded); }
  }

  lemma {:induction false} ShortAllFit(ts: seq<Tlv>)
    requires AllNamed(ts) && |Render(ts)| < 0x1_0000
    ensures FitAll(ts)
    decreases ts, 0
  {
    if ts != [] {
      assert |RenderOne(ts[0])| == 4 + |Payload(ts[0])|;
      ShortFits(ts[0]);
      ShortAllFit(ts[1..]);
    }
  }

  lemma {:induction false} SlotsFit(d: Desc, k: nat, r: seq<Cell>, depth: nat)
    requires FieldOk(d) && |r| == Span(d.VSize(), k) && SlotsShort(d, k, r)
    ensures PrintSlots(d, k, r, depth).Done? ==> FitAll(PrintSlots(d, k, r, depth).value)
    decreases k
  {
    hide PrintOne, Named, Content, Payload, Fits;
    if k > 0 && r[0].presence != 0 {
      var s := r[..d.VSize()];
      OneIsNamed(d, s, depth);
      OnePrintedSize(d, s, depth);
      var x := PrintOne(d, s, depth);
      if x.Done? { ShortFits(x.value); }
      SlotsFit(d, k - 1, r[d.VSize()..], depth);
    }
  }

  lemma {:induction false} ShortIsPrintedShort(cs: seq<Desc>, m: seq<Cell>, depth: nat)
    requires WellFormed(cs) && Extent(cs) <= |m| && Short(cs, m)
    ensures Print(cs, m, depth).Done? ==> FitAll(Print(cs, m, depth).value)
    decreases |cs|
  {
    hide PrintSlots, SlotsShort, Fits;
    if cs != [] {
      SlotsFit(cs[0], Capacity(cs), m[..HeadSize(cs)], depth);
      ShortIsPrintedShort(Rest(cs), m[HeadSize(cs)..], depth);
      var xs, ys := PrintSlots(cs[0], Capacity(cs), m[..HeadSize(cs)], depth), Print(Rest(cs), m[HeadSize(cs)..], depth);
      if xs.Done? && ys.Done? { FitAppend(xs.value, ys.value); }
    }
  }

  // ---- a struct takes no more than what was parsed into it

  function Total(ts: seq<Tlv>): nat {
    if ts == [] then 0 else 4 + |ts[0].value| + Total(ts[1..])
  }

  predicate AllShort(ts: seq<Tlv>) {
    forall i :: 0 <= i < |ts| ==> |ts[i].value| < 0x1_0000
  }

  lemma {:induction false} BlockTotal(bytes: seq<Byte>)
    ensures ParseBlock(bytes).Some? ==> Total(ParseBlock(bytes).value) == |bytes| && AllShort(ParseBlock(bytes).value)
  {
    hide FromBigEndian;
    if |bytes| >= 4 {
      var length := FromBigEndian(bytes[1..3]);
      assert length < 0x1_0000 by { TwoOctetsShort(bytes[1..3]); }
      if 4 + length <= |bytes| {
        BlockTotal(bytes[4 + length..]);
        var rest := ParseBlock(bytes[4 + length..]);
        if rest.Some? {
          var t := Tlv(bytes[0], bytes[3] % 16, bytes[4..4 + length], []);
          assert ([t] + rest.value)[0] == t && ([t] + rest.value)[1..] == rest.value;
        }
      }
    }
  }

  lemma TwoOctetsShort(bytes: seq<Byte>)
    requires |bytes| == 2
    ensures FromBigEndian(bytes) < 0x1_0000
  {
    BigEndianInverse(bytes);
    PowValues();
  }

  lemma {:induction false} OneFilled(d: Desc, s: seq<Cell>, t: Tlv, depth: nat)
    requires FieldOk(d) && |s| == d.VSize()
    ensures var p := FillOne(d, s, t, depth);
      p.Parsed? ==> Content(d, p.value) <= Content(d, s) + |t.value|
    decreases d, 1, 0
  {
    hide ParseBlock, ParseAll, Size;
    match d
    case Leaf(_, _, _, _, _) =>
    case Compound(_, _, _, children) =>
      var kids := ParseBlock(t.value);
      if kids.Some? && FillOne(d, s, t, depth).Parsed? {
        BlockTotal(t.value);
        AllFilled(children, s[PRESENCE_SIZE..], kids.value, depth + 1);
        var sub := ParseAll(children, s[PRESENCE_SIZE..], kids.value, depth + 1).value;
        assert ([Cell(1, s[0].value)] + s[1..PRESENCE_SIZE] + sub)[PRESENCE_SIZE..] == sub;
      }
  }

  lemma SlotSplit(d: Desc, k: nat, s: seq<Cell>, rest: seq<Cell>)
    requires FieldOk(d) && k > 0 && |s| == d.VSize() && |rest| == Span(d.VSize(), k - 1)
    ensures |s + rest| == Span(d.VSize(), k)
    ensures SlotsSize(d, k, s + rest) == (if s[0].presence == 0 then 0 else 4) + Content(d, s) + SlotsSize(d, k - 1, rest)
    ensures SlotsShort(d, k, s + rest) <==>
      Content(d, s) < 0x1_0000 && (s[0].presence == 0 ==> Content(d, s) == 0) && SlotsShort(d, k - 1, rest)
  {
    hide Content;
    assert (s + rest)[..d.VSize()] == s && (s + rest)[d.VSize()..] == rest && (s + rest)[0] == s[0];
  }

  /** A slot that was absent or present takes at most the TLV; what is full to the last octet is made of short fields. */
  lemma SlotTakes(d: Desc, k: nat, s: seq<Cell>, rest: seq<Cell>, t: Tlv, depth: nat)
    requires FieldOk(d) && k > 0 && |s| == d.VSize() && |rest| == Span(d.VSize(), k - 1)
    requires FillOne(d, s, t, depth).Parsed?
    requires Content(d, FillOne(d, s, t, depth).value) <= Content(d, s) + |t.value|
    ensures var q := FillOne(d, s, t, depth).value + rest;
      |q| == |s + rest| == Span(d.VSize(), k) && Fuller(d, k, s + rest, q, t)
  {
    hide FillOne, Content;
    SlotSplit(d, k, s, rest);
    SlotSplit(d, k, FillOne(d, s, t, depth).value, rest);
  }

  ghost predicate Fuller(d: Desc, k: nat, r: seq<Cell>, q: seq<Cell>, t: Tlv)
    requires FieldOk(d) && |r| == |q| == Span(d.VSize(), k)
  {
    && SlotsSize(d, k, q) <= SlotsSize(d, k, r) + 4 + |t.value|
    && (SlotsSize(d, k, q) == SlotsSize(d, k, r) + 4 + |t.value| && SlotsShort(d, k, r) && |t.value| < 0x1_0000 ==>
          SlotsShort(d, k, q))
  }

  lemma {:induction false} SlotFilled(d: Desc, k: nat, r: seq<Cell>, t: Tlv, depth: nat)
    requires FieldOk(d) && |r| == Span(d.VSize(), k)
    ensures var p := FillSlot(d, k, r, t, depth);
      p.Parsed? ==> Fuller(d, k, r, p.value, t)
    decreases d, 2, k
  {
    hide FillOne, Content, SlotsSize, SlotsShort;
    if k > 0 && FillSlot(d, k, r, t, depth).Parsed? {
      var v := d.VSize();
      var s, rest := r[..v], r[v..];
      assert r == s + rest;
      if r[0].presence == 0 {
        OneFilled(d, s, t, depth);
        SlotTakes(d, k, s, rest, t, depth);
      } else {
        SlotFilled(d, k - 1, rest, t, depth);
        SlotSplit(d, k, s, rest);
        SlotSplit(d, k, s, FillSlot(d, k - 1, rest, t, depth).value);
      }
    }
  }

  lemma {:induction false} HeadFilled(cs: seq<Desc>, r: seq<Cell>, t: Tlv, depth: nat)
    requires WellFormed(cs) && cs != [] && |r| == HeadSize(cs)
    ensures var p := FillHead(cs, r, t, depth);
      p.Parsed? ==> Fuller(cs[0], Capacity(cs), r, p.value, t)
    decreases cs, 0, 0, 0
  {
    hide FillOne, FillSlot, Content, SlotsSize, SlotsShort;
    if Repeats(cs) {
      SlotFilled(cs[0], Capacity(cs), r, t, depth);
    } else if FillHead(cs, r, t, depth).Parsed? {
      SingleSlotSpan(cs[0]);
      OneFilled(cs[0], r, t, depth);
      SlotTakes(cs[0], 1, r, [], t, depth);
      var p := FillOne(cs[0], r, t, depth).value;
      assert r + [] == r && p + [] == p;
    }
  }

  lemma SingleSlotSpan(d: Desc)
    ensures Span(d.VSize(), 1) == d.VSize() && Span(d.VSize(), 0) == 0
  {
    assert Span(d.VSize(), 1) == d.VSize() + Span(d.VSize(), 0);
  }

  lemma FieldsSplit(cs: seq<Desc>, head: seq<Cell>, rest: seq<Cell>)
    requires WellFormed(cs) && cs != [] && |head| == HeadSize(cs) && Extent(Rest(cs)) <= |rest|
    ensures Extent(cs) <= |head + rest|
    ensures Size(cs, head + rest) == SlotsSize(cs[0], Capacity(cs), head) + Size(Rest(cs), rest)
    ensures Short(cs, head + rest) <==> SlotsShort(cs[0], Capacity(cs), head) && Short(Rest(cs), rest)
  {
    hide SlotsSize, SlotsShort;
    assert (head + rest)[..HeadSize(cs)] == head && (head + rest)[HeadSize(cs)..] == rest;
  }

  /** One TLV into a struct. */
  lemma {:induction false} TlvFilled(cs: seq<Desc>, m: seq<Cell>, t: Tlv, depth: nat)
    requires WellFormed(cs) && Extent(cs) <= |m|
    ensures var p := ParseOne(cs, m, t, depth);
      p.Parsed? ==>
        && Size(cs, p.value) <= Size(cs, m) + 4 + |t.value|
        && (Size(cs, p.value) == Size(cs, m) + 4 + |t.value| && Short(cs, m) && |t.value| < 0x1_0000 ==> Short(cs, p.value))
    decreases cs, 0, 0, 1
  {
    hide FillHead, SlotsSize, SlotsShort, Size, Short;
    if cs != [] && ParseOne(cs, m, t, depth).Parsed? {
      var n := HeadSize(cs);
      var head, rest := m[..n], m[n..];
      assert m == head + rest;
      FieldsSplit(cs, head, rest);
      if cs[0].Tag() == t.Tag() {
        HeadFilled(cs, head, t, depth);
        FieldsSplit(cs, FillHead(cs, head, t, depth).value, rest);
      } else {
        TlvFilled(Rest(cs), rest, t, depth);
        FieldsSplit(cs, head, ParseOne(Rest(cs), rest, t, depth).value);
      }
    }
  }

  /** TLVs into a struct: it takes at most their octets, and if it takes all of them its fields are short. */
  lemma {:induction false} AllFilled(cs: seq<Desc>, m: seq<Cell>, ts: seq<Tlv>, depth: nat)
    requires WellFormed(cs) && Extent(cs) <= |m|
    ensures var p := ParseAll(cs, m, ts, depth);
      p.Parsed? ==>
        && Size(cs, p.value) <= Size(cs, m) + Total(ts)
        && (Size(cs, p.value) == Size(cs, m) + Total(ts) && Short(cs, m) && AllShort(ts) ==> Short(cs, p.value))
    decreases cs, 0, |ts|, 2
  {
    hide ParseOne, Size, Short;
    if ts != [] && ParseAll(cs, m, ts, depth).Parsed? {
      TlvFilled(cs, m, ts[0], depth);
      AllFilled(cs, ParseOne(cs, m, ts[0], depth).value, ts[1..], depth);
    }
  }

  lemma {:induction false} ZerosContent(d: Desc, s: seq<Cell>)
    requires FieldOk(d) && |s| == d.VSize() && Blank(s)
    ensures Content(d, s) == 0
    decreases d, 1, 0
  {
    hide Size;
    match d
    case Leaf(_, _, _, _, _) =>
    case Compound(_, _, _, children) => ZerosSize(children, s[PRESENCE_SIZE..]);
  }

  lemma {:induction false} ZerosSlots(d: Desc, k: nat, r: seq<Cell>)
    requires FieldOk(d) && |r| == Span(d.VSize(), k) && Blank(r)
    ensures SlotsSize(d, k, r) == 0 && SlotsShort(d, k, r)
    decreases d, 2, k
  {
    hide Content;
    if k > 0 {
      ZerosContent(d, r[..d.VSize()]);
      ZerosSlots(d, k - 1, r[d.VSize()..]);
    }
  }

  lemma {:induction false} ZerosSize(cs: seq<Desc>, m: seq<Cell>)
    requires WellFormed(cs) && Extent(cs) <= |m| && Blank(m)
    ensures Size(cs, m) == 0 && Short(cs, m)
    decreases cs, 0, 0
  {
    hide SlotsSize, SlotsShort;
    if cs != [] {
      ZerosSlots(cs[0], Capacity(cs), m[..HeadSize(cs)]);
      ZerosSize(Rest(cs), m[HeadSize(cs)..]);
    }
  }

  // ---- the main result

  /** What comes back from parsing its own octets has short fields: two TLVs never make up one field between them. */
  lemma ReturnedIsShort(cs: seq<Desc>, m: seq<Cell>)
    requires WellFormed(cs) && Extent(cs) <= |m|
    requires BuildMsg(cs, m).Done? && ParseMsg(cs, Zeros(|m|), BuildMsg(cs, m).value) == Parsed(m)
    ensures Short(cs, m)
  {
    hide Print, Render, ParseBlock, ParseAll, Size, Short, Zeros;
    var bytes := BuildMsg(cs, m).value;
    PrintedSize(cs, m, 0);
    BlockTotal(bytes);
    BlankIsZeros(Zeros(|m|));
    ZerosSize(cs, Zeros(|m|));
    AllFilled(cs, Zeros(|m|), ParseBlock(bytes).value, 0);
  }

  /** A message can be built and comes back as it was if and only if it is not empty, everything present can be printed,
      nothing stands where printing does not look, and every field fits its length. */
  lemma ComesBackIff(cs: seq<Desc>, m: seq<Cell>)
    requires WellFormed(cs) && Extent(cs) <= |m|
    ensures (BuildMsg(cs, m).Done? && ParseMsg(cs, Zeros(|m|), BuildMsg(cs, m).value) == Parsed(m))
      <==> SomePresent(cs, m) && Printable(cs, m, 0) && Kept(cs, m) && Short(cs, m)
  {
    hide Print, ParseMsg, SomePresent, Printable, Kept, Short, FitAll;
    BuildsIff(cs, m);
    if BuildMsg(cs, m).Done? {
      if ParseMsg(cs, Zeros(|m|), BuildMsg(cs, m).value) == Parsed(m) { ReturnedIsShort(cs, m); }
      if Short(cs, m) {
        ShortIsPrintedShort(cs, m, 0);
        BuildParseIdentityIff(cs, m);
      }
    }
  }
}

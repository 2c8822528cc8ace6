/** Which messages can be built at all. */
module TlvPrintable {
  import opened TlvModel

  /** A field is in the message when its first slot is. */
  predicate SomePresent(cs: seq<Desc>, m: seq<Cell>)
    requires WellFormed(cs) && Extent(cs) <= |m|
    decreases |cs|
  {
    if cs == [] then false
    else if Capacity(cs) > 0 then
      assert FieldOk(cs[0]) && HeadSize(cs) <= |m|;
      assert HeadSize(cs) == cs[0].VSize() + Span(cs[0].VSize(), Capacity(cs) - 1);
      m[0].presence != 0 || SomePresent(Rest(cs), m[HeadSize(cs)..])
    else SomePresent(Rest(cs), m[HeadSize(cs)..])
  }

  /** No 16-bit signed field, and no empty string. */
  predicate LeafPrintable(d: Desc, value: Value)
    requires d.Leaf?
  {
    Typed(d, value) && !d.ctype.Int16? && (d.ctype.VarStr? ==> value.len > 0)
  }

  predicate OnePrintable(d: Desc, s: seq<Cell>, depth: nat)
    requires FieldOk(d) && |s| == d.VSize()
    decreases d, 1, 0
  {
    match d
    case Leaf(_, _, _, _, _) => LeafPrintable(d, s[0].value)
    case Compound(_, _, _, children) =>
      && depth < MAX_DEPTH && SomePresent(children, s[PRESENCE_SIZE..])
      && Printable(children, s[PRESENCE_SIZE..], depth + 1)
  }

  predicate SlotsPrintable(d: Desc, k: nat, r: seq<Cell>, depth: nat)
    requires FieldOk(d) && |r| == Span(d.VSize(), k)
    decreases d, 2, k
  {
    k == 0 || r[0].presence == 0 ||
    (OnePrintable(d, r[..d.VSize()], depth) && SlotsPrintable(d, k - 1, r[d.VSize()..], depth))
  }

  /** Every present field can be printed, and every present compound has something in it. */
  predicate Printable(cs: seq<Desc>, m: seq<Cell>, depth: nat)
    requires WellFormed(cs) && Extent(cs) <= |m|
    decreases cs, 0, 0
  {
    cs == [] ||
    (&& SlotsPrintable(cs[0], Capacity(cs), m[..HeadSize(cs)], depth)
     && Printable(Rest(cs), m[HeadSize(cs)..], depth))
  }

  lemma {:induction false} OnePrints(d: Desc, s: seq<Cell>, depth: nat)
    requires FieldOk(d) && |s| == d.VSize()
    ensures PrintOne(d, s, depth).Done? <==> OnePrintable(d, s, depth)
    decreases d, 1, 0
  {
    hide Print, Printable, SomePresent;
    match d
    case Leaf(_, _, _, _, _) =>
    case Compound(_, _, _, children) =>
      PrintsIff(children, s[PRESENCE_SIZE..], depth + 1);
  }

  lemma {:induction false} SlotsPrint(d: Desc, k: nat, r: seq<Cell>, depth: nat)
    requires FieldOk(d) && |r| == Span(d.VSize(), k)
    ensures PrintSlots(d, k, r, depth).Done? <==> SlotsPrintable(d, k, r, depth)
    ensures PrintSlots(d, k, r, depth).Done? ==>
      (PrintSlots(d, k, r, depth).value != [] <==> k > 0 && r[0].presence != 0)
    decreases d, 2, k
  {
    hide PrintOne, OnePrintable;
    if k > 0 && r[0].presence != 0 {
      OnePrints(d, r[..d.VSize()], depth);
      SlotsPrint(d, k - 1, r[d.VSize()..], depth);
    }
  }

  lemma {:induction false} PrintsIff(cs: seq<Desc>, m: seq<Cell>, depth: nat)
    requires WellFormed(cs) && Extent(cs) <= |m|
    ensures Print(cs, m, depth).Done? <==> Printable(cs, m, depth)
    ensures Print(cs, m, depth).Done? ==> (Print(cs, m, depth).value != [] <==> SomePresent(cs, m))
    decreases cs, 0, 0
  {
    hide PrintSlots, SlotsPrintable;
    if cs != [] {
      SlotsPrint(cs[0], Capacity(cs), m[..HeadSize(cs)], depth);
      PrintsIff(Rest(cs), m[HeadSize(cs)..], depth);
    }
  }

  /** A message can be built if and only if it is not empty and every present part can be printed. */
  lemma BuildsIff(cs: seq<Desc>, m: seq<Cell>)
    requires WellFormed(cs) && Extent(cs) <= |m|
    ensures BuildMsg(cs, m).Done? <==> SomePresent(cs, m) && Printable(cs, m, 0)
  {
    PrintsIff(cs, m, 0);
  }
}

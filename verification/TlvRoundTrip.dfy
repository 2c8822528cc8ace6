/** Parsing what was printed gives the message back. */
module TlvRoundTrip {
  import opened Wrappers
  import opened Bytes
  import opened TlvModel

  // ---- the wire

  predicate Encodable(t: Tlv) {
    t.kind < 256 && t.instance < 16 && |Payload(t)| < 0x1_0000
  }

  /** Every value, at every depth, has a length that fits the length field. */
  predicate Fits(t: Tlv)
    decreases t, 1
  {
    Encodable(t) && FitAll(t.embedded)
  }

  predicate FitAll(ts: seq<Tlv>)
    decreases ts, 0
  {
    ts == [] || (Fits(ts[0]) && FitAll(ts[1..]))
  }

  /** The first TLV of a block is read off its front. */
  lemma BlockFront(kind: Byte, instance: Byte, payload: seq<Byte>, rest: seq<Byte>)
    requires instance < 16 && |payload| < 0x1_0000
    ensures ParseBlock([kind] + BigEndian(|payload|, 2) + [instance] + payload + rest) ==
      var more := ParseBlock(rest);
      if more.None? then None else Some([Tlv(kind, instance, payload, [])] + more.value)
  {
    hide *;
    var length := BigEndian(|payload|, 2);
    var bytes := [kind] + length + [instance] + payload + rest;
    BlockParts(kind, length, instance, payload, rest);
    BlockOf(bytes, kind, instance, payload, rest);
  }

  ghost predicate IsFront(bytes: seq<Byte>, kind: Byte, length: seq<Byte>, instance: Byte, payload: seq<Byte>, rest: seq<Byte>) {
    && |bytes| == 4 + |payload| + |rest|
    && bytes[0] == kind && bytes[1..3] == length && bytes[3] == instance
    && bytes[4..4 + |payload|] == payload && bytes[4 + |payload|..] == rest
  }

  lemma BlockParts(kind: Byte, length: seq<Byte>, instance: Byte, payload: seq<Byte>, rest: seq<Byte>)
    requires |length| == 2
    ensures IsFront([kind] + length + [instance] + payload + rest, kind, length, instance, payload, rest)
  {
    var front := [kind] + length + [instance];
    FrontParts(kind, length, instance);
    hide *;
    FrontWithRest(front, payload, rest);
    assert IsFront(front + payload + rest, front[0], front[1..3], front[3], payload, rest);
  }

  lemma FrontParts(kind: Byte, length: seq<Byte>, instance: Byte)
    requires |length| == 2
    ensures var front := [kind] + length + [instance];
      |front| == 4 && front[0] == kind && front[1..3] == length && front[3] == instance
  {
  }

  lemma FrontWithRest(front: seq<Byte>, payload: seq<Byte>, rest: seq<Byte>)
    requires |front| == 4
    ensures IsFront(front + payload + rest, front[0], front[1..3], front[3], payload, rest)
  {
  }

  lemma BlockOf(bytes: seq<Byte>, kind: Byte, instance: Byte, payload: seq<Byte>, rest: seq<Byte>)
    requires instance < 16 && |payload| < 0x1_0000
    requires IsFront(bytes, kind, BigEndian(|payload|, 2), instance, payload, rest)
    ensures ParseBlock(bytes) ==
      var more := ParseBlock(rest);
      if more.None? then None else Some([Tlv(kind, instance, payload, [])] + more.value)
  {
    hide *;
    var length := BigEndian(|payload|, 2);
    LengthField(|payload|);
    BlockStep(bytes, kind, length, instance, payload, rest);
  }

  lemma LengthField(n: nat)
    requires n < 0x1_0000
    ensures FromBigEndian(BigEndian(n, 2)) == n
  {
    hide BigEndian, FromBigEndian, Pow256;
    BigEndianRoundTrip(n, 2);
    PowValues();
  }

  lemma BlockStep(bytes: seq<Byte>, kind: Byte, length: seq<Byte>, instance: Byte, payload: seq<Byte>, rest: seq<Byte>)
    requires IsFront(bytes, kind, length, instance, payload, rest) && FromBigEndian(length) == |payload| && instance < 16
    ensures ParseBlock(bytes) ==
      var more := ParseBlock(rest);
      if more.None? then None else Some([Tlv(kind, instance, payload, [])] + more.value)
  {
    hide FromBigEndian;
  }

  lemma {:induction false} BlockRoundTrip(ts: seq<Tlv>)
    requires FitAll(ts)
    ensures ParseBlock(Render(ts)) == Some(FlatAll(ts))
  {
    if ts != [] {
      hide ParseBlock, BigEndian, Payload;
      BlockFront(ts[0].kind, ts[0].instance, Payload(ts[0]), Render(ts[1..]));
      RenderedFront(ts);
      BlockRoundTrip(ts[1..]);
    }
  }

  lemma RenderedFront(ts: seq<Tlv>)
    requires ts != [] && Encodable(ts[0])
    ensures Render(ts) ==
      [ts[0].kind] + BigEndian(|Payload(ts[0])|, 2) + [ts[0].instance] + Payload(ts[0]) + Render(ts[1..])
  {
    hide BigEndian, Payload;
  }

  // ---- what comes back

  /** The content a field has after a round trip. */
  function Normal(d: Desc, value: Value): Value
    requires d.Leaf? && Typed(d, value)
  {
    match d.ctype
    case FixedStr => Octets(value.data[..d.length], d.length)
    case VarStr => Octets(value.data[..value.len], value.len)
    case Null => Zero
    case _ =>
      PowPositive(Width(d.ctype));
      Number(value.n % Pow256(Width(d.ctype)))
  }

  function CanonOne(d: Desc, s: seq<Cell>): (c: seq<Cell>)
    requires FieldOk(d) && |s| == d.VSize()
    ensures |c| == |s| && c[0].presence == 1
    decreases d, 1, 0
  {
    match d
    case Leaf(_, _, _, _, _) =>
      [Cell(1, if Typed(d, s[0].value) then Normal(d, s[0].value) else Zero)] + Zeros(|s| - 1)
    case Compound(_, _, _, children) =>
      [Cell(1, Zero)] + Zeros(PRESENCE_SIZE - 1) + Canon(children, s[PRESENCE_SIZE..])
  }

  function CanonSlots(d: Desc, k: nat, r: seq<Cell>): (c: seq<Cell>)
    requires FieldOk(d) && |r| == Span(d.VSize(), k)
    ensures |c| == |r|
    decreases d, 2, k
  {
    if k == 0 || r[0].presence == 0 then Zeros(|r|)
    else CanonOne(d, r[..d.VSize()]) + CanonSlots(d, k - 1, r[d.VSize()..])
  }

  /** The message with exactly the printed fields, each with presence 1, and zero everywhere else. */
  function Canon(cs: seq<Desc>, m: seq<Cell>): (c: seq<Cell>)
    requires WellFormed(cs) && Extent(cs) <= |m|
    ensures |c| == |m|
    decreases cs, 0, 0
  {
    if cs == [] then Zeros(|m|)
    else CanonSlots(cs[0], Capacity(cs), m[..HeadSize(cs)]) + Canon(Rest(cs), m[HeadSize(cs)..])
  }

  // ---- one field at a time

  /** Several TLVs into the first field. */
  function FillMany(cs: seq<Desc>, r: seq<Cell>, xs: seq<Tlv>, depth: nat): (p: Parse<seq<Cell>>)
    requires WellFormed(cs) && cs != [] && |r| == HeadSize(cs)
    ensures p.Parsed? ==> |p.value| == |r|
    decreases |xs|
  {
    if xs == [] then Parsed(r)
    else
      var r1 :- FillHead(cs, r, xs[0], depth);
      FillMany(cs, r1, xs[1..], depth)
  }

  /** Several TLVs into a field with `k` slots. */
  function FillSlots(d: Desc, k: nat, r: seq<Cell>, xs: seq<Tlv>, depth: nat): (p: Parse<seq<Cell>>)
    requires FieldOk(d) && |r| == Span(d.VSize(), k)
    ensures p.Parsed? ==> |p.value| == |r|
    decreases |xs|
  {
    if xs == [] then Parsed(r)
    else
      var r1 :- FillSlot(d, k, r, xs[0], depth);
      FillSlots(d, k, r1, xs[1..], depth)
  }

  function Beside(p: Parse<seq<Cell>>, a: seq<Cell>, b: seq<Cell>): Parse<seq<Cell>> {
    if p.Parsed? then Parsed(a + p.value + b) else p
  }

  ghost predicate AllTagged(xs: seq<Tlv>, tag: (nat, nat)) {
    forall i :: 0 <= i < |xs| ==> xs[i].Tag() == tag
  }

  ghost predicate TagsWithin(xs: seq<Tlv>, tags: seq<(nat, nat)>) {
    forall i :: 0 <= i < |xs| ==> xs[i].Tag() in tags
  }

  lemma {:induction false} TagsNotZero(cs: seq<Desc>)
    requires WellFormed(cs)
    ensures (0, 0) !in Tags(cs)
    decreases |cs|
  {
    if cs != [] { TagsNotZero(Rest(cs)); }
  }

  /** TLVs with the tag of the first field change the first field only. */
  lemma {:induction false} HeadTakes(cs: seq<Desc>, a: seq<Cell>, b: seq<Cell>, xs: seq<Tlv>, depth: nat)
    requires WellFormed(cs) && cs != [] && |a| == HeadSize(cs) && Extent(Rest(cs)) <= |b|
    requires AllTagged(xs, cs[0].Tag())
    ensures ParseAll(cs, a + b, xs, depth) == Beside(FillMany(cs, a, xs, depth), [], b)
    decreases |xs|
  {
    assert (a + b)[..|a|] == a && (a + b)[|a|..] == b;
    if xs == [] {
      assert [] + a + b == a + b;
    } else {
      var p := FillHead(cs, a, xs[0], depth);
      if p.Parsed? {
        assert AllTagged(xs[1..], cs[0].Tag());
        HeadTakes(cs, p.value, b, xs[1..], depth);
      }
    }
  }

  /** TLVs of other fields leave the first field alone. */
  lemma {:induction false} TailTakes(cs: seq<Desc>, a: seq<Cell>, b: seq<Cell>, ys: seq<Tlv>, depth: nat)
    requires WellFormed(cs) && cs != [] && |a| == HeadSize(cs) && Extent(Rest(cs)) <= |b|
    requires TagsWithin(ys, Tags(Rest(cs)))
    ensures ParseAll(cs, a + b, ys, depth) == Beside(ParseAll(Rest(cs), b, ys, depth), a, [])
    decreases |ys|
  {
    assert (a + b)[..|a|] == a && (a + b)[|a|..] == b;
    if ys == [] {
      assert a + b + [] == a + b;
    } else {
      TagsNotZero(Rest(cs));
      assert ys[0].Tag() in Tags(Rest(cs));
      var p := ParseOne(Rest(cs), b, ys[0], depth);
      if p.Parsed? {
        assert TagsWithin(ys[1..], Tags(Rest(cs)));
        TailTakes(cs, a, p.value, ys[1..], depth);
      }
    }
  }

  lemma {:induction false} ParseAppend(cs: seq<Desc>, m: seq<Cell>, xs: seq<Tlv>, ys: seq<Tlv>, depth: nat)
    requires WellFormed(cs) && Extent(cs) <= |m|
    ensures ParseAll(cs, m, xs + ys, depth) ==
      var p := ParseAll(cs, m, xs, depth);
      if p.Parsed? then ParseAll(cs, p.value, ys, depth) else p
    decreases |xs|
  {
    if xs == [] {
      assert xs + ys == ys;
    } else {
      assert (xs + ys)[1..] == xs[1..] + ys;
      var p := ParseOne(cs, m, xs[0], depth);
      if p.Parsed? { ParseAppend(cs, p.value, xs[1..], ys, depth); }
    }
  }

  lemma {:induction false} FlatAppend(xs: seq<Tlv>, ys: seq<Tlv>)
    ensures FlatAll(xs + ys) == FlatAll(xs) + FlatAll(ys)
  {
    if xs == [] {
      assert xs + ys == ys;
    } else {
      assert (xs + ys)[1..] == xs[1..] + ys;
      FlatAppend(xs[1..], ys);
    }
  }

  lemma {:induction false} FitAppend(xs: seq<Tlv>, ys: seq<Tlv>)
    ensures FitAll(xs + ys) <==> FitAll(xs) && FitAll(ys)
  {
    if xs == [] {
      assert xs + ys == ys;
    } else {
      assert (xs + ys)[1..] == xs[1..] + ys;
      FitAppend(xs[1..], ys);
    }
  }

  lemma {:induction false} FlatTags(xs: seq<Tlv>)
    ensures |FlatAll(xs)| == |xs| && forall i :: 0 <= i < |xs| ==> FlatAll(xs)[i].Tag() == xs[i].Tag()
  {
    if xs != [] { FlatTags(xs[1..]); }
  }

  lemma {:induction false} SlotTags(d: Desc, k: nat, r: seq<Cell>, depth: nat)
    requires FieldOk(d) && |r| == Span(d.VSize(), k) && PrintSlots(d, k, r, depth).Done?
    ensures AllTagged(PrintSlots(d, k, r, depth).value, d.Tag()) && |PrintSlots(d, k, r, depth).value| <= k
    decreases k
  {
    if k != 0 && r[0].presence != 0 {
      SlotTags(d, k - 1, r[d.VSize()..], depth);
    }
  }

  lemma {:induction false} PrintTags(cs: seq<Desc>, m: seq<Cell>, depth: nat)
    requires WellFormed(cs) && Extent(cs) <= |m| && Print(cs, m, depth).Done?
    ensures TagsWithin(Print(cs, m, depth).value, Tags(cs))
    decreases |cs|
  {
    if cs != [] {
      SlotTags(cs[0], Capacity(cs), m[..HeadSize(cs)], depth);
      PrintTags(Rest(cs), m[HeadSize(cs)..], depth);
    }
  }

  // ---- the round trip

  lemma LeafRoundTrip(d: Desc, value: Value)
    requires d.Leaf? && FieldOk(d) && LeafBytes(d, value).Done?
    ensures Typed(d, value) && ParseLeaf(d, Zero, LeafBytes(d, value).value) == Parsed(Normal(d, value))
  {
    match d.ctype
    case FixedStr =>
    case VarStr =>
    case Null =>
    case Int16 =>
    case _ => BigEndianRoundTrip(value.n, Width(d.ctype));
  }

  lemma {:induction false} OneRoundTrip(d: Desc, s: seq<Cell>, depth: nat)
    requires FieldOk(d) && |s| == d.VSize() && PrintOne(d, s, depth).Done? && Fits(PrintOne(d, s, depth).value)
    ensures FillOne(d, Zeros(|s|), Flat(PrintOne(d, s, depth).value), depth) == Parsed(CanonOne(d, s))
    decreases d, 1, 0
  {
    hide Print, Canon, ParseAll, ParseBlock, Render, FlatAll, FitAll, WellFormed, Extent;
    var t := PrintOne(d, s, depth).value;
    match d
    case Leaf(_, _, _, _, _) =>
      LeafRoundTrip(d, s[0].value);
      assert Zeros(|s|)[1..] == Zeros(|s| - 1);
    case Compound(_, _, _, children) =>
      BlockRoundTrip(t.embedded);
      FlatTags(t.embedded);
      MessageRoundTrip(children, s[PRESENCE_SIZE..], depth + 1);
      assert Zeros(|s|)[PRESENCE_SIZE..] == Zeros(|s| - PRESENCE_SIZE);
      assert Zeros(|s|)[1..PRESENCE_SIZE] == Zeros(PRESENCE_SIZE - 1);
  }

  /** A filled first slot stays, and the others take what comes. */
  lemma {:induction false} FilledSlotStays(d: Desc, k: nat, s: seq<Cell>, b: seq<Cell>, xs: seq<Tlv>, depth: nat)
    requires FieldOk(d) && k > 0 && |s| == d.VSize() && s[0].presence != 0 && |b| == Span(d.VSize(), k - 1)
    ensures FillSlots(d, k, s + b, xs, depth) == Beside(FillSlots(d, k - 1, b, xs, depth), s, [])
    decreases |xs|
  {
    assert (s + b)[..|s|] == s && (s + b)[|s|..] == b;
    if xs == [] {
      assert s + b + [] == s + b;
    } else {
      var p := FillSlot(d, k - 1, b, xs[0], depth);
      if p.Parsed? { FilledSlotStays(d, k, s, p.value, xs[1..], depth); }
    }
  }

  /** The first occurrence fills the first slot, and the others go behind it. */
  lemma FirstOccurrence(d: Desc, k: nat, y: Tlv, ys: seq<Tlv>, depth: nat)
    requires FieldOk(d) && k > 0 && FillOne(d, Zeros(d.VSize()), y, depth).Parsed?
    ensures FillSlots(d, k, Zeros(Span(d.VSize(), k)), [y] + ys, depth) ==
      Beside(FillSlots(d, k - 1, Zeros(Span(d.VSize(), k - 1)), ys, depth), FillOne(d, Zeros(d.VSize()), y, depth).value, [])
  {
    hide FillOne, Beside;
    var v := d.VSize();
    var z, b := Zeros(Span(v, k)), Zeros(Span(v, k - 1));
    var first := FillOne(d, Zeros(v), y, depth).value;
    assert z[..v] == Zeros(v) && z[v..] == b && z[0].presence == 0;
    assert FillSlot(d, k, z, y, depth) == Parsed(first + b);
    assert ([y] + ys)[0] == y && ([y] + ys)[1..] == ys;
    FilledSlotStays(d, k, first, b, ys, depth);
    hide FillSlot;
    assert FillSlots(d, k, z, [y] + ys, depth) == FillSlots(d, k, first + b, ys, depth);
  }

  lemma FlatFirst(x: Tlv, xs: seq<Tlv>)
    ensures FlatAll([x] + xs) == [Flat(x)] + FlatAll(xs)
    ensures FitAll([x] + xs) <==> Fits(x) && FitAll(xs)
  {
    hide Flat, Fits;
    assert ([x] + xs)[0] == x && ([x] + xs)[1..] == xs;
  }

  lemma {:induction false} SlotsRoundTrip(d: Desc, k: nat, r: seq<Cell>, depth: nat)
    requires FieldOk(d) && |r| == Span(d.VSize(), k) && PrintSlots(d, k, r, depth).Done?
    requires FitAll(PrintSlots(d, k, r, depth).value)
    ensures FillSlots(d, k, Zeros(|r|), FlatAll(PrintSlots(d, k, r, depth).value), depth) == Parsed(CanonSlots(d, k, r))
    decreases d, 2, k
  {
    hide PrintOne, FillOne, CanonOne, Flat, Fits, FitAll, FlatAll;
    if k != 0 && r[0].presence != 0 {
      var v := d.VSize();
      var x := PrintOne(d, r[..v], depth).value;
      var xs := PrintSlots(d, k - 1, r[v..], depth).value;
      FlatFirst(x, xs);
      hide FillSlots;
      OneRoundTrip(d, r[..v], depth);
      SlotsRoundTrip(d, k - 1, r[v..], depth);
      FirstOccurrence(d, k, Flat(x), FlatAll(xs), depth);
      var first, rest := CanonOne(d, r[..v]), CanonSlots(d, k - 1, r[v..]);
      assert first + rest + [] == first + rest;
    } else {
      assert FlatAll([]) == [] by { NothingFlat(); }
    }
  }

  lemma NothingFlat()
    ensures FlatAll([]) == []
  {
  }

  /** The first field takes back what was printed of it. */
  lemma {:induction false} HeadRoundTrip(cs: seq<Desc>, r: seq<Cell>, depth: nat)
    requires WellFormed(cs) && cs != [] && |r| == HeadSize(cs)
    requires PrintSlots(cs[0], Capacity(cs), r, depth).Done? && FitAll(PrintSlots(cs[0], Capacity(cs), r, depth).value)
    ensures FillMany(cs, Zeros(|r|), FlatAll(PrintSlots(cs[0], Capacity(cs), r, depth).value), depth)
         == Parsed(CanonSlots(cs[0], Capacity(cs), r))
    decreases cs, 0, 1
  {
    var xs := PrintSlots(cs[0], Capacity(cs), r, depth).value;
    if Repeats(cs) {
      SlotsRoundTrip(cs[0], Capacity(cs), r, depth);
      RepeatedFills(cs, Zeros(|r|), FlatAll(xs), depth);
    } else if r[0].presence != 0 {
      SingleSlot(cs[0], r, depth);
      OneRoundTrip(cs[0], r, depth);
    }
  }

  lemma SingleSlot(d: Desc, r: seq<Cell>, depth: nat)
    requires FieldOk(d) && |r| == Span(d.VSize(), 1) && r[0].presence != 0 && PrintSlots(d, 1, r, depth).Done?
    ensures |r| == d.VSize() && PrintOne(d, r, depth).Done?
    ensures PrintSlots(d, 1, r, depth) == Done([PrintOne(d, r, depth).value])
    ensures CanonSlots(d, 1, r) == CanonOne(d, r)
  {
    assert Span(d.VSize(), 1) == d.VSize() + Span(d.VSize(), 0);
    assert r[..d.VSize()] == r && r[d.VSize()..] == [];
    assert CanonOne(d, r) + Zeros(0) == CanonOne(d, r);
    var x := PrintOne(d, r, depth).value;
    assert [x] + [] == [x];
  }

  lemma {:induction false} RepeatedFills(cs: seq<Desc>, r: seq<Cell>, xs: seq<Tlv>, depth: nat)
    requires WellFormed(cs) && cs != [] && Repeats(cs) && |r| == HeadSize(cs)
    ensures FillMany(cs, r, xs, depth) == FillSlots(cs[0], Capacity(cs), r, xs, depth)
    decreases |xs|
  {
    if xs != [] {
      var p := FillHead(cs, r, xs[0], depth);
      if p.Parsed? { RepeatedFills(cs, p.value, xs[1..], depth); }
    }
  }

  /** The printed slots of the first field, parsed into a zeroed struct. */
  lemma {:induction false} HeadStep(cs: seq<Desc>, m: seq<Cell>, depth: nat)
    requires WellFormed(cs) && cs != [] && Extent(cs) <= |m|
    requires PrintSlots(cs[0], Capacity(cs), m[..HeadSize(cs)], depth).Done?
    requires FitAll(PrintSlots(cs[0], Capacity(cs), m[..HeadSize(cs)], depth).value)
    ensures var n := HeadSize(cs);
      ParseAll(cs, Zeros(|m|), FlatAll(PrintSlots(cs[0], Capacity(cs), m[..n], depth).value), depth)
      == Parsed(CanonSlots(cs[0], Capacity(cs), m[..n]) + Zeros(|m| - n))
    decreases cs, 0, 2
  {
    hide PrintSlots, FillHead, CanonSlots, ParseAll;
    var n := HeadSize(cs);
    var xs := PrintSlots(cs[0], Capacity(cs), m[..n], depth).value;
    assert Zeros(|m|) == Zeros(n) + Zeros(|m| - n);
    SlotTags(cs[0], Capacity(cs), m[..n], depth);
    FlatTags(xs);
    HeadTakes(cs, Zeros(n), Zeros(|m| - n), FlatAll(xs), depth);
    HeadRoundTrip(cs, m[..n], depth);
    assert [] + CanonSlots(cs[0], Capacity(cs), m[..n]) == CanonSlots(cs[0], Capacity(cs), m[..n]);
  }

  lemma {:induction false} MessageRoundTrip(cs: seq<Desc>, m: seq<Cell>, depth: nat)
    requires WellFormed(cs) && Extent(cs) <= |m| && Print(cs, m, depth).Done? && FitAll(Print(cs, m, depth).value)
    ensures ParseAll(cs, Zeros(|m|), FlatAll(Print(cs, m, depth).value), depth) == Parsed(Canon(cs, m))
    decreases cs, 0, 3
  {
    hide PrintSlots, FillHead, CanonSlots, ParseOne;
    if cs != [] {
      var n := HeadSize(cs);
      var xs := PrintSlots(cs[0], Capacity(cs), m[..n], depth).value;
      var ys := Print(Rest(cs), m[n..], depth).value;
      var head, b := CanonSlots(cs[0], Capacity(cs), m[..n]), Zeros(|m| - n);
      FlatAppend(xs, ys);
      FitAppend(xs, ys);
      ParseAppend(cs, Zeros(|m|), FlatAll(xs), FlatAll(ys), depth);
      HeadStep(cs, m, depth);
      PrintTags(Rest(cs), m[n..], depth);
      FlatTags(ys);
      TailTakes(cs, head, b, FlatAll(ys), depth);
      MessageRoundTrip(Rest(cs), m[n..], depth);
      assert head + Canon(Rest(cs), m[n..]) + [] == Canon(cs, m);
    }
  }

  /** Parsing what was built, into a zeroed struct, gives back exactly the printed fields. */
  lemma BuildParse(cs: seq<Desc>, m: seq<Cell>)
    requires WellFormed(cs) && Extent(cs) <= |m|
    requires BuildMsg(cs, m).Done? && FitAll(Print(cs, m, 0).value)
    ensures ParseMsg(cs, Zeros(|m|), BuildMsg(cs, m).value) == Parsed(Canon(cs, m))
  {
    var ts := Print(cs, m, 0).value;
    BlockRoundTrip(ts);
    FlatTags(ts);
    MessageRoundTrip(cs, m, 0);
  }

  // ---- when it is the identity

  /** The content is what the wire can carry: no more octets than the field has, no stray bytes. */
  predicate Exact(d: Desc, value: Value)
    requires d.Leaf?
  {
    match d.ctype
    case FixedStr => value.Octets? && |value.data| == value.len == d.length
    case VarStr => value.Octets? && |value.data| == value.len
    case Null => value == Zero
    case _ => value.Number? && value.n < Pow256(Width(d.ctype))
  }

  predicate Blank(s: seq<Cell>) {
    forall i :: 0 <= i < |s| ==> s[i] == Cell(0, Zero)
  }

  predicate KeptOne(d: Desc, s: seq<Cell>)
    requires FieldOk(d) && |s| == d.VSize()
    decreases d, 1, 0
  {
    && s[0].presence == 1
    && match d
       case Leaf(_, _, _, _, _) => (Typed(d, s[0].value) ==> Exact(d, s[0].value))
                                   && (!Typed(d, s[0].value) ==> s[0].value == Zero) && Blank(s[1..])
       case Compound(_, _, _, children) =>
         s[0].value == Zero && Blank(s[1..PRESENCE_SIZE]) && Kept(children, s[PRESENCE_SIZE..])
  }

  /** Present slots come first; an absent slot and all after it are blank. */
  predicate KeptSlots(d: Desc, k: nat, r: seq<Cell>)
    requires FieldOk(d) && |r| == Span(d.VSize(), k)
    decreases d, 2, k
  {
    if k == 0 || r[0].presence == 0 then Blank(r)
    else KeptOne(d, r[..d.VSize()]) && KeptSlots(d, k - 1, r[d.VSize()..])
  }

  /** A struct with nothing in it that a round trip would lose. */
  predicate Kept(cs: seq<Desc>, m: seq<Cell>)
    requires WellFormed(cs) && Extent(cs) <= |m|
    decreases cs, 0, 0
  {
    if cs == [] then Blank(m)
    else KeptSlots(cs[0], Capacity(cs), m[..HeadSize(cs)]) && Kept(Rest(cs), m[HeadSize(cs)..])
  }

  lemma BlankIsZeros(s: seq<Cell>)
    ensures Blank(s) <==> s == Zeros(|s|)
  {
  }

  lemma ExactIffNormal(d: Desc, value: Value)
    requires d.Leaf? && Typed(d, value)
    ensures Exact(d, value) <==> Normal(d, value) == value
  {
    match d.ctype
    case FixedStr =>
    case VarStr =>
    case Null =>
    case _ => PowPositive(Width(d.ctype)); SmallIffMod(value.n, Pow256(Width(d.ctype)));
  }

  lemma SmallIffMod(n: nat, p: nat)
    requires p > 0
    ensures n < p <==> n % p == n
  {
  }

  lemma SplitEqual<T>(a: seq<T>, b: seq<T>, n: nat)
    requires |a| == |b| && n <= |a|
    ensures a == b <==> a[..n] == b[..n] && a[n..] == b[n..]
  {
    assert a == a[..n] + a[n..] && b == b[..n] + b[n..];
  }

  lemma {:induction false} KeptOneIff(d: Desc, s: seq<Cell>)
    requires FieldOk(d) && |s| == d.VSize()
    ensures KeptOne(d, s) <==> CanonOne(d, s) == s
    decreases d, 1, 0
  {
    var c := CanonOne(d, s);
    SplitEqual(c, s, 1);
    match d
    case Leaf(_, _, _, _, _) =>
      if Typed(d, s[0].value) { ExactIffNormal(d, s[0].value); }
      BlankIsZeros(s[1..]);
      assert c[1..] == Zeros(|s| - 1) && c[..1] == [c[0]] && s[..1] == [s[0]];
    case Compound(_, _, _, children) =>
      KeptIff(children, s[PRESENCE_SIZE..]);
      BlankIsZeros(s[1..PRESENCE_SIZE]);
      SplitEqual(c[1..], s[1..], PRESENCE_SIZE - 1);
      assert c[..1] == [c[0]] && s[..1] == [s[0]];
      assert c[1..][..PRESENCE_SIZE - 1] == Zeros(PRESENCE_SIZE - 1);
      assert c[1..][PRESENCE_SIZE - 1..] == Canon(children, s[PRESENCE_SIZE..]);
      assert s[1..][..PRESENCE_SIZE - 1] == s[1..PRESENCE_SIZE] && s[1..][PRESENCE_SIZE - 1..] == s[PRESENCE_SIZE..];
  }

  lemma {:induction false} KeptSlotsIff(d: Desc, k: nat, r: seq<Cell>)
    requires FieldOk(d) && |r| == Span(d.VSize(), k)
    ensures KeptSlots(d, k, r) <==> CanonSlots(d, k, r) == r
    decreases d, 2, k
  {
    if k == 0 || r[0].presence == 0 {
      BlankIsZeros(r);
    } else {
      KeptOneIff(d, r[..d.VSize()]);
      KeptSlotsIff(d, k - 1, r[d.VSize()..]);
      SplitEqual(CanonSlots(d, k, r), r, d.VSize());
    }
  }

  lemma {:induction false} KeptIff(cs: seq<Desc>, m: seq<Cell>)
    requires WellFormed(cs) && Extent(cs) <= |m|
    ensures Kept(cs, m) <==> Canon(cs, m) == m
    decreases cs, 0, 0
  {
    if cs == [] {
      BlankIsZeros(m);
    } else {
      KeptSlotsIff(cs[0], Capacity(cs), m[..HeadSize(cs)]);
      KeptIff(Rest(cs), m[HeadSize(cs)..]);
      SplitEqual(Canon(cs, m), m, HeadSize(cs));
    }
  }

  /** The round trip is the identity exactly on the structs that hold nothing beyond what is printed. */
  lemma BuildParseIdentityIff(cs: seq<Desc>, m: seq<Cell>)
    requires WellFormed(cs) && Extent(cs) <= |m|
    requires BuildMsg(cs, m).Done? && FitAll(Print(cs, m, 0).value)
    ensures ParseMsg(cs, Zeros(|m|), BuildMsg(cs, m).value) == Parsed(m) <==> Kept(cs, m)
  {
    BuildParse(cs, m);
    KeptIff(cs, m);
  }
}

/** ATTACH REJECT as it lies in memory: what its decoder and encoder compute, and when the codec of NasCodec is met. */
module NasReject {
  import opened Wrappers
  import opened Bytes
  import opened NasCodec

  const ESM_MESSAGE_CONTAINER_TYPE: Byte := 0x78
  const T3346_VALUE_TYPE: Byte := 0x5F
  const T3402_VALUE_TYPE: Byte := 0x16
  const EXTENDED_EMM_CAUSE_TYPE: Byte := 0xA0

  /** The struct of a timer is a length and one octet. */
  function Table(): seq<Ie> {
    [Ie(ESM_MESSAGE_CONTAINER_TYPE, Length16), Ie(T3346_VALUE_TYPE, Length8(1)),
     Ie(T3402_VALUE_TYPE, Length8(1)), Ie(EXTENDED_EMM_CAUSE_TYPE, Half)]
  }

  lemma TableIsOk()
    ensures TableOk(Table())
  {
  }

  /** Where the last members of the struct are, from the first timer on; a timer that is too long goes on behind them. */
  const T3346_AT := 0
  const T3402_AT := 2
  const EXTENDED_AT := 4
  const STRUCT_END := 5
  const TAIL := 258

  /** `tail` is the memory from the first timer on: 5 octets of the struct, the others of the union it is in. */
  datatype Body = Body(cause: Byte, present: seq<bool>, container: Content, tail: seq<Byte>)
  {
    ghost predicate Ok() {
      |present| == 4 && |container| < 0x1_0000 && |tail| == TAIL
    }
  }

  function Zeros(n: nat): (r: seq<Byte>)
    ensures |r| == n
  {
    seq(n, i => 0)
  }

  function Zeroed(): Body {
    Body(0, [false, false, false, false], [], Zeros(TAIL))
  }

  /** `all` with `w` copied to `o`. */
  function Overlay(all: seq<Byte>, o: nat, w: seq<Byte>): (r: seq<Byte>)
    requires o + |w| <= |all|
    ensures |r| == |all|
  {
    all[..o] + w + all[o + |w|..]
  }

  // ---- the fields

  /** The contents that the struct of a timer can hold. */
  function TimerAt(tail: seq<Byte>, o: nat): Content
    requires o + 1 < |tail|
  {
    if tail[o] == 0 then [] else [tail[o + 1]]
  }

  function FieldsOf(b: Body): (f: Fields)
    requires b.Ok()
    ensures |f| == 4
  {
    [if b.present[0] then Some(b.container) else None,
     if b.present[1] then Some(TimerAt(b.tail, T3346_AT)) else None,
     if b.present[2] then Some(TimerAt(b.tail, T3402_AT)) else None,
     if b.present[3] then Some([b.tail[EXTENDED_AT]]) else None]
  }

  /** No timer that is present is longer than its struct. */
  ghost predicate Fits(b: Body)
    requires b.Ok()
  {
    (b.present[1] ==> b.tail[T3346_AT] <= 1) && (b.present[2] ==> b.tail[T3402_AT] <= 1)
  }

  // ---- decoding

  /** How far the cursor moves, and what the struct is then. */
  datatype Step = Step(size: nat, body: Body)

  function ContainerInto(prev: Byte, bytes: seq<Byte>, after: seq<Byte>, b: Body): (s: Outcome<Step>)
    requires b.Ok()
    ensures s.Done? ==> s.value.size <= |bytes| && s.value.body.Ok()
  {
    var t := DecodeContent(Length16, prev, bytes, after);
    if t.Took? then Done(Step(t.value.size, b.(container := t.value.content, present := b.present[0 := true]))) else Abort
  }

  /** The length and as many octets as it says are copied to the timer, and over what lies behind it. */
  function TimerInto(k: nat, o: nat, bytes: seq<Byte>, after: seq<Byte>, b: Body): (s: Outcome<Step>)
    requires b.Ok() && k < 4 && o <= T3402_AT
    ensures s.Done? ==> s.value.size <= |bytes| && s.value.body.Ok()
  {
    var size := Peek(bytes, after, 0) + 1;
    if size > |bytes| then Abort
    else Done(Step(size, b.(tail := Overlay(b.tail, o, bytes[..size]), present := b.present[k := true])))
  }

  function BodyNext(prev: Byte, bytes: seq<Byte>, after: seq<Byte>, b: Body): (s: Outcome<Step>)
    requires b.Ok()
    ensures s.Done? ==> s.value.size <= |bytes| && s.value.body.Ok()
  {
    var tag := Mask(prev);
    if tag == ESM_MESSAGE_CONTAINER_TYPE then ContainerInto(prev, bytes, after, b)
    else if tag == T3346_VALUE_TYPE then TimerInto(1, T3346_AT, bytes, after, b)
    else if tag == T3402_VALUE_TYPE then TimerInto(2, T3402_AT, bytes, after, b)
    else if tag == EXTENDED_EMM_CAUSE_TYPE then
      Done(Step(0, b.(tail := b.tail[EXTENDED_AT := prev], present := b.present[3 := true])))
    else Done(Step(0, b))
  }

  /** The loop over the optional elements. */
  function BodyLoop(bytes: seq<Byte>, after: seq<Byte>, b: Body): (d: Outcome<Body>)
    requires b.Ok()
    ensures d.Done? ==> d.value.Ok()
    decreases |bytes|
  {
    if bytes == [] then Done(b)
    else
      var s :- BodyNext(bytes[0], bytes[1..], after, b);
      BodyLoop(bytes[1..][s.size..], after, s.body)
  }

  /** Into a struct that holds `before`. */
  function DecodeReject(bytes: seq<Byte>, after: seq<Byte>, before: Body): (d: Outcome<Body>)
    requires before.Ok()
    ensures d.Done? ==> d.value.Ok()
  {
    if bytes == [] then Abort else BodyLoop(bytes[1..], after, before.(cause := bytes[0]))
  }

  lemma BodyLoopStep(bytes: seq<Byte>, after: seq<Byte>, b: Body)
    requires b.Ok() && bytes != []
    ensures BodyLoop(bytes, after, b) ==
      var s := BodyNext(bytes[0], bytes[1..], after, b);
      if s.Abort? then Abort else BodyLoop(bytes[1..][s.value.size..], after, s.value.body)
  {
    hide BodyNext;
  }

  lemma BodyLoopEnd(bytes: seq<Byte>, after: seq<Byte>, b: Body)
    requires b.Ok() && |bytes| == 0
    ensures BodyLoop(bytes, after, b) == Done(b)
  {
  }

  // ---- encoding

  /** What happens to lie behind the two octets from which the encoder of a timer sends, for either call. */
  datatype Behind = Behind(t3346: seq<Byte>, t3402: seq<Byte>)
  {
    ghost predicate Ok() {
      |t3346| == 254 && |t3402| == 254
    }
  }

  /** A timer of two octets, and what lies behind them, as far as the length says. */
  function EncodeTimer(present: bool, tag: Byte, length: Byte, octet: Byte, behind: seq<Byte>): (bytes: seq<Byte>)
    requires |behind| == 254
    ensures |bytes| == if present then 2 + length else 0
  {
    if present then [tag] + ([length, octet] + behind)[..length + 1] else []
  }

  function EncodeContainer(b: Body): seq<Byte>
    requires b.Ok()
  {
    if b.present[0] then [ESM_MESSAGE_CONTAINER_TYPE] + BigEndian(|b.container|, 2) + b.container else []
  }

  /** The octet of the extended cause, with its type in the upper half. */
  function WithType(octet: Byte): Byte {
    EXTENDED_EMM_CAUSE_TYPE / 16 * 16 + octet % 16
  }

  function EncodeExtended(b: Body): seq<Byte>
    requires b.Ok()
  {
    if b.present[3] then [WithType(b.tail[EXTENDED_AT])] else []
  }

  function FirstTimer(b: Body, behind: Behind): seq<Byte>
    requires b.Ok() && behind.Ok()
  {
    EncodeTimer(b.present[1], T3346_VALUE_TYPE, b.tail[T3346_AT], b.tail[T3346_AT + 1], behind.t3346)
  }

  function SecondTimer(b: Body, behind: Behind): seq<Byte>
    requires b.Ok() && behind.Ok()
  {
    EncodeTimer(b.present[2], T3402_VALUE_TYPE, b.tail[T3402_AT], b.tail[T3402_AT + 1], behind.t3402)
  }

  function EncodeReject(b: Body, behind: Behind): seq<Byte>
    requires b.Ok() && behind.Ok()
  {
    [b.cause] + EncodeContainer(b) + FirstTimer(b, behind) + SecondTimer(b, behind) + EncodeExtended(b)
  }

  /** What encoding leaves in the struct. */
  function Stamp(b: Body): (r: Body)
    requires b.Ok()
    ensures r.Ok()
  {
    if b.present[3] then b.(tail := b.tail[EXTENDED_AT := WithType(b.tail[EXTENDED_AT])]) else b
  }

  /** The octets of an ATTACH REJECT: the cause, and what is present under the types 0x78, 0x5F, 0x16 and 0xA0. */
  lemma RejectOctets(b: Body, behind: Behind)
    requires b.Ok() && behind.Ok()
    ensures EncodeReject(b, behind) ==
      [b.cause]
      + (if b.present[0] then [0x78, |b.container| / 256, |b.container| % 256] + b.container else [])
      + (if b.present[1] then [0x5F] + ([b.tail[0], b.tail[1]] + behind.t3346)[..b.tail[0] + 1] else [])
      + (if b.present[2] then [0x16] + ([b.tail[2], b.tail[3]] + behind.t3402)[..b.tail[2] + 1] else [])
      + (if b.present[3] then [0xA0 + b.tail[4] % 16] else [])
  {
    hide EncodeContainer, BigEndian;
    ContainerOctets(b);
  }

  lemma ContainerOctets(b: Body)
    requires b.Ok()
    ensures EncodeContainer(b) ==
      if b.present[0] then [0x78, |b.container| / 256, |b.container| % 256] + b.container else []
  {
    hide BigEndian;
    LengthOctets(|b.container|);
    assert [0x78] + [|b.container| / 256, |b.container| % 256] == [0x78, |b.container| / 256, |b.container| % 256];
  }

  /** What the types stand for when they are decoded: the container, the timers at octets 0 and 2, the cause at octet 4. */
  lemma ElementTypes(bytes: seq<Byte>, after: seq<Byte>, b: Body)
    requires b.Ok()
    ensures BodyNext(0x78, bytes, after, b) == ContainerInto(0x78, bytes, after, b)
    ensures BodyNext(0x5F, bytes, after, b) == TimerInto(1, 0, bytes, after, b)
    ensures BodyNext(0x16, bytes, after, b) == TimerInto(2, 2, bytes, after, b)
    ensures forall prev: Byte :: prev / 16 == 0xA ==>
      BodyNext(prev, bytes, after, b) == Done(Step(0, b.(tail := b.tail[4 := prev], present := b.present[3 := true])))
    ensures forall prev: Byte :: prev != 0x78 && prev != 0x5F && prev != 0x16 && prev / 16 != 0xA ==>
      BodyNext(prev, bytes, after, b) == Done(Step(0, b))
  {
    hide ContainerInto, TimerInto;
  }

  /** A timer and what is behind it take the octets that are left, as many as the first of them says, and that one too. */
  lemma TimerOctets(k: nat, o: nat, bytes: seq<Byte>, after: seq<Byte>, b: Body)
    requires b.Ok() && k < 4 && o <= 2 && bytes != []
    ensures var s, n := TimerInto(k, o, bytes, after, b), bytes[0] as int + 1;
      && (s.Done? <==> n <= |bytes|)
      && (s.Done? ==>
            && s.value.size == n && s.value.body == b.(tail := s.value.body.tail, present := b.present[k := true])
            && s.value.body.tail[..o] == b.tail[..o] && s.value.body.tail[o..o + n] == bytes[..n]
            && s.value.body.tail[o + n..] == b.tail[o + n..])
  {
  }

  // ---- the codec is met

  lemma TableFind(tag: Byte)
    ensures Find(Table(), tag) ==
      if tag == ESM_MESSAGE_CONTAINER_TYPE then 0 else if tag == T3346_VALUE_TYPE then 1
      else if tag == T3402_VALUE_TYPE then 2 else if tag == EXTENDED_EMM_CAUSE_TYPE then 3 else 4
  {
    var t := Table();
    assert t[1..][0] == t[1] && t[2..][0] == t[2] && t[3..][0] == t[3];
    assert t[1..][1..] == t[2..] && t[2..][1..] == t[3..] && t[3..][1..] == [];
    assert Find(t[3..], tag) == if t[3].tag == tag then 0 else 1;
    assert Find(t[2..], tag) == if t[2].tag == tag then 0 else 1 + Find(t[3..], tag);
    assert Find(t[1..], tag) == if t[1].tag == tag then 0 else 1 + Find(t[2..], tag);
  }

  /** Nothing but the fields differs. */
  ghost predicate SameElse(b: Body, d: Body)
    requires b.Ok() && d.Ok()
  {
    d.cause == b.cause && d.tail[STRUCT_END..] == b.tail[STRUCT_END..]
  }

  /** A timer of at most one octet is put into its field, and changes no other. */
  lemma TimerRefines(k: nat, prev: Byte, bytes: seq<Byte>, after: seq<Byte>, b: Body)
    requires b.Ok() && 1 <= k <= 2
    ensures var t := DecodeContent(Length8(1), prev, bytes, after);
      var s := TimerInto(k, 2 * k - 2, bytes, after, b);
      && (s.Abort? <==> t.Failed?)
      && (t.Took? ==>
            && s.value.size == t.value.size && SameElse(b, s.value.body)
            && FieldsOf(s.value.body) == FieldsOf(b)[k := Some(t.value.content)])
  {
    var o, t := 2 * k - 2, DecodeContent(Length8(1), prev, bytes, after);
    if t.Took? {
      var size := t.value.size;
      var w := bytes[..size];
      var tail := Overlay(b.tail, o, w);
      assert w[0] == bytes[0] && (size == 2 ==> w[1] == bytes[1]);
      assert forall i :: 0 <= i < TAIL && !(o <= i < o + 2) ==> tail[i] == b.tail[i];
      assert tail[STRUCT_END..] == b.tail[STRUCT_END..];
      assert tail[o] == bytes[0] && (size == 2 ==> tail[o + 1] == bytes[1]);
      assert TimerAt(tail, o) == t.value.content;
    }
  }

  lemma ContainerRefines(prev: Byte, bytes: seq<Byte>, after: seq<Byte>, b: Body)
    requires b.Ok()
    ensures var t := DecodeContent(Length16, prev, bytes, after);
      var s := ContainerInto(prev, bytes, after, b);
      && (s.Abort? <==> t.Failed?)
      && (t.Took? ==>
            && s.value.size == t.value.size && SameElse(b, s.value.body)
            && FieldsOf(s.value.body) == FieldsOf(b)[0 := Some(t.value.content)])
  {
  }

  lemma ExtendedRefines(prev: Byte, bytes: seq<Byte>, after: seq<Byte>, b: Body)
    requires b.Ok()
    ensures var d := b.(tail := b.tail[EXTENDED_AT := prev], present := b.present[3 := true]);
      SameElse(b, d) && FieldsOf(d) == FieldsOf(b)[3 := Some([prev])]
    ensures DecodeContent(Half, prev, bytes, after) == Took(Taken([prev], 0))
  {
  }

  /** One element: the code aborts exactly where the codec does, and takes what the codec takes. */
  lemma NextRefines(prev: Byte, bytes: seq<Byte>, after: seq<Byte>, b: Body)
    requires b.Ok()
    ensures var n := DecodeNext(Table(), prev, bytes, after, FieldsOf(b));
      var s := BodyNext(prev, bytes, after, b);
      && (s.Abort? <==> n.Failed?)
      && (n.Took? ==>
            && s.value.size == n.value.size && SameElse(b, s.value.body)
            && FieldsOf(s.value.body) == n.value.fields)
  {
    hide Mask, FieldsOf, Find, ContainerInto, TimerInto, DecodeContent, Overlay;
    var tag := Mask(prev);
    TableFind(tag);
    if tag == ESM_MESSAGE_CONTAINER_TYPE {
      ContainerRefines(prev, bytes, after, b);
    } else if tag == T3346_VALUE_TYPE {
      TimerRefines(1, prev, bytes, after, b);
    } else if tag == T3402_VALUE_TYPE {
      TimerRefines(2, prev, bytes, after, b);
    } else if tag == EXTENDED_EMM_CAUSE_TYPE {
      ExtendedRefines(prev, bytes, after, b);
    }
  }

  /** What the codec decodes, the code decodes; where an assertion of the codec fails, it fails in the code. */
  lemma {:induction false} LoopRefines(bytes: seq<Byte>, after: seq<Byte>, b: Body)
    requires b.Ok()
    ensures var f, d := DecodeAll(Table(), bytes, after, FieldsOf(b)), BodyLoop(bytes, after, b);
      && (f.Failed? ==> d.Abort?)
      && (f.Took? ==> d.Done? && FieldsOf(d.value) == f.value && SameElse(b, d.value))
    decreases |bytes|
  {
    hide FieldsOf, DecodeNext, BodyNext;
    if bytes != [] {
      NextRefines(bytes[0], bytes[1..], after, b);
      DecodeAllStep(Table(), bytes, after, FieldsOf(b));
      BodyLoopStep(bytes, after, b);
      var n := DecodeNext(Table(), bytes[0], bytes[1..], after, FieldsOf(b));
      var s := BodyNext(bytes[0], bytes[1..], after, b);
      if n.Took? {
        LoopRefines(bytes[1..][n.value.size..], after, s.value.body);
      }
    }
  }

  lemma FieldsAreOk(b: Body)
    requires b.Ok()
    ensures FieldsOk(Table(), FieldsOf(b))
  {
  }

  lemma TimerFits(present: bool, tag: Byte, length: Byte, octet: Byte, behind: seq<Byte>)
    requires |behind| == 254 && (present ==> length <= 1)
    ensures var content := if length == 0 then [] else [octet];
      EncodeTimer(present, tag, length, octet, behind)
      == EncodeField(Ie(tag, Length8(1)), if present then Some(content) else None)
  {
  }

  lemma EncodeTable(f: Fields)
    requires FieldsOk(Table(), f)
    ensures EncodeFrom(Table(), f, 0) ==
      EncodeField(Table()[0], f[0]) + EncodeField(Table()[1], f[1]) + EncodeField(Table()[2], f[2])
      + EncodeField(Table()[3], f[3])
  {
    hide EncodeField, ContentOk;
    var t := Table();
    assert EncodeFrom(t, f, 4) == [];
    assert EncodeFrom(t, f, 3) == EncodeField(t[3], f[3]);
    assert EncodeFrom(t, f, 2) == EncodeField(t[2], f[2]) + EncodeFrom(t, f, 3);
    assert EncodeFrom(t, f, 1) == EncodeField(t[1], f[1]) + EncodeFrom(t, f, 2);
  }

  lemma StampTable(f: Fields)
    requires FieldsOk(Table(), f)
    ensures StampedFrom(Table(), f, 0) == f[3 := StampedField(Table()[3], f[3])]
  {
    hide ContentOk;
    var t := Table();
    assert StampedFrom(t, f, 4) == [];
    assert StampedFrom(t, f, 3) == [StampedField(t[3], f[3])];
    assert StampedFrom(t, f, 2) == [f[2]] + StampedFrom(t, f, 3);
    assert StampedFrom(t, f, 1) == [f[1]] + StampedFrom(t, f, 2);
  }

  lemma FieldsByName(b: Body)
    requires b.Ok() && Fits(b)
    ensures FieldsOk(Table(), FieldsOf(b))
    ensures EncodeField(Table()[0], FieldsOf(b)[0]) == EncodeContainer(b)
    ensures EncodeField(Table()[3], FieldsOf(b)[3]) == EncodeExtended(b)
  {
    hide BigEndian;
  }

  lemma TimersByName(b: Body, behind: Behind)
    requires b.Ok() && behind.Ok() && Fits(b)
    ensures FieldsOk(Table(), FieldsOf(b))
    ensures EncodeField(Table()[1], FieldsOf(b)[1]) == FirstTimer(b, behind)
    ensures EncodeField(Table()[2], FieldsOf(b)[2]) == SecondTimer(b, behind)
  {
    FieldsAreOk(b);
    TimerFits(b.present[1], T3346_VALUE_TYPE, b.tail[T3346_AT], b.tail[T3346_AT + 1], behind.t3346);
    TimerFits(b.present[2], T3402_VALUE_TYPE, b.tail[T3402_AT], b.tail[T3402_AT + 1], behind.t3402);
    hide EncodeTimer, EncodeField;
  }

  lemma StampByName(b: Body)
    requires b.Ok()
    ensures FieldsOk(Table(), FieldsOf(b))
    ensures FieldsOf(Stamp(b)) == FieldsOf(b)[3 := StampedField(Table()[3], FieldsOf(b)[3])]
  {
  }

  /** If the timers fit, the octets are those of the codec, whatever lies behind; and the codec says what is in the struct. */
  lemma EncodeRefines(b: Body, behind: Behind)
    requires b.Ok() && behind.Ok() && Fits(b)
    ensures FieldsOk(Table(), FieldsOf(b))
    ensures EncodeReject(b, behind) == [b.cause] + EncodeFrom(Table(), FieldsOf(b), 0)
    ensures FieldsOf(Stamp(b)) == StampedFrom(Table(), FieldsOf(b), 0)
  {
    FieldsByName(b);
    EncodeTable(FieldsOf(b));
    StampTable(FieldsOf(b));
    TimersByName(b, behind);
    StampByName(b);
    Associate([b.cause], EncodeContainer(b), FirstTimer(b, behind), SecondTimer(b, behind), EncodeExtended(b));
    hide EncodeField, EncodeFrom, StampedFrom, EncodeTimer, EncodeContainer, EncodeExtended, FieldsOf, FieldsOk;
  }

  lemma Associate(a: seq<Byte>, b: seq<Byte>, c: seq<Byte>, d: seq<Byte>, e: seq<Byte>)
    ensures a + (b + c + d + e) == a + b + c + d + e
  {
  }

  // ---- the length from which timers spill

  /** The type of a timer, by the number of its field. */
  function TimerType(k: nat): Byte
    requires 1 <= k <= 2
  {
    if k == 1 then T3346_VALUE_TYPE else T3402_VALUE_TYPE
  }

  /** Decoding a timer with contents `c` gives the timer these contents. */
  ghost predicate TimerComesBack(k: nat, c: Content, b: Body)
    requires b.Ok() && 1 <= k <= 2 && |c| < 0x100
  {
    var s := BodyNext(TimerType(k), [|c|] + c, [], b);
    s.Done? && FieldsOf(s.value.body)[k] == Some(c)
  }

  /** Decoding a timer with contents `c` changes no other field, and nothing behind the struct. */
  ghost predicate OthersStay(k: nat, c: Content, b: Body)
    requires b.Ok() && 1 <= k <= 2 && |c| < 0x100
  {
    var s := BodyNext(TimerType(k), [|c|] + c, [], b);
    s.Done? && SameElse(b, s.value.body)
    && forall j :: 0 <= j < 4 && j != k ==> FieldsOf(s.value.body)[j] == FieldsOf(b)[j]
  }

  lemma ShortTimerStays(k: nat, c: Content, b: Body)
    requires b.Ok() && 1 <= k <= 2 && |c| <= 1
    ensures TimerComesBack(k, c, b) && OthersStay(k, c, b)
  {
    hide FieldsOf, TimerInto;
    var bytes := [|c|] + c;
    TimerRefines(k, TimerType(k), bytes, [], b);
    assert bytes[1..1 + |c|] == c;
    assert DecodeContent(Length8(1), TimerType(k), bytes, []) == Took(Taken(c, 1 + |c|));
  }

  /** A T3346 value of three octets or more replaces the T3402 value that was decoded before it. */
  lemma SpilledOver(c: Content, b: Body)
    requires b.Ok() && 3 <= |c| < 0x100 && b.present[2]
    ensures var s := BodyNext(T3346_VALUE_TYPE, [|c|] + c, [], b);
      s.Done? && FieldsOf(s.value.body)[2] == Some(if c[1] == 0 then [] else [c[2]])
  {
    var w := [|c|] + c;
    assert w[..|c| + 1] == w;
    var s := BodyNext(T3346_VALUE_TYPE, w, [], b);
    assert s.value.body.tail == Overlay(b.tail, T3346_AT, w);
    assert s.value.body.tail[2] == w[2] == c[1] && s.value.body.tail[3] == w[3] == c[2];
  }

  /** Contents of two octets or more, the second of which is another one than what is behind the timer in `Spoiled`. */
  function Spoiling(k: nat, n: nat): (c: Content)
    requires n >= 2 && 1 <= k <= 2
    ensures |c| == n && c[1] == k - 1
  {
    [0, k - 1] + Zeros(n - 2)
  }

  /** A T3402 value of one octet, and an extended cause. */
  function Spoiled(): Body {
    Body(0, [false, false, true, true], [], [0, 0, 1, 0, 0] + Zeros(TAIL - 5))
  }

  lemma LongTimerSpoils(k: nat, n: nat)
    requires 1 <= k <= 2 && 2 <= n < 0x100
    ensures !TimerComesBack(k, Spoiling(k, n), Spoiled()) && !OthersStay(k, Spoiling(k, n), Spoiled())
  {
    hide Spoiling;
    var b, c := Spoiled(), Spoiling(k, n);
    var w := [|c|] + c;
    assert w[..n + 1] == w;
    var s := BodyNext(TimerType(k), w, [], b);
    assert s.value.body.tail == Overlay(b.tail, 2 * k - 2, w);
    assert s.value.body.tail[2 * k] == w[2] == k - 1;
    assert |TimerAt(s.value.body.tail, 2 * k - 2)| <= 1;
    assert FieldsOf(b)[k + 1] != FieldsOf(s.value.body)[k + 1];
  }

  /** Timers of a given length all come back, and all leave the other fields and the memory behind the struct alone, if
      and only if the octets are within the struct of the timer. */
  lemma TimerLengthIff(k: nat, n: nat)
    requires 1 <= k <= 2 && n < 0x100
    ensures (forall b: Body, c: Content :: b.Ok() && |c| == n ==> TimerComesBack(k, c, b)) <==> n <= 1
    ensures (forall b: Body, c: Content :: b.Ok() && |c| == n ==> OthersStay(k, c, b)) <==> n <= 1
  {
    hide TimerComesBack, OthersStay, Spoiling, Spoiled;
    if n <= 1 {
      forall b: Body, c: Content | b.Ok() && |c| == n
        ensures TimerComesBack(k, c, b) && OthersStay(k, c, b)
      {
        ShortTimerStays(k, c, b);
      }
    } else {
      assert Spoiled().Ok() by { SpoiledIsOk(); }
      LongTimerSpoils(k, n);
    }
  }

  lemma SpoiledIsOk()
    ensures Spoiled().Ok()
  {
  }

  /** What is sent depends on what the struct holds alone if and only if the timers that are present fit. */
  lemma TimerSentIff(b: Body)
    requires b.Ok()
    ensures (forall v: Behind, w: Behind :: v.Ok() && w.Ok() ==> EncodeReject(b, v) == EncodeReject(b, w)) <==> Fits(b)
  {
    hide EncodeReject, EncodeFrom, FieldsOf, FieldsOk;
    if Fits(b) {
      forall v: Behind, w: Behind | v.Ok() && w.Ok()
        ensures EncodeReject(b, v) == EncodeReject(b, w)
      {
        EncodeRefines(b, v);
        EncodeRefines(b, w);
      }
    } else {
      var v, w := Behind(Zeros(254), Zeros(254)), Behind([1] + Zeros(253), [1] + Zeros(253));
      SentDiffers(b, v, w);
    }
  }

  lemma TimersDiffer(tag: Byte, length: Byte, octet: Byte, v: seq<Byte>, w: seq<Byte>)
    requires |v| == |w| == 254 && length >= 2 && v[0] != w[0]
    ensures EncodeTimer(true, tag, length, octet, v) != EncodeTimer(true, tag, length, octet, w)
  {
    assert EncodeTimer(true, tag, length, octet, v)[3] == v[0];
    assert EncodeTimer(true, tag, length, octet, w)[3] == w[0];
  }

  lemma SentDiffers(b: Body, v: Behind, w: Behind)
    requires b.Ok() && v.Ok() && w.Ok() && !Fits(b)
    requires v.t3346[0] != w.t3346[0] && v.t3402[0] != w.t3402[0]
    ensures EncodeReject(b, v) != EncodeReject(b, w)
  {
    if b.present[1] && b.tail[T3346_AT] > 1 {
      TimersDiffer(T3346_VALUE_TYPE, b.tail[T3346_AT], b.tail[T3346_AT + 1], v.t3346, w.t3346);
    } else {
      TimersDiffer(T3402_VALUE_TYPE, b.tail[T3402_AT], b.tail[T3402_AT + 1], v.t3402, w.t3402);
    }
    PartsDiffer([b.cause] + EncodeContainer(b), FirstTimer(b, v), FirstTimer(b, w), SecondTimer(b, v), SecondTimer(b, w),
                EncodeExtended(b));
  }

  lemma PartsDiffer(a: seq<Byte>, v1: seq<Byte>, w1: seq<Byte>, v2: seq<Byte>, w2: seq<Byte>, z: seq<Byte>)
    requires |v1| == |w1| && |v2| == |w2| && (v1 != w1 || v2 != w2)
    ensures a + v1 + v2 + z != a + w1 + w2 + z
  {
    var v, w := a + v1 + v2 + z, a + w1 + w2 + z;
    assert v[|a|..][..|v1|] == v1 && w[|a|..][..|v1|] == w1;
    assert v[|a| + |v1|..][..|v2|] == v2 && w[|a| + |v1|..][..|v2|] == w2;
  }

  // ---- presence

  /** Presence bits are set only. */
  lemma {:induction false} PresentStays(bytes: seq<Byte>, after: seq<Byte>, b: Body, k: nat)
    requires b.Ok() && k < 4 && b.present[k]
    ensures var d := BodyLoop(bytes, after, b);
      d.Done? ==> d.value.present[k]
    decreases |bytes|
  {
    hide DecodeContent, Overlay, Mask;
    if bytes != [] {
      var s := BodyNext(bytes[0], bytes[1..], after, b);
      if s.Done? { PresentStays(bytes[1..][s.value.size..], after, s.value.body, k); }
    }
  }
}

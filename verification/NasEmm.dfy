/** EMM messages: the header around a body, and what the decoder gives back to the packet buffer. */
module NasEmm {
  import opened Wrappers
  import opened Bytes
  import opened NasCodec
  import opened NasReject
  import opened NasAttachReject

  const HEADROOM := 16
  const ATTACH_REJECT: Byte := 68
  const SERVICE_REQUEST_HEADER := 12

  // ---- what is computed

  datatype Header = Header(first: Byte, messageType: Byte)
  {
    /** A service request has a header of its own. */
    predicate ServiceRequest() {
      first / 16 >= SERVICE_REQUEST_HEADER
    }
  }

  /** How many octets a decoder takes, and how many it says it took. */
  datatype Pulled = Pulled(taken: nat, counted: nat)

  /** What the decoders of the other messages do; Abort where one of their assertions fails. */
  type BodyDecoder = (Header, seq<Byte>) -> Outcome<Pulled>

  /** The header, the octets taken and counted in all, and the body of an ATTACH REJECT. */
  datatype Emm = Emm(header: Header, taken: nat, counted: nat, reject: Option<Body>)
  {
    /** The count is kept in 16 bits, and given back. */
    function Back(): nat {
      counted % 0x1_0000
    }
  }

  function OthersTake(h: Header, skip: nat, bytes: seq<Byte>, others: BodyDecoder): Outcome<Emm>
    requires skip <= |bytes|
  {
    var n :- others(h, bytes[skip..]);
    if n.taken <= |bytes| - skip then Done(Emm(h, skip + n.taken, skip + n.counted, None)) else Abort
  }

  /** Behind the header; `bytes` is the whole message. */
  function DecodeBody(h: Header, bytes: seq<Byte>, after: seq<Byte>, others: BodyDecoder): (d: Outcome<Emm>)
    requires |bytes| >= 2
    ensures d.Done? ==> d.value.taken <= |bytes| && d.value.header == h
    ensures d.Done? && d.value.reject.Some? ==>
      d.value.reject.value.Ok() && d.value.taken == d.value.counted == |bytes|
  {
    if h.ServiceRequest() then OthersTake(h, 1, bytes, others)
    else if h.messageType != ATTACH_REJECT then OthersTake(h, 2, bytes, others)
    else
      var r :- DecodeReject(bytes[2..], after, Zeroed());
      Done(Emm(h, |bytes|, |bytes|, Some(r)))
  }

  /** ogs_nas_emm_decode, up to what it gives back. */
  function DecodeEmm(bytes: seq<Byte>, after: seq<Byte>, others: BodyDecoder): (d: Outcome<Emm>)
    ensures d.Done? ==> d.value.taken <= |bytes|
    ensures d.Done? && d.value.reject.Some? ==>
      d.value.reject.value.Ok() && d.value.taken == d.value.counted == |bytes|
  {
    if |bytes| < 2 then Abort else DecodeBody(Header(bytes[0], bytes[1]), bytes, after, others)
  }

  function EncodeEmm(h: Header, b: Body, behind: Behind): seq<Byte>
    requires b.Ok() && behind.Ok()
  {
    [h.first, h.messageType] + EncodeReject(b, behind)
  }

  /** The header is two octets, and the body of an ATTACH REJECT, type 68, is behind it. */
  lemma EmmOctets(h: Header, b: Body, behind: Behind)
    requires b.Ok() && behind.Ok()
    ensures var bytes := EncodeEmm(h, b, behind);
      |bytes| >= 2 && bytes[0] == h.first && bytes[1] == h.messageType && bytes[2..] == EncodeReject(b, behind)
  {
  }

  /** A security header type from 12 on is that of a service request, which starts one octet earlier than other bodies. */
  lemma EmmBodies(bytes: seq<Byte>, after: seq<Byte>, others: BodyDecoder)
    requires |bytes| >= 2
    ensures var h, d := Header(bytes[0], bytes[1]), DecodeEmm(bytes, after, others);
      if bytes[0] < 0xC0 && bytes[1] == 68 then
        var r := DecodeReject(bytes[2..], after, Zeroed());
        d == if r.Abort? then Abort else Done(Emm(h, |bytes|, |bytes|, Some(r.value)))
      else
        var skip := if bytes[0] >= 0xC0 then 1 else 2;
        var n := others(h, bytes[skip..]);
        d == if n.Abort? || skip + n.value.taken > |bytes| then Abort
             else Done(Emm(h, skip + n.value.taken, skip + n.value.counted, None))
  {
    hide DecodeReject;
  }

  // ---- in a packet buffer

  class EmmMessage {
    var h: Header
    const attachReject: AttachReject

    constructor ()
      ensures fresh(attachReject) && fresh(attachReject.tail) && attachReject.Valid()
    {
      h := Header(0, 0);
      attachReject := new AttachReject();
    }

    /** ogs_nas_emm_decode. The buffer is where it was exactly if the count, cut to 16 bits, is what was taken: for an
        ATTACH REJECT, if it has less than 65536 octets. */
    method Decode(p: PacketBuffer, others: BodyDecoder) returns (ok: bool)
      requires p.Valid() && attachReject.Valid() && p.memory != attachReject.tail
      modifies this, attachReject, attachReject.tail, p
      ensures p.Valid() && attachReject.Valid()
      ensures var d := DecodeEmm(old(p.Left()), old(p.After()), others);
        && (ok <==> d.Done? && d.value.Back() <= old(p.pos) + d.value.taken)
        && (ok ==>
              && h == d.value.header
              && p.pos == old(p.pos) + d.value.taken - d.value.Back()
              && p.pos + p.len == old(p.pos) + old(p.len)
              && (d.value.reject.Some? ==>
                    attachReject.Value() == d.value.reject.value && (p.pos == old(p.pos) <==> old(p.len) < 0x1_0000)))
    {
      hide DecodeBody, AttachReject.Value, Zeroed, PacketBuffer.Left, PacketBuffer.After;
      p.LeftIs();
      ghost var left := p.Left();
      if p.len == 0 { return false; }
      attachReject.Clear();
      ok := p.Pull(2);
      if !ok { return; }
      h := Header(p.memory[p.pos - 2], p.memory[p.pos - 1]);
      assert h == Header(left[0], left[1]);
      var decoded := DecodeBehindHeader(p, others, left);
      if decoded.Abort? { return false; }
      ok := p.Push(decoded.value);
    }

    /** The rest, up to the octets to give back; a service request starts one octet earlier. */
    method DecodeBehindHeader(p: PacketBuffer, others: BodyDecoder, ghost left: seq<Byte>) returns (decoded: Outcome<nat>)
      requires p.Valid() && p.pos >= 2 && |left| == 2 + p.len && p.Left() == left[2..] && p.memory[p.pos - 1] == left[1]
      requires attachReject.Valid() && p.memory != attachReject.tail && attachReject.Value() == Zeroed()
      modifies attachReject, attachReject.tail, p
      ensures p.Valid() && attachReject.Valid()
      ensures decoded.Done? ==> p.pos + p.len == old(p.pos) + old(p.len)
      ensures var d := DecodeBody(h, left, old(p.After()), others);
        if d.Abort? then decoded.Abort?
        else
          && decoded == Done(d.value.Back()) && p.pos == old(p.pos) - 2 + d.value.taken
          && (d.value.reject.Some? ==> attachReject.Value() == d.value.reject.value)
    {
      hide DecodeReject, AttachReject.Value, Zeroed;
      var count := 2;
      var size;
      if h.ServiceRequest() {
        var ok := p.Push(1);
        count := count - 1;
        assert p.Left() == [p.memory[p.pos]] + left[2..] == left[1..];
        size := DecodeOthers(p, others);
      } else if h.messageType == ATTACH_REJECT {
        size := attachReject.Decode(p);
      } else {
        size := DecodeOthers(p, others);
      }
      if size.Abort? { return Abort; }
      AddTwice(count, size.value);
      decoded := Done((count + size.value % 0x1_0000) % 0x1_0000);
    }

    /** The other decoders pull what they take, and return what they counted. */
    method DecodeOthers(p: PacketBuffer, others: BodyDecoder) returns (size: Outcome<nat>)
      requires p.Valid()
      modifies p
      ensures p.Valid() && p.pos + p.len == old(p.pos) + old(p.len)
      ensures var n := others(h, old(p.Left()));
        if n.Abort? || n.value.taken > old(p.len) then size.Abort?
        else size == Done(n.value.counted) && p.pos == old(p.pos) + n.value.taken
    {
      var n := others(h, p.memory[p.pos..p.pos + p.len]);
      if n.Abort? { return Abort; }
      var ok := p.Pull(n.value.taken);
      size := if ok then Done(n.value.counted) else Abort;
    }

    /** ogs_nas_emm_encode, for an ATTACH REJECT; `size` is that of the buffer it allocates. */
    method Encode(size: nat, behind: Behind) returns (p: PacketBuffer, ok: bool)
      requires size >= HEADROOM && attachReject.Valid() && behind.Ok()
      requires h.messageType == ATTACH_REJECT && !h.ServiceRequest()
      modifies attachReject.tail
      ensures attachReject.Valid()
      ensures var bytes := EncodeEmm(h, old(attachReject.Value()), behind);
        && (ok <==> 16 + |bytes| <= size)
        && (ok ==> p.Valid() && p.pos == 16 && p.Left() == bytes)
        && (ok ==> attachReject.Value() == Stamp(old(attachReject.Value())))
    {
      assert HEADROOM == 16;
      hide *;
      p := new PacketBuffer(size, HEADROOM);
      p.WroteNothing();
      ghost var all, room := p.memory[..], p.len;
      ghost var b := attachReject.Value();
      var head := [h.first, h.messageType];
      EncodedParts(h, b, behind);
      var encoded := 2;
      ok := p.Put(head, all, HEADROOM, room, []);
      if !ok { return; }
      p.WroteOnly(all, HEADROOM, room, head);
      ghost var before := p.memory[..];
      var n := attachReject.Encode(p, behind);
      if n.Abort? { return p, false; }
      encoded := encoded + n.value;
      p.WroteBehind(before, HEADROOM, room, head, EncodeReject(b, behind));
      ok := p.Push(encoded);
      p.SetLength(encoded);
      p.LeftIs();
    }
  }

  /** Cutting a summand to 16 bits does not change the sum in 16 bits. */
  lemma AddTwice(a: nat, b: nat)
    ensures (a + b % 0x1_0000) % 0x1_0000 == (a + b) % 0x1_0000
  {
  }

  lemma EncodedParts(h: Header, b: Body, behind: Behind)
    requires b.Ok() && behind.Ok()
    ensures EncodeEmm(h, b, behind) == [h.first, h.messageType] + EncodeReject(b, behind)
  {
  }

  // ---- round trip and accounting

  /** The decoded body shows what the encoded one did, and nothing behind the struct was touched. */
  ghost predicate Shows(d: Outcome<Body>, b: Body)
    requires b.Ok()
  {
    && d.Done? && d.value.Ok() && d.value.cause == b.cause && FieldsOf(d.value) == FieldsOf(Stamp(b))
    && d.value.tail[STRUCT_END..] == Zeros(TAIL - STRUCT_END)
  }

  /** The optional part alone, for contents that fit. */
  lemma RejectRoundTrip(b: Body, behind: Behind, after: seq<Byte>)
    requires b.Ok() && behind.Ok() && Fits(b) && (b.present[0] ==> |b.container| < 0xFFFE)
    ensures Shows(DecodeReject(EncodeReject(b, behind), after, Zeroed()), b)
  {
    EncodeRefines(b, behind);
    var f, zero := FieldsOf(b), Zeroed().(cause := b.cause);
    assert FieldsOf(zero) == Nones(4);
    assert zero.tail[STRUCT_END..] == Zeros(TAIL - STRUCT_END);
    assert Short(Table(), f);
    TableIsOk();
    FieldsRoundTrip(Table(), f, after);
    var optional := EncodeFrom(Table(), f, 0);
    LoopRefines(optional, after, zero);
    var bytes := EncodeReject(b, behind);
    hide *;
    assert bytes[1..] == optional;
  }

  /** For every ATTACH REJECT with any of its optional elements, decoding what was encoded gives it back, whatever lies
      behind the local variables of the encoder. */
  lemma EmmRoundTrip(h: Header, b: Body, behind: Behind, after: seq<Byte>, others: BodyDecoder)
    requires h.messageType == ATTACH_REJECT && !h.ServiceRequest()
    requires b.Ok() && behind.Ok() && Fits(b) && (b.present[0] ==> |b.container| < 0xFFFE)
    ensures var bytes := EncodeEmm(h, b, behind);
      var d := DecodeEmm(bytes, after, others);
      && d.Done? && d.value.header == h && d.value.taken == |bytes|
      && d.value.reject.Some? && Shows(Done(d.value.reject.value), b)
  {
    hide DecodeReject, EncodeReject, Shows;
    var bytes := EncodeEmm(h, b, behind);
    assert bytes[2..] == EncodeReject(b, behind);
    RejectRoundTrip(b, behind, after);
    assert DecodeReject(bytes[2..], after, Zeroed()).Done? by { ShownIsDone(DecodeReject(bytes[2..], after, Zeroed()), b); }
  }

  lemma ShownIsDone(d: Outcome<Body>, b: Body)
    requires b.Ok() && Shows(d, b)
    ensures d.Done?
  {
  }

  // ---- the length at which a container stops coming back

  function ContainerAlone(c: Content): (b: Body)
    requires |c| < 0x1_0000
    ensures b.Ok()
  {
    Body(0, [true, false, false, false], c, Zeros(TAIL))
  }

  ghost predicate ContainerComesBack(c: Content)
    requires |c| < 0x1_0000
  {
    var b := ContainerAlone(c);
    Shows(DecodeReject(EncodeReject(b, NothingBehind()), [], Zeroed()), b)
  }

  function NothingBehind(): (v: Behind)
    ensures v.Ok()
  {
    Behind(Zeros(254), Zeros(254))
  }

  /** Containers of a given length all come back if and only if the 16-bit size of the element does not wrap. */
  lemma ContainerLengthIff(n: nat)
    requires n < 0x1_0000
    ensures (forall c: Content :: |c| == n ==> ContainerComesBack(c)) <==> n < 0xFFFE
  {
    hide ContainerComesBack;
    if n < 0xFFFE {
      forall c: Content | |c| == n
        ensures ContainerComesBack(c)
      {
        ShortComesBack(c);
      }
    } else {
      LongDoesNot(n);
    }
  }

  lemma ShortComesBack(c: Content)
    requires |c| < 0xFFFE
    ensures ContainerComesBack(c)
  {
    hide Shows, DecodeReject, EncodeReject;
    RejectRoundTrip(ContainerAlone(c), NothingBehind(), []);
  }

  /** A container that starts like a T3402 value, and is long enough to be read again. */
  function Confusing(n: nat): (c: Content)
    requires n >= 3
    ensures |c| == n
  {
    [T3402_VALUE_TYPE, 1, 7] + seq(n - 3, i => 0)
  }

  lemma ContainerOnly(c: Content)
    requires |c| < 0x1_0000
    ensures var sent := EncodeReject(ContainerAlone(c), NothingBehind());
      && |sent| > 0 && sent[0] == 0
      && sent[1..] == [ESM_MESSAGE_CONTAINER_TYPE] + (BigEndian(|c|, 2) + c)
  {
    hide BigEndian;
    OnlyFirst(0, ESM_MESSAGE_CONTAINER_TYPE, BigEndian(|c|, 2), c);
  }

  lemma OnlyFirst(cause: Byte, tag: Byte, length: seq<Byte>, c: seq<Byte>)
    ensures ([cause] + ([tag] + length + c) + [] + [] + [])[1..] == [tag] + (length + c)
  {
  }

  /** An octet that is no known type is skipped. */
  lemma SkipUnknown(b: Byte, rest: seq<Byte>, body: Body)
    requires body.Ok() && b >= 0xF0
    ensures BodyLoop([b] + rest, [], body) == BodyLoop(rest, [], body)
  {
    hide BodyLoop;
    assert ([b] + rest)[1..] == rest && rest[0..] == rest;
    BodyLoopStep([b] + rest, [], body);
  }

  /** Read again, the container shows a T3402 value. */
  lemma ConfusingIsRead(n: nat, body: Body)
    requires n >= 3 && body.Ok()
    ensures var d := BodyLoop(Confusing(n), [], body);
      d.Done? ==> d.value.present[2]
  {
    hide BodyLoop, Overlay;
    var c := Confusing(n);
    assert c[1..][0] == 1;
    BodyLoopStep(c, [], body);
    var s := BodyNext(c[0], c[1..], [], body);
    assert s.Done? && s.value.body.present[2];
    PresentStays(c[1..][s.value.size..], [], s.value.body, 2);
  }

  lemma LongDoesNot(n: nat)
    requires 0xFFFE <= n < 0x1_0000
    ensures |Confusing(n)| == n && !ContainerComesBack(Confusing(n))
  {
    hide BodyLoop, Confusing, EncodeReject, DecodeContent, BigEndian, Shows;
    var c := Confusing(n);
    var body := BigEndian(n, 2) + c;
    ContainerOnly(c);
    WrappedContainer(ESM_MESSAGE_CONTAINER_TYPE, c, [], []);
    assert body + [] == body;
    var bytes := [ESM_MESSAGE_CONTAINER_TYPE] + body;
    assert bytes[1..] == body;
    var b0 := Zeroed().(cause := 0);
    BodyLoopStep(bytes, [], b0);
    var s := ContainerInto(ESM_MESSAGE_CONTAINER_TYPE, body, [], b0);
    assert BodyLoop(bytes, [], b0) == BodyLoop(body[n - 0xFFFE..], [], s.value.body);
    LengthIsSkipped(n, c, s.value.body);
    ConfusingIsRead(n, s.value.body);
    var sent := EncodeReject(ContainerAlone(c), NothingBehind());
    assert sent[1..] == bytes;
    NotShown(BodyLoop(bytes, [], b0), ContainerAlone(c), 2);
    assert !Shows(DecodeReject(sent, [], Zeroed()), ContainerAlone(c));
  }

  /** What is present though it was not encoded is seen. */
  lemma NotShown(d: Outcome<Body>, b: Body, k: nat)
    requires b.Ok() && k < 4 && !b.present[k] && (d.Done? ==> d.value.Ok() && d.value.present[k])
    ensures !Shows(d, b)
  {
    if d.Done? {
      assert FieldsOf(d.value)[k].Some? && FieldsOf(Stamp(b))[k].None?;
    }
  }

  /** What the cursor did not pass of the length field is no known type. */
  lemma LengthIsSkipped(n: nat, c: Content, b: Body)
    requires 0xFFFE <= n < 0x1_0000 && b.Ok()
    ensures BodyLoop((BigEndian(n, 2) + c)[n - 0xFFFE..], [], b) == BodyLoop(c, [], b)
  {
    hide BodyLoop, BigEndian;
    var body := BigEndian(n, 2) + c;
    TwoOctets(n);
    if n == 0xFFFE {
      assert body[0..] == [0xFF] + ([0xFE] + c);
      SkipUnknown(0xFF, [0xFE] + c, b);
      SkipUnknown(0xFE, c, b);
    } else {
      assert body[1..] == [0xFF] + c;
      SkipUnknown(0xFF, c, b);
    }
  }
}

/** ATTACH REJECT in a packet buffer: decoder and encoder, updated in place as the library does. */
module NasAttachReject {
  import opened Wrappers
  import opened Bytes
  import opened NasCodec
  import opened NasReject

  // ---- packet buffers

  class PacketBuffer {
    const memory: array<Byte>
    /** Where the data starts, and how long it is. */
    var pos: nat
    var len: nat

    /** ogs_pkbuf_alloc, reserve and put */
    constructor (size: nat, headroom: nat)
      requires headroom <= size
      ensures Valid() && fresh(memory) && memory.Length == size && pos == headroom && len == size - headroom
    {
      memory := new Byte[size](_ => 0);
      pos, len := headroom, size - headroom;
    }

    ghost predicate Valid()
      reads this
    {
      pos + len <= memory.Length
    }

    ghost function Left(): seq<Byte>
      reads this, memory
      requires Valid()
    {
      memory[pos..pos + len]
    }

    ghost function After(): seq<Byte>
      reads this, memory
      requires Valid()
    {
      memory[pos + len..]
    }

    method Pull(n: nat) returns (ok: bool)
      requires Valid()
      modifies this
      ensures Valid() && (ok <==> n <= old(len))
      ensures if ok then pos == old(pos) + n && len == old(len) - n else pos == old(pos) && len == old(len)
      ensures ok ==> Left() == old(Left())[n..] && After() == old(After())
    {
      ok := n <= len;
      if ok {
        assert memory[pos..pos + len][n..] == memory[pos + n..pos + len];
        pos, len := pos + n, len - n;
      }
    }

    method Push(n: nat) returns (ok: bool)
      requires Valid()
      modifies this
      ensures Valid() && (ok <==> n <= old(pos))
      ensures if ok then pos == old(pos) - n && len == old(len) + n else pos == old(pos) && len == old(len)
    {
      ok := n <= pos;
      if ok { pos, len := pos - n, len + n; }
    }

    /** The octet `i` places behind the cursor. */
    method OctetAt(i: nat) returns (b: Byte)
      requires Valid()
      ensures b == Peek(Left(), After(), i)
    {
      b := if pos + i < memory.Length then memory[pos + i] else 0;
    }

    /** `n` octets behind a 16-bit length field; in the library a pointer to them. */
    method OctetsAt(n: nat) returns (r: seq<Byte>)
      requires Valid()
      ensures r == PeekMany(Left(), After(), n)
    {
      r := seq(n, i requires 0 <= i reads this, memory =>
        if pos + 2 + i < memory.Length then memory[pos + 2 + i] else 0);
      forall i | 0 <= i < n
        ensures r[i] == Peek(Left(), After(), 2 + i)
      {
        assert pos + len <= pos + 2 + i < memory.Length ==> memory[pos + 2 + i] == After()[2 + i - len];
      }
    }

    // ---- decoders of single elements

    /** ogs_nas_decode_esm_message_container */
    method DecodeEsmMessageContainer(ghost prev: Byte) returns (t: Outcome<Taken>)
      requires Valid()
      modifies this
      ensures Valid()
      ensures var d := DecodeContent(Length16, prev, old(Left()), old(After()));
        if !d.Took? then t.Abort?
        else |d.value.content| < 0x1_0000 && t == Done(d.value) && Moved(d.value.size, old(pos), old(len), old(Left()), old(After()))
    {
      var high := OctetAt(0);
      var low := OctetAt(1);
      var length := high as int * 256 + low as int;
      var size := (length + 2) % 0x1_0000;
      var buffer := OctetsAt(length);
      var ok := Pull(size);
      t := if ok then Done(Taken(buffer, size)) else Abort;
    }

    /** ogs_nas_decode_gprs_timer_2, into the struct at `o`. */
    method DecodeGprsTimer2(target: array<Byte>, o: nat) returns (size: Outcome<nat>)
      requires Valid() && target != memory && o + 0x100 <= target.Length
      modifies this, target
      ensures Valid()
      ensures var n := Peek(old(Left()), old(After()), 0) + 1;
        if n > old(len) then size.Abort?
        else
          && size == Done(n) && Moved(n, old(pos), old(len), old(Left()), old(After()))
          && target[..] == Overlay(old(target[..]), o, old(Left())[..n])
    {
      ghost var left, was, start := Left(), target[..], pos;
      var length := OctetAt(0);
      var n: int := length as int + 1;
      target[o] := length;
      var ok := Pull(n);
      if !ok { return Abort; }
      assert memory[start..start + n] == left[..n];
      forall i | 0 <= i < n { target[o + i] := memory[pos - n + i]; }
      assert target[..] == Overlay(was, o, left[..n]);
      size := Done(n);
    }

    /** The cursor is `n` octets further. */
    ghost predicate Moved(n: nat, oldPos: nat, oldLen: nat, left: seq<Byte>, after: seq<Byte>)
      requires Valid() && n <= |left|
      reads this, memory
    {
      pos == oldPos + n && len + n == oldLen && Left() == left[n..] && After() == after
    }

    lemma FirstOctet()
      requires Valid()
      ensures |Left()| == len && (len > 0 ==> Left()[0] == memory[pos])
    {
    }

    lemma MovedNowhere()
      requires Valid()
      ensures Moved(0, pos, len, Left(), After())
    {
    }

    // ---- encoders

    /** From `start` on, `sofar` has been written; `room` is what there was to write to. */
    ghost predicate Wrote(all: seq<Byte>, start: nat, room: nat, sofar: seq<Byte>)
      reads this, memory
    {
      && Valid() && pos == start + |sofar| && |sofar| + len == room
      && start + |sofar| <= |all| == memory.Length
      && memory[..] == all[..start] + sofar + all[start + |sofar|..]
    }

    lemma WroteNothing()
      requires Valid()
      ensures Wrote(memory[..], pos, len, [])
    {
      ghost var all := memory[..];
      assert all[..pos] + [] + all[pos..] == all;
    }

    lemma WroteOnly(all: seq<Byte>, start: nat, room: nat, bytes: seq<Byte>)
      requires Wrote(all, start, room, [] + bytes)
      ensures Valid() && pos == start + |bytes| && len == room - |bytes| && memory[start..pos] == bytes
    {
    }

    /** What was written before is still there. */
    lemma WroteBehind(before: seq<Byte>, start: nat, room: nat, first: seq<Byte>, bytes: seq<Byte>)
      requires start + |first| <= |before| && before[start..start + |first|] == first && |first| <= room
      requires Wrote(before, start + |first|, room - |first|, bytes)
      ensures Valid() && pos == start + |first| + |bytes|
      ensures memory[start..pos] == first + bytes
    {
      var from := start + |first|;
      assert memory[..from] == before[..from];
      assert memory[start..from] == memory[..from][start..] == before[..from][start..] == first;
      assert memory[from..pos] == bytes;
      assert memory[start..pos] == memory[start..from] + memory[from..pos];
    }

    lemma LeftIs()
      requires Valid()
      ensures Left() == memory[pos..pos + len]
    {
    }

    method SetLength(n: nat)
      requires pos + n <= memory.Length
      modifies this`len
      ensures Valid() && len == n
    {
      len := n;
    }

    /** Pull and copy. */
    method Put(bytes: seq<Byte>, ghost all: seq<Byte>, ghost start: nat, ghost room: nat, ghost sofar: seq<Byte>)
      returns (ok: bool)
      requires Wrote(all, start, room, sofar)
      modifies this, memory
      ensures ok <==> |sofar| + |bytes| <= room
      ensures ok ==> Wrote(all, start, room, sofar + bytes)
    {
      ok := Pull(|bytes|);
      if ok {
        ghost var before := memory[..];
        var from := pos - |bytes|;
        forall i | 0 <= i < |bytes| { memory[from + i] := bytes[i]; }
        assert memory[..] == before[..from] + bytes + before[from + |bytes|..];
        WroteMore(all, start, sofar, bytes);
      }
    }
  }

  lemma WroteMore(all: seq<Byte>, start: nat, sofar: seq<Byte>, bytes: seq<Byte>)
    requires start + |sofar| + |bytes| <= |all|
    ensures var before := all[..start] + sofar + all[start + |sofar|..];
      var from := start + |sofar|;
      before[..from] + bytes + before[from + |bytes|..]
      == all[..start] + (sofar + bytes) + all[start + |sofar + bytes|..]
  {
  }

  // ---- the message

  function Bits(m: bv32): seq<bool> {
    [m & 1 != 0, m & 2 != 0, m & 4 != 0, m & 8 != 0]
  }

  function BitOf(k: nat): bv32
    requires k < 4
  {
    if k == 0 then 1 else if k == 1 then 2 else if k == 2 then 4 else 8
  }

  /** A presence bit that is set reads as set, and changes no other. */
  lemma SetBit(m: bv32, k: nat)
    requires k < 4
    ensures Bits(m | BitOf(k)) == Bits(m)[k := true]
  {
    assert (m | 1) & 1 != 0 && (m | 1) & 2 == m & 2 && (m | 1) & 4 == m & 4 && (m | 1) & 8 == m & 8;
    assert (m | 2) & 2 != 0 && (m | 2) & 1 == m & 1 && (m | 2) & 4 == m & 4 && (m | 2) & 8 == m & 8;
    assert (m | 4) & 4 != 0 && (m | 4) & 1 == m & 1 && (m | 4) & 2 == m & 2 && (m | 4) & 8 == m & 8;
    assert (m | 8) & 8 != 0 && (m | 8) & 1 == m & 1 && (m | 8) & 2 == m & 2 && (m | 8) & 4 == m & 4;
  }

  /** The bits of the presence mask. */
  lemma PresenceBits(m: bv32)
    ensures Bits(m) == [m & 0x1 != 0, m & 0x2 != 0, m & 0x4 != 0, m & 0x8 != 0]
    ensures BitOf(0) == 0x1 && BitOf(1) == 0x2 && BitOf(2) == 0x4 && BitOf(3) == 0x8
  {
  }

  class AttachReject {
    var emmCause: Byte
    var presencemask: bv32
    var esmMessageContainer: Content
    /** The timers, the extended cause, and what lies behind the struct. */
    const tail: array<Byte>

    constructor ()
      ensures Valid() && fresh(tail) && Value() == Zeroed()
    {
      emmCause, presencemask, esmMessageContainer := 0, 0, [];
      tail := new Byte[TAIL](_ => 0);
      new;
      assert tail[..] == Zeros(TAIL);
    }

    ghost predicate Valid()
      reads this
    {
      |esmMessageContainer| < 0x1_0000 && tail.Length == TAIL
    }

    ghost function Value(): (b: Body)
      reads this, tail
      requires Valid()
      ensures b.Ok()
    {
      Body(emmCause, Bits(presencemask), esmMessageContainer, tail[..])
    }

    /** memset */
    method Clear()
      requires Valid()
      modifies this, tail
      ensures Valid() && Value() == Zeroed()
      ensures emmCause == 0 && presencemask == 0 && esmMessageContainer == [] && forall i :: 0 <= i < TAIL ==> tail[i] == 0
    {
      emmCause, presencemask, esmMessageContainer := 0, 0, [];
      forall i | 0 <= i < TAIL { tail[i] := 0; }
      assert tail[..] == Zeros(TAIL);
    }

    // ---- decoding

    method SetPresent(k: nat)
      requires k < 4
      modifies this`presencemask
      ensures Bits(presencemask) == old(Bits(presencemask))[k := true]
    {
      hide Bits, BitOf;
      SetBit(presencemask, k);
      presencemask := presencemask | BitOf(k);
    }

    method DecodeContainer(p: PacketBuffer, ghost prev: Byte) returns (size: Outcome<nat>)
      requires Valid() && p.Valid() && p.memory != tail
      modifies this, p
      ensures Valid() && p.Valid()
      ensures var s := ContainerInto(prev, old(p.Left()), old(p.After()), old(Value()));
        if s.Abort? then size.Abort?
        else
          && size == Done(s.value.size) && Value() == s.value.body
          && p.Moved(s.value.size, old(p.pos), old(p.len), old(p.Left()), old(p.After()))
    {
      hide DecodeContent, Bits;
      var t := p.DecodeEsmMessageContainer(prev);
      if t.Abort? { return Abort; }
      esmMessageContainer := t.value.content;
      SetPresent(0);
      size := Done(t.value.size);
    }

    /** The timer at `o`, which is field `k`. */
    method DecodeTimer(p: PacketBuffer, k: nat, o: nat) returns (size: Outcome<nat>)
      requires Valid() && p.Valid() && p.memory != tail && k < 4 && o <= T3402_AT
      modifies this, tail, p
      ensures Valid() && p.Valid()
      ensures var s := TimerInto(k, o, old(p.Left()), old(p.After()), old(Value()));
        if s.Abort? then size.Abort?
        else
          && size == Done(s.value.size) && Value() == s.value.body
          && p.Moved(s.value.size, old(p.pos), old(p.len), old(p.Left()), old(p.After()))
    {
      hide Peek, Overlay, Bits;
      size := p.DecodeGprsTimer2(tail, o);
      if size.Abort? { return; }
      SetPresent(k);
    }

    /** ogs_nas_decode_extended_emm_cause: the type octet again. */
    method DecodeExtended(p: PacketBuffer, ghost prev: Byte)
      requires Valid() && p.Valid() && p.memory != tail && p.pos > 0 && p.memory[p.pos - 1] == prev
      modifies this, tail
      ensures Valid() && p.Left() == old(p.Left()) && p.After() == old(p.After())
      ensures Value() == old(Value()).(tail := old(Value()).tail[EXTENDED_AT := prev], present := old(Value()).present[3 := true])
    {
      hide Bits, PacketBuffer.Left, PacketBuffer.After;
      ghost var was := Value();
      SetPresent(3);
      tail[EXTENDED_AT] := p.memory[p.pos - 1];
      assert tail[..] == was.tail[EXTENDED_AT := prev];
      assert Bits(presencemask) == was.present[3 := true];
    }

    /** One round of the optional loop, after its type was pulled; a type that is not known is passed over. */
    method DecodeElement(p: PacketBuffer, prev: Byte) returns (size: Outcome<nat>)
      requires Valid() && p.Valid() && p.memory != tail && p.pos > 0 && p.memory[p.pos - 1] == prev
      modifies this, tail, p
      ensures Valid() && p.Valid()
      ensures var s := BodyNext(prev, old(p.Left()), old(p.After()), old(Value()));
        if s.Abort? then size.Abort?
        else
          && size == Done(s.value.size) && Value() == s.value.body
          && p.Moved(s.value.size, old(p.pos), old(p.len), old(p.Left()), old(p.After()))
    {
      hide Mask, ContainerInto, TimerInto, Bits, Value, PacketBuffer.Left, PacketBuffer.After, PacketBuffer.Moved;
      p.MovedNowhere();
      var tag := Mask(prev);
      if tag == ESM_MESSAGE_CONTAINER_TYPE {
        size := DecodeContainer(p, prev);
      } else if tag == T3346_VALUE_TYPE {
        size := DecodeTimer(p, 1, T3346_AT);
      } else if tag == T3402_VALUE_TYPE {
        size := DecodeTimer(p, 2, T3402_AT);
      } else if tag == EXTENDED_EMM_CAUSE_TYPE {
        DecodeExtended(p, prev);
        p.MovedNowhere();
        size := Done(0);
      } else {
        size := Done(0);
      }
    }

    /** ogs_nas_decode_attach_reject */
    method Decode(p: PacketBuffer) returns (decoded: Outcome<nat>)
      requires Valid() && p.Valid() && p.memory != tail
      modifies this, tail, p
      ensures Valid() && p.Valid()
      ensures var d := DecodeReject(old(p.Left()), old(p.After()), old(Value()));
        if d.Abort? then decoded.Abort?
        else
          && decoded == Done(old(p.len)) && p.pos == old(p.pos) + old(p.len) && p.len == 0
          && Value() == d.value
    {
      hide Bits, BodyNext, BodyLoop, Value, PacketBuffer.Left, PacketBuffer.After;
      p.FirstOctet();
      ghost var left, after := p.Left(), p.After();
      var count := 0;
      var ok := p.Pull(1);
      if !ok { return Abort; }
      SetCause(p.memory[p.pos - 1]);
      count := count + 1;
      ghost var start := Value();
      while p.len > 0
        invariant Valid() && p.Valid() && p.After() == after
        invariant count == p.pos - old(p.pos) && p.pos + p.len == old(p.pos) + old(p.len)
        invariant BodyLoop(left[1..], after, start) == BodyLoop(p.Left(), after, Value())
        decreases p.len
      {
        p.FirstOctet();
        ghost var rest := p.Left();
        BodyLoopStep(rest, after, Value());
        var prev := p.memory[p.pos];
        ok := p.Pull(1);
        assert ok && prev == rest[0];
        count := count + 1;
        var size := DecodeElement(p, prev);
        if size.Abort? { return Abort; }
        count := count + size.value;
      }
      p.FirstOctet();
      BodyLoopEnd(p.Left(), after, Value());
      decoded := Done(count);
    }

    method SetCause(cause: Byte)
      requires Valid()
      modifies this`emmCause
      ensures Valid() && Value() == old(Value()).(cause := cause)
    {
      emmCause := cause;
    }

    // ---- encoding

    /** The container, if present: its type, its length, its octets. */
    method PutContainer(p: PacketBuffer, ghost all: seq<Byte>, ghost start: nat, ghost room: nat, ghost sofar: seq<Byte>)
      returns (ok: bool, size: nat)
      requires Valid() && p.Wrote(all, start, room, sofar) && p.memory != tail
      modifies p, p.memory
      ensures var bytes := EncodeContainer(Value());
        && size == |bytes| && (ok <==> |sofar| + |bytes| <= room)
        && (ok ==> p.Wrote(all, start, room, sofar + bytes))
    {
      if presencemask & 1 == 0 {
        assert sofar + [] == sofar;
        return true, 0;
      }
      var length := BigEndian(|esmMessageContainer|, 2);
      var head := [ESM_MESSAGE_CONTAINER_TYPE];
      assert sofar + head + length + esmMessageContainer == sofar + (head + length + esmMessageContainer);
      size := 1 + 2 + |esmMessageContainer|;
      ok := p.Put(head, all, start, room, sofar);
      if !ok { return; }
      ok := p.Put(length, all, start, room, sofar + head);
      if !ok { return; }
      ok := p.Put(esmMessageContainer, all, start, room, sofar + head + length);
    }

    /** The extended cause, if present: one octet, whose upper half is set to the type first. */
    method PutExtendedCause(p: PacketBuffer, ghost all: seq<Byte>, ghost start: nat, ghost room: nat, ghost sofar: seq<Byte>)
      returns (ok: bool, size: nat)
      requires Valid() && p.Wrote(all, start, room, sofar) && p.memory != tail
      modifies tail, p, p.memory
      ensures var bytes := EncodeExtended(old(Value()));
        && size == |bytes| && (ok <==> |sofar| + |bytes| <= room)
        && (ok ==> p.Wrote(all, start, room, sofar + bytes))
      ensures Value() == Stamp(old(Value()))
    {
      if presencemask & 8 == 0 {
        assert sofar + [] == sofar;
        return true, 0;
      }
      tail[EXTENDED_AT] := WithType(tail[EXTENDED_AT]);
      assert old(Value()).present[3];
      ok := p.Put([tail[EXTENDED_AT]], all, start, room, sofar);
      size := 1;
    }

    /** A timer, if present: ogs_nas_encode_optional_type, then ogs_nas_encode_gprs_timer_2, which sends from a copy of
        two octets and from what lies behind it. */
    method PutTimer(p: PacketBuffer, present: bool, tag: Byte, o: nat, behind: seq<Byte>,
      ghost all: seq<Byte>, ghost start: nat, ghost room: nat, ghost sofar: seq<Byte>) returns (ok: bool, size: nat)
      requires Valid() && p.Wrote(all, start, room, sofar) && p.memory != tail
      requires o <= T3402_AT && |behind| == 254
      modifies p, p.memory
      ensures var bytes := EncodeTimer(present, tag, tail[o], tail[o + 1], behind);
        && size == |bytes| && (ok <==> |sofar| + |bytes| <= room)
        && (ok ==> p.Wrote(all, start, room, sofar + bytes))
    {
      if !present {
        assert sofar + [] == sofar;
        return true, 0;
      }
      var n: int := tail[o] as int + 1;
      var target := [tail[o], tail[o + 1]] + behind;
      assert sofar + [tag] + target[..n] == sofar + ([tag] + target[..n]);
      size := 1 + n;
      ok := p.Put([tag], all, start, room, sofar);
      if !ok { return; }
      ok := p.Put(target[..n], all, start, room, sofar + [tag]);
    }

    /** The container and the timers, which are first among the optional elements. */
    method PutFirstThree(p: PacketBuffer, behind: Behind, ghost all: seq<Byte>, ghost start: nat, ghost room: nat, ghost sofar: seq<Byte>)
      returns (ok: bool, size: nat)
      requires Valid() && p.Wrote(all, start, room, sofar) && p.memory != tail && behind.Ok()
      modifies p, p.memory
      ensures var n := |sofar| + |EncodeContainer(Value())| + |FirstTimer(Value(), behind)| + |SecondTimer(Value(), behind)|;
        && (ok ==> |sofar| + size == n) && (ok <==> n <= room)
        && (ok ==> p.Wrote(all, start, room,
              sofar + EncodeContainer(Value()) + FirstTimer(Value(), behind) + SecondTimer(Value(), behind)))
    {
      hide EncodeContainer, EncodeTimer, PacketBuffer.Wrote;
      ghost var b := Value();
      ghost var e0, e1 := EncodeContainer(b), FirstTimer(b, behind);
      var n;
      ok, size := PutContainer(p, all, start, room, sofar);
      if !ok { return; }
      ok, n := PutTimer(p, presencemask & 2 != 0, T3346_VALUE_TYPE, T3346_AT, behind.t3346, all, start, room, sofar + e0);
      if !ok { return; }
      size := size + n;
      ok, n := PutTimer(p, presencemask & 4 != 0, T3402_VALUE_TYPE, T3402_AT, behind.t3402, all, start, room, sofar + e0 + e1);
      size := size + n;
    }

    /** ogs_nas_encode_attach_reject */
    method Encode(p: PacketBuffer, behind: Behind) returns (encoded: Outcome<nat>)
      requires Valid() && p.Valid() && p.memory != tail && behind.Ok()
      modifies tail, p, p.memory
      ensures Valid()
      ensures var bytes := EncodeReject(old(Value()), behind);
        if |bytes| > old(p.len) then encoded.Abort?
        else
          && encoded == Done(|bytes|) && p.Wrote(old(p.memory[..]), old(p.pos), old(p.len), bytes)
          && Value() == Stamp(old(Value()))
    {
      hide EncodeContainer, EncodeTimer, EncodeExtended, FirstTimer, SecondTimer, PacketBuffer.Wrote, Stamp, Bits;
      ghost var all, start, room, b := p.memory[..], p.pos, p.len, Value();
      p.WroteNothing();
      ghost var first := [emmCause];
      assert [] + first == first;
      var ok := p.Put([emmCause], all, start, room, []);
      if !ok { return Abort; }
      var count := 1;
      var size;
      ok, size := PutFirstThree(p, behind, all, start, room, first);
      if !ok { return Abort; }
      count := count + size;
      ok, size := PutExtendedCause(p, all, start, room,
        first + EncodeContainer(b) + FirstTimer(b, behind) + SecondTimer(b, behind));
      if !ok { return Abort; }
      encoded := Done(count + size);
    }
  }
}

/** Tracking area identity lists: section 9.9.3.33 of TS 24.301. */
module NasTaiList {
  import opened Bytes

  const MAX_TAI_LIST_LEN := 96
  const MAX_NUM_OF_TAI := 16

  type Plmn = p: seq<Byte> | |p| == 3 witness [0, 0, 0]
  type Tac = n: nat | n < 0x1_0000

  datatype Tai = Tai(plmn: Plmn, tac: Tac)

  /** One PLMN and some tracking area codes; an entry with num 0 ends the list of entries. */
  datatype Tai0 = Tai0(kind: nat, num: nat, plmn: Plmn, tacs: seq<Tac>)
  {
    /** The bit fields and the array the entry is made of. */
    predicate Shaped() {
      kind < 4 && num < 32 && |tacs| == MAX_NUM_OF_TAI
    }

    predicate Valid() {
      kind == 0 && num < MAX_NUM_OF_TAI
    }
  }

  datatype Tai2 = Tai2(kind: nat, num: nat, tais: seq<Tai>)
  {
    predicate Shaped() {
      kind < 4 && num < 32 && |tais| == MAX_NUM_OF_TAI
    }

    predicate Valid() {
      (kind == 1 || kind == 2) && num < MAX_NUM_OF_TAI
    }
  }

  // ---- what is written

  function TacOctets(tacs: seq<Tac>): (bytes: seq<Byte>)
    ensures |bytes| == 2 * |tacs|
  {
    if tacs == [] then [] else BigEndian(tacs[0], 2) + TacOctets(tacs[1..])
  }

  function TaiOctets(tais: seq<Tai>): (bytes: seq<Byte>)
    ensures |bytes| == 5 * |tais|
  {
    if tais == [] then [] else tais[0].plmn + BigEndian(tais[0].tac, 2) + TaiOctets(tais[1..])
  }

  function Entry0(e: Tai0): (bytes: seq<Byte>)
    requires e.Shaped() && e.Valid() && e.num > 0
    ensures |bytes| == 4 + 2 * e.num
  {
    [e.kind * 32 + (e.num - 1)] + e.plmn + TacOctets(e.tacs[..e.num])
  }

  function Entry2(e: Tai2): (bytes: seq<Byte>)
    requires e.Shaped() && e.Valid() && e.num > 0
    ensures |bytes| == 1 + 5 * e.num
  {
    [e.kind * 32 + (e.num - 1)] + TaiOctets(e.tais[..e.num])
  }

  /** What the buffer holds, and whether an entry did not fit. */
  datatype Filled = Filled(bytes: seq<Byte>, full: bool)

  predicate AllShaped(list: seq<Tai0>) {
    forall i :: 0 <= i < |list| ==> list[i].Shaped()
  }

  /** How building ends: an assertion fails, the seventeenth of sixteen entries is read, or there is a result. */
  datatype Ending<+T> = Fails | ReadsPast | Gives(value: T)
  {
    predicate IsFailure() {
      !Gives?
    }

    function PropagateFailure<U>(): Ending<U>
      requires !Gives?
    {
      if Fails? then Fails else ReadsPast
    }

    function Extract(): T
      requires Gives?
    {
      value
    }
  }

  /** The first loop of ogs_nas_tai_list_build, from what is written already; `list` is the rest of the array. */
  function Fill(bytes: seq<Byte>, list: seq<Tai0>): Ending<Filled>
    requires AllShaped(list)
    decreases |list|
  {
    if list == [] then ReadsPast
    else if list[0].num == 0 then Gives(Filled(bytes, false))
    else if !list[0].Valid() then Fails
    else if |bytes| + |Entry0(list[0])| > MAX_TAI_LIST_LEN then Gives(Filled(bytes, true))
    else Fill(bytes + Entry0(list[0]), list[1..])
  }

  function Built(list: seq<Tai0>, last: Tai2): Ending<seq<Byte>>
    requires AllShaped(list) && last.Shaped()
  {
    var f :- Fill([], list);
    if f.full || last.num == 0 then Gives(f.bytes)
    else if !last.Valid() then Fails
    else if |f.bytes| + |Entry2(last)| > MAX_TAI_LIST_LEN then Gives(f.bytes)
    else Gives(f.bytes + Entry2(last))
  }

  // ---- the builder

  class Target {
    var length: nat
    const buffer: array<Byte>

    constructor ()
      ensures fresh(buffer) && buffer.Length == MAX_TAI_LIST_LEN
    {
      length, buffer := 0, new Byte[MAX_TAI_LIST_LEN](_ => 0);
    }

    ghost predicate Valid()
      reads this
    {
      buffer.Length == MAX_TAI_LIST_LEN && length <= MAX_TAI_LIST_LEN
    }

    /** What is to be sent. */
    ghost function Contents(): seq<Byte>
      reads this, buffer
      requires Valid()
    {
      buffer[..length]
    }

    /** memcpy behind what is there */
    method Append(bytes: seq<Byte>)
      requires Valid() && length + |bytes| <= MAX_TAI_LIST_LEN
      modifies this, buffer
      ensures Valid() && Contents() == old(Contents()) + bytes
    {
      forall i | 0 <= i < |bytes| { buffer[length + i] := bytes[i]; }
      assert buffer[length..length + |bytes|] == bytes;
      length := length + |bytes|;
    }

    /** ogs_nas_tai_list_build, from an array of sixteen entries. */
    method Build(source0: seq<Tai0>, source2: Tai2) returns (end: Ending<()>)
      requires buffer.Length == MAX_TAI_LIST_LEN
      requires |source0| == MAX_NUM_OF_TAI && AllShaped(source0) && source2.Shaped()
      modifies this, buffer
      ensures Valid()
      ensures match Built(source0, source2)
        case Fails => end.Fails?
        case ReadsPast => end.ReadsPast?
        case Gives(bytes) => end.Gives? && Contents() == bytes
    {
      hide Entry0, Entry2, TaiOctets, TacOctets;
      length := 0;
      forall i | 0 <= i < buffer.Length { buffer[i] := 0; }
      var i := 0;
      assert source0[0..] == source0;
      while i < |source0| && source0[i].num != 0
        invariant i <= |source0| && Valid()
        invariant Fill([], source0) == Fill(Contents(), source0[i..])
      {
        var e := source0[i];
        assert source0[i..][0] == e && source0[i..][1..] == source0[i + 1..];
        if e.kind != 0 { return Fails; }
        if e.num >= MAX_NUM_OF_TAI { return Fails; }
        var entry := MakeEntry0(e);
        var size := 1 + 3 + 2 * e.num;
        if length + size > MAX_TAI_LIST_LEN { return Gives(()); }
        Append(entry);
        i := i + 1;
      }
      if i == |source0| { return ReadsPast; }
      assert source0[i..][0].num == 0;
      if source2.num != 0 {
        if source2.kind != 1 && source2.kind != 2 { return Fails; }
        if source2.num >= MAX_NUM_OF_TAI { return Fails; }
        var size := 1 + (3 + 2) * source2.num;
        if length + size > MAX_TAI_LIST_LEN { return Gives(()); }
        var entry := MakeEntry2(source2);
        Append(entry);
      }
      end := Gives(());
    }
  }

  /** The loop over the codes of an entry. */
  method MakeEntry0(e: Tai0) returns (entry: seq<Byte>)
    requires e.Shaped() && e.Valid() && e.num > 0
    ensures entry == Entry0(e)
  {
    entry := [e.kind * 32 + (e.num - 1)] + e.plmn;
    ghost var head := entry;
    var j := 0;
    while j < e.num
      invariant j <= e.num && entry == head + TacOctets(e.tacs[..j])
    {
      AppendTac(e.tacs[..j], e.tacs[j]);
      assert e.tacs[..j + 1] == e.tacs[..j] + [e.tacs[j]];
      entry := entry + BigEndian(e.tacs[j], 2);
      j := j + 1;
    }
  }

  lemma {:induction false} AppendTac(tacs: seq<Tac>, tac: Tac)
    ensures TacOctets(tacs + [tac]) == TacOctets(tacs) + BigEndian(tac, 2)
  {
    if tacs == [] {
      assert TacOctets([tac]) == BigEndian(tac, 2) + TacOctets([]);
    } else {
      AppendTac(tacs[1..], tac);
      assert (tacs + [tac])[1..] == tacs[1..] + [tac];
    }
  }

  /** The loop over the identities of the last entry. */
  method MakeEntry2(e: Tai2) returns (entry: seq<Byte>)
    requires e.Shaped() && e.Valid() && e.num > 0
    ensures entry == Entry2(e)
  {
    entry := [e.kind * 32 + (e.num - 1)];
    ghost var head := entry;
    var i := 0;
    while i < e.num
      invariant i <= e.num && entry == head + TaiOctets(e.tais[..i])
    {
      AppendTai(e.tais[..i], e.tais[i]);
      assert e.tais[..i + 1] == e.tais[..i] + [e.tais[i]];
      entry := entry + (e.tais[i].plmn + BigEndian(e.tais[i].tac, 2));
      i := i + 1;
    }
  }

  lemma {:induction false} AppendTai(tais: seq<Tai>, tai: Tai)
    ensures TaiOctets(tais + [tai]) == TaiOctets(tais) + (tai.plmn + BigEndian(tai.tac, 2))
  {
    if tais == [] {
      assert TaiOctets([tai]) == tai.plmn + BigEndian(tai.tac, 2) + TaiOctets([]);
    } else {
      AppendTai(tais[1..], tai);
      assert (tais + [tai])[1..] == tais[1..] + [tai];
    }
  }
}

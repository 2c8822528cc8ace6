/** What a receiver reads from a built tracking area identity list. */
module NasTaiDecode {
  import opened Wrappers
  import opened Bytes
  import opened NasTaiList

  // ---- a receiver, by section 9.9.3.33 of TS 24.301

  /** The codes of one PLMN. */
  function ReadTacs(plmn: Plmn, bytes: seq<Byte>): seq<Tai> {
    if |bytes| < 2 then [] else [Tai(plmn, TacOf(bytes[0], bytes[1]))] + ReadTacs(plmn, bytes[2..])
  }

  function TacOf(high: Byte, low: Byte): Tac {
    var n: nat := high;
    n * 256 + low
  }

  /** Consecutive codes of one PLMN. */
  function Consecutive(plmn: Plmn, tac: Tac, n: nat): (tais: seq<Tai>)
    ensures |tais| == n
    decreases n
  {
    if n == 0 then [] else [Tai(plmn, tac)] + Consecutive(plmn, (tac + 1) % 0x1_0000, n - 1)
  }

  function ReadTais(bytes: seq<Byte>): seq<Tai> {
    if |bytes| < 5 then [] else [Tai(bytes[..3], TacOf(bytes[3], bytes[4]))] + ReadTais(bytes[5..])
  }

  /** The octets of a partial list with `n` elements. */
  function PartSize(kind: nat, n: nat): nat {
    if kind == 0 then 4 + 2 * n else if kind == 1 then 6 else 1 + 5 * n
  }

  function ReadPart(kind: nat, n: nat, bytes: seq<Byte>): seq<Tai>
    requires kind < 3 && n > 0 && |bytes| == PartSize(kind, n)
  {
    if kind == 0 then ReadTacs(bytes[1..4], bytes[4..])
    else if kind == 1 then Consecutive(bytes[1..4], TacOf(bytes[4], bytes[5]), n)
    else ReadTais(bytes[1..])
  }

  function Decode(bytes: seq<Byte>): Option<seq<Tai>> {
    if bytes == [] then Some([])
    else
      var kind, n := bytes[0] / 32 % 4, bytes[0] % 32 + 1;
      if kind == 3 || n > MAX_NUM_OF_TAI || |bytes| < PartSize(kind, n) then None
      else
        var size := PartSize(kind, n);
        var rest := Decode(bytes[size..]);
        if rest.None? then None else Some(ReadPart(kind, n, bytes[..size]) + rest.value)
  }

  // ---- what it should read

  /** The entries there are. */
  function Entries(list: seq<Tai0>): seq<Tai0> {
    if list == [] || list[0].num == 0 then [] else [list[0]] + Entries(list[1..])
  }

  function Identities(es: seq<Tai0>): seq<Tai>
    requires AllShaped(es)
  {
    if es == [] then [] else EntryTais(es[0]) + Identities(es[1..])
  }

  function EntryTais(e: Tai0): seq<Tai>
    requires e.Shaped()
  {
    TaisOf(e.plmn, if e.num <= |e.tacs| then e.tacs[..e.num] else [])
  }

  function TaisOf(plmn: Plmn, tacs: seq<Tac>): seq<Tai> {
    if tacs == [] then [] else [Tai(plmn, tacs[0])] + TaisOf(plmn, tacs[1..])
  }

  function Size(es: seq<Tai0>): nat {
    if es == [] then 0 else 4 + 2 * es[0].num + Size(es[1..])
  }

  predicate AllValid(es: seq<Tai0>) {
    forall i :: 0 <= i < |es| ==> es[i].Shaped() && es[i].Valid() && es[i].num > 0
  }

  function Joined(es: seq<Tai0>): (bytes: seq<Byte>)
    requires AllValid(es)
    ensures |bytes| == Size(es)
  {
    if es == [] then [] else Entry0(es[0]) + Joined(es[1..])
  }

  // ---- the builder writes the longest prefix that fits

  /** The first `k` entries fit, and no more do. */
  predicate LongestFit(es: seq<Tai0>, k: nat, room: int) {
    k <= |es| && Size(es[..k]) <= room && (k < |es| ==> Size(es[..k + 1]) > room)
  }

  lemma {:induction false} FillIsPrefix(bytes: seq<Byte>, list: seq<Tai0>) returns (k: nat)
    requires AllShaped(list) && Fill(bytes, list).Gives? && |bytes| <= MAX_TAI_LIST_LEN
    ensures LongestFit(Entries(list), k, MAX_TAI_LIST_LEN - |bytes|)
    ensures AllValid(Entries(list)[..k])
    ensures Fill(bytes, list).value == Filled(bytes + Joined(Entries(list)[..k]), k < |Entries(list)|)
    decreases |list|
  {
    var es := Entries(list);
    if list[0].num == 0 {
      k := 0;
      assert bytes + [] == bytes;
    } else {
      var e := list[0];
      assert es[1..] == Entries(list[1..]);
      if |bytes| + |Entry0(e)| > MAX_TAI_LIST_LEN {
        k := 0;
        assert bytes + [] == bytes;
        assert es[..1] == [e];
      } else {
        var j := FillIsPrefix(bytes + Entry0(e), list[1..]);
        k := j + 1;
        PrefixStep(es, j);
        JoinedStep(es, j, bytes);
      }
    }
  }

  lemma JoinedStep(es: seq<Tai0>, j: nat, bytes: seq<Byte>)
    requires es != [] && j < |es| && AllValid(es[1..][..j]) && es[0].Shaped() && es[0].Valid() && es[0].num > 0
    ensures AllValid(es[..j + 1]) && bytes + Entry0(es[0]) + Joined(es[1..][..j]) == bytes + Joined(es[..j + 1])
  {
    hide Entry0;
    PrefixStep(es, j);
    var a, b := es[..j + 1], es[1..][..j];
    assert a[1..] == b;
    forall i | 0 <= i < |a|
      ensures a[i].Shaped() && a[i].Valid() && a[i].num > 0
    {
      assert i > 0 ==> a[i] == b[i - 1];
    }
    assert bytes + Entry0(es[0]) + Joined(b) == bytes + (Entry0(es[0]) + Joined(b));
  }

  lemma PrefixStep(es: seq<Tai0>, j: nat)
    requires es != [] && j < |es|
    ensures es[..j + 1][0] == es[0] && es[..j + 1][1..] == es[1..][..j]
    ensures j + 1 < |es| ==> es[..j + 2][0] == es[0] && es[..j + 2][1..] == es[1..][..j + 1]
  {
  }

  // ---- the receiver reads them back

  function Prepend(tais: seq<Tai>, rest: Option<seq<Tai>>): Option<seq<Tai>> {
    if rest.None? then None else Some(tais + rest.value)
  }

  lemma DecodeFirst(head: Byte, body: seq<Byte>, rest: seq<Byte>)
    requires var kind, n := head / 32 % 4, head % 32 + 1;
      kind < 3 && n <= MAX_NUM_OF_TAI && 1 + |body| == PartSize(kind, n)
    ensures Decode([head] + body + rest) ==
      Prepend(ReadPart(head / 32 % 4, head % 32 + 1, [head] + body), Decode(rest))
  {
    var bytes := [head] + body + rest;
    assert bytes[..1 + |body|] == [head] + body && bytes[1 + |body|..] == rest;
  }

  lemma {:induction false} ReadTacOctets(plmn: Plmn, tacs: seq<Tac>)
    ensures ReadTacs(plmn, TacOctets(tacs)) == TaisOf(plmn, tacs)
  {
    if tacs != [] {
      TwoOctets(tacs[0]);
      ReadTacOctets(plmn, tacs[1..]);
      assert TacOctets(tacs)[2..] == TacOctets(tacs[1..]);
    }
  }

  lemma {:induction false} ReadTaiOctets(tais: seq<Tai>)
    ensures ReadTais(TaiOctets(tais)) == tais
  {
    if tais != [] {
      TwoOctets(tais[0].tac);
      ReadTaiOctets(tais[1..]);
      assert TaiOctets(tais)[5..] == TaiOctets(tais[1..]);
      assert TaiOctets(tais)[..3] == tais[0].plmn;
    }
  }

  lemma DecodeEntry0(e: Tai0, rest: seq<Byte>)
    requires e.Shaped() && e.Valid() && e.num > 0
    ensures Decode(Entry0(e) + rest) == Prepend(EntryTais(e), Decode(rest))
  {
    hide Decode, TacOctets, ReadTacs, TaisOf;
    var head: Byte, tacs := e.num - 1, TacOctets(e.tacs[..e.num]);
    assert Entry0(e) == [head] + (e.plmn + tacs);
    DecodeFirst(head, e.plmn + tacs, rest);
    var part := [head] + (e.plmn + tacs);
    assert part[1..4] == e.plmn && part[4..] == tacs;
    ReadTacOctets(e.plmn, e.tacs[..e.num]);
  }

  lemma {:induction false} DecodeJoined(es: seq<Tai0>, rest: seq<Byte>)
    requires AllValid(es) && AllShaped(es)
    ensures Decode(Joined(es) + rest) == Prepend(Identities(es), Decode(rest))
  {
    hide Decode, Entry0, EntryTais;
    if es == [] {
      assert [] + rest == rest;
      var d := Decode(rest);
      if d.Some? { assert [] + d.value == d.value; }
    } else {
      DecodeEntry0(es[0], Joined(es[1..]) + rest);
      assert Entry0(es[0]) + Joined(es[1..]) + rest == Entry0(es[0]) + (Joined(es[1..]) + rest);
      DecodeJoined(es[1..], rest);
      var d := Decode(rest);
      if d.Some? {
        assert EntryTais(es[0]) + (Identities(es[1..]) + d.value) == EntryTais(es[0]) + Identities(es[1..]) + d.value;
      }
    }
  }

  function LastTais(e: Tai2): seq<Tai>
    requires e.Shaped() && e.Valid()
  {
    e.tais[..e.num]
  }

  lemma DecodeType2(e: Tai2)
    requires e.Shaped() && e.Valid() && e.num > 0 && e.kind == 2
    ensures Decode(Entry2(e)) == Some(LastTais(e))
  {
    hide Decode, TaiOctets, ReadTais;
    var head, body := e.kind * 32 + (e.num - 1), TaiOctets(LastTais(e));
    assert [head] + body + [] == Entry2(e) && ([head] + body)[1..] == body;
    DecodeFirst(head, body, []);
    ReadTaiOctets(LastTais(e));
    DecodeNothing();
    assert LastTais(e) + [] == LastTais(e);
  }

  /** As type 1, only the first identity is where a receiver looks for it. */
  lemma DecodeType1(e: Tai2)
    requires e.Shaped() && e.Valid() && e.num > 0 && e.kind == 1
    ensures var body := TaiOctets(LastTais(e));
      Decode(Entry2(e)) == Prepend(Consecutive(LastTais(e)[0].plmn, LastTais(e)[0].tac, e.num), Decode(body[5..]))
  {
    hide Decode, TaiOctets, Consecutive, TacOf;
    var head, body := e.kind * 32 + (e.num - 1), TaiOctets(LastTais(e));
    FirstIdentity(LastTais(e));
    assert [head] + body[..5] + body[5..] == Entry2(e);
    DecodeFirst(head, body[..5], body[5..]);
    var part := [head] + body[..5];
    assert part[1..4] == body[..3] && part[4] == body[3] && part[5] == body[4];
  }

  /** A last entry of type 2 is read back; of type 1, only if it names one identity. */
  lemma DecodeEntry2(e: Tai2)
    requires e.Shaped() && e.Valid() && e.num > 0
    ensures Decode(Entry2(e)) == Some(LastTais(e)) <==> e.kind == 2 || e.num == 1
  {
    hide Decode, TaiOctets, Entry2;
    if e.kind == 2 {
      DecodeType2(e);
    } else {
      var tais := LastTais(e);
      DecodeType1(e);
      FirstIdentity(tais);
      DecodeNothing();
      if e.num == 1 {
        assert Consecutive(tais[0].plmn, tais[0].tac, 1) == [tais[0]] == tais;
      } else {
        DecodeSomething(TaiOctets(tais)[5..]);
      }
    }
  }

  lemma FirstIdentity(tais: seq<Tai>)
    requires tais != []
    ensures TaiOctets(tais)[..3] == tais[0].plmn
    ensures TacOf(TaiOctets(tais)[3], TaiOctets(tais)[4]) == tais[0].tac
    ensures |tais| == 1 ==> TaiOctets(tais)[5..] == []
  {
    hide TaiOctets;
    TaiAt(tais, 0);
    assert TaiOctets(tais)[0..3] == TaiOctets(tais)[..3];
  }

  // ---- octet by octet

  /** An entry of one network: how many codes there are but one, the network, the codes. */
  lemma Entry0Octets(e: Tai0, j: nat)
    requires e.Shaped() && e.kind == 0 && 0 < e.num < 16 && j < e.num
    ensures e.Valid() && |Entry0(e)| == 4 + 2 * e.num
    ensures Entry0(e)[0] == e.num - 1 && Entry0(e)[1..4] == e.plmn
    ensures Entry0(e)[4 + 2 * j] == e.tacs[j] / 256 && Entry0(e)[5 + 2 * j] == e.tacs[j] % 256
  {
    hide TacOctets;
    TacAt(e.tacs[..e.num], j);
  }

  lemma {:induction false} TacAt(tacs: seq<Tac>, j: nat)
    requires j < |tacs|
    ensures TacOctets(tacs)[2 * j] == tacs[j] / 256 && TacOctets(tacs)[2 * j + 1] == tacs[j] % 256
  {
    hide BigEndian;
    TwoOctets(tacs[0]);
    if j > 0 {
      TacAt(tacs[1..], j - 1);
      assert TacOctets(tacs)[2..] == TacOctets(tacs[1..]);
    }
  }

  /** The last entry: its type and how many identities there are but one, the identities. */
  lemma Entry2Octets(e: Tai2, j: nat)
    requires e.Shaped() && (e.kind == 1 || e.kind == 2) && 0 < e.num < 16 && j < e.num
    ensures e.Valid() && |Entry2(e)| == 1 + 5 * e.num
    ensures Entry2(e)[0] == e.kind * 32 + (e.num - 1)
    ensures Entry2(e)[1 + 5 * j..4 + 5 * j] == e.tais[j].plmn
    ensures Entry2(e)[4 + 5 * j] == e.tais[j].tac / 256 && Entry2(e)[5 + 5 * j] == e.tais[j].tac % 256
  {
    hide TaiOctets;
    var octets := TaiOctets(e.tais[..e.num]);
    TaiAt(e.tais[..e.num], j);
    assert Entry2(e)[1 + 5 * j..4 + 5 * j] == octets[5 * j..5 * j + 3];
  }

  lemma {:induction false} TaiAt(tais: seq<Tai>, j: nat)
    requires j < |tais|
    ensures TaiOctets(tais)[5 * j..5 * j + 3] == tais[j].plmn
    ensures TaiOctets(tais)[5 * j + 3] == tais[j].tac / 256 && TaiOctets(tais)[5 * j + 4] == tais[j].tac % 256
  {
    hide BigEndian, TaiOctets;
    var octets, rest := TaiOctets(tais), TaiOctets(tais[1..]);
    FirstTai(tais);
    if j > 0 {
      TaiAt(tais[1..], j - 1);
      assert octets[5 * j..5 * j + 3] == rest[5 * (j - 1)..5 * (j - 1) + 3];
      assert octets[5 * j + 3] == rest[5 * (j - 1) + 3] && octets[5 * j + 4] == rest[5 * (j - 1) + 4];
    }
  }

  lemma FirstTai(tais: seq<Tai>)
    requires tais != []
    ensures TaiOctets(tais)[0..3] == tais[0].plmn && TaiOctets(tais)[5..] == TaiOctets(tais[1..])
    ensures TaiOctets(tais)[3] == tais[0].tac / 256 && TaiOctets(tais)[4] == tais[0].tac % 256
  {
    hide BigEndian;
    var tac := BigEndian(tais[0].tac, 2);
    TacOctetsOf(tais[0].tac);
    assert TaiOctets(tais) == tais[0].plmn + tac + TaiOctets(tais[1..]);
    hide *;
    FrontOfFive(tais[0].plmn, tac, TaiOctets(tais[1..]));
  }

  lemma TacOctetsOf(tac: Tac)
    ensures BigEndian(tac, 2) == [tac / 256, tac % 256]
  {
    TwoOctets(tac);
  }

  lemma FrontOfFive(plmn: Plmn, tac: seq<Byte>, rest: seq<Byte>)
    requires |tac| == 2
    ensures var octets := plmn + tac + rest;
      octets[0..3] == plmn && octets[3] == tac[0] && octets[4] == tac[1] && octets[5..] == rest
  {
  }

  /** The entries that are allowed: sixteen codes or identities are not. */
  lemma AllowedEntries(e: Tai0, last: Tai2)
    ensures e.Valid() <==> e.kind == 0 && e.num <= 15
    ensures last.Valid() <==> 1 <= last.kind <= 2 && last.num <= 15
  {
  }

  lemma DecodeNothing()
    ensures Decode([]) == Some([])
  {
  }

  /** Octets that can be read at all name some identity. */
  lemma DecodeSomething(bytes: seq<Byte>)
    requires bytes != []
    ensures Decode(bytes).Some? ==> |Decode(bytes).value| > 0
  {
  }

  // ---- the list as a whole

  /** The last entry goes in if no other was dropped and there is room for it. */
  predicate LastSent(list: seq<Tai0>, last: Tai2, k: nat) {
    k == |Entries(list)| && last.num != 0 && Size(Entries(list)) + 1 + 5 * last.num <= MAX_TAI_LIST_LEN
  }

  lemma {:induction false} EntriesShaped(list: seq<Tai0>)
    requires AllShaped(list)
    ensures AllShaped(Entries(list))
  {
    if list != [] { EntriesShaped(list[1..]); }
  }

  /** Never more octets than the maximum; the longest prefix of the entries that fits, then the last entry if it does. */
  lemma BuiltIsPrefix(list: seq<Tai0>, last: Tai2) returns (k: nat)
    requires AllShaped(list) && last.Shaped() && Built(list, last).Gives?
    ensures |Built(list, last).value| <= MAX_TAI_LIST_LEN
    ensures LongestFit(Entries(list), k, MAX_TAI_LIST_LEN) && AllValid(Entries(list)[..k])
    ensures LastSent(list, last, k) ==> last.Valid()
    ensures Built(list, last).value ==
      Joined(Entries(list)[..k]) + if LastSent(list, last, k) then Entry2(last) else []
  {
    hide Fill;
    k := FillIsPrefix([], list);
    var es := Entries(list)[..k];
    assert [] + Joined(es) == Joined(es) == Joined(es) + [];
    assert k == |Entries(list)| ==> es == Entries(list);
  }

  /** A receiver reads exactly that prefix and the last entry, unless the last entry is sent as type 1 with several. */
  lemma DeliveredIff(list: seq<Tai0>, last: Tai2) returns (k: nat)
    requires AllShaped(list) && last.Shaped() && Built(list, last).Gives?
    ensures LongestFit(Entries(list), k, MAX_TAI_LIST_LEN) && AllShaped(Entries(list)[..k])
    ensures LastSent(list, last, k) ==> last.Valid()
    ensures var wanted := Identities(Entries(list)[..k])
                          + if LastSent(list, last, k) then LastTais(last) else [];
      Decode(Built(list, last).value) == Some(wanted)
      <==> (LastSent(list, last, k) ==> last.kind == 2 || last.num == 1)
  {
    hide Built, Decode, Entry2, Identities, Joined, Entries, Size;
    k := BuiltIsPrefix(list, last);
    EntriesShaped(list);
    var es := Entries(list)[..k];
    var tail := if LastSent(list, last, k) then Entry2(last) else [];
    DecodeJoined(es, tail);
    if LastSent(list, last, k) {
      DecodeEntry2(last);
      var d := Decode(tail);
      if d.Some? { SameBehind(Identities(es), d.value, LastTais(last)); }
    } else {
      DecodeNothing();
    }
  }

  lemma SameBehind<T>(a: seq<T>, b: seq<T>, c: seq<T>)
    ensures a + b == a + c <==> b == c
  {
    assert (a + b)[|a|..] == b && (a + c)[|a|..] == c;
  }

  /** Building stops at an assertion if and only if an entry it gets to, or the last entry when it gets there, is not valid. */
  lemma AbortsIff(list: seq<Tai0>, last: Tai2)
    requires AllShaped(list) && last.Shaped()
    ensures Built(list, last).Fails? <==>
      || BadEntryReached(Entries(list), MAX_TAI_LIST_LEN)
      || (|Entries(list)| < |list| && Size(Entries(list)) <= MAX_TAI_LIST_LEN && last.num != 0 && !last.Valid())
  {
    hide Fill, BadEntryReached;
    FillAbortsIff([], list);
    FillReadsPastIff([], list);
    if Fill([], list).Gives? {
      var k := FillIsPrefix([], list);
      var es := Entries(list);
      assert k == |es| ==> es[..k] == es;
      if k < |es| { SizeGrows(es, k + 1); }
    }
  }

  /** The first entry that is not valid, and the valid ones before it fit. */
  ghost predicate BadEntryAt(es: seq<Tai0>, room: int, i: nat) {
    i < |es| && !es[i].Valid() && Size(es[..i]) <= room && forall j :: 0 <= j < i ==> es[j].Valid()
  }

  ghost predicate BadEntryReached(es: seq<Tai0>, room: int) {
    exists i :: BadEntryAt(es, room, i)
  }

  lemma {:induction false} SizeGrows(es: seq<Tai0>, k: nat)
    requires k <= |es|
    ensures Size(es[..k]) <= Size(es)
  {
    if k > 0 {
      assert es[..k][1..] == es[1..][..k - 1];
      SizeGrows(es[1..], k - 1);
    }
  }

  lemma {:induction false} FillAbortsIff(bytes: seq<Byte>, list: seq<Tai0>)
    requires AllShaped(list) && |bytes| <= MAX_TAI_LIST_LEN
    ensures Fill(bytes, list).Fails? <==> BadEntryReached(Entries(list), MAX_TAI_LIST_LEN - |bytes|)
    decreases |list|
  {
    var es, room := Entries(list), MAX_TAI_LIST_LEN - |bytes|;
    if list != [] && list[0].num != 0 {
      var e := list[0];
      assert es[0] == e && es[1..] == Entries(list[1..]);
      if !e.Valid() {
        assert es[..0] == [];
        assert BadEntryAt(es, room, 0);
      } else {
        hide BadEntryReached, Entries, Entry0;
        BadEntryStep(es, room);
        if room - (4 + 2 * e.num) >= 0 { FillAbortsIff(bytes + Entry0(e), list[1..]); }
      }
    }
  }

  lemma BadEntryStep(es: seq<Tai0>, room: int)
    requires es != [] && es[0].Valid()
    ensures BadEntryReached(es, room) <==> BadEntryReached(es[1..], room - (4 + 2 * es[0].num))
    ensures room - (4 + 2 * es[0].num) < 0 ==> !BadEntryReached(es, room)
  {
    hide BadEntryAt;
    var after := room - (4 + 2 * es[0].num);
    if BadEntryReached(es, room) {
      var i: nat :| BadEntryAt(es, room, i);
      BadEntryShift(es, room, i);
      assert BadEntryAt(es[1..], after, i - 1);
    }
    if BadEntryReached(es[1..], after) {
      var i: nat :| BadEntryAt(es[1..], after, i);
      BadEntryBehind(es, room, i);
      assert BadEntryAt(es, room, i + 1);
    }
  }

  lemma BadEntryShift(es: seq<Tai0>, room: int, i: nat)
    requires es != [] && es[0].Valid() && BadEntryAt(es, room, i)
    ensures i > 0 && BadEntryAt(es[1..], room - (4 + 2 * es[0].num), i - 1) && room - (4 + 2 * es[0].num) >= 0
  {
    hide Size;
    var ds := es[1..];
    assert i > 0;
    FrontSize(es, i - 1);
    assert ds[i - 1] == es[i];
    assert forall j :: 0 <= j < i - 1 ==> ds[j] == es[j + 1];
  }

  lemma FrontSize(es: seq<Tai0>, i: nat)
    requires i < |es|
    ensures Size(es[..i + 1]) == 4 + 2 * es[0].num + Size(es[1..][..i])
  {
    assert es[..i + 1][1..] == es[1..][..i] && es[..i + 1][0] == es[0];
  }

  lemma BadEntryBehind(es: seq<Tai0>, room: int, i: nat)
    requires es != [] && es[0].Valid() && BadEntryAt(es[1..], room - (4 + 2 * es[0].num), i)
    ensures BadEntryAt(es, room, i + 1)
  {
    hide Size;
    var ds := es[1..];
    FrontSize(es, i);
    assert es[i + 1] == ds[i];
    assert forall j :: 0 < j < i + 1 ==> es[j] == ds[j - 1];
  }

  // ---- reading past the array

  /** The loop runs off the end when no entry ends the list and all of them are valid and fit. */
  lemma {:induction false} FillReadsPastIff(bytes: seq<Byte>, list: seq<Tai0>)
    requires AllShaped(list) && |bytes| <= MAX_TAI_LIST_LEN
    ensures Fill(bytes, list).ReadsPast? <==> AllValid(list) && |bytes| + Size(list) <= MAX_TAI_LIST_LEN
    ensures Fill(bytes, list).ReadsPast? ==> |Entries(list)| == |list|
    ensures |Entries(list)| == |list| ==> Entries(list) == list
    ensures Fill(bytes, list).Gives? && !Fill(bytes, list).value.full ==> |Entries(list)| < |list|
    ensures |Entries(list)| < |list| ==> !AllValid(list)
    decreases |list|
  {
    hide Entry0;
    if list != [] {
      var e, rest := list[0], list[1..];
      SplitValid(list);
      if e.num != 0 && e.Valid() {
        if |bytes| + 4 + 2 * e.num <= MAX_TAI_LIST_LEN {
          FillReadsPastIff(bytes + Entry0(e), rest);
        } else {
          FillReadsPastIff([], rest);
        }
      } else if e.num != 0 {
        FillReadsPastIff([], rest);
      }
    }
  }

  lemma SplitValid(list: seq<Tai0>)
    requires list != []
    ensures AllValid(list) <==> list[0].Shaped() && list[0].Valid() && list[0].num > 0 && AllValid(list[1..])
  {
    if AllValid(list[1..]) {
      assert forall i :: 0 < i < |list| ==> list[i] == list[1..][i - 1];
    }
  }

  /** Entries of one code each are the shortest there are. */
  lemma {:induction false} ShortestEntries(es: seq<Tai0>)
    requires forall i :: 0 <= i < |es| ==> es[i].num > 0
    ensures Size(es) >= 6 * |es|
    ensures Size(es) == 6 * |es| <==> forall i :: 0 <= i < |es| ==> es[i].num == 1
  {
    if es != [] {
      ShortestEntries(es[1..]);
      assert forall i :: 0 < i < |es| ==> es[i] == es[1..][i - 1];
      assert forall i :: 0 <= i < |es| - 1 ==> es[1..][i] == es[i + 1];
    }
  }

  /** The seventeenth of sixteen entries is read if and only if all sixteen are valid and have one code: they fill
      the 96 octets exactly. */
  lemma ReadsPastIff(list: seq<Tai0>, last: Tai2)
    requires |list| == MAX_NUM_OF_TAI && AllShaped(list) && last.Shaped()
    ensures Built(list, last).ReadsPast? <==> forall i :: 0 <= i < |list| ==> list[i].Valid() && list[i].num == 1
  {
    hide Fill, Size;
    FillReadsPastIff([], list);
    if AllValid(list) { ShortestEntries(list); }
  }
}

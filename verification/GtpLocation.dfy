/** User location information and bearer quality of service: sections 8.21 and 8.15 of TS 29.274. */
module GtpLocation {
  import opened Wrappers
  import opened Bytes
  import opened GtpBuffer

  type Plmn = p: seq<Byte> | |p| == 3 witness [0, 0, 0]

  // ---- user location information

  /** A location: the network, and numbers within it. */
  datatype Part = Part(plmn: Plmn, numbers: seq<nat>)

  /** The parts in the order they are sent: CGI, SAI, RAI, TAI, ECGI and LAI; all are in the struct, the flags say
      which are meant. */
  datatype Uli = Uli(flags: Byte, parts: seq<Part>)
  {
    ghost predicate Valid() {
      |parts| == 6 && forall i :: 0 <= i < 6 ==> PartOk(Widths(i), parts[i])
    }
  }

  /** The octets of the numbers of each part. */
  function Widths(i: nat): seq<nat> {
    if i < 3 then [2, 2] else if i == 4 then [4] else [2]
  }

  predicate PartOk(widths: seq<nat>, p: Part) {
    |p.numbers| == |widths| && forall k :: 0 <= k < |widths| ==> p.numbers[k] < Pow256(widths[k])
  }

  /** The flag of part `i`: cgi is the lowest bit. */
  predicate Has(flags: Byte, i: nat)
    requires i < 6
  {
    flags / [1, 2, 4, 8, 16, 32][i] % 2 == 1
  }

  function NumberOctets(widths: seq<nat>, numbers: seq<nat>): seq<Byte>
    requires |numbers| == |widths|
  {
    if widths == [] then [] else BigEndian(numbers[0], widths[0]) + NumberOctets(widths[1..], numbers[1..])
  }

  function PartOctets(widths: seq<nat>, p: Part): seq<Byte>
    requires |p.numbers| == |widths|
  {
    p.plmn + NumberOctets(widths, p.numbers)
  }

  function FieldOctets(u: Uli, i: nat): seq<Byte>
    requires u.Valid() && i < 6
  {
    if Has(u.flags, i) then PartOctets(Widths(i), u.parts[i]) else []
  }

  function PartsFrom(u: Uli, i: nat): seq<Byte>
    requires u.Valid() && i <= 6
    decreases 6 - i
  {
    if i == 6 then [] else FieldOctets(u, i) + PartsFrom(u, i + 1)
  }

  function UliOctets(u: Uli): seq<Byte>
    requires u.Valid()
  {
    [u.flags] + PartsFrom(u, 0)
  }

  // ---- parsing

  function Sum(widths: seq<nat>): nat {
    if widths == [] then 0 else widths[0] + Sum(widths[1..])
  }

  function PartSize(i: nat): nat {
    3 + Sum(Widths(i))
  }

  function ReadNumbers(widths: seq<nat>, bytes: seq<Byte>): (numbers: seq<nat>)
    requires |bytes| == Sum(widths)
    ensures |numbers| == |widths|
  {
    if widths == [] then []
    else [FromBigEndian(bytes[..widths[0]])] + ReadNumbers(widths[1..], bytes[widths[0]..])
  }

  function Zeroes(n: nat): seq<nat> {
    seq(n, i => 0)
  }

  function NoPart(i: nat): Part {
    Part([0, 0, 0], Zeroes(|Widths(i)|))
  }

  /** Parts from number `i` on; at the end nothing may be left. */
  function ReadParts(flags: Byte, i: nat, bytes: seq<Byte>): (ps: Outcome<seq<Part>>)
    requires i <= 6
    ensures ps.Done? ==> |ps.value| == 6 - i
    decreases 6 - i
  {
    if i == 6 then (if bytes == [] then Done([]) else Abort)
    else if !Has(flags, i) then
      var rest :- ReadParts(flags, i + 1, bytes);
      Done([NoPart(i)] + rest)
    else
      var n := PartSize(i);
      if |bytes| < n then Abort
      else
        var rest :- ReadParts(flags, i + 1, bytes[n..]);
        Done([Part(bytes[..3], ReadNumbers(Widths(i), bytes[3..n]))] + rest)
  }

  /** ogs_gtp_parse_uli */
  function ReadUli(bytes: seq<Byte>): Outcome<Uli> {
    if bytes == [] then Abort
    else
      var parts :- ReadParts(bytes[0], 0, bytes[1..]);
      Done(Uli(bytes[0], parts))
  }

  // ---- bits and positions

  /** The flags from the lowest bit on: CGI, SAI, RAI, TAI, ECGI, LAI. */
  lemma FlagBits(flags: Byte)
    ensures (Has(flags, 0) <==> flags % 2 == 1) && (Has(flags, 1) <==> flags / 2 % 2 == 1)
    ensures (Has(flags, 2) <==> flags / 4 % 2 == 1) && (Has(flags, 3) <==> flags / 8 % 2 == 1)
    ensures (Has(flags, 4) <==> flags / 16 % 2 == 1) && (Has(flags, 5) <==> flags / 32 % 2 == 1)
  {
  }

  /** A network and two 16-bit numbers. */
  function Area(p: Part): seq<nat>
    requires |p.numbers| == 2
  {
    p.plmn + [p.numbers[0] / 256, p.numbers[0] % 256, p.numbers[1] / 256, p.numbers[1] % 256]
  }

  /** A network and one 16-bit number. */
  function TrackingArea(p: Part): seq<nat>
    requires |p.numbers| == 1
  {
    p.plmn + [p.numbers[0] / 256, p.numbers[0] % 256]
  }

  /** A network and one 32-bit number. */
  function Cell(p: Part): seq<nat>
    requires |p.numbers| == 1
  {
    p.plmn + [p.numbers[0] / 0x100_0000, p.numbers[0] / 0x1_0000 % 256, p.numbers[0] / 256 % 256, p.numbers[0] % 256]
  }

  /** A part that is not meant reads as all zero. */
  lemma AbsentPart(u: Uli, i: nat)
    requires u.Valid() && i < 6 && !Has(u.flags, i)
    ensures ReadUli(UliOctets(u)).Done?
    ensures var p := ReadUli(UliOctets(u)).value.parts;
      |p| == 6 && p[i].plmn == [0, 0, 0] && p[i].numbers == if i < 3 then [0, 0] else [0]
  {
    hide Has, ReadUli, UliOctets, NoPart, PartOk, Widths, Meant;
    UliRoundTrip(u);
    MeantAt(u, 0, i);
    NoPartIs(i);
  }

  lemma NoPartIs(i: nat)
    requires i < 6
    ensures NoPart(i).plmn == [0, 0, 0] && NoPart(i).numbers == if i < 3 then [0, 0] else [0]
  {
  }

  lemma {:induction false} MeantAt(u: Uli, i: nat, k: nat)
    requires |u.parts| == 6 && i <= k < 6
    ensures |Meant(u, i)| == 6 - i && Meant(u, i)[k - i] == if Has(u.flags, k) then u.parts[k] else NoPart(k)
    decreases k - i
  {
    hide Has, NoPart;
    MeantIs(u, i);
    if i < k {
      MeantAt(u, i + 1, k);
      assert Meant(u, i)[1..] == Meant(u, i + 1);
    }
  }

  /** The octets, by bits of the flags. */
  lemma UliLayout(u: Uli)
    requires u.Valid()
    ensures |u.parts| == 6 && |u.parts[0].numbers| == |u.parts[1].numbers| == |u.parts[2].numbers| == 2
    ensures |u.parts[3].numbers| == |u.parts[4].numbers| == |u.parts[5].numbers| == 1
    ensures UliOctets(u) ==
      [u.flags]
      + (if u.flags % 2 == 1 then Area(u.parts[0]) else [])
      + (if u.flags / 2 % 2 == 1 then Area(u.parts[1]) else [])
      + (if u.flags / 4 % 2 == 1 then Area(u.parts[2]) else [])
      + (if u.flags / 8 % 2 == 1 then TrackingArea(u.parts[3]) else [])
      + (if u.flags / 16 % 2 == 1 then Cell(u.parts[4]) else [])
      + (if u.flags / 32 % 2 == 1 then TrackingArea(u.parts[5]) else [])
  {
    hide Area, TrackingArea, Cell, FieldOctets, Has, UliOctets;
    assert forall i :: 0 <= i < 6 ==> PartOk(Widths(i), u.parts[i]);
    FlagBits(u.flags);
    UnrollParts(u);
    AreaOctets(u, 0);
    AreaOctets(u, 1);
    AreaOctets(u, 2);
    NumberedOctets(u);
  }

  lemma AreaOctets(u: Uli, i: nat)
    requires u.Valid() && i < 3
    ensures |u.parts[i].numbers| == 2
    ensures FieldOctets(u, i) == if Has(u.flags, i) then Area(u.parts[i]) else []
  {
    hide BigEndian, Has;
    var p := u.parts[i];
    assert PartOk(Widths(i), p);
    PowValues();
    TwoOctets(p.numbers[0]);
    TwoOctets(p.numbers[1]);
    assert NumberOctets([2, 2], p.numbers) == BigEndian(p.numbers[0], 2) + NumberOctets([2], p.numbers[1..]);
    assert NumberOctets([2], p.numbers[1..]) == BigEndian(p.numbers[1], 2) + NumberOctets([], p.numbers[1..][1..]);
  }

  lemma NumberedOctets(u: Uli)
    requires u.Valid()
    ensures |u.parts[3].numbers| == |u.parts[4].numbers| == |u.parts[5].numbers| == 1
    ensures FieldOctets(u, 3) == if Has(u.flags, 3) then TrackingArea(u.parts[3]) else []
    ensures FieldOctets(u, 4) == if Has(u.flags, 4) then Cell(u.parts[4]) else []
    ensures FieldOctets(u, 5) == if Has(u.flags, 5) then TrackingArea(u.parts[5]) else []
  {
    hide BigEndian, Has;
    assert PartOk(Widths(3), u.parts[3]) && PartOk(Widths(4), u.parts[4]) && PartOk(Widths(5), u.parts[5]);
    PowValues();
    TwoOctets(u.parts[3].numbers[0]);
    FourOctets(u.parts[4].numbers[0]);
    TwoOctets(u.parts[5].numbers[0]);
    OneNumber(2, u.parts[3].numbers);
    OneNumber(4, u.parts[4].numbers);
    OneNumber(2, u.parts[5].numbers);
  }

  lemma OneNumber(width: nat, numbers: seq<nat>)
    requires |numbers| == 1
    ensures NumberOctets([width], numbers) == BigEndian(numbers[0], width)
  {
    hide BigEndian;
    assert NumberOctets([width][1..], numbers[1..]) == [];
  }

  // ---- the two are inverse

  lemma SmallMod(n: nat, p: nat)
    requires n < p
    ensures n % p == n
  {
  }

  lemma {:induction false} NumbersRead(widths: seq<nat>, numbers: seq<nat>)
    requires |numbers| == |widths| && forall k :: 0 <= k < |widths| ==> numbers[k] < Pow256(widths[k])
    ensures |NumberOctets(widths, numbers)| == Sum(widths)
    ensures ReadNumbers(widths, NumberOctets(widths, numbers)) == numbers
  {
    hide BigEndian, FromBigEndian, Pow256;
    if widths != [] {
      var bytes := NumberOctets(widths, numbers);
      assert numbers[0] < Pow256(widths[0]);
      BigEndianRoundTrip(numbers[0], widths[0]);
      SmallMod(numbers[0], Pow256(widths[0]));
      NumbersRead(widths[1..], numbers[1..]);
      var first, rest := BigEndian(numbers[0], widths[0]), NumberOctets(widths[1..], numbers[1..]);
      assert (first + rest)[..widths[0]] == first && (first + rest)[widths[0]..] == rest;
    }
  }

  /** A struct with nothing in the parts that are not meant. */
  function Meant(u: Uli, i: nat): seq<Part>
    requires |u.parts| == 6 && i <= 6
    decreases 6 - i
  {
    if i == 6 then [] else [if Has(u.flags, i) then u.parts[i] else NoPart(i)] + Meant(u, i + 1)
  }

  lemma PartSlices(plmn: Plmn, numbers: seq<Byte>, rest: seq<Byte>)
    ensures var bytes := plmn + numbers + rest;
      && |bytes| == 3 + |numbers| + |rest|
      && bytes[..3] == plmn && bytes[3..3 + |numbers|] == numbers && bytes[3 + |numbers|..] == rest
  {
  }

  lemma {:induction false} PartsRead(u: Uli, i: nat)
    requires u.Valid() && i <= 6
    ensures ReadParts(u.flags, i, PartsFrom(u, i)) == Done(Meant(u, i))
    decreases 6 - i
  {
    hide Has, NumberOctets, ReadNumbers, Sum, Widths, Pow256;
    if i < 6 {
      PartsRead(u, i + 1);
      var rest := PartsFrom(u, i + 1);
      if Has(u.flags, i) {
        assert PartOk(Widths(i), u.parts[i]);
        NumbersRead(Widths(i), u.parts[i].numbers);
        PartSlices(u.parts[i].plmn, NumberOctets(Widths(i), u.parts[i].numbers), rest);
      } else {
        assert [] + rest == rest;
      }
    }
  }

  /** For all flags, parsing what was built gives the struct back with the parts not meant cleared. */
  lemma UliRoundTrip(u: Uli)
    requires u.Valid()
    ensures ReadUli(UliOctets(u)) == Done(Uli(u.flags, Meant(u, 0)))
  {
    PartsRead(u, 0);
    assert UliOctets(u)[1..] == PartsFrom(u, 0);
  }

  lemma {:induction false} MeantIs(u: Uli, i: nat)
    requires |u.parts| == 6 && i <= 6
    ensures |Meant(u, i)| == 6 - i
    ensures Meant(u, i) == u.parts[i..] <==> forall k :: i <= k < 6 && !Has(u.flags, k) ==> u.parts[k] == NoPart(k)
    decreases 6 - i
  {
    hide Has, NoPart;
    if i < 6 {
      MeantIs(u, i + 1);
      var p := if Has(u.flags, i) then u.parts[i] else NoPart(i);
      assert u.parts[i..] == [u.parts[i]] + u.parts[i + 1..];
      assert Meant(u, i)[0] == p && Meant(u, i)[1..] == Meant(u, i + 1);
      assert u.parts[i..][0] == u.parts[i] && u.parts[i..][1..] == u.parts[i + 1..];
    }
  }

  /** The struct itself comes back if and only if the parts not meant were clear. */
  lemma UliRoundTripIff(u: Uli)
    requires u.Valid()
    ensures ReadUli(UliOctets(u)) == Done(u) <==> forall k :: 0 <= k < 6 && !Has(u.flags, k) ==> u.parts[k] == NoPart(k)
  {
    UliRoundTrip(u);
    MeantIs(u, 0);
    assert u.parts[0..] == u.parts;
  }

  lemma {:induction false} NumbersWritten(widths: seq<nat>, bytes: seq<Byte>)
    requires |bytes| == Sum(widths)
    ensures var numbers := ReadNumbers(widths, bytes);
      && NumberOctets(widths, numbers) == bytes
      && forall k :: 0 <= k < |widths| ==> numbers[k] < Pow256(widths[k])
  {
    hide BigEndian, FromBigEndian, Pow256;
    if widths == [] {
      assert bytes == [];
    } else {
      var first, rest := bytes[..widths[0]], bytes[widths[0]..];
      BigEndianInverse(first);
      NumbersWritten(widths[1..], rest);
      assert bytes == first + rest;
      var numbers := ReadNumbers(widths, bytes);
      assert numbers[1..] == ReadNumbers(widths[1..], rest);
      forall k | 0 <= k < |widths|
        ensures numbers[k] < Pow256(widths[k])
      {
        assert k > 0 ==> numbers[k] == numbers[1..][k - 1] && widths[k] == widths[1..][k - 1];
      }
    }
  }

  lemma NoPartOk(i: nat)
    requires i < 6
    ensures PartOk(Widths(i), NoPart(i))
  {
    forall k | 0 <= k < |Widths(i)|
      ensures NoPart(i).numbers[k] < Pow256(Widths(i)[k])
    {
      PowPositive(Widths(i)[k]);
    }
  }

  /** Every part has numbers of its widths, and one that is not meant is clear. */
  predicate PartsFit(flags: Byte, i: nat, ps: seq<Part>)
    requires i + |ps| == 6
    decreases |ps|
  {
    ps == [] ||
    (PartOk(Widths(i), ps[0]) && (!Has(flags, i) ==> ps[0] == NoPart(i)) && PartsFit(flags, i + 1, ps[1..]))
  }

  lemma {:induction false} PartsWritten(flags: Byte, i: nat, bytes: seq<Byte>)
    requires i <= 6 && ReadParts(flags, i, bytes).Done?
    ensures PartsFit(flags, i, ReadParts(flags, i, bytes).value)
    decreases 6 - i
  {
    hide Has, NoPart, NumberOctets, ReadNumbers, Widths, Pow256;
    if i < 6 {
      var ps := ReadParts(flags, i, bytes).value;
      if Has(flags, i) {
        PartsWritten(flags, i + 1, bytes[PartSize(i)..]);
        NumbersWritten(Widths(i), bytes[3..PartSize(i)]);
        assert ps[1..] == ReadParts(flags, i + 1, bytes[PartSize(i)..]).value;
      } else {
        PartsWritten(flags, i + 1, bytes);
        NoPartOk(i);
        assert ps[1..] == ReadParts(flags, i + 1, bytes).value;
      }
    }
  }

  lemma {:induction false} FittingPart(flags: Byte, i: nat, ps: seq<Part>, k: nat)
    requires i + |ps| == 6 && i <= k < 6 && PartsFit(flags, i, ps)
    ensures PartOk(Widths(k), ps[k - i])
    decreases |ps|
  {
    if i < k { FittingPart(flags, i + 1, ps[1..], k); }
  }

  lemma {:induction false} OctetsWritten(u: Uli, i: nat, bytes: seq<Byte>)
    requires u.Valid() && i <= 6 && ReadParts(u.flags, i, bytes) == Done(u.parts[i..])
    ensures PartsFrom(u, i) == bytes
    decreases 6 - i
  {
    hide *;
    if i == 6 {
      NoOctets(u, bytes);
    } else {
      PartWritten(u, i, bytes);
      OctetsWritten(u, i + 1, if Has(u.flags, i) then bytes[PartSize(i)..] else bytes);
    }
  }

  lemma NoOctets(u: Uli, bytes: seq<Byte>)
    requires u.Valid() && ReadParts(u.flags, 6, bytes).Done?
    ensures PartsFrom(u, 6) == bytes == []
  {
  }

  lemma PartWritten(u: Uli, i: nat, bytes: seq<Byte>)
    requires u.Valid() && i < 6 && ReadParts(u.flags, i, bytes) == Done(u.parts[i..])
    ensures Has(u.flags, i) ==> PartSize(i) <= |bytes|
    ensures var rest := if Has(u.flags, i) then bytes[PartSize(i)..] else bytes;
      && ReadParts(u.flags, i + 1, rest) == Done(u.parts[i + 1..])
      && (PartsFrom(u, i + 1) == rest ==> PartsFrom(u, i) == bytes)
  {
    hide *;
    if Has(u.flags, i) {
      PartThere(u, i, bytes);
    } else {
      PartMissing(u, i, bytes);
    }
  }

  lemma TailOf<T>(s: seq<T>, i: nat, first: T, rest: seq<T>)
    requires i < |s| && s[i..] == [first] + rest
    ensures s[i] == first && s[i + 1..] == rest
  {
    assert s[i..][0] == first && s[i..][1..] == rest;
  }

  lemma PartThere(u: Uli, i: nat, bytes: seq<Byte>)
    requires u.Valid() && i < 6 && Has(u.flags, i) && ReadParts(u.flags, i, bytes) == Done(u.parts[i..])
    ensures PartSize(i) <= |bytes|
    ensures ReadParts(u.flags, i + 1, bytes[PartSize(i)..]) == Done(u.parts[i + 1..])
    ensures PartsFrom(u, i + 1) == bytes[PartSize(i)..] ==> PartsFrom(u, i) == bytes
  {
    hide Has, NumberOctets, ReadNumbers, Widths, Pow256, PartOk, Sum;
    var n := PartSize(i);
    assert n <= |bytes|;
    var rest := ReadParts(u.flags, i + 1, bytes[n..]).value;
    var p := Part(bytes[..3], ReadNumbers(Widths(i), bytes[3..n]));
    TailOf(u.parts, i, p, rest);
    NumbersWritten(Widths(i), bytes[3..n]);
    Reassembled(bytes, n);
  }

  lemma Reassembled(bytes: seq<Byte>, n: nat)
    requires 3 <= n <= |bytes|
    ensures bytes == bytes[..3] + bytes[3..n] + bytes[n..]
  {
  }

  lemma PartMissing(u: Uli, i: nat, bytes: seq<Byte>)
    requires u.Valid() && i < 6 && !Has(u.flags, i) && ReadParts(u.flags, i, bytes) == Done(u.parts[i..])
    ensures ReadParts(u.flags, i + 1, bytes) == Done(u.parts[i + 1..])
    ensures PartsFrom(u, i + 1) == bytes ==> PartsFrom(u, i) == bytes
  {
    hide Has, NoPart, NumberOctets, Widths;
    TailOf(u.parts, i, NoPart(i), ReadParts(u.flags, i + 1, bytes).value);
  }

  /** The other way round: whatever octets are accepted, building from what was read gives them again. */
  lemma UliReadIsWritten(bytes: seq<Byte>)
    requires ReadUli(bytes).Done?
    ensures ReadUli(bytes).value.Valid() && UliOctets(ReadUli(bytes).value) == bytes
  {
    hide ReadParts, Has, PartOk, Widths, NoPart;
    var u := ReadUli(bytes).value;
    PartsWritten(bytes[0], 0, bytes[1..]);
    forall k | 0 <= k < 6
      ensures PartOk(Widths(k), u.parts[k])
    {
      FittingPart(bytes[0], 0, u.parts, k);
    }
    assert u.parts[0..] == u.parts;
    OctetsWritten(u, 0, bytes[1..]);
  }

  // ---- over buffers

  /** One part, if it is meant: an assertion on the size, network order, a copy. */
  method PutPart(data: array<Byte>, size: nat, u: Uli, i: nat, ghost before: seq<Byte>, ghost written: seq<Byte>)
    returns (ok: bool, next: nat)
    requires u.Valid() && i < 6 && Starts(data[..], written, before) && |written| == size
    modifies data
    ensures ok <==> size + |FieldOctets(u, i)| <= data.Length
    ensures ok ==> Starts(data[..], written + FieldOctets(u, i), before) && next == |written + FieldOctets(u, i)|
  {
    hide Starts, PartOctets, Has;
    ok, next := true, size;
    if Has(u.flags, i) {
      ok, next := Put(data, size, PartOctets(Widths(i), u.parts[i]), before, written);
    } else {
      StartsWithin(data[..], written, before);
      assert written + [] == written;
    }
  }

  /** ogs_gtp_build_uli */
  method BuildUli(data: array<Byte>, u: Uli) returns (len: Outcome<nat>)
    requires u.Valid()
    modifies data
    ensures if |UliOctets(u)| > data.Length then len.Abort?
      else len == Done(|UliOctets(u)|) && Starts(data[..], UliOctets(u), old(data[..]))
  {
    ghost var before := data[..];
    UnrollParts(u);
    hide *;
    ghost var w0, f0, f1, f2 := [] + [u.flags], FieldOctets(u, 0), FieldOctets(u, 1), FieldOctets(u, 2);
    ghost var f3, f4, f5 := FieldOctets(u, 3), FieldOctets(u, 4), FieldOctets(u, 5);
    assert w0 == [u.flags];
    StartsEmpty(before);
    var ok, size := Put(data, 0, [u.flags], before, []);
    if !ok { return Abort; }
    ok, size := PutPart(data, size, u, 0, before, w0);
    if !ok { return Abort; }
    ok, size := PutPart(data, size, u, 1, before, w0 + f0);
    if !ok { return Abort; }
    ok, size := PutPart(data, size, u, 2, before, w0 + f0 + f1);
    if !ok { return Abort; }
    ok, size := PutPart(data, size, u, 3, before, w0 + f0 + f1 + f2);
    if !ok { return Abort; }
    ok, size := PutPart(data, size, u, 4, before, w0 + f0 + f1 + f2 + f3);
    if !ok { return Abort; }
    ok, size := PutPart(data, size, u, 5, before, w0 + f0 + f1 + f2 + f3 + f4);
    if !ok { return Abort; }
    len := Done(size);
  }

  lemma UnrollParts(u: Uli)
    requires u.Valid()
    ensures UliOctets(u) ==
      [u.flags] + FieldOctets(u, 0) + FieldOctets(u, 1) + FieldOctets(u, 2)
      + FieldOctets(u, 3) + FieldOctets(u, 4) + FieldOctets(u, 5)
  {
    hide FieldOctets;
    assert PartsFrom(u, 6) == [];
    assert PartsFrom(u, 5) == FieldOctets(u, 5);
    assert PartsFrom(u, 4) == FieldOctets(u, 4) + PartsFrom(u, 5);
    assert PartsFrom(u, 3) == FieldOctets(u, 3) + PartsFrom(u, 4);
    assert PartsFrom(u, 2) == FieldOctets(u, 2) + PartsFrom(u, 3);
    assert PartsFrom(u, 1) == FieldOctets(u, 1) + PartsFrom(u, 2);
  }

  function Behind(first: seq<Part>, rest: Outcome<seq<Part>>): Outcome<seq<Part>> {
    if rest.Abort? then Abort else Done(first + rest.value)
  }

  lemma PartAt(all: seq<Byte>, size: nat, len: nat, n: nat)
    requires 3 <= n && size + n <= len <= |all|
    ensures var bytes := all[size..len];
      bytes[..3] == all[size..size + 3] && bytes[3..n] == all[size + 3..size + n] && bytes[n..] == all[size + n..len]
  {
    var bytes := all[size..len];
    var a, b := bytes[3..n], all[size + 3..size + n];
    assert forall k :: 0 <= k < |a| ==> a[k] == b[k];
  }

  lemma UliBehind(bytes: seq<Byte>)
    requires bytes != []
    ensures ReadUli(bytes) ==
      var parts := Behind([], ReadParts(bytes[0], 0, bytes[1..]));
      if parts.Abort? then Abort else Done(Uli(bytes[0], parts.value))
  {
    hide ReadParts;
    var parts := ReadParts(bytes[0], 0, bytes[1..]);
    if parts.Done? { assert [] + parts.value == parts.value; }
  }

  lemma ReadStep(flags: Byte, i: nat, bytes: seq<Byte>, first: seq<Part>)
    requires i < 6
    ensures PartSize(i) >= 3
    ensures |bytes| >= PartSize(i) ==> |bytes[3..PartSize(i)]| == Sum(Widths(i))
    ensures Behind(first, ReadParts(flags, i, bytes)) ==
      if !Has(flags, i) then Behind(first + [NoPart(i)], ReadParts(flags, i + 1, bytes))
      else if |bytes| < PartSize(i) then Abort
      else
        var n := PartSize(i);
        Behind(first + [Part(bytes[..3], ReadNumbers(Widths(i), bytes[3..n]))], ReadParts(flags, i + 1, bytes[n..]))
  {
    hide Has, ReadNumbers, Widths, NoPart, Sum;
    var n := PartSize(i);
    if !Has(flags, i) {
      BehindOne(first, NoPart(i), ReadParts(flags, i + 1, bytes));
    } else if n <= |bytes| {
      BehindOne(first, Part(bytes[..3], ReadNumbers(Widths(i), bytes[3..n])), ReadParts(flags, i + 1, bytes[n..]));
    }
  }

  lemma BehindOne(first: seq<Part>, p: Part, rest: Outcome<seq<Part>>)
    ensures rest.Done? ==> Behind(first, Done([p] + rest.value)) == Behind(first + [p], rest)
  {
    if rest.Done? { assert first + ([p] + rest.value) == first + [p] + rest.value; }
  }

  /** One part, if it is meant; otherwise it stays as memset left it. */
  method TakePart(data: array<Byte>, len: nat, size: nat, flags: Byte, i: nat, ghost first: seq<Part>)
    returns (p: Outcome<Part>, next: nat)
    requires size <= len <= data.Length && i < 6
    ensures p.Abort? ==> Behind(first, ReadParts(flags, i, data[size..len])) == Abort
    ensures p.Done? ==> size <= next <= len
    ensures p.Done? ==>
      Behind(first, ReadParts(flags, i, data[size..len]))
      == Behind(first + [p.value], ReadParts(flags, i + 1, data[next..len]))
  {
    hide *;
    ReadStep(flags, i, data[size..len], first);
    next := size;
    if !Has(flags, i) {
      p := Done(NoPart(i));
    } else {
      var n := PartSize(i);
      if size + n > len { return Abort, size; }
      next := size + n;
      PartAt(data[..], size, len, n);
      p := Done(Part(data[size..size + 3], ReadNumbers(Widths(i), data[size + 3..next])));
    }
  }

  /** ogs_gtp_parse_uli */
  method ParseUli(data: array<Byte>, len: nat) returns (u: Outcome<Uli>)
    requires len <= data.Length
    ensures u == ReadUli(data[..len])
  {
    hide *;
    FirstOctet(data[..], len);
    if len == 0 { return Abort; }
    var flags := data[0];
    UliBehind(data[..len]);
    var cgi, size := TakePart(data, len, 1, flags, 0, []);
    if cgi.Abort? { return Abort; }
    var ps := [] + [cgi.value];
    var sai;
    sai, size := TakePart(data, len, size, flags, 1, ps);
    if sai.Abort? { return Abort; }
    ps := ps + [sai.value];
    var rai;
    rai, size := TakePart(data, len, size, flags, 2, ps);
    if rai.Abort? { return Abort; }
    ps := ps + [rai.value];
    var tai;
    tai, size := TakePart(data, len, size, flags, 3, ps);
    if tai.Abort? { return Abort; }
    ps := ps + [tai.value];
    var ecgi;
    ecgi, size := TakePart(data, len, size, flags, 4, ps);
    if ecgi.Abort? { return Abort; }
    ps := ps + [ecgi.value];
    var lai;
    lai, size := TakePart(data, len, size, flags, 5, ps);
    if lai.Abort? { return Abort; }
    ps := ps + [lai.value];
    NothingLeft(flags, data[size..len], ps);
    if size != len { return Abort; }
    u := Done(Uli(flags, ps));
  }

  lemma FirstOctet(all: seq<Byte>, len: nat)
    requires len <= |all|
    ensures len == 0 ==> ReadUli(all[..len]) == Abort
    ensures len > 0 ==> all[..len] != [] && all[..len][0] == all[0] && all[..len][1..] == all[1..len]
  {
  }

  lemma NothingLeft(flags: Byte, bytes: seq<Byte>, ps: seq<Part>)
    ensures Behind(ps, ReadParts(flags, 6, bytes)) == if bytes == [] then Done(ps) else Abort
  {
    assert ps + [] == ps;
  }

  // ---- bearer quality of service

  const BEARER_QOS_LEN := 22

  /** The first octet holds, from the top: a spare bit, the pre-emption capability, four bits of priority level,
      a spare bit, the pre-emption vulnerability. */
  datatype BearerQos = BearerQos(flags: Byte, qci: Byte, ulMbr: nat, dlMbr: nat, ulGbr: nat, dlGbr: nat)
  {
    function Spare(): bool {
      flags / 128 == 1 || flags / 2 % 2 == 1
    }
  }

  function QosOctets(q: BearerQos): (bytes: seq<Byte>)
    ensures |bytes| == BEARER_QOS_LEN
  {
    [q.flags, q.qci] + BigEndian(q.ulMbr, 5) + BigEndian(q.dlMbr, 5) + BigEndian(q.ulGbr, 5) + BigEndian(q.dlGbr, 5)
  }

  /** The bit fields are copied one by one, the spare bits are not. */
  function ReadFlags(flags: Byte): Byte {
    (flags / 64 % 2) * 64 + (flags / 4 % 16) * 4 + flags % 2
  }

  function ReadQos(bytes: seq<Byte>): Outcome<BearerQos> {
    if |bytes| != BEARER_QOS_LEN then Abort
    else Done(BearerQos(ReadFlags(bytes[0]), bytes[1],
                        FromBigEndian(bytes[2..7]), FromBigEndian(bytes[7..12]),
                        FromBigEndian(bytes[12..17]), FromBigEndian(bytes[17..22])))
  }

  /** Flags, QCI, then the rates: uplink before downlink, the maximum ones before the guaranteed ones. */
  lemma QosLayout(q: BearerQos)
    ensures var b := QosOctets(q);
      && |b| == 22 && b[0] == q.flags && b[1] == q.qci
      && FromBigEndian(b[2..7]) == q.ulMbr % 0x100_0000_0000 && FromBigEndian(b[7..12]) == q.dlMbr % 0x100_0000_0000
      && FromBigEndian(b[12..17]) == q.ulGbr % 0x100_0000_0000 && FromBigEndian(b[17..22]) == q.dlGbr % 0x100_0000_0000
  {
    hide BigEndian, FromBigEndian, Pow256;
    PowValues();
    BigEndianRoundTrip(q.ulMbr, 5);
    BigEndianRoundTrip(q.dlMbr, 5);
    BigEndianRoundTrip(q.ulGbr, 5);
    BigEndianRoundTrip(q.dlGbr, 5);
    var bytes := QosOctets(q);
    assert bytes[2..7] == BigEndian(q.ulMbr, 5) && bytes[7..12] == BigEndian(q.dlMbr, 5);
    assert bytes[12..17] == BigEndian(q.ulGbr, 5) && bytes[17..22] == BigEndian(q.dlGbr, 5);
  }

  lemma QosPlaces(q: BearerQos, data: seq<Byte>, before: seq<Byte>)
    requires Starts(data, QosOctets(q), before)
    ensures |data| >= 22 && data[0] == q.flags && data[1] == q.qci
    ensures FromBigEndian(data[2..7]) == q.ulMbr % 0x100_0000_0000 && FromBigEndian(data[7..12]) == q.dlMbr % 0x100_0000_0000
    ensures FromBigEndian(data[12..17]) == q.ulGbr % 0x100_0000_0000 && FromBigEndian(data[17..22]) == q.dlGbr % 0x100_0000_0000
  {
    QosLayout(q);
    var b := QosOctets(q);
    hide QosOctets, FromBigEndian;
    assert data[2..7] == b[2..7] && data[7..12] == b[7..12] && data[12..17] == b[12..17] && data[17..22] == b[17..22];
  }

  /** The spare bits are cleared, and no others. */
  lemma SpareCleared(flags: Byte)
    ensures flags == ReadFlags(flags) + (flags / 128) * 128 + (flags / 2 % 2) * 2
  {
    var half := flags / 2;
    assert flags == 2 * half + flags % 2 && half == 2 * (flags / 4) + half % 2;
    assert flags / 4 == 16 * (flags / 64) + flags / 4 % 16 && flags / 64 == 2 * (flags / 128) + flags / 64 % 2;
  }

  /** ogs_gtp_build_bearer_qos */
  method BuildBearerQos(data: array<Byte>, q: BearerQos) returns (len: Outcome<nat>)
    modifies data
    ensures if data.Length < BEARER_QOS_LEN then len.Abort?
      else len == Done(BEARER_QOS_LEN) && Starts(data[..], QosOctets(q), old(data[..]))
    ensures len.Done? ==>
      && data.Length >= 22 && data[0] == q.flags && data[1] == q.qci
      && FromBigEndian(data[2..7]) == q.ulMbr % 0x100_0000_0000 && FromBigEndian(data[7..12]) == q.dlMbr % 0x100_0000_0000
      && FromBigEndian(data[12..17]) == q.ulGbr % 0x100_0000_0000 && FromBigEndian(data[17..22]) == q.dlGbr % 0x100_0000_0000
  {
    hide Starts, BigEndian, FromBigEndian;
    if data.Length < BEARER_QOS_LEN { return Abort; }
    ghost var before := data[..];
    ghost var w := [] + [q.flags, q.qci];
    assert w == [q.flags, q.qci];
    StartsEmpty(before);
    var ok, size := Put(data, 0, [q.flags, q.qci], before, []);
    ok, size := Put(data, size, BigEndian(q.ulMbr, 5), before, w);
    ok, size := Put(data, size, BigEndian(q.dlMbr, 5), before, w + BigEndian(q.ulMbr, 5));
    ok, size := Put(data, size, BigEndian(q.ulGbr, 5), before, w + BigEndian(q.ulMbr, 5) + BigEndian(q.dlMbr, 5));
    ok, size := Put(data, size, BigEndian(q.dlGbr, 5), before,
      w + BigEndian(q.ulMbr, 5) + BigEndian(q.dlMbr, 5) + BigEndian(q.ulGbr, 5));
    QosPlaces(q, data[..], before);
    len := Done(size);
  }

  /** ogs_gtp_parse_bearer_qos */
  method ParseBearerQos(data: array<Byte>, len: nat) returns (q: Outcome<BearerQos>)
    requires len <= data.Length
    ensures q == ReadQos(data[..len])
    ensures q.Done? <==> len == 22
    ensures q.Done? ==>
      && q.value.flags == (data[0] / 64 % 2) * 64 + (data[0] / 4 % 16) * 4 + data[0] % 2 && q.value.qci == data[1]
      && q.value.ulMbr == FromBigEndian(data[2..7]) && q.value.dlMbr == FromBigEndian(data[7..12])
      && q.value.ulGbr == FromBigEndian(data[12..17]) && q.value.dlGbr == FromBigEndian(data[17..22])
  {
    hide FromBigEndian;
    if len != BEARER_QOS_LEN { return Abort; }
    var d := data[..len];
    var size := 2;
    var ulMbr := FromBigEndian(d[size..size + 5]);
    size := size + 5;
    var dlMbr := FromBigEndian(d[size..size + 5]);
    size := size + 5;
    var ulGbr := FromBigEndian(d[size..size + 5]);
    size := size + 5;
    var dlGbr := FromBigEndian(d[size..size + 5]);
    assert d[2..7] == data[2..7] && d[7..12] == data[7..12] && d[12..17] == data[12..17] && d[17..22] == data[17..22];
    q := Done(BearerQos(ReadFlags(d[0]), d[1], ulMbr, dlMbr, ulGbr, dlGbr));
  }

  const RATE_LIMIT := 0x100_0000_0000

  /** Rates come back in their lowest 40 bits. */
  lemma QosRoundTrip(q: BearerQos)
    ensures ReadQos(QosOctets(q)) ==
      Done(BearerQos(ReadFlags(q.flags), q.qci,
                     q.ulMbr % RATE_LIMIT, q.dlMbr % RATE_LIMIT, q.ulGbr % RATE_LIMIT, q.dlGbr % RATE_LIMIT))
  {
    hide BigEndian, FromBigEndian;
    QosLayout(q);
  }

  lemma FlagsKeptIff(flags: Byte)
    ensures ReadFlags(flags) == flags <==> flags / 128 == 0 && flags / 2 % 2 == 0
  {
  }

  /** The struct itself comes back if and only if its spare bits are clear and its rates are below 2^40. */
  lemma QosRoundTripIff(q: BearerQos)
    ensures ReadQos(QosOctets(q)) == Done(q) <==>
      && !q.Spare()
      && q.ulMbr < RATE_LIMIT && q.dlMbr < RATE_LIMIT && q.ulGbr < RATE_LIMIT && q.dlGbr < RATE_LIMIT
  {
    hide QosOctets, ReadQos, ReadFlags;
    QosRoundTrip(q);
    FlagsKeptIff(q.flags);
  }
}

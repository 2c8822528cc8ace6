/** Bit rates in NAS messages: the octets of sections 9.9.4.2 and 9.9.4.3 of TS 24.301. */
module NasBitRate {
  import opened Bytes

  const K := 1024
  const BLOCK := 256 * K
  /** The largest rate the octets can show, in kbps. */
  const TOP := 65280 * K

  datatype Code = Code(br: Byte, extended: Byte, extended2: Byte)

  const ZERO := Code(0, 0, 0)

  // ---- what a receiver reads

  /** kbps in octets 3 and 5. */
  function DecodeLow(br: Byte, extended: Byte): nat {
    if extended == 0 then
      if br <= 63 then br
      else if br <= 127 then 64 + 8 * (br - 64)
      else if br <= 254 then 576 + 64 * (br - 128)
      else 0
    else if extended <= 74 then 8600 + 100 * extended
    else if extended <= 186 then 16 * K + (extended - 74) * K
    else if extended <= 250 then 128 * K + (extended - 186) * 2 * K
    else 256 * K
  }

  /** kbps in octets 3, 5 and 7. */
  function Decode(c: Code): nat {
    (if c.extended2 == 255 then 254 else c.extended2) * BLOCK + DecodeLow(c.br, c.extended)
  }

  /** The decoded value is the largest one any octets can show that is not above `x`. */
  ghost predicate BestBelow(c: Code, x: nat) {
    Decode(c) <= x && forall other: Code :: Decode(other) <= x ==> Decode(other) <= Decode(c)
  }

  // ---- what br_calculate computes

  function Min(a: int, b: int): int {
    if a < b then a else b
  }

  function Max(a: nat, b: nat): nat {
    if a < b then b else a
  }

  /** Rates below 256 Mbps. */
  function Low(r: nat): Code
    requires r < BLOCK
  {
    if r < 64 then Code(r, 0, 0)
    else if r < 576 then Code(64 + (r - 64) / 8, 0, 0)
    else if r < 8700 then Code(128 + (r - 576) / 64, 0, 0)
    else if r < 17 * K then Code(254, Min((r - 8600) / 100, 74), 0)
    else if r < 130 * K then Code(254, 74 + Min((r - 16 * K) / K, 112), 0)
    else Code(254, 186 + (r - 128 * K) / (2 * K), 0)
  }

  /** The whole blocks go to octet 7, which cannot show more than 254. */
  function Quantise(x: nat): Code {
    if x == 0 then Code(255, 0, 0)
    else Low(x % BLOCK).(extended2 := Min(x / BLOCK, 254))
  }

  /** How many of the three octets are needed. */
  function Length(c: Code): nat {
    if c.extended2 != 0 then 3 else if c.extended != 0 then 2 else 1
  }

  /** The ranges br_calculate tells apart. */
  lemma LowRanges(r: nat)
    requires r < BLOCK
    ensures r <= 63 ==> Low(r) == Code(r, 0, 0)
    ensures 64 <= r <= 568 ==> (r - 64) / 8 + 64 < 256 && Low(r) == Code((r - 64) / 8 + 64, 0, 0)
    ensures 568 < r < 576 ==> Low(r) == Code(127, 0, 0)
    ensures 576 <= r <= 8640 ==> (r - 576) / 64 + 128 < 256 && Low(r) == Code((r - 576) / 64 + 128, 0, 0)
    ensures 8640 < r < 8700 ==> Low(r) == Code(254, 0, 0)
    ensures 8700 <= r <= 16000 ==> 0 < (r - 8600) / 100 < 256 && Low(r) == Code(254, (r - 8600) / 100, 0)
    ensures 16000 < r < 17 * K ==> Low(r) == Code(254, 74, 0)
    ensures 17 * K <= r <= 128 * K ==>
      0 < (r - 16 * K) / (1 * K) + 74 < 256 && Low(r) == Code(254, (r - 16 * K) / (1 * K) + 74, 0)
    ensures 128 * K < r < 130 * K ==> Low(r) == Code(254, 186, 0)
    ensures 130 * K <= r ==>
      0 < (r - 128 * K) / (2 * K) + 186 < 256 && Low(r) == Code(254, (r - 128 * K) / (2 * K) + 186, 0)
  {
  }

  /** br_calculate: octets are written through pointers, and those not needed stay as they are. */
  method BrCalculate(octets: array<Byte>, br: nat, extended: nat, extended2: nat, rate: nat) returns (length: nat)
    requires br < octets.Length && extended < octets.Length && extended2 < octets.Length
    requires br != extended && br != extended2 && extended != extended2
    requires octets[br] == octets[extended] == octets[extended2] == 0
    modifies octets
    ensures octets[..] == var c := Quantise(rate);
      old(octets[..])[br := c.br][extended := c.extended][extended2 := c.extended2]
    ensures length == Length(Quantise(rate))
  {
    hide Low, Length;
    ghost var before := octets[..];
    length := 0;
    var input := rate;
    if input < 1 {
      octets[br] := 0xff;
      length := Max(length, 1);
      LengthOf(Quantise(rate));
      return length;
    }
    if input > 65200 * K {
      octets[extended2] := 254;
      length := Max(length, 3);
      input := input % (256 * K);
    } else if input >= 256 * K && input <= 65200 * K {
      octets[extended2] := input / (256 * K);
      length := Max(length, 3);
      input := input % (256 * K);
    }
    assert input == rate % BLOCK && octets[..] == before[extended2 := Quantise(rate).extended2];
    length := BrCalculateLow(octets, br, extended, input, length);
    LengthOf(Quantise(rate));
  }

  lemma LengthOf(c: Code)
    ensures Length(c) == Max(if c.extended2 != 0 then 3 else 0, if c.extended != 0 then 2 else 1)
  {
  }

  /** The second half of br_calculate, below 256 Mbps; nothing is written for an exact multiple. */
  method BrCalculateLow(octets: array<Byte>, br: nat, extended: nat, input: nat, len: nat) returns (length: nat)
    requires br < octets.Length && extended < octets.Length && br != extended && input < BLOCK
    requires octets[br] == octets[extended] == 0 && (len == 0 ==> input > 0)
    modifies octets
    ensures octets[..] == old(octets[..])[br := Low(input).br][extended := Low(input).extended]
    ensures length == Max(len, if input == 0 then 0 else if Low(input).extended != 0 then 2 else 1)
  {
    hide Low;
    LowRanges(input);
    length := len;
    if input >= 1 && input <= 63 {
      octets[br] := input;
      length := Max(length, 1);
    } else if input >= 64 && input <= 568 {
      octets[br] := (input - 64) / 8 + 64;
      length := Max(length, 1);
    } else if input > 568 && input < 576 {
      octets[br] := 127;
      length := Max(length, 1);
    } else if input >= 576 && input <= 8640 {
      octets[br] := (input - 576) / 64 + 128;
      length := Max(length, 1);
    } else if input > 8640 && input < 8700 {
      octets[br] := 254;
      length := Max(length, 1);
    } else if input >= 8700 && input <= 16000 {
      octets[br] := 254;
      octets[extended] := (input - 8600) / 100;
      length := Max(length, 2);
    } else if input > 16000 && input < 17 * K {
      octets[br] := 254;
      octets[extended] := 74;
      length := Max(length, 2);
    } else if input >= 17 * K && input <= 128 * K {
      octets[br] := 254;
      octets[extended] := (input - 16 * K) / (1 * K) + 74;
      length := Max(length, 2);
    } else if input > 128 * K && input < 130 * K {
      octets[br] := 254;
      octets[extended] := 186;
      length := Max(length, 2);
    } else if input >= 130 * K && input <= 256 * K {
      octets[br] := 254;
      octets[extended] := (input - 128 * K) / (2 * K) + 186;
      length := Max(length, 2);
    }
  }

  // ---- the code chosen is the best one

  /** Below 256 Mbps. */
  lemma LowIsBest(r: nat, br: Byte, extended: Byte)
    requires r < BLOCK
    ensures DecodeLow(Low(r).br, Low(r).extended) <= r < DecodeLow(Low(r).br, Low(r).extended) + 2048
    ensures DecodeLow(br, extended) <= r ==> DecodeLow(br, extended) <= DecodeLow(Low(r).br, Low(r).extended)
    ensures DecodeLow(br, extended) <= BLOCK
  {
    hide Low;
    LowRanges(r);
    if r < 8700 {
      SmallSteps(br, extended, r);
    } else {
      LargeSteps(br, extended, r);
    }
  }

  /** What can be shown below a rate that octet 3 alone shows. */
  lemma SmallSteps(br: Byte, extended: Byte, r: nat)
    requires r < 8700
    ensures DecodeLow(br, extended) <= BLOCK
    ensures DecodeLow(br, extended) <= r ==>
      DecodeLow(br, extended) <=
      if r <= 63 then r else if r <= 575 then 64 + 8 * ((r - 64) / 8) else 576 + 64 * Min((r - 576) / 64, 126)
  {
  }

  /** What can be shown below a rate that needs octet 5. */
  lemma LargeSteps(br: Byte, extended: Byte, r: nat)
    requires 8700 <= r
    ensures DecodeLow(br, extended) <= BLOCK
    ensures DecodeLow(br, extended) <= r ==>
      DecodeLow(br, extended) <=
      if r < 17 * K then 8600 + 100 * Min((r - 8600) / 100, 74)
      else if r < 130 * K then 16 * K + Min((r - 16 * K) / K, 112) * K
      else 128 * K + ((r - 128 * K) / (2 * K)) * 2 * K
  {
    if extended == 0 {
      assert DecodeLow(br, extended) <= 8640;
    } else if extended <= 74 {
      assert DecodeLow(br, extended) == 8600 + 100 * extended <= 16 * K;
    } else if extended <= 186 {
      assert DecodeLow(br, extended) == 16 * K + (extended - 74) * K <= 128 * K;
    } else if extended <= 250 {
      assert DecodeLow(br, extended) == 128 * K + (extended - 186) * 2 * K <= BLOCK;
    }
  }

  lemma QuantiseBelowTop(x: nat)
    requires 0 < x
    ensures var q := if x < TOP then x / BLOCK else 254;
      Decode(Quantise(x)) == q * BLOCK + DecodeLow(Low(x % BLOCK).br, Low(x % BLOCK).extended)
  {
    hide Low, DecodeLow;
  }

  /** br_calculate finds the largest representable rate not above its input exactly when that is below 65280 Mbps. */
  lemma BestIff(x: nat)
    ensures BestBelow(Quantise(x), x) <==> x < TOP
  {
    hide Low, DecodeLow;
    if x == 0 {
      ZeroIsBest();
    } else if x < TOP {
      QuantiseBelowTop(x);
      var r := x % BLOCK;
      forall other: Code | Decode(other) <= x
        ensures Decode(other) <= Decode(Quantise(x))
      {
        LowIsBest(r, other.br, other.extended);
      }
      LowIsBest(r, 0, 0);
    } else {
      QuantiseBelowTop(x);
      LowIsBest(x % BLOCK, 0, 0);
      TopIsShown();
    }
  }

  lemma ZeroIsBest()
    ensures Decode(Quantise(0)) == 0
  {
  }

  lemma TopIsShown()
    ensures Decode(Code(254, 250, 254)) == TOP
  {
  }

  /** The rate lost is less than 2 Mbps exactly in the same range. */
  lemma ErrorIff(x: nat)
    ensures Decode(Quantise(x)) <= x
    ensures x < Decode(Quantise(x)) + 2048 <==> x < TOP
  {
    hide Low, DecodeLow;
    if x == 0 {
      ZeroIsBest();
    } else {
      QuantiseBelowTop(x);
      LowIsBest(x % BLOCK, 0, 0);
    }
  }

  lemma Monotone(x: nat, y: nat)
    requires x <= y < TOP
    ensures Decode(Quantise(x)) <= Decode(Quantise(y))
  {
    BestIff(x);
    BestIff(y);
  }

  /** From there on a rate can be shown as a smaller one than a lower rate is. */
  lemma NotMonotoneAtTop()
    ensures Decode(Quantise(TOP)) < Decode(Quantise(TOP - 1))
  {
    hide Low, DecodeLow;
    QuantiseBelowTop(TOP);
    QuantiseBelowTop(TOP - 1);
    LowIsBest(0, 0, 0);
    LowIsBest(BLOCK - 1, 0, 0);
  }

  /** What the octets show, in kbps, where the step changes. */
  lemma Steps()
    ensures DecodeLow(1, 0) == 1 && DecodeLow(63, 0) == 63 && DecodeLow(64, 0) == 64 && DecodeLow(65, 0) == 72
    ensures DecodeLow(127, 0) == 568 && DecodeLow(128, 0) == 576 && DecodeLow(129, 0) == 640 && DecodeLow(254, 0) == 8640
    ensures DecodeLow(255, 0) == 0
    ensures DecodeLow(254, 1) == 8700 && DecodeLow(254, 74) == 16_000 && DecodeLow(254, 75) == 17_408
    ensures DecodeLow(254, 186) == 131_072 && DecodeLow(254, 187) == 133_120 && DecodeLow(254, 250) == 262_144
    ensures Decode(Code(255, 0, 1)) == 262_144 && Decode(Code(254, 250, 254)) == 66_846_720
  {
  }

  /** The octets of a rate in kbps, range by range. */
  lemma RateTable(x: nat)
    requires 0 < x < 262_144
    ensures Quantise(x) ==
      if x < 64 then Code(x, 0, 0)
      else if x < 576 then Code((x - 64) / 8 + 64, 0, 0)
      else if x <= 8640 then Code((x - 576) / 64 + 128, 0, 0)
      else if x < 8700 then Code(254, 0, 0)
      else if x <= 16_000 then Code(254, (x - 8600) / 100, 0)
      else if x < 17_408 then Code(254, 74, 0)
      else if x <= 131_072 then Code(254, (x - 16_384) / 1024 + 74, 0)
      else if x < 133_120 then Code(254, 186, 0)
      else Code(254, (x - 131_072) / 2048 + 186, 0)
  {
    hide Low, Quantise;
    LowRanges(x);
    BelowBlock(x);
  }

  lemma BelowBlock(x: nat)
    requires 0 < x < 262_144
    ensures Quantise(x) == Low(x)
  {
    assert x % BLOCK == x && x / BLOCK == 0;
    assert Low(x).extended2 == 0;
  }

  /** From 256 Mbps on, octet 7 shows how often that fits, and no more than 254 times. */
  lemma RateBlocks(x: nat)
    requires x >= 262_144
    ensures Quantise(x).extended2 == if x < 66_846_720 then x / 262_144 else 254
    ensures var rest := x % 262_144;
      Quantise(x) == if rest == 0 then Code(0, 0, Quantise(x).extended2) else Quantise(rest).(extended2 := Quantise(x).extended2)
  {
    hide Low;
    LowRanges(0);
  }

  // ---- elements

  /** An information element with its length field. */
  class Element {
    var length: nat
    const octets: array<Byte>

    constructor (n: nat)
      ensures fresh(octets) && octets.Length == n
    {
      length, octets := 0, new Byte[n](_ => 0);
    }

    /** memset */
    method Clear()
      modifies this, octets
      ensures forall i :: 0 <= i < octets.Length ==> octets[i] == 0
    {
      length := 0;
      forall i | 0 <= i < octets.Length { octets[i] := 0; }
    }
  }

  /** An octet as a receiver sees it: what was not sent counts as zero. */
  function At(sent: seq<Byte>, i: nat): Byte {
    if i < |sent| then sent[i] else 0
  }

  function AmbrOctets(dl: Code, ul: Code): seq<Byte> {
    [dl.br, ul.br, dl.extended, ul.extended, dl.extended2, ul.extended2]
  }

  /** The codes for downlink and uplink in a received APN aggregate maximum bit rate. */
  function ReadAmbr(sent: seq<Byte>): (Code, Code) {
    (Code(At(sent, 0), At(sent, 2), At(sent, 4)), Code(At(sent, 1), At(sent, 3), At(sent, 5)))
  }

  function AmbrLength(dl: Code, ul: Code): nat {
    2 * Max(Length(dl), Length(ul))
  }

  /** apn_ambr_build */
  method BuildAmbr(e: Element, dlAmbr: nat, ulAmbr: nat)
    requires dlAmbr < 0x1_0000_0000 && ulAmbr < 0x1_0000_0000 && e.octets.Length == 6
    modifies e, e.octets
    ensures e.octets[..] == AmbrOctets(Quantise(dlAmbr / K), Quantise(ulAmbr / K))
    ensures e.length == AmbrLength(Quantise(dlAmbr / K), Quantise(ulAmbr / K))
  {
    hide Quantise, Length;
    var length := 0;
    var dl := dlAmbr / K;
    var ul := ulAmbr / K;
    e.Clear();
    var n := BrCalculate(e.octets, 0, 2, 4, dl);
    length := Max(length, n);
    n := BrCalculate(e.octets, 1, 3, 5, ul);
    length := Max(length, n);
    e.length := length * 2;
  }

  /** Downlink before uplink, octet 3 of both before octet 5 of both before octet 7 of both. */
  lemma AmbrLayout(dl: Code, ul: Code)
    ensures var b := AmbrOctets(dl, ul);
      && |b| == 6 && Code(b[0], b[2], b[4]) == dl && Code(b[1], b[3], b[5]) == ul
    ensures AmbrLength(dl, ul) ==
      if dl.extended2 != 0 || ul.extended2 != 0 then 6 else if dl.extended != 0 || ul.extended != 0 then 4 else 2
  {
  }

  /** The octets that are sent carry both codes whole, and no shorter element would. */
  lemma AmbrLossless(dl: Code, ul: Code)
    ensures var n := AmbrLength(dl, ul);
      && n in {2, 4, 6}
      && ReadAmbr(AmbrOctets(dl, ul)[..n]) == (dl, ul)
      && (n > 2 ==> ReadAmbr(AmbrOctets(dl, ul)[..n - 2]) != (dl, ul))
  {
  }

  /** For all 32-bit rates a receiver reads the best lower approximations. */
  lemma AmbrDelivered(dlAmbr: nat, ulAmbr: nat)
    requires dlAmbr < 0x1_0000_0000 && ulAmbr < 0x1_0000_0000
    ensures var dl, ul := Quantise(dlAmbr / K), Quantise(ulAmbr / K);
      var read := ReadAmbr(AmbrOctets(dl, ul)[..AmbrLength(dl, ul)]);
      BestBelow(read.0, dlAmbr / K) && BestBelow(read.1, ulAmbr / K)
  {
    AmbrLossless(Quantise(dlAmbr / K), Quantise(ulAmbr / K));
    BestIff(dlAmbr / K);
    BestIff(ulAmbr / K);
  }

  // ---- quality of service

  datatype Rates<T> = Rates(ulMbr: T, dlMbr: T, ulGbr: T, dlGbr: T)

  /** A rate of zero is left out altogether. */
  function Shown(x: nat): Code {
    if x == 0 then ZERO else Quantise(x)
  }

  function ShownRates(rates: Rates<nat>): Rates<Code> {
    Rates(Shown(rates.ulMbr / K), Shown(rates.dlMbr / K), Shown(rates.ulGbr / K), Shown(rates.dlGbr / K))
  }

  function QosOctets(qci: Byte, c: Rates<Code>): seq<Byte> {
    [qci, c.ulMbr.br, c.dlMbr.br, c.ulGbr.br, c.dlGbr.br,
     c.ulMbr.extended, c.dlMbr.extended, c.ulGbr.extended, c.dlGbr.extended,
     c.ulMbr.extended2, c.dlMbr.extended2, c.ulGbr.extended2, c.dlGbr.extended2]
  }

  function ReadQos(sent: seq<Byte>): (Byte, Rates<Code>) {
    (At(sent, 0), Rates(
       Code(At(sent, 1), At(sent, 5), At(sent, 9)), Code(At(sent, 2), At(sent, 6), At(sent, 10)),
       Code(At(sent, 3), At(sent, 7), At(sent, 11)), Code(At(sent, 4), At(sent, 8), At(sent, 12))))
  }

  /** No octets at all are needed for a rate that is left out. */
  function ShownLength(c: Code): nat {
    if c == ZERO then 0 else Length(c)
  }

  function QosLength(c: Rates<Code>): nat {
    4 * Max(Max(ShownLength(c.ulMbr), ShownLength(c.dlMbr)), Max(ShownLength(c.ulGbr), ShownLength(c.dlGbr))) + 1
  }

  /** One direction of eps_qos_build. */
  method AddRate(octets: array<Byte>, i: nat, rate: nat, len: nat) returns (length: nat)
    requires octets.Length == 13 && 1 <= i <= 4
    requires octets[i] == octets[i + 4] == octets[i + 8] == 0
    modifies octets
    ensures octets[..] == var c := Shown(rate);
      old(octets[..])[i := c.br][i + 4 := c.extended][i + 8 := c.extended2]
    ensures length == Max(len, ShownLength(Shown(rate)))
  {
    length := len;
    ShownNotZero(rate);
    if rate != 0 {
      var n := BrCalculate(octets, i, i + 4, i + 8, rate);
      length := Max(length, n);
    }
  }

  /** Some octet is set for every rate but zero. */
  lemma ShownNotZero(x: nat)
    ensures Shown(x) == ZERO <==> x == 0
  {
    if x > 0 { LowRanges(x % BLOCK); }
  }

  /** eps_qos_build */
  method BuildQos(e: Element, qci: Byte, rates: Rates<nat>)
    requires e.octets.Length == 13
    modifies e, e.octets
    ensures e.octets[..] == QosOctets(qci, ShownRates(rates))
    ensures e.length == QosLength(ShownRates(rates))
  {
    hide Shown, ShownLength;
    var dlMbr := rates.dlMbr / K;
    var ulMbr := rates.ulMbr / K;
    var dlGbr := rates.dlGbr / K;
    var ulGbr := rates.ulGbr / K;
    e.Clear();
    e.octets[0] := qci;
    var length := 0;
    length := AddRate(e.octets, 2, dlMbr, length);
    length := AddRate(e.octets, 1, ulMbr, length);
    length := AddRate(e.octets, 4, dlGbr, length);
    length := AddRate(e.octets, 3, ulGbr, length);
    e.length := length * 4 + 1;
  }

  /** The QCI, then octet 3 of the four rates, uplink before downlink and the maximum ones first; then their octets 5 and 7. */
  lemma QosLayout(qci: Byte, c: Rates<Code>)
    ensures var b := QosOctets(qci, c);
      && |b| == 13 && b[0] == qci
      && Code(b[1], b[5], b[9]) == c.ulMbr && Code(b[2], b[6], b[10]) == c.dlMbr
      && Code(b[3], b[7], b[11]) == c.ulGbr && Code(b[4], b[8], b[12]) == c.dlGbr
  {
  }

  lemma QosLossless(qci: Byte, c: Rates<Code>)
    ensures var n := QosLength(c);
      && n in {1, 5, 9, 13}
      && ReadQos(QosOctets(qci, c)[..n]) == (qci, c)
      && (n > 1 ==> ReadQos(QosOctets(qci, c)[..n - 4]) != (qci, c))
  {
    hide Length, ShownLength;
    LengthBound(c.ulMbr);
    LengthBound(c.dlMbr);
    LengthBound(c.ulGbr);
    LengthBound(c.dlGbr);
  }

  lemma LengthBound(c: Code)
    ensures ShownLength(c) <= 3
    ensures ShownLength(c) < 3 ==> c.extended2 == 0
    ensures ShownLength(c) < 2 ==> c.extended == 0
    ensures ShownLength(c) < 1 ==> c.br == 0
    ensures ShownLength(c) == 3 ==> c.extended2 != 0
    ensures ShownLength(c) == 2 ==> c.extended != 0
    ensures ShownLength(c) == 1 ==> c.br != 0
  {
  }

  /** A receiver reads the best lower approximation of a rate exactly if the rate is below 65280 Mbps. */
  lemma QosDelivered(qci: Byte, rates: Rates<nat>)
    ensures var c := ShownRates(rates);
      var (_, read) := ReadQos(QosOctets(qci, c)[..QosLength(c)]);
      && (BestBelow(read.ulMbr, rates.ulMbr / K) <==> rates.ulMbr / K < TOP)
      && (BestBelow(read.dlMbr, rates.dlMbr / K) <==> rates.dlMbr / K < TOP)
      && (BestBelow(read.ulGbr, rates.ulGbr / K) <==> rates.ulGbr / K < TOP)
      && (BestBelow(read.dlGbr, rates.dlGbr / K) <==> rates.dlGbr / K < TOP)
  {
    hide Quantise, QosLength, QosOctets, ReadQos, Decode;
    QosLossless(qci, ShownRates(rates));
    ShownBestIff(rates.ulMbr / K);
    ShownBestIff(rates.dlMbr / K);
    ShownBestIff(rates.ulGbr / K);
    ShownBestIff(rates.dlGbr / K);
  }

  lemma ShownBestIff(x: nat)
    ensures BestBelow(Shown(x), x) <==> x < TOP
  {
    if x == 0 {
      assert Decode(ZERO) == 0;
    } else {
      BestIff(x);
    }
  }
}

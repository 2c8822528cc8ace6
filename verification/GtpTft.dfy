/** EPS bearer level traffic flow templates: section 8.19 of TS 29.274, section 10.5.6.12 of TS 24.008. */
module GtpTft {
  import opened Wrappers
  import opened Bytes
  import opened GtpBuffer

  const MAX_TRAFFIC_FLOW_TEMPLATE := 255

  const PROTOCOL: Byte := 48
  const IPV4_REMOTE_ADDRESS: Byte := 16
  const IPV4_LOCAL_ADDRESS: Byte := 17
  const IPV6_REMOTE_ADDRESS: Byte := 32
  const IPV6_REMOTE_ADDRESS_PREFIX_LENGTH: Byte := 33
  const IPV6_LOCAL_ADDRESS_PREFIX_LENGTH: Byte := 35
  const SINGLE_LOCAL_PORT: Byte := 64
  const LOCAL_PORT_RANGE: Byte := 65
  const SINGLE_REMOTE_PORT: Byte := 80
  const REMOTE_PORT_RANGE: Byte := 81

  type Address = a: seq<Byte> | |a| == 16 witness [0, 0, 0, 0, 0, 0, 0, 0, 0, 0, 0, 0, 0, 0, 0, 0]
  type Port = n: nat | n < 0x1_0000

  /** A component; its type says which of the members count. Addresses are kept as they are sent. */
  datatype Component = Component(kind: Byte, proto: Byte, addr: Address, mask: Address, prefixlen: Byte, low: Port, high: Port)

  datatype Filter = Filter(flags: Byte, precedence: Byte, length: Byte, components: seq<Component>)

  /** `filters` is the whole array; the lower half of the flags says how many of them are used. */
  datatype Tft = Tft(flags: Byte, filters: seq<Filter>)
  {
    function Count(): nat {
      flags % 16
    }
  }

  // ---- building

  /** Aborts: an assertion failed. Rejects: the type of a component is not known. */
  datatype Result = Aborts | Rejects | Builds(bytes: seq<Byte>)

  /** What follows the type of a component. */
  function Tail(c: Component): Option<seq<Byte>> {
    if c.kind == PROTOCOL then Some([c.proto])
    else if c.kind == IPV4_REMOTE_ADDRESS || c.kind == IPV4_LOCAL_ADDRESS then Some(c.addr[..4] + c.mask[..4])
    else if c.kind == IPV6_LOCAL_ADDRESS_PREFIX_LENGTH || c.kind == IPV6_REMOTE_ADDRESS_PREFIX_LENGTH then
      Some(c.addr + [c.prefixlen])
    else if c.kind == IPV6_REMOTE_ADDRESS then Some(c.addr + c.mask)
    else if c.kind == SINGLE_LOCAL_PORT || c.kind == SINGLE_REMOTE_PORT then Some(BigEndian(c.low, 2))
    else if c.kind == LOCAL_PORT_RANGE || c.kind == REMOTE_PORT_RANGE then Some(BigEndian(c.low, 2) + BigEndian(c.high, 2))
    else None
  }

  function AddComponents(done: seq<Byte>, cs: seq<Component>, limit: nat): Result
    decreases |cs|
  {
    if cs == [] then Builds(done)
    else if |done| + 1 > limit then Aborts
    else
      var tail := Tail(cs[0]);
      if tail.None? then Rejects
      else if |done| + 1 + |tail.value| > limit then Aborts
      else AddComponents(done + [cs[0].kind] + tail.value, cs[1..], limit)
  }

  function AddFilters(done: seq<Byte>, fs: seq<Filter>, limit: nat): Result
    decreases |fs|
  {
    if fs == [] then Builds(done)
    else if |done| + 3 > limit then Aborts
    else
      var r := AddComponents(done + [fs[0].flags, fs[0].precedence, fs[0].length], fs[0].components, limit);
      if r.Builds? then AddFilters(r.bytes, fs[1..], limit) else r
  }

  /** ogs_gtp_build_tft into a buffer of `limit` octets. */
  function Build(t: Tft, limit: nat): Result
    requires t.Count() <= |t.filters|
  {
    if limit < MAX_TRAFFIC_FLOW_TEMPLATE then Aborts
    else AddFilters([t.flags], t.filters[..t.Count()], limit)
  }

  /** The switch on the type of a component. */
  method PutTail(data: array<Byte>, size: nat, c: Component, ghost before: seq<Byte>, ghost written: seq<Byte>)
    returns (r: Option<bool>, next: nat)
    requires Starts(data[..], written, before) && |written| == size
    modifies data
    ensures r.None? <==> Tail(c).None?
    ensures r.Some? ==> (r.value <==> size + |Tail(c).value| <= data.Length)
    ensures r == Some(true) ==>
      Starts(data[..], written + Tail(c).value, before) && next == |written + Tail(c).value|
  {
    hide Starts, BigEndian;
    var ok;
    next := size;
    if c.kind == PROTOCOL {
      ok, next := Put(data, size, [c.proto], before, written);
    } else if c.kind == IPV4_REMOTE_ADDRESS || c.kind == IPV4_LOCAL_ADDRESS {
      ok, next := PutBoth(data, size, c.addr[..4], c.mask[..4], before, written);
    } else if c.kind == IPV6_LOCAL_ADDRESS_PREFIX_LENGTH || c.kind == IPV6_REMOTE_ADDRESS_PREFIX_LENGTH {
      ok, next := PutBoth(data, size, c.addr, [c.prefixlen], before, written);
    } else if c.kind == IPV6_REMOTE_ADDRESS {
      ok, next := PutBoth(data, size, c.addr, c.mask, before, written);
    } else if c.kind == SINGLE_LOCAL_PORT || c.kind == SINGLE_REMOTE_PORT {
      ok, next := Put(data, size, BigEndian(c.low, 2), before, written);
    } else if c.kind == LOCAL_PORT_RANGE || c.kind == REMOTE_PORT_RANGE {
      ok, next := PutBoth(data, size, BigEndian(c.low, 2), BigEndian(c.high, 2), before, written);
    } else {
      return None, size;
    }
    r := Some(ok);
  }

  /** Two members of a component, each behind an assertion of its own. */
  method PutBoth(data: array<Byte>, size: nat, a: seq<Byte>, b: seq<Byte>, ghost before: seq<Byte>, ghost written: seq<Byte>)
    returns (ok: bool, next: nat)
    requires Starts(data[..], written, before) && |written| == size
    modifies data
    ensures ok <==> size + |a + b| <= data.Length
    ensures ok ==> Starts(data[..], written + (a + b), before) && next == |written + (a + b)|
  {
    hide Starts;
    assert written + (a + b) == written + a + b;
    ok, next := Put(data, size, a, before, written);
    if ok { ok, next := Put(data, next, b, before, written + a); }
  }

  /** ogs_gtp_build_tft */
  method BuildTft(data: array<Byte>, t: Tft) returns (len: Outcome<int>)
    requires t.Count() <= |t.filters|
    modifies data
    ensures match Build(t, data.Length)
      case Aborts => len.Abort?
      case Rejects => len == Done(-1)
      case Builds(bytes) => len == Done(|bytes|) && Starts(data[..], bytes, old(data[..]))
  {
    hide Starts, Tail;
    ghost var bytes: seq<Byte> := [];
    var limit := data.Length;
    if limit < MAX_TRAFFIC_FLOW_TEMPLATE { return Abort; }
    ghost var before := data[..];
    ghost var goal := Build(t, limit);
    StartsEmpty(before);
    var ok, size := Put(data, 0, [t.flags], before, []);
    bytes := [] + [t.flags];
    assert bytes == [t.flags];
    var fs := t.filters[..t.Count()];
    assert fs[0..] == fs;
    var i := 0;
    while i < |fs|
      invariant i <= |fs| && size == |bytes| && Starts(data[..], bytes, before)
      invariant AddFilters(bytes, fs[i..], limit) == goal
    {
      var f := fs[i];
      assert fs[i..][0] == f && fs[i..][1..] == fs[i + 1..];
      var head := [f.flags, f.precedence, f.length];
      ok, size := Put(data, size, head, before, bytes);
      if !ok { return Abort; }
      bytes := bytes + head;
      ghost var inner := AddComponents(bytes, f.components, limit);
      assert f.components[0..] == f.components;
      var j := 0;
      while j < |f.components|
        invariant j <= |f.components| && size == |bytes| && Starts(data[..], bytes, before)
        invariant AddComponents(bytes, f.components[j..], limit) == inner
      {
        var c := f.components[j];
        assert f.components[j..][0] == c && f.components[j..][1..] == f.components[j + 1..];
        ok, size := Put(data, size, [c.kind], before, bytes);
        if !ok { return Abort; }
        bytes := bytes + [c.kind];
        var known;
        known, size := PutTail(data, size, c, before, bytes);
        if known.None? { return Done(-1); }
        if !known.value { return Abort; }
        bytes := bytes + Tail(c).value;
        j := j + 1;
      }
      i := i + 1;
    }
    len := Done(size);
  }

  // ---- lengths

  function ComponentOctets(c: Component): seq<Byte> {
    [c.kind] + if Tail(c).Some? then Tail(c).value else []
  }

  function ContentOctets(cs: seq<Component>): seq<Byte> {
    if cs == [] then [] else ComponentOctets(cs[0]) + ContentOctets(cs[1..])
  }

  function FilterOctets(f: Filter): seq<Byte> {
    [f.flags, f.precedence, f.length] + ContentOctets(f.components)
  }

  function FiltersOctets(fs: seq<Filter>): seq<Byte> {
    if fs == [] then [] else FilterOctets(fs[0]) + FiltersOctets(fs[1..])
  }

  predicate ComponentsKnown(cs: seq<Component>) {
    forall i :: 0 <= i < |cs| ==> Tail(cs[i]).Some?
  }

  predicate FiltersKnown(fs: seq<Filter>) {
    forall i :: 0 <= i < |fs| ==> ComponentsKnown(fs[i].components)
  }

  lemma {:induction false} ComponentsAdded(done: seq<Byte>, cs: seq<Component>, limit: nat)
    requires |done| <= limit
    ensures var r, all := AddComponents(done, cs, limit), done + ContentOctets(cs);
      && (r.Builds? <==> ComponentsKnown(cs) && |all| <= limit)
      && (r.Builds? ==> r.bytes == all)
    decreases |cs|
  {
    hide Tail;
    if cs == [] {
      assert done + [] == done;
    } else {
      var c := cs[0];
      if |done| + 1 <= limit && Tail(c).Some? && |done| + 1 + |Tail(c).value| <= limit {
        var next := done + [c.kind] + Tail(c).value;
        ComponentsAdded(next, cs[1..], limit);
        assert done + (ComponentOctets(c) + ContentOctets(cs[1..])) == next + ContentOctets(cs[1..]);
        assert ComponentsKnown(cs) <==> ComponentsKnown(cs[1..]) by { Split(cs); }
      }
    }
  }

  lemma Split(cs: seq<Component>)
    requires cs != [] && Tail(cs[0]).Some?
    ensures ComponentsKnown(cs) <==> ComponentsKnown(cs[1..])
  {
    assert cs == [cs[0]] + cs[1..];
    if ComponentsKnown(cs[1..]) {
      assert forall i :: 0 < i < |cs| ==> cs[i] == cs[1..][i - 1];
    }
  }

  lemma {:induction false} FiltersAdded(done: seq<Byte>, fs: seq<Filter>, limit: nat)
    requires |done| <= limit
    ensures var r, all := AddFilters(done, fs, limit), done + FiltersOctets(fs);
      && (r.Builds? <==> FiltersKnown(fs) && |all| <= limit)
      && (r.Builds? ==> r.bytes == all)
    decreases |fs|
  {
    hide AddComponents, ContentOctets, ComponentsKnown;
    if fs == [] {
      assert done + [] == done;
    } else {
      var f := fs[0];
      var head := [f.flags, f.precedence, f.length];
      if |done| + 3 <= limit {
        ComponentsAdded(done + head, f.components, limit);
        var r := AddComponents(done + head, f.components, limit);
        assert done + head + ContentOctets(f.components) == done + FilterOctets(f);
        if r.Builds? {
          FiltersAdded(r.bytes, fs[1..], limit);
          assert done + (FilterOctets(f) + FiltersOctets(fs[1..])) == r.bytes + FiltersOctets(fs[1..]);
          SplitFilters(fs);
        }
      }
    }
  }

  lemma SplitFilters(fs: seq<Filter>)
    requires fs != [] && ComponentsKnown(fs[0].components)
    ensures FiltersKnown(fs) <==> FiltersKnown(fs[1..])
  {
    if FiltersKnown(fs[1..]) {
      assert forall i :: 0 < i < |fs| ==> fs[i] == fs[1..][i - 1];
    }
  }

  /** The template is built exactly when all its types are known and it fits; its octets are those of its parts. */
  lemma BuildsIff(t: Tft, limit: nat)
    requires t.Count() <= |t.filters|
    ensures var fs := t.filters[..t.Count()];
      var all := [t.flags] + FiltersOctets(fs);
      && (Build(t, limit).Builds? <==> limit >= MAX_TRAFFIC_FLOW_TEMPLATE && FiltersKnown(fs) && |all| <= limit)
      && (Build(t, limit).Builds? ==> Build(t, limit).bytes == all)
  {
    if limit >= MAX_TRAFFIC_FLOW_TEMPLATE {
      FiltersAdded([t.flags], t.filters[..t.Count()], limit);
    }
  }

  // ---- octets, and which failure comes first

  /** What follows the type of a component, by its number; no other type is known. */
  lemma TypeTable(c: Component)
    ensures Tail(c) ==
      if c.kind == 48 then Some([c.proto])
      else if c.kind in {16, 17} then Some(c.addr[..4] + c.mask[..4])
      else if c.kind == 32 then Some(c.addr + c.mask)
      else if c.kind in {33, 35} then Some(c.addr + [c.prefixlen])
      else if c.kind in {64, 80} then Some([c.low / 256, c.low % 256])
      else if c.kind in {65, 81} then Some([c.low / 256, c.low % 256, c.high / 256, c.high % 256])
      else None
  {
    hide BigEndian;
    PortOctets(c.low);
    PortOctets(c.high);
    assert BigEndian(c.low, 2) + BigEndian(c.high, 2) == [c.low / 256, c.low % 256, c.high / 256, c.high % 256];
  }

  /** Flags, precedence and length are in front of the components of a filter, the type in front of a component. */
  lemma FilterLayout(f: Filter, fs: seq<Filter>, c: Component, cs: seq<Component>)
    requires f.components == [c] + cs && Tail(c).Some?
    ensures FiltersOctets([f] + fs) ==
      [f.flags, f.precedence, f.length] + ([c.kind] + Tail(c).value + ContentOctets(cs)) + FiltersOctets(fs)
  {
    hide Tail;
    assert ([f] + fs)[0] == f && ([f] + fs)[1..] == fs;
    assert f.components[0] == c && f.components[1..] == cs;
  }

  /** A type that is not known, behind known components, where there is still room for it. */
  ghost predicate UnknownAt(done: nat, cs: seq<Component>, limit: nat, k: nat) {
    && k < |cs| && Tail(cs[k]).None? && (forall j :: 0 <= j < k ==> Tail(cs[j]).Some?)
    && done + |ContentOctets(cs[..k])| + 1 <= limit
  }

  ghost predicate SomeUnknown(done: nat, cs: seq<Component>, limit: nat) {
    exists k :: UnknownAt(done, cs, limit, k)
  }

  /** Building gives up with -1 if and only if it gets to a type that is not known before it runs out of room. */
  lemma {:induction false} ComponentsRejectIff(done: seq<Byte>, cs: seq<Component>, limit: nat)
    requires |done| <= limit
    ensures AddComponents(done, cs, limit).Rejects? <==> SomeUnknown(|done|, cs, limit)
    decreases |cs|
  {
    hide Tail, UnknownAt;
    if cs == [] {
      NotInNone(|done|, cs, limit);
    } else {
      var c := cs[0];
      if |done| + 1 > limit {
        NoRoom(|done|, cs, limit);
      } else if Tail(c).None? {
        assert UnknownAt(|done|, cs, limit, 0) by { FirstUnknown(|done|, cs, limit); }
      } else {
        UnknownBehind(|done|, cs, limit);
        var next := done + [c.kind] + Tail(c).value;
        if |next| <= limit { ComponentsRejectIff(next, cs[1..], limit); }
      }
    }
  }

  lemma NotInNone(done: nat, cs: seq<Component>, limit: nat)
    requires cs == []
    ensures !SomeUnknown(done, cs, limit)
  {
  }

  lemma NoRoom(done: nat, cs: seq<Component>, limit: nat)
    requires done + 1 > limit
    ensures !SomeUnknown(done, cs, limit)
  {
  }

  lemma FirstUnknown(done: nat, cs: seq<Component>, limit: nat)
    requires cs != [] && Tail(cs[0]).None? && done + 1 <= limit
    ensures UnknownAt(done, cs, limit, 0)
  {
    hide Tail;
    assert cs[..0] == [];
  }

  lemma UnknownBehind(done: nat, cs: seq<Component>, limit: nat)
    requires cs != [] && Tail(cs[0]).Some?
    ensures var next := done + 1 + |Tail(cs[0]).value|;
      && (SomeUnknown(done, cs, limit) <==> SomeUnknown(next, cs[1..], limit))
      && (next > limit ==> !SomeUnknown(done, cs, limit))
  {
    hide Tail, UnknownAt;
    var next := done + 1 + |Tail(cs[0]).value|;
    if k: nat :| UnknownAt(done, cs, limit, k) {
      UnknownShift(done, cs, limit, k);
      assert UnknownAt(next, cs[1..], limit, k - 1);
    }
    if k: nat :| UnknownAt(next, cs[1..], limit, k) {
      UnknownBack(done, cs, limit, k);
      assert UnknownAt(done, cs, limit, k + 1);
    }
  }

  lemma UnknownShift(done: nat, cs: seq<Component>, limit: nat, k: nat)
    requires cs != [] && Tail(cs[0]).Some? && UnknownAt(done, cs, limit, k)
    ensures k > 0 && UnknownAt(done + 1 + |Tail(cs[0]).value|, cs[1..], limit, k - 1)
    ensures done + 1 + |Tail(cs[0]).value| <= limit
  {
    hide Tail;
    assert k > 0;
    assert cs[..k][0] == cs[0] && cs[..k][1..] == cs[1..][..k - 1];
    assert forall j :: 0 <= j < k - 1 ==> cs[1..][j] == cs[j + 1];
  }

  lemma UnknownBack(done: nat, cs: seq<Component>, limit: nat, k: nat)
    requires cs != [] && Tail(cs[0]).Some? && UnknownAt(done + 1 + |Tail(cs[0]).value|, cs[1..], limit, k)
    ensures UnknownAt(done, cs, limit, k + 1)
  {
    hide Tail;
    assert cs[..k + 1][0] == cs[0] && cs[..k + 1][1..] == cs[1..][..k];
    assert forall j :: 0 < j < k + 1 ==> cs[j] == cs[1..][j - 1];
  }

  /** Of a template: -1 if and only if some filter gets there, and all before it are built; an assertion fails in all other
      cases that are not built. */
  ghost predicate RejectedAt(done: nat, fs: seq<Filter>, limit: nat, i: nat) {
    && i < |fs| && FiltersKnown(fs[..i]) && done + |FiltersOctets(fs[..i])| + 3 <= limit
    && SomeUnknown(done + |FiltersOctets(fs[..i])| + 3, fs[i].components, limit)
  }

  ghost predicate SomeRejected(done: nat, fs: seq<Filter>, limit: nat) {
    exists i :: RejectedAt(done, fs, limit, i)
  }

  lemma {:induction false} FiltersRejectIff(done: seq<Byte>, fs: seq<Filter>, limit: nat)
    requires |done| <= limit
    ensures AddFilters(done, fs, limit).Rejects? <==> SomeRejected(|done|, fs, limit)
    decreases |fs|
  {
    hide AddComponents, ContentOctets, ComponentsKnown, UnknownAt, RejectedAt;
    if fs == [] {
      NotInNoFilter(|done|, fs, limit);
    } else if |done| + 3 > limit {
      NoRoomForFilter(|done|, fs, limit);
    } else {
      var f, head := fs[0], [fs[0].flags, fs[0].precedence, fs[0].length];
      ComponentsRejectIff(done + head, f.components, limit);
      ComponentsAdded(done + head, f.components, limit);
      var r := AddComponents(done + head, f.components, limit);
      if r.Builds? {
        assert done + head + ContentOctets(f.components) == done + FilterOctets(f);
        RejectedBehind(|done|, fs, limit);
        KnownIsNotRejected(|done| + 3, f.components, limit);
        FiltersRejectIff(r.bytes, fs[1..], limit);
      } else {
        RejectedFirst(|done|, fs, limit);
      }
    }
  }

  lemma NotInNoFilter(done: nat, fs: seq<Filter>, limit: nat)
    requires fs == []
    ensures !SomeRejected(done, fs, limit)
  {
  }

  lemma NoRoomForFilter(done: nat, fs: seq<Filter>, limit: nat)
    requires done + 3 > limit
    ensures !SomeRejected(done, fs, limit)
  {
  }

  lemma KnownIsNotRejected(done: nat, cs: seq<Component>, limit: nat)
    requires ComponentsKnown(cs)
    ensures !SomeUnknown(done, cs, limit)
  {
  }

  /** The first filter is not built: then it alone decides. */
  lemma RejectedFirst(done: nat, fs: seq<Filter>, limit: nat)
    requires fs != [] && done + 3 <= limit
    requires !ComponentsKnown(fs[0].components) || done + 3 + |ContentOctets(fs[0].components)| > limit
    ensures SomeRejected(done, fs, limit) <==> SomeUnknown(done + 3, fs[0].components, limit)
  {
    hide UnknownAt, ContentOctets, ComponentsKnown;
    assert fs[..0] == [] && FiltersOctets([]) == [];
    if SomeUnknown(done + 3, fs[0].components, limit) { assert RejectedAt(done, fs, limit, 0); }
    if i: nat :| RejectedAt(done, fs, limit, i) {
      assert i == 0;
    }
  }

  lemma RejectedBehind(done: nat, fs: seq<Filter>, limit: nat)
    requires fs != [] && ComponentsKnown(fs[0].components) && done + |FilterOctets(fs[0])| <= limit
    ensures SomeRejected(done, fs, limit) <==>
      SomeRejected(done + |FilterOctets(fs[0])|, fs[1..], limit)
  {
    hide UnknownAt, ComponentsKnown, FilterOctets, RejectedAt;
    var next := done + |FilterOctets(fs[0])|;
    if i: nat :| RejectedAt(done, fs, limit, i) {
      RejectedShift(done, fs, limit, i);
      assert RejectedAt(next, fs[1..], limit, i - 1);
    }
    if i: nat :| RejectedAt(next, fs[1..], limit, i) {
      RejectedBack(done, fs, limit, i);
      assert RejectedAt(done, fs, limit, i + 1);
    }
  }

  lemma RejectedShift(done: nat, fs: seq<Filter>, limit: nat, i: nat)
    requires fs != [] && ComponentsKnown(fs[0].components) && RejectedAt(done, fs, limit, i)
    ensures i > 0 && RejectedAt(done + |FilterOctets(fs[0])|, fs[1..], limit, i - 1)
  {
    hide UnknownAt, FilterOctets;
    assert fs[..0] == [];
    if i == 0 {
      KnownIsNotRejected(done + 3, fs[0].components, limit);
    } else {
      hide ComponentsKnown;
      assert fs[..i][0] == fs[0] && fs[..i][1..] == fs[1..][..i - 1] && fs[1..][i - 1] == fs[i];
      SplitFilters(fs[..i]);
    }
  }

  lemma RejectedBack(done: nat, fs: seq<Filter>, limit: nat, i: nat)
    requires fs != [] && ComponentsKnown(fs[0].components)
    requires RejectedAt(done + |FilterOctets(fs[0])|, fs[1..], limit, i)
    ensures RejectedAt(done, fs, limit, i + 1)
  {
    hide UnknownAt, FilterOctets, ComponentsKnown;
    assert fs[..i + 1][0] == fs[0] && fs[..i + 1][1..] == fs[1..][..i] && fs[1..][i] == fs[i + 1];
    SplitFilters(fs[..i + 1]);
  }

  /** A template is rejected if and only if a filter is; of the low four bits of the flags as many are looked at. */
  lemma RejectsIff(t: Tft, limit: nat)
    requires t.flags % 16 <= |t.filters|
    ensures Build(t, limit).Rejects? <==>
      limit >= 255 && SomeRejected(1, t.filters[..t.flags % 16], limit)
  {
    if limit >= 255 { FiltersRejectIff([t.flags], t.filters[..t.flags % 16], limit); }
  }

  // ---- a receiver, by section 10.5.6.12 of TS 24.008

  function NoAddress(): Address {
    [0, 0, 0, 0, 0, 0, 0, 0, 0, 0, 0, 0, 0, 0, 0, 0]
  }

  function OfProtocol(kind: Byte, proto: Byte): Component {
    Component(kind, proto, NoAddress(), NoAddress(), 0, 0, 0)
  }

  function OfAddress(kind: Byte, addr: seq<Byte>, mask: seq<Byte>, prefixlen: Byte): Component
    requires |addr| <= 16 && |mask| <= 16
  {
    Component(kind, 0, addr + NoAddress()[|addr|..], mask + NoAddress()[|mask|..], prefixlen, 0, 0)
  }

  function OfPorts(kind: Byte, low: Port, high: Port): Component {
    Component(kind, 0, NoAddress(), NoAddress(), 0, low, high)
  }

  /** The component of a type, from what follows the type, and how many octets it takes. */
  function ReadTail(kind: Byte, b: seq<Byte>): Option<(Component, nat)> {
    if kind == PROTOCOL && |b| >= 1 then Some((OfProtocol(kind, b[0]), 2))
    else if (kind == IPV4_REMOTE_ADDRESS || kind == IPV4_LOCAL_ADDRESS) && |b| >= 8 then
      Some((OfAddress(kind, b[..4], b[4..8], 0), 9))
    else if (kind == IPV6_LOCAL_ADDRESS_PREFIX_LENGTH || kind == IPV6_REMOTE_ADDRESS_PREFIX_LENGTH) && |b| >= 17 then
      Some((OfAddress(kind, b[..16], [], b[16]), 18))
    else if kind == IPV6_REMOTE_ADDRESS && |b| >= 32 then Some((OfAddress(kind, b[..16], b[16..32], 0), 33))
    else if (kind == SINGLE_LOCAL_PORT || kind == SINGLE_REMOTE_PORT) && |b| >= 2 then
      Some((OfPorts(kind, PortOf(b[0], b[1]), 0), 3))
    else if (kind == LOCAL_PORT_RANGE || kind == REMOTE_PORT_RANGE) && |b| >= 4 then
      Some((OfPorts(kind, PortOf(b[0], b[1]), PortOf(b[2], b[3])), 5))
    else None
  }

  function ReadComponent(bytes: seq<Byte>): Option<(Component, nat)>
    requires bytes != []
  {
    ReadTail(bytes[0], bytes[1..])
  }

  function PortOf(high: Byte, low: Byte): Port {
    var n: nat := high;
    n * 256 + low
  }

  function ReadContents(bytes: seq<Byte>): Option<seq<Component>> {
    if bytes == [] then Some([])
    else
      var c := ReadComponent(bytes);
      if c.None? || c.value.1 > |bytes| || c.value.1 == 0 then None
      else
        var rest := ReadContents(bytes[c.value.1..]);
        if rest.None? then None else Some([c.value.0] + rest.value)
  }

  /** `n` filters; nothing may follow them. */
  function ReadFilters(n: nat, bytes: seq<Byte>): Option<seq<Filter>> {
    if n == 0 then (if bytes == [] then Some([]) else None)
    else if |bytes| < 3 || |bytes| < 3 + bytes[2] as int then None
    else
      var contents := ReadContents(bytes[3..3 + bytes[2] as int]);
      var rest := ReadFilters(n - 1, bytes[3 + bytes[2] as int..]);
      if contents.None? || rest.None? then None
      else Some([Filter(bytes[0], bytes[1], bytes[2], contents.value)] + rest.value)
  }

  function ReadTft(bytes: seq<Byte>): Option<Tft> {
    if bytes == [] then None
    else
      var fs := ReadFilters(bytes[0] % 16, bytes[1..]);
      if fs.None? then None else Some(Tft(bytes[0], fs.value))
  }

  // ---- what it should read

  /** Only the members that count for the type. */
  function Relevant(c: Component): Component {
    if c.kind == PROTOCOL then OfProtocol(c.kind, c.proto)
    else if c.kind == IPV4_REMOTE_ADDRESS || c.kind == IPV4_LOCAL_ADDRESS then
      OfAddress(c.kind, c.addr[..4], c.mask[..4], 0)
    else if c.kind == IPV6_LOCAL_ADDRESS_PREFIX_LENGTH || c.kind == IPV6_REMOTE_ADDRESS_PREFIX_LENGTH then
      OfAddress(c.kind, c.addr, [], c.prefixlen)
    else if c.kind == IPV6_REMOTE_ADDRESS then OfAddress(c.kind, c.addr, c.mask, 0)
    else if c.kind == SINGLE_LOCAL_PORT || c.kind == SINGLE_REMOTE_PORT then OfPorts(c.kind, c.low, 0)
    else if c.kind == LOCAL_PORT_RANGE || c.kind == REMOTE_PORT_RANGE then OfPorts(c.kind, c.low, c.high)
    else OfPorts(c.kind, 0, 0)
  }

  function RelevantAll(cs: seq<Component>): seq<Component> {
    if cs == [] then [] else [Relevant(cs[0])] + RelevantAll(cs[1..])
  }

  function RelevantFilters(fs: seq<Filter>): seq<Filter> {
    if fs == [] then []
    else [fs[0].(components := RelevantAll(fs[0].components))] + RelevantFilters(fs[1..])
  }

  lemma PortOctets(p: Port)
    ensures BigEndian(p, 2) == [p / 256, p % 256] && PortOf(p / 256, p % 256) == p
  {
    TwoOctets(p);
  }

  lemma ComponentRead(c: Component, rest: seq<Byte>)
    requires Tail(c).Some?
    ensures ReadComponent(ComponentOctets(c) + rest) == Some((Relevant(c), |ComponentOctets(c)|))
  {
    hide BigEndian;
    PortOctets(c.low);
    PortOctets(c.high);
    var tail := Tail(c).value;
    assert (ComponentOctets(c) + rest)[1..] == tail + rest;
    if c.kind == IPV4_REMOTE_ADDRESS || c.kind == IPV4_LOCAL_ADDRESS {
      assert (tail + rest)[..4] == c.addr[..4] && (tail + rest)[4..8] == c.mask[..4];
    } else if c.kind == IPV6_LOCAL_ADDRESS_PREFIX_LENGTH || c.kind == IPV6_REMOTE_ADDRESS_PREFIX_LENGTH {
      assert (tail + rest)[..16] == c.addr;
    } else if c.kind == IPV6_REMOTE_ADDRESS {
      assert (tail + rest)[..16] == c.addr && (tail + rest)[16..32] == c.mask;
    }
  }

  lemma {:induction false} ContentsRead(cs: seq<Component>)
    requires ComponentsKnown(cs)
    ensures ReadContents(ContentOctets(cs)) == Some(RelevantAll(cs))
  {
    hide Tail, ReadComponent, Relevant;
    if cs != [] {
      var rest := ContentOctets(cs[1..]);
      ComponentRead(cs[0], rest);
      ContentsRead(cs[1..]);
      assert (ComponentOctets(cs[0]) + rest)[|ComponentOctets(cs[0])|..] == rest;
    }
  }

  /** What can be read as contents has the length of what is read. */
  lemma ComponentLength(bytes: seq<Byte>)
    requires bytes != []
    ensures var c := ReadComponent(bytes);
      c.Some? ==> c.value.1 <= |bytes| && |ComponentOctets(c.value.0)| == c.value.1
  {
  }

  lemma {:induction false} ContentsLength(bytes: seq<Byte>)
    ensures var cs := ReadContents(bytes);
      cs.Some? ==> |ContentOctets(cs.value)| == |bytes|
    decreases |bytes|
  {
    hide ReadComponent, ComponentOctets;
    if bytes != [] {
      ComponentLength(bytes);
      var c := ReadComponent(bytes);
      if c.Some? && 0 < c.value.1 <= |bytes| { ContentsLength(bytes[c.value.1..]); }
    }
  }

  lemma {:induction false} RelevantLength(cs: seq<Component>)
    ensures |ContentOctets(RelevantAll(cs))| == |ContentOctets(cs)|
  {
    if cs != [] {
      RelevantLength(cs[1..]);
      assert |ComponentOctets(Relevant(cs[0]))| == |ComponentOctets(cs[0])|;
    }
  }

  /** The length field of a filter says how many octets its components take. */
  predicate LengthMatches(f: Filter) {
    f.length as int == |ContentOctets(f.components)|
  }

  ghost predicate LengthsMatch(fs: seq<Filter>) {
    forall i :: 0 <= i < |fs| ==> LengthMatches(fs[i])
  }

  lemma {:induction false} FiltersRead(fs: seq<Filter>)
    requires FiltersKnown(fs) && LengthsMatch(fs)
    ensures ReadFilters(|fs|, FiltersOctets(fs)) == Some(RelevantFilters(fs))
  {
    hide ReadContents, RelevantAll, ContentOctets;
    if fs != [] {
      var f := fs[0];
      var contents, rest := ContentOctets(f.components), FiltersOctets(fs[1..]);
      var bytes := FiltersOctets(fs);
      assert LengthMatches(f);
      assert bytes[3..3 + |contents|] == contents && bytes[3 + |contents|..] == rest;
      ContentsRead(f.components);
      FiltersRead(fs[1..]);
    }
  }

  /** In what was read, lengths match. */
  lemma {:induction false} FiltersReadMatch(n: nat, bytes: seq<Byte>)
    ensures var fs := ReadFilters(n, bytes);
      fs.Some? ==> LengthsMatch(fs.value)
    decreases n
  {
    hide ReadContents, ContentOctets;
    if n > 0 && |bytes| >= 3 && |bytes| >= 3 + bytes[2] as int {
      ContentsLength(bytes[3..3 + bytes[2] as int]);
      FiltersReadMatch(n - 1, bytes[3 + bytes[2] as int..]);
    }
  }

  lemma {:induction false} RelevantMatch(fs: seq<Filter>)
    ensures |RelevantFilters(fs)| == |fs|
    ensures LengthsMatch(RelevantFilters(fs)) <==> LengthsMatch(fs)
  {
    if fs != [] {
      RelevantMatch(fs[1..]);
      RelevantLength(fs[0].components);
      var rs := RelevantFilters(fs);
      assert LengthMatches(rs[0]) <==> LengthMatches(fs[0]);
      MatchSplit(fs);
      MatchSplit(rs);
    }
  }

  lemma MatchSplit(fs: seq<Filter>)
    requires fs != []
    ensures LengthsMatch(fs) <==> LengthMatches(fs[0]) && LengthsMatch(fs[1..])
  {
    if LengthMatches(fs[0]) && LengthsMatch(fs[1..]) {
      assert forall i :: 0 < i < |fs| ==> fs[i] == fs[1..][i - 1];
    }
  }

  /** A receiver reads back all the filters of a built template if and only if the length of each matches its components. */
  lemma TftRoundTripIff(t: Tft, limit: nat)
    requires t.Count() <= |t.filters| && Build(t, limit).Builds?
    ensures var fs := t.filters[..t.Count()];
      ReadTft(Build(t, limit).bytes) == Some(Tft(t.flags, RelevantFilters(fs))) <==> LengthsMatch(fs)
  {
    hide Build, FiltersOctets, RelevantFilters, LengthsMatch;
    var fs := t.filters[..t.Count()];
    BuildsIff(t, limit);
    var bytes := [t.flags] + FiltersOctets(fs);
    assert bytes[1..] == FiltersOctets(fs);
    FiltersReadMatch(t.Count(), FiltersOctets(fs));
    RelevantMatch(fs);
    if LengthsMatch(fs) { FiltersRead(fs); }
  }
}

/** The configured tracking areas: what the loader makes of them, and what a receiver reads of the list built from that. */
module NasTaiConfig {
  import opened Wrappers
  import opened NasTaiList
  import opened NasTaiDecode

  /** A configured area; one without a network or without codes is ignored. */
  datatype Area = Area(plmn: Option<Plmn>, tacs: seq<Tac>)
  {
    predicate Single() {
      plmn.Some? && |tacs| == 1
    }

    predicate Several() {
      plmn.Some? && |tacs| > 1
    }
  }

  function Padding(n: nat): (tacs: seq<Tac>)
    ensures |tacs| == n
  {
    seq(n, i => 0)
  }

  const NO_PLMN: Plmn := [0, 0, 0]
  const UNUSED0 := Tai0(0, 0, NO_PLMN, Padding(MAX_NUM_OF_TAI))

  function EntryOf(a: Area): (e: Tai0)
    requires a.Several() && |a.tacs| <= MAX_NUM_OF_TAI
    ensures e.Shaped() && e.kind == 0 && e.num == |a.tacs|
  {
    Tai0(0, |a.tacs|, a.plmn.value, a.tacs + Padding(MAX_NUM_OF_TAI - |a.tacs|))
  }

  /** No area has more codes than its array. */
  predicate CodesFit(areas: seq<Area>) {
    forall i :: 0 <= i < |areas| ==> |areas[i].tacs| <= MAX_NUM_OF_TAI
  }

  /** What one area adds. */
  function EntryFor(a: Area): seq<Tai0>
    requires |a.tacs| <= MAX_NUM_OF_TAI
  {
    if a.Several() then [EntryOf(a)] else []
  }

  function TaiFor(a: Area): seq<Tai> {
    if a.Single() then [Tai(a.plmn.value, a.tacs[0])] else []
  }

  /** The areas with several codes, an entry each. */
  function Entries0(areas: seq<Area>): (es: seq<Tai0>)
    requires CodesFit(areas)
    ensures forall i :: 0 <= i < |es| ==> es[i].Shaped() && es[i].kind == 0 && 2 <= es[i].num <= MAX_NUM_OF_TAI
  {
    if areas == [] then [] else EntryFor(areas[0]) + Entries0(areas[1..])
  }

  /** The areas with one code, an identity each. */
  function Identities2(areas: seq<Area>): seq<Tai> {
    if areas == [] then [] else TaiFor(areas[0]) + Identities2(areas[1..])
  }

  /** The arrays have room for them. */
  predicate Loadable(areas: seq<Area>) {
    CodesFit(areas) && |Entries0(areas)| <= MAX_NUM_OF_TAI && |Identities2(areas)| <= MAX_NUM_OF_TAI
  }

  function Unused(n: nat): (es: seq<Tai0>)
    ensures |es| == n
  {
    seq(n, i => UNUSED0)
  }

  function NoTais(n: nat): (tais: seq<Tai>)
    ensures |tais| == n
  {
    seq(n, i => Tai(NO_PLMN, 0))
  }

  function List0(es: seq<Tai0>): (list: seq<Tai0>)
    requires |es| <= MAX_NUM_OF_TAI
    ensures |list| == MAX_NUM_OF_TAI
  {
    es + Unused(MAX_NUM_OF_TAI - |es|)
  }

  function List2(tais: seq<Tai>): Tai2
    requires |tais| <= MAX_NUM_OF_TAI
  {
    Tai2(if tais == [] then 0 else if |tais| == 1 then 1 else 2, |tais|, tais + NoTais(MAX_NUM_OF_TAI - |tais|))
  }

  lemma {:induction false} AddArea(areas: seq<Area>, a: Area)
    requires CodesFit(areas) && |a.tacs| <= MAX_NUM_OF_TAI
    ensures CodesFit(areas + [a])
    ensures Entries0(areas + [a]) == Entries0(areas) + EntryFor(a)
    ensures Identities2(areas + [a]) == Identities2(areas) + TaiFor(a)
  {
    hide EntryFor, TaiFor;
    if areas == [] {
      assert [a][1..] == [] && areas + [a] == [a];
      assert Entries0([]) == [] && Identities2([]) == [];
      assert EntryFor(a) + [] == EntryFor(a) == [] + EntryFor(a) && TaiFor(a) + [] == TaiFor(a) == [] + TaiFor(a);
    } else {
      AddArea(areas[1..], a);
      assert (areas + [a])[0] == areas[0] && (areas + [a])[1..] == areas[1..] + [a];
    }
  }

  lemma {:induction false} FewerAreas(areas: seq<Area>, i: nat)
    requires CodesFit(areas) && i <= |areas|
    ensures CodesFit(areas[..i])
    ensures |Entries0(areas[..i])| <= |Entries0(areas)| && |Identities2(areas[..i])| <= |Identities2(areas)|
  {
    if i > 0 {
      assert areas[..i][1..] == areas[1..][..i - 1];
      FewerAreas(areas[1..], i - 1);
    }
  }

  /** The loop of mme_context_parse_config over the areas; both arrays were zero. */
  method Load(areas: seq<Area>) returns (list0: seq<Tai0>, list2: Tai2)
    requires Loadable(areas)
    ensures list0 == List0(Entries0(areas)) && list2 == List2(Identities2(areas))
  {
    hide Unused, NoTais, Entries0, Identities2;
    list0 := Unused(MAX_NUM_OF_TAI);
    list2 := Tai2(0, 0, NoTais(MAX_NUM_OF_TAI));
    var num := 0;
    LoadStart(areas);
    for i := 0 to |areas|
      invariant CodesFit(areas[..i])
      invariant num == |Entries0(areas[..i])| <= MAX_NUM_OF_TAI && list0 == List0(Entries0(areas[..i]))
      invariant |Identities2(areas[..i])| <= MAX_NUM_OF_TAI && list2 == List2(Identities2(areas[..i]))
    {
      var a := areas[i];
      ghost var es, tais := Entries0(areas[..i]), Identities2(areas[..i]);
      assert areas[..i + 1] == areas[..i] + [a];
      AddArea(areas[..i], a);
      FewerAreas(areas, i + 1);
      if a.plmn.Some? && |a.tacs| > 0 {
        if |a.tacs| == 1 {
          assert tais + [Tai(a.plmn.value, a.tacs[0])] == Identities2(areas[..i + 1]);
          NextTai(tais, Tai(a.plmn.value, a.tacs[0]));
          list2 := list2.(tais := list2.tais[list2.num := Tai(a.plmn.value, a.tacs[0])]);
          list2 := list2.(num := list2.num + 1);
          list2 := list2.(kind := if list2.num > 1 then 2 else 1);
          assert es + [] == es;
        } else {
          NextEntry(es, EntryOf(a));
          list0 := list0[num := EntryOf(a)];
          num := num + 1;
          assert tais + [] == tais;
        }
      } else {
        assert es + [] == es && tais + [] == tais;
      }
    }
    assert areas[..|areas|] == areas;
  }

  lemma LoadStart(areas: seq<Area>)
    ensures areas[..0] == [] && Entries0([]) == [] && Identities2([]) == []
    ensures List0([]) == Unused(MAX_NUM_OF_TAI) && List2([]) == Tai2(0, 0, NoTais(MAX_NUM_OF_TAI))
  {
    assert [] + Unused(MAX_NUM_OF_TAI) == Unused(MAX_NUM_OF_TAI);
    assert [] + NoTais(MAX_NUM_OF_TAI) == NoTais(MAX_NUM_OF_TAI);
  }

  lemma NextEntry(es: seq<Tai0>, e: Tai0)
    requires |es| < MAX_NUM_OF_TAI
    ensures List0(es)[|es| := e] == List0(es + [e])
  {
  }

  lemma NextTai(tais: seq<Tai>, t: Tai)
    requires |tais| < MAX_NUM_OF_TAI
    ensures List2(tais).tais[|tais| := t] == List2(tais + [t]).tais
  {
  }

  // ---- what is built from a configuration

  lemma {:induction false} EntriesOfList(es: seq<Tai0>, n: nat)
    requires forall i :: 0 <= i < |es| ==> es[i].num > 0
    ensures Entries(es + Unused(n)) == es
  {
    if es == [] {
      assert es + Unused(n) == Unused(n);
    } else {
      assert (es + Unused(n))[1..] == es[1..] + Unused(n);
      EntriesOfList(es[1..], n);
    }
  }

  lemma ListsShaped(areas: seq<Area>)
    requires Loadable(areas)
    ensures AllShaped(List0(Entries0(areas))) && List2(Identities2(areas)).Shaped()
    ensures AllShaped(Entries0(areas)) && Entries(List0(Entries0(areas))) == Entries0(areas)
  {
    EntriesOfList(Entries0(areas), MAX_NUM_OF_TAI - |Entries0(areas)|);
  }

  /** Sixteen entries of several codes do not fit. */
  lemma SixteenOverflow(areas: seq<Area>)
    requires Loadable(areas)
    ensures |Entries0(areas)| == MAX_NUM_OF_TAI ==> Size(Entries0(areas)) > MAX_TAI_LIST_LEN
  {
    ShortestEntries(Entries0(areas));
    if |Entries0(areas)| == MAX_NUM_OF_TAI { assert Entries0(areas)[0].num >= 2; }
  }

  /** Whatever is configured, building never reads behind the array, and what it gives is read by a receiver as it was
      configured, up to where it was cut; it stops at an assertion only at an area with sixteen codes or at sixteen areas
      with one code. */
  lemma LoadedIsDelivered(areas: seq<Area>) returns (k: nat)
    requires Loadable(areas)
    ensures var es, tais := Entries0(areas), Identities2(areas);
      && AllShaped(List0(es)) && List2(tais).Shaped() && AllShaped(es) && k <= |es|
      && var end := Built(List0(es), List2(tais));
      && !end.ReadsPast?
      && (end.Fails? <==>
            || BadEntryReached(es, MAX_TAI_LIST_LEN)
            || (Size(es) <= MAX_TAI_LIST_LEN && |tais| == MAX_NUM_OF_TAI))
      && (end.Gives? ==>
            && LongestFit(es, k, MAX_TAI_LIST_LEN)
            && Decode(end.value) == Some(Identities(es[..k])
                 + if k == |es| && Size(es) + 1 + 5 * |tais| <= MAX_TAI_LIST_LEN then tais else []))
  {
    hide Built, Decode, BadEntryReached, Entries0, Identities2, Size, Identities, Entries;
    var es, tais := Entries0(areas), Identities2(areas);
    var list, last := List0(es), List2(tais);
    ListsShaped(areas);
    SixteenOverflow(areas);
    ReadsPastIff(list, last);
    assert list[0].num != 1 by { FirstIsNotSingle(areas); }
    AbortsIff(list, last);
    if Built(list, last).Gives? {
      k := DeliveredIff(list, last);
      if LastSent(list, last, k) { assert LastTais(last) == tais; }
    } else {
      k := 0;
    }
  }

  lemma FirstIsNotSingle(areas: seq<Area>)
    requires Loadable(areas)
    ensures List0(Entries0(areas))[0].num != 1
  {
  }

  /** If no area has sixteen codes, not sixteen have one code, and all of it fits the list, a receiver reads all that is
      configured. */
  lemma AllIsDelivered(areas: seq<Area>)
    requires Loadable(areas) && (forall i :: 0 <= i < |areas| ==> |areas[i].tacs| < MAX_NUM_OF_TAI)
    requires |Identities2(areas)| < MAX_NUM_OF_TAI
    requires Size(Entries0(areas)) + (if Identities2(areas) == [] then 0 else 1 + 5 * |Identities2(areas)|) <= MAX_TAI_LIST_LEN
    ensures var es, tais := Entries0(areas), Identities2(areas);
      && AllShaped(List0(es)) && List2(tais).Shaped() && AllShaped(es)
      && var end := Built(List0(es), List2(tais));
      && end.Gives? && |end.value| <= MAX_TAI_LIST_LEN
      && Decode(end.value) == Some(Identities(es) + tais)
  {
    hide Built, Decode, Entries0, Identities2, Size, Identities;
    var es, tais := Entries0(areas), Identities2(areas);
    var k := LoadedIsDelivered(areas);
    ListsShaped(areas);
    NoneIsBad(areas);
    assert Built(List0(es), List2(tais)).Gives?;
    if k < |es| { SizeGrows(es, k + 1); }
    assert es[..|es|] == es && Identities(es) + [] == Identities(es);
    var j := BuiltIsPrefix(List0(es), List2(tais));
  }

  lemma {:induction false} NoneIsBad(areas: seq<Area>)
    requires CodesFit(areas) && (forall i :: 0 <= i < |areas| ==> |areas[i].tacs| < MAX_NUM_OF_TAI)
    ensures forall i :: 0 <= i < |Entries0(areas)| ==> Entries0(areas)[i].Valid()
    ensures !BadEntryReached(Entries0(areas), MAX_TAI_LIST_LEN)
  {
    if areas != [] { NoneIsBad(areas[1..]); }
  }

  // ---- nothing configured is lost or made up

  function AreaTais(a: Area): seq<Tai> {
    if a.plmn.Some? then TaisOf(a.plmn.value, a.tacs) else []
  }

  /** All configured identities, in the order of the configuration. */
  function Configured(areas: seq<Area>): seq<Tai> {
    if areas == [] then [] else AreaTais(areas[0]) + Configured(areas[1..])
  }

  /** What goes to the entries and what goes to the last entry together are what is configured. */
  lemma {:induction false} AllIsLoaded(areas: seq<Area>)
    requires CodesFit(areas)
    ensures AllShaped(Entries0(areas))
    ensures multiset(Identities(Entries0(areas)) + Identities2(areas)) == multiset(Configured(areas))
  {
    if areas != [] {
      var a, es, tais := areas[0], Entries0(areas[1..]), Identities2(areas[1..]);
      var own, rest := AreaTais(a), Configured(areas[1..]);
      AllIsLoaded(areas[1..]);
      AreaIsLoaded(a, es);
      assert Configured(areas) == own + rest;
      hide *;
      Regrouped(Identities(EntryFor(a)), Identities(es), TaiFor(a), tais);
    }
  }

  lemma Regrouped(a: seq<Tai>, b: seq<Tai>, c: seq<Tai>, d: seq<Tai>)
    ensures multiset(a + b + (c + d)) == multiset(a + c) + multiset(b + d)
  {
  }

  /** An area is loaded whole, as an entry or as an identity. */
  lemma AreaIsLoaded(a: Area, es: seq<Tai0>)
    requires |a.tacs| <= MAX_NUM_OF_TAI && AllShaped(es)
    ensures AllShaped(EntryFor(a)) && AllShaped(EntryFor(a) + es)
    ensures Identities(EntryFor(a) + es) == Identities(EntryFor(a)) + Identities(es)
    ensures Identities(EntryFor(a)) + TaiFor(a) == AreaTais(a)
  {
    hide EntryOf, EntryTais;
    if a.Several() {
      EntryIsArea(a);
      assert ([EntryOf(a)] + es)[0] == EntryOf(a) && ([EntryOf(a)] + es)[1..] == es;
      assert [EntryOf(a)][1..] == [];
      assert Identities([EntryOf(a)]) == EntryTais(EntryOf(a)) + [] == EntryTais(EntryOf(a));
    } else {
      assert [] + es == es;
      OneOrNone(a);
    }
  }

  lemma OneOrNone(a: Area)
    requires !a.Several()
    ensures TaiFor(a) == AreaTais(a)
  {
    if a.Single() {
      assert TaisOf(a.plmn.value, a.tacs) == [Tai(a.plmn.value, a.tacs[0])] + TaisOf(a.plmn.value, a.tacs[1..]);
    } else {
      assert a.plmn.Some? ==> a.tacs == [];
    }
  }

  lemma EntryIsArea(a: Area)
    requires a.Several() && |a.tacs| <= MAX_NUM_OF_TAI
    ensures EntryTais(EntryOf(a)) == TaisOf(a.plmn.value, a.tacs)
  {
    assert EntryOf(a).tacs[..|a.tacs|] == a.tacs;
  }
}

/** The order of TLVs with different tags does not matter to the parser, and repeats arrive in order. */
module TlvOrder {
  import opened TlvModel
  import opened TlvRoundTrip

  /** Both fail, or both succeed with the same struct. */
  predicate SameOutcome(p: Parse<seq<Cell>>, q: Parse<seq<Cell>>) {
    if p.Parsed? then q == p else !q.Parsed?
  }

  function Two(cs: seq<Desc>, m: seq<Cell>, t: Tlv, u: Tlv, depth: nat): Parse<seq<Cell>>
    requires WellFormed(cs) && Extent(cs) <= |m|
  {
    var m1 :- ParseOne(cs, m, t, depth);
    ParseOne(cs, m1, u, depth)
  }

  /** Two TLVs of different fields commute. */
  lemma {:induction false} Commute(cs: seq<Desc>, m: seq<Cell>, t: Tlv, u: Tlv, depth: nat)
    requires WellFormed(cs) && Extent(cs) <= |m| && t.Tag() != u.Tag()
    ensures SameOutcome(Two(cs, m, t, u, depth), Two(cs, m, u, t, depth))
    decreases |cs|
  {
    if cs != [] {
      var n := HeadSize(cs);
      var a, b := m[..n], m[n..];
      assert m == a + b;
      if cs[0].Tag() == t.Tag() {
        HeadThenTail(cs, a, b, t, u, depth);
      } else if cs[0].Tag() == u.Tag() {
        HeadThenTail(cs, a, b, u, t, depth);
      } else if Repeats(cs) && (t.Tag() == (0, 0) || u.Tag() == (0, 0)) {
      } else {
        Commute(Rest(cs), b, t, u, depth);
        TailTwice(cs, a, b, t, u, depth);
        TailTwice(cs, a, b, u, t, depth);
      }
    }
  }

  /** One TLV for the first field, one for another: either order gives both their way. */
  lemma HeadThenTail(cs: seq<Desc>, a: seq<Cell>, b: seq<Cell>, t: Tlv, u: Tlv, depth: nat)
    requires WellFormed(cs) && cs != [] && |a| == HeadSize(cs) && Extent(Rest(cs)) <= |b|
    requires cs[0].Tag() == t.Tag() != u.Tag()
    ensures SameOutcome(Two(cs, a + b, t, u, depth), Two(cs, a + b, u, t, depth))
  {
    hide FillHead;
    assert (a + b)[..|a|] == a && (a + b)[|a|..] == b;
    var p := FillHead(cs, a, t, depth);
    if p.Parsed? {
      assert (p.value + b)[..|a|] == p.value && (p.value + b)[|a|..] == b;
    }
    if !(Repeats(cs) && u.Tag() == (0, 0)) {
      var q := ParseOne(Rest(cs), b, u, depth);
      if q.Parsed? {
        assert (a + q.value)[..|a|] == a && (a + q.value)[|a|..] == q.value;
      }
    }
  }

  lemma TailTwice(cs: seq<Desc>, a: seq<Cell>, b: seq<Cell>, t: Tlv, u: Tlv, depth: nat)
    requires WellFormed(cs) && cs != [] && |a| == HeadSize(cs) && Extent(Rest(cs)) <= |b|
    requires cs[0].Tag() != t.Tag() && cs[0].Tag() != u.Tag()
    requires Repeats(cs) ==> t.Tag() != (0, 0) && u.Tag() != (0, 0)
    ensures Two(cs, a + b, t, u, depth) == Beside(Two(Rest(cs), b, t, u, depth), a, [])
  {
    hide FillHead;
    assert (a + b)[..|a|] == a && (a + b)[|a|..] == b;
    var p := ParseOne(Rest(cs), b, t, depth);
    if p.Parsed? {
      assert (a + p.value)[..|a|] == a && (a + p.value)[|a|..] == p.value;
      var q := ParseOne(Rest(cs), p.value, u, depth);
      if q.Parsed? { assert a + q.value + [] == a + q.value; }
    }
  }

  // ---- permutations

  /** The TLVs with a given tag, in order. */
  function WithTag(ts: seq<Tlv>, tag: (nat, nat)): seq<Tlv> {
    if ts == [] then []
    else (if ts[0].Tag() == tag then [ts[0]] else []) + WithTag(ts[1..], tag)
  }

  /** The same TLVs, and those with one tag in the same order. */
  ghost predicate Reordered(ts: seq<Tlv>, us: seq<Tlv>) {
    forall tag :: WithTag(ts, tag) == WithTag(us, tag)
  }

  lemma {:induction false} WithTagAppend(a: seq<Tlv>, b: seq<Tlv>, tag: (nat, nat))
    ensures WithTag(a + b, tag) == WithTag(a, tag) + WithTag(b, tag)
  {
    if a == [] {
      assert a + b == b;
    } else {
      assert (a + b)[1..] == a[1..] + b;
      WithTagAppend(a[1..], b, tag);
    }
  }

  /** The first TLV with a tag splits a sequence. */
  lemma {:induction false} FirstWithTag(us: seq<Tlv>, t: Tlv) returns (k: nat)
    requires WithTag(us, t.Tag()) != [] && WithTag(us, t.Tag())[0] == t
    ensures k < |us| && us[k] == t && us == us[..k] + [t] + us[k + 1..]
    ensures forall i :: 0 <= i < k ==> us[i].Tag() != t.Tag()
  {
    if us[0].Tag() == t.Tag() {
      k := 0;
    } else {
      var j := FirstWithTag(us[1..], t);
      k := j + 1;
      assert forall i :: 0 < i < k ==> us[i] == us[1..][i - 1];
    }
  }

  /** A TLV moves to the front past TLVs of other fields. */
  lemma {:induction false} MoveToFront(cs: seq<Desc>, m: seq<Cell>, a: seq<Tlv>, t: Tlv, b: seq<Tlv>, depth: nat)
    requires WellFormed(cs) && Extent(cs) <= |m| && forall i :: 0 <= i < |a| ==> a[i].Tag() != t.Tag()
    ensures SameOutcome(ParseAll(cs, m, a + [t] + b, depth), ParseAll(cs, m, [t] + (a + b), depth))
    decreases |a|
  {
    if a == [] {
      assert a + [t] + b == [t] + (a + b);
    } else {
      var u, rest := a[0], a[1..];
      Commute(cs, m, u, t, depth);
      var p := ParseOne(cs, m, u, depth);
      assert (a + [t] + b)[1..] == rest + [t] + b;
      if p.Parsed? { MoveToFront(cs, p.value, rest, t, b, depth); }
      TwoFirst(cs, m, u, t, rest + b, depth);
      TwoFirst(cs, m, t, u, rest + b, depth);
      assert [t] + ([u] + (rest + b)) == [t] + (a + b);
    }
  }

  lemma TwoFirst(cs: seq<Desc>, m: seq<Cell>, t: Tlv, u: Tlv, b: seq<Tlv>, depth: nat)
    requires WellFormed(cs) && Extent(cs) <= |m|
    ensures ParseAll(cs, m, [t] + ([u] + b), depth) ==
      var p := Two(cs, m, t, u, depth);
      if p.Parsed? then ParseAll(cs, p.value, b, depth) else p
  {
    hide ParseOne, WellFormed;
    assert ([t] + ([u] + b))[1..] == [u] + b;
    assert ([u] + b)[1..] == b;
  }

  /** Parsing does not depend on the order of the TLVs, as long as repeats of a field keep theirs. */
  lemma {:induction false} OrderIndependent(cs: seq<Desc>, m: seq<Cell>, ts: seq<Tlv>, us: seq<Tlv>, depth: nat)
    requires WellFormed(cs) && Extent(cs) <= |m| && Reordered(ts, us)
    ensures SameOutcome(ParseAll(cs, m, ts, depth), ParseAll(cs, m, us, depth))
    decreases |ts|
  {
    if ts == [] {
      var tag := if us == [] then (0, 0) else us[0].Tag();
      assert WithTag(us, tag) == WithTag(ts, tag);
    } else {
      var t := ts[0];
      assert WithTag(us, t.Tag()) == WithTag(ts, t.Tag());
      var k := FirstWithTag(us, t);
      var a, b := us[..k], us[k + 1..];
      MoveToFront(cs, m, a, t, b, depth);
      RestReordered(ts, us, a, b);
      assert ([t] + (a + b))[1..] == a + b;
      var p := ParseOne(cs, m, t, depth);
      if p.Parsed? { OrderIndependent(cs, p.value, ts[1..], a + b, depth); }
    }
  }

  lemma {:induction false} NoneWithTag(a: seq<Tlv>, tag: (nat, nat))
    requires forall i :: 0 <= i < |a| ==> a[i].Tag() != tag
    ensures WithTag(a, tag) == []
  {
    if a != [] { NoneWithTag(a[1..], tag); }
  }

  lemma CancelFront<T>(first: seq<T>, x: seq<T>, y: seq<T>)
    requires first + x == first + y
    ensures x == y
  {
    assert (first + x)[|first|..] == x && (first + y)[|first|..] == y;
  }

  lemma RestWithTag(ts: seq<Tlv>, a: seq<Tlv>, b: seq<Tlv>, tag: (nat, nat))
    requires ts != [] && WithTag(ts, tag) == WithTag(a + [ts[0]] + b, tag)
    requires forall i :: 0 <= i < |a| ==> a[i].Tag() != ts[0].Tag()
    ensures WithTag(ts[1..], tag) == WithTag(a + b, tag)
  {
    hide WithTag;
    var first := if ts[0].Tag() == tag then [ts[0]] else [];
    assert a + [ts[0]] + b == a + ([ts[0]] + b);
    WithTagAppend(a, [ts[0]] + b, tag);
    WithTagAppend(a, b, tag);
    WithTagFront(ts[0], ts[1..], tag);
    WithTagFront(ts[0], b, tag);
    assert ts == [ts[0]] + ts[1..];
    if first != [] { NoneWithTag(a, tag); }
    WithoutFront(first, WithTag(a, tag), WithTag(ts[1..], tag), WithTag(b, tag));
  }

  lemma WithTagFront(t: Tlv, ts: seq<Tlv>, tag: (nat, nat))
    ensures WithTag([t] + ts, tag) == (if t.Tag() == tag then [t] else []) + WithTag(ts, tag)
  {
    assert ([t] + ts)[1..] == ts;
  }

  lemma WithoutFront<T>(first: seq<T>, a: seq<T>, x: seq<T>, y: seq<T>)
    requires first + x == a + (first + y) && (first == [] || a == [])
    ensures x == a + y
  {
    if first == [] {
      assert first + x == x && first + y == y;
    } else {
      assert a + (first + y) == first + y && a + y == y;
      CancelFront(first, x, y);
    }
  }

  lemma RestReordered(ts: seq<Tlv>, us: seq<Tlv>, a: seq<Tlv>, b: seq<Tlv>)
    requires ts != [] && Reordered(ts, us) && us == a + [ts[0]] + b
    requires forall i :: 0 <= i < |a| ==> a[i].Tag() != ts[0].Tag()
    ensures Reordered(ts[1..], a + b)
  {
    forall tag
      ensures WithTag(ts[1..], tag) == WithTag(a + b, tag)
    {
      assert WithTag(ts, tag) == WithTag(us, tag);
      RestWithTag(ts, a, b, tag);
    }
  }

  /** TLVs whose tags all differ may come in any order whatever. */
  lemma {:induction false} PermutationReordered(ts: seq<Tlv>, us: seq<Tlv>)
    requires multiset(ts) == multiset(us)
    requires forall i, j :: 0 <= i < j < |ts| ==> ts[i].Tag() != ts[j].Tag()
    ensures Reordered(ts, us)
  {
    forall tag
      ensures WithTag(ts, tag) == WithTag(us, tag)
    {
      CountWithTag(ts, tag);
      CountWithTag(us, tag);
      WithTagMultiset(ts, us, tag);
      AtMostOneWithTag(ts, tag);
      SingletonsEqual(WithTag(ts, tag), WithTag(us, tag));
    }
  }

  /** TLVs of different fields, shuffled, parse to the same struct. */
  lemma ShuffledParse(cs: seq<Desc>, m: seq<Cell>, ts: seq<Tlv>, us: seq<Tlv>)
    requires WellFormed(cs) && Extent(cs) <= |m| && multiset(ts) == multiset(us)
    requires forall i, j :: 0 <= i < j < |ts| ==> ts[i].Tag() != ts[j].Tag()
    ensures SameOutcome(ParseAll(cs, m, ts, 0), ParseAll(cs, m, us, 0))
  {
    PermutationReordered(ts, us);
    OrderIndependent(cs, m, ts, us, 0);
  }

  lemma {:induction false} CountWithTag(ts: seq<Tlv>, tag: (nat, nat))
    ensures forall t :: multiset(WithTag(ts, tag))[t] == if t.Tag() == tag then multiset(ts)[t] else 0
  {
    if ts != [] {
      CountWithTag(ts[1..], tag);
      assert ts == [ts[0]] + ts[1..];
    }
  }

  lemma WithTagMultiset(ts: seq<Tlv>, us: seq<Tlv>, tag: (nat, nat))
    requires multiset(ts) == multiset(us)
    requires forall t :: multiset(WithTag(ts, tag))[t] == if t.Tag() == tag then multiset(ts)[t] else 0
    requires forall t :: multiset(WithTag(us, tag))[t] == if t.Tag() == tag then multiset(us)[t] else 0
    ensures multiset(WithTag(ts, tag)) == multiset(WithTag(us, tag))
  {
    assert forall t :: multiset(WithTag(ts, tag))[t] == multiset(WithTag(us, tag))[t];
  }

  lemma {:induction false} AtMostOneWithTag(ts: seq<Tlv>, tag: (nat, nat))
    requires forall i, j :: 0 <= i < j < |ts| ==> ts[i].Tag() != ts[j].Tag()
    ensures |WithTag(ts, tag)| <= 1
  {
    if ts != [] {
      AtMostOneWithTag(ts[1..], tag);
      if ts[0].Tag() == tag { NoneWithTag(ts[1..], tag); }
    }
  }

  lemma SingletonsEqual<T>(a: seq<T>, b: seq<T>)
    requires |a| <= 1 && multiset(a) == multiset(b)
    ensures a == b
  {
    assert |multiset(a)| == |a| && |multiset(b)| == |b|;
    if |a| == 1 {
      assert a == [a[0]] && b == [b[0]];
      assert b[0] in multiset(b);
    }
  }

  // ---- repeats

  /** The slots of a repeated field after `xs` arrived: filled from the first on, in order. */
  function Arrived(d: Desc, k: nat, xs: seq<Tlv>, depth: nat): Parse<seq<Cell>>
    requires FieldOk(d)
    decreases k
  {
    if xs == [] then Parsed(Zeros(Span(d.VSize(), k)))
    else if k == 0 then Fatal
    else
      var s :- FillOne(d, Zeros(d.VSize()), xs[0], depth);
      var rest :- Arrived(d, k - 1, xs[1..], depth);
      Parsed(s + rest)
  }

  /** The occurrences of a repeated field fill its first slots in arrival order; one too many is fatal. */
  lemma {:induction false} RepeatsFillInOrder(d: Desc, k: nat, xs: seq<Tlv>, depth: nat)
    requires FieldOk(d)
    ensures SameOutcome(FillSlots(d, k, Zeros(Span(d.VSize(), k)), xs, depth), Arrived(d, k, xs, depth))
    ensures |xs| > k ==> !Arrived(d, k, xs, depth).Parsed?
    decreases k
  {
    if xs != [] && k > 0 {
      hide FillOne;
      var p := FillOne(d, Zeros(d.VSize()), xs[0], depth);
      assert xs == [xs[0]] + xs[1..];
      RepeatsFillInOrder(d, k - 1, xs[1..], depth);
      if p.Parsed? {
        hide FillSlots;
        FirstOccurrence(d, k, xs[0], xs[1..], depth);
        var q := FillSlots(d, k - 1, Zeros(Span(d.VSize(), k - 1)), xs[1..], depth);
        if q.Parsed? { assert p.value + q.value + [] == p.value + q.value; }
      } else {
        FirstRefused(d, k, xs, depth);
      }
    }
  }

  lemma FirstRefused(d: Desc, k: nat, xs: seq<Tlv>, depth: nat)
    requires FieldOk(d) && k > 0 && xs != [] && !FillOne(d, Zeros(d.VSize()), xs[0], depth).Parsed?
    ensures !FillSlots(d, k, Zeros(Span(d.VSize(), k)), xs, depth).Parsed?
  {
    hide FillOne;
    var v := d.VSize();
    var z := Zeros(Span(v, k));
    assert z[..v] == Zeros(v) && z[0].presence == 0;
  }
}

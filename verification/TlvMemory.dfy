/** Facts about memory and sizes that the TLV printer and parser share. */
module TlvMemory {
  import opened TlvModel

  /** `all` with `w` in place from `o` on. */
  function Splice(all: seq<Cell>, o: nat, w: seq<Cell>): (r: seq<Cell>)
    requires o + |w| <= |all|
    ensures |r| == |all|
  {
    all[..o] + w + all[o + |w|..]
  }

  lemma SpliceTwice(all: seq<Cell>, o: nat, v: seq<Cell>, w: seq<Cell>)
    requires o + |v| + |w| <= |all|
    ensures Splice(Splice(all, o, v), o + |v|, w) == Splice(all, o, v + w)
    ensures Splice(all, o, v)[o + |v|..o + |v| + |w|] == all[o + |v|..o + |v| + |w|]
  {
  }

  lemma SpliceSame(all: seq<Cell>, o: nat, n: nat)
    requires o + n <= |all|
    ensures Splice(all, o, all[o..o + n]) == all
    ensures Splice(all, o, []) == all
  {
  }

  lemma SpliceCell(all: seq<Cell>, o: nat, v: nat, c: Cell)
    requires 0 < v && o + v <= |all|
    ensures all[o := c] == Splice(all, o, [c] + all[o..o + v][1..])
  {
  }

  lemma SpliceEnd(all: seq<Cell>, o: nat, v: nat, n: nat, w: seq<Cell>)
    requires n <= v && o + v <= |all| && |w| == v - n
    ensures Splice(all, o + n, w) == Splice(all, o, all[o..o + v][..n] + w)
  {
  }

  lemma Slices(r: seq<Cell>, n: nat, v: nat)
    requires n + v <= |r|
    ensures r[n..][..v] == r[n..n + v] && r[n..][v..] == r[n + v..]
  {
  }

  lemma SliceOfSlice(r: seq<Cell>, o: nat, n: nat, a: nat, b: nat)
    requires a <= b <= n && o + n <= |r|
    ensures r[o..o + n][a..b] == r[o + a..o + b]
    ensures r[o..o + n][a..] == r[o + a..o + n]
  {
    var s, t := r[o..o + n][a..b], r[o + a..o + b];
    assert forall k :: 0 <= k < |s| ==> s[k] == t[k];
  }

  lemma Reassociate(a: seq<Cell>, b: seq<Cell>, c: seq<Cell>)
    ensures a + (b + c) == a + b + c
  {
  }

  lemma SpliceShort(all: seq<Cell>, o: nat, n: nat, done: seq<Cell>)
    requires o + n <= |all| && |done| <= n
    ensures Splice(all, o, done) == Splice(all, o, done + all[o..o + n][|done|..])
  {
  }

  lemma SpanStep(v: nat, k: nat)
    requires k > 0
    ensures Span(v, k) == v + Span(v, k - 1) && Span(v, k) >= v
  {
  }

  lemma {:induction false} SpanIsProduct(v: nat, k: nat)
    ensures Span(v, k) == v * k
  {
    if k > 0 {
      SpanIsProduct(v, k - 1);
      assert v * k == v + v * (k - 1);
    }
  }

  lemma FieldRoom(d: Desc)
    requires FieldOk(d)
    ensures d.VSize() > 0
  {
  }
}

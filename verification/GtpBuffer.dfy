/** Writing an information element into a buffer, with a running size. */
module GtpBuffer {
  import opened Bytes

  /** The buffer starts with what was written, and goes on as it was. */
  predicate Starts(now: seq<Byte>, written: seq<Byte>, before: seq<Byte>) {
    |written| <= |before| && now == written + before[|written|..]
  }

  /** An assertion on the size, then a copy. */
  method Put(data: array<Byte>, size: nat, bytes: seq<Byte>, ghost before: seq<Byte>, ghost written: seq<Byte>)
    returns (ok: bool, next: nat)
    requires Starts(data[..], written, before) && |written| == size
    modifies data
    ensures ok <==> size + |bytes| <= data.Length
    ensures if ok then Starts(data[..], written + bytes, before) && next == |written + bytes| else next == size
  {
    ok, next := size + |bytes| <= data.Length, size;
    if ok {
      forall i | 0 <= i < |bytes| { data[size + i] := bytes[i]; }
      next := size + |bytes|;
    }
  }

  lemma StartsEmpty(before: seq<Byte>)
    ensures Starts(before, [], before)
  {
  }

  lemma StartsWithin(now: seq<Byte>, written: seq<Byte>, before: seq<Byte>)
    requires Starts(now, written, before)
    ensures |written| <= |now|
  {
  }
}

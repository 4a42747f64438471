/** The persisted proof of an accepted turn: one client id searched for in a file that is read in chunks. */
module AppPickup {
  import opened Prelude

  lemma MatchInside(needle: Bytes, read: Bytes, chunk: Bytes, i: nat)
    requires i + |needle| <= |read| && needle <= (read + chunk)[i..]
    ensures Occurs(needle, read)
  {
    assert forall k :: 0 <= k < |needle| ==> (read + chunk)[i..][k] == read[i..][k];
    assert needle <= read[i..];
  }

  /** Of what has been read only its end can still be part of a match. */
  lemma MatchNeedsTheEnd(needle: Bytes, read: Bytes, chunk: Bytes)
    requires needle != [] && !Occurs(needle, read)
    ensures Occurs(needle, read + chunk) <==> Occurs(needle, Last(read, |needle| - 1) + chunk)
  {
    var carry := Last(read, |needle| - 1);
    var dropped := |read| - |carry|;
    assert read == read[..dropped] + carry;
    assert (read + chunk)[dropped..] == carry + chunk;
    if Occurs(needle, carry + chunk) {
      var i :| 0 <= i <= |carry + chunk| && needle <= (carry + chunk)[i..];
      assert (read + chunk)[dropped + i..] == (carry + chunk)[i..];
    }
    if Occurs(needle, read + chunk) {
      var i :| 0 <= i <= |read + chunk| && needle <= (read + chunk)[i..];
      if i + |needle| <= |read| {
        MatchInside(needle, read, chunk, i);
      }
      assert (carry + chunk)[i - dropped..] == (read + chunk)[i..];
    }
  }

  lemma EndOfConcat(read: Bytes, chunk: Bytes, n: nat)
    ensures Last(Last(read, n) + chunk, n) == Last(read + chunk, n)
  {
  }

  /** The first `i` chunks hold no match, and `carry` is what a match may still need of them. */
  ghost predicate Searched(needle: Bytes, chunks: seq<Bytes>, i: nat, carry: Bytes)
    requires needle != [] && i <= |chunks|
  {
    !Occurs(needle, Concat(chunks[..i])) && carry == Last(Concat(chunks[..i]), |needle| - 1)
  }

  lemma SearchOne(needle: Bytes, chunks: seq<Bytes>, i: nat, carry: Bytes)
    requires needle != [] && i < |chunks| && Searched(needle, chunks, i, carry)
    ensures Occurs(needle, carry + chunks[i]) <==> Occurs(needle, Concat(chunks[..i + 1]))
    ensures Last(carry + chunks[i], |needle| - 1) == Last(Concat(chunks[..i + 1]), |needle| - 1)
  {
    var read := Concat(chunks[..i]);
    assert chunks[..i + 1][..i] == chunks[..i];
    assert Concat(chunks[..i + 1]) == read + chunks[i];
    MatchNeedsTheEnd(needle, read, chunks[i]);
    EndOfConcat(read, chunks[i], |needle| - 1);
  }

  /** Searching chunk by chunk finds exactly what searching the whole file would find. */
  method FileContains(chunks: seq<Bytes>, needle: Bytes) returns (found: bool)
    requires needle != []
    ensures found <==> Occurs(needle, Concat(chunks))
  {
    var carry: Bytes := [];
    for i := 0 to |chunks|
      invariant Searched(needle, chunks, i, carry)
    {
      SearchOne(needle, chunks, i, carry);
      var data := if carry == [] then chunks[i] else carry + chunks[i];
      assert data == carry + chunks[i];
      if Occurs(needle, data) {
        MatchStays(needle, chunks, i + 1);
        return true;
      }
      carry := Last(data, |needle| - 1);
    }
    assert chunks[..|chunks|] == chunks;
    return false;
  }

  lemma {:induction false} MatchStays(needle: Bytes, chunks: seq<Bytes>, i: nat)
    requires i <= |chunks| && Occurs(needle, Concat(chunks[..i]))
    ensures Occurs(needle, Concat(chunks))
    decreases |chunks| - i
  {
    if i == |chunks| {
      assert chunks[..i] == chunks;
    } else {
      var before, after := Concat(chunks[..i]), Concat(chunks[..i + 1]);
      assert chunks[..i + 1][..i] == chunks[..i];
      var at :| 0 <= at <= |before| && needle <= before[at..];
      assert after == before + chunks[i];
      assert needle <= after[at..];
      MatchStays(needle, chunks, i + 1);
    }
  }
}

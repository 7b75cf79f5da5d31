/** The text that a request prints for the range it holds (range_request_compressed). */
module Results {
  import opened Text
  import opened Semantics
  import opened RangeSort
  import opened RangeCompress
  import opened Ranges

  /** Canonical output: the printed text depends on the set of names alone. */
  lemma CanonicalText(a: seq<string>, b: seq<string>)
    requires Distinct(a) && Distinct(b) && Elements(a) == Elements(b)
    ensures Compressed(Nonempty(Sort(a))) == Compressed(Nonempty(Sort(b)))
  {
    hide Compressed, Sort, Nonempty;
    assert forall x :: x in a <==> x in Elements(a);
    assert forall x :: x in b <==> x in Elements(b);
    SortCanonical(a, b);
  }

  /** do_range_compress on a range: whatever history, buckets and table size its set has, the
      text is that of any list of its names. */
  method RequestCompressed(r: Range, ghost v: RangeVal) returns (text: string)
    requires IsRange(r, v)
    ensures forall names :: Distinct(names) && Elements(names) == v.names ==> text == Compressed(Nonempty(Sort(names)))
  {
    hide IsRange, Compressed, Sort, Nonempty;
    RangeSize(r, v);
    var members := NamesOf(r.nodes);
    DistinctIfCounted(members);
    text := DoRangeCompress(members);
    forall names | Distinct(names) && Elements(names) == v.names
      ensures text == Compressed(Nonempty(Sort(names)))
    {
      CanonicalText(members, names);
    }
  }
}

/** Cutting a batch into spans of bounded size (internal/span.go). */
module Spanning {
  datatype Span = Span(start: nat, count: nat)

  ghost predicate Adjacent(spans: seq<Span>, k: nat)
    requires k + 1 < |spans|
  {
    spans[k + 1].start == spans[k].start + spans[k].count
  }

  // The spans lie end to end from 0 to total, none empty, none larger than size.
  ghost predicate Tiling(spans: seq<Span>, total: nat, size: nat) {
    && (forall k :: 0 <= k < |spans| ==> 0 < spans[k].count <= size)
    && (forall k :: 0 <= k < |spans| ==> spans[k].start + spans[k].count <= total)
    && (forall k :: 0 <= k < |spans| - 1 ==> Adjacent(spans, k))
    && (if spans == [] then total == 0
        else spans[0].start == 0 && spans[|spans| - 1].start + spans[|spans| - 1].count == total)
  }

  // Only the last span may be shorter than the others.
  method Spans(total: nat, spanSize: nat) returns (spans: seq<Span>)
    requires spanSize > 0
    ensures Tiling(spans, total, spanSize)
    ensures forall k :: 0 <= k < |spans| - 1 ==> spans[k].count == spanSize
  {
    spans := [];
    var i := 0;
    while i < total
      invariant i <= total
      invariant Tiling(spans, i, spanSize)
      invariant i < total ==> forall k :: 0 <= k < |spans| ==> spans[k].count == spanSize
      invariant forall k :: 0 <= k < |spans| - 1 ==> spans[k].count == spanSize
    {
      var c := if i + spanSize <= total then spanSize else total - i;
      ghost var before := spans;
      spans := spans + [Span(i, c)];
      i := i + c;
      assert forall k :: 0 <= k < |before| - 1 ==> Adjacent(before, k) ==> Adjacent(spans, k);
    }
  }

  ghost predicate Covers(s: Span, i: int) {
    s.start <= i < s.start + s.count
  }

  lemma {:induction false} Ordered(spans: seq<Span>, total: nat, size: nat, j: nat, k: nat)
    requires Tiling(spans, total, size) && j < k < |spans|
    ensures spans[j].start + spans[j].count <= spans[k].start
  {
    assert Adjacent(spans, k - 1);
    if j + 1 < k { Ordered(spans, total, size, j, k - 1); }
  }

  // Every position of the batch lies in exactly one span.
  lemma {:induction false} CoveredOnce(spans: seq<Span>, total: nat, size: nat, i: nat) returns (k: nat)
    requires Tiling(spans, total, size) && i < total
    ensures k < |spans| && Covers(spans[k], i)
    ensures forall j :: 0 <= j < |spans| && Covers(spans[j], i) ==> j == k
  {
    k := 0;
    while !Covers(spans[k], i)
      invariant k < |spans| && spans[k].start <= i
      decreases |spans| - k
    {
      assert k + 1 < |spans| ==> Adjacent(spans, k);
      k := k + 1;
    }
    forall j | 0 <= j < |spans| && j != k ensures !Covers(spans[j], i) {
      if j < k { Ordered(spans, total, size, j, k); } else { Ordered(spans, total, size, k, j); }
    }
  }
}

/** List helpers the pipeline uses over and over: membership as a set,
    absence of repeats, and the "append if not seen" deduplication. */
module Seqs {

  /** The set of entries of a list. */
  function Elems<T>(xs: seq<T>): set<T> {
    set i | 0 <= i < |xs| :: xs[i]
  }

  predicate NoDup<T(==)>(xs: seq<T>) {
    forall i, j :: 0 <= i < j < |xs| ==> xs[i] != xs[j]
  }

  lemma ElemsAppend<T>(xs: seq<T>, x: T)
    ensures Elems(xs + [x]) == Elems(xs) + {x}
  {
    var ys := xs + [x];
    forall y | y in Elems(ys) ensures y in Elems(xs) + {x} {
      var i :| 0 <= i < |ys| && ys[i] == y;
      if i < |xs| { assert xs[i] == y; }
    }
    forall y | y in Elems(xs) + {x} ensures y in Elems(ys) {
      if y == x { assert ys[|xs|] == y; }
      else { var i :| 0 <= i < |xs| && xs[i] == y; assert ys[i] == y; }
    }
  }

  lemma ElemsIn<T>(xs: seq<T>, x: T)
    ensures x in Elems(xs) <==> x in xs
  {
    if x in xs {
      var i :| 0 <= i < |xs| && xs[i] == x;
    }
  }

  /** A list has at least as many entries as distinct values. */
  lemma {:induction false} ElemsSize<T>(xs: seq<T>)
    ensures |Elems(xs)| <= |xs|
    decreases |xs|
  {
    if |xs| > 0 {
      var p := xs[..|xs| - 1];
      ElemsSize(p);
      ElemsAppend(p, xs[|xs| - 1]);
      assert xs == p + [xs[|xs| - 1]];
    }
  }

  /** The loop `for x in xs: if x not in seen: seen.add(x); out.append(x)`. */
  function Dedup<T(==)>(xs: seq<T>): (r: seq<T>)
    ensures NoDup(r)
    ensures forall i :: 0 <= i < |r| ==> r[i] in xs
    ensures forall i :: 0 <= i < |xs| ==> xs[i] in r
    ensures |r| <= |xs|
  {
    if |xs| == 0 then []
    else
      var p := Dedup(xs[..|xs| - 1]);
      var x := xs[|xs| - 1];
      assert xs == xs[..|xs| - 1] + [x];
      if x in p then p else p + [x]
  }

  /** The position of the first occurrence of `x`. */
  function FirstIndex<T(==)>(xs: seq<T>, x: T): (i: nat)
    requires x in xs
    ensures i < |xs| && xs[i] == x && x !in xs[..i]
  {
    if xs[0] == x then 0 else 1 + FirstIndex(xs[1..], x)
  }

  lemma {:induction false} FirstIndexPrefix<T>(xs: seq<T>, n: nat, x: T)
    requires n <= |xs| && x in xs[..n]
    ensures FirstIndex(xs, x) == FirstIndex(xs[..n], x)
  {
    if xs[0] != x {
      assert xs[1..][..n - 1] == xs[..n][1..];
      FirstIndexPrefix(xs[1..], n - 1, x);
    }
  }

  /** The deduplicated list keeps the order of first occurrence. */
  lemma {:induction false} DedupOrder<T>(xs: seq<T>)
    ensures forall i, j :: 0 <= i < j < |Dedup(xs)| ==>
              FirstIndex(xs, Dedup(xs)[i]) < FirstIndex(xs, Dedup(xs)[j])
  {
    if |xs| > 0 {
      var q := xs[..|xs| - 1];
      var p := Dedup(q);
      var x := xs[|xs| - 1];
      DedupOrder(q);
      assert xs == q + [x];
      forall y | y in p ensures FirstIndex(xs, y) == FirstIndex(q, y) {
        FirstIndexPrefix(xs, |xs| - 1, y);
      }
      if x !in p {
        assert FirstIndex(xs, x) == |xs| - 1;
        OrderSnoc(xs, p, x);
      }
    }
  }

  /** Appending an element whose first index comes after every element's
      keeps the order of first indices. */
  lemma OrderSnoc<T>(xs: seq<T>, p: seq<T>, x: T)
    requires x in xs && forall y :: y in p ==> y in xs && FirstIndex(xs, y) < FirstIndex(xs, x)
    requires forall i, j :: 0 <= i < j < |p| ==> FirstIndex(xs, p[i]) < FirstIndex(xs, p[j])
    ensures var r := p + [x];
            forall i, j :: 0 <= i < j < |r| ==> FirstIndex(xs, r[i]) < FirstIndex(xs, r[j])
  {
    var r := p + [x];
    forall i, j | 0 <= i < j < |r|
      ensures FirstIndex(xs, r[i]) < FirstIndex(xs, r[j])
    {
      assert r[i] == p[i];
      if j < |p| {
        assert r[j] == p[j];
      }
    }
  }

  /** The deduplicated list starts with the first element. */
  lemma {:induction false} DedupHead<T>(xs: seq<T>)
    ensures |xs| > 0 ==> |Dedup(xs)| > 0 && Dedup(xs)[0] == xs[0]
  {
    if |xs| > 1 {
      var q := xs[..|xs| - 1];
      DedupHead(q);
      assert q[0] == xs[0];
    }
  }

  /** A list without repeats is its own deduplication. */
  lemma {:induction false} DedupNoDup<T>(xs: seq<T>)
    requires NoDup(xs)
    ensures Dedup(xs) == xs
  {
    if |xs| > 0 {
      var q := xs[..|xs| - 1];
      assert NoDup(q);
      DedupNoDup(q);
      assert xs[|xs| - 1] !in q;
      assert xs == q + [xs[|xs| - 1]];
    }
  }

  lemma DedupIdempotent<T>(xs: seq<T>)
    ensures Dedup(Dedup(xs)) == Dedup(xs)
  {
    DedupNoDup(Dedup(xs));
  }
}

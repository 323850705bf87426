/** Timestamped items: their order, and the stable sort by timestamp. */
module Chronology {

  datatype Timed<+T> = Timed(ts: real, item: T)

  /** Puts `p` after every element that is not later than it. */
  function InsertLast<T>(sorted: seq<Timed<T>>, p: Timed<T>): seq<Timed<T>> {
    var n := |sorted|;
    if n == 0 || sorted[n - 1].ts <= p.ts then sorted + [p]
    else InsertLast(sorted[..n - 1], p) + [sorted[n - 1]]
  }

  /** `list.sort` with the timestamp as key, which Python guarantees to be stable. */
  function StableSort<T>(ps: seq<Timed<T>>): (r: seq<Timed<T>>)
    ensures |r| == |ps|
  {
    if ps == [] then []
    else
      var n := |ps|;
      InsertLength(StableSort(ps[..n - 1]), ps[n - 1]);
      InsertLast(StableSort(ps[..n - 1]), ps[n - 1])
  }

  lemma {:induction false} InsertLength<T>(sorted: seq<Timed<T>>, p: Timed<T>)
    ensures |InsertLast(sorted, p)| == |sorted| + 1
  {
    var n := |sorted|;
    if n > 0 && sorted[n - 1].ts > p.ts {
      InsertLength(sorted[..n - 1], p);
    }
  }

  predicate InOrder<T>(ps: seq<Timed<T>>) {
    forall i, j | 0 <= i <= j < |ps| :: ps[i].ts <= ps[j].ts
  }

  /** The elements stamped exactly `t`, in order. */
  function AtTime<T>(ps: seq<Timed<T>>, t: real): seq<Timed<T>> {
    if ps == [] then []
    else AtTime(ps[..|ps| - 1], t) + (if ps[|ps| - 1].ts == t then [ps[|ps| - 1]] else [])
  }

  lemma {:induction false} InsertInOrder<T>(sorted: seq<Timed<T>>, p: Timed<T>)
    requires InOrder(sorted)
    ensures InOrder(InsertLast(sorted, p))
    ensures forall q | q in InsertLast(sorted, p) :: q in sorted || q == p
  {
    var n := |sorted|;
    if n > 0 && sorted[n - 1].ts > p.ts {
      InsertInOrder(sorted[..n - 1], p);
      var front := InsertLast(sorted[..n - 1], p);
      forall q | q in front ensures q.ts <= sorted[n - 1].ts {
        if q in sorted[..n - 1] {
          assert q in sorted;
        }
      }
    }
  }

  lemma {:induction false} InsertAtTime<T>(sorted: seq<Timed<T>>, p: Timed<T>, t: real)
    requires InOrder(sorted)
    ensures AtTime(InsertLast(sorted, p), t) == AtTime(sorted + [p], t)
  {
    var n := |sorted|;
    assert (sorted + [p])[..n] == sorted;
    if n > 0 && sorted[n - 1].ts > p.ts {
      var front, last := sorted[..n - 1], sorted[n - 1];
      InsertAtTime(front, p, t);
      assert (InsertLast(front, p) + [last])[..|InsertLast(front, p)|] == InsertLast(front, p);
      assert (front + [p])[..n - 1] == front;
    }
  }

  /** The sort is chronological and keeps, for every timestamp, the items with that
      timestamp in their original order; these two facts determine it. */
  lemma {:induction false} StableSortSpec<T>(ps: seq<Timed<T>>, t: real)
    ensures InOrder(StableSort(ps))
    ensures AtTime(StableSort(ps), t) == AtTime(ps, t)
  {
    if ps != [] {
      var front, last := ps[..|ps| - 1], ps[|ps| - 1];
      StableSortSpec(front, t);
      InsertInOrder(StableSort(front), last);
      InsertAtTime(StableSort(front), last, t);
      assert (StableSort(front) + [last])[..|front|] == StableSort(front);
    }
  }

  /** Sorting looks at timestamps only. */
  function Map<T, U>(f: T -> U, ps: seq<Timed<T>>): (r: seq<Timed<U>>)
    ensures |r| == |ps| && forall k | 0 <= k < |ps| :: r[k] == Timed(ps[k].ts, f(ps[k].item))
  {
    seq(|ps|, k requires 0 <= k < |ps| => Timed(ps[k].ts, f(ps[k].item)))
  }

  lemma {:induction false} InsertMap<T, U>(f: T -> U, sorted: seq<Timed<T>>, p: Timed<T>)
    ensures Map(f, InsertLast(sorted, p)) == InsertLast(Map(f, sorted), Timed(p.ts, f(p.item)))
  {
    var n := |sorted|;
    if n > 0 && sorted[n - 1].ts > p.ts {
      InsertMap(f, sorted[..n - 1], p);
      assert Map(f, sorted)[..n - 1] == Map(f, sorted[..n - 1]);
    }
  }

  lemma {:induction false} SortMap<T, U>(f: T -> U, ps: seq<Timed<T>>)
    ensures Map(f, StableSort(ps)) == StableSort(Map(f, ps))
  {
    if ps != [] {
      var n := |ps|;
      SortMap(f, ps[..n - 1]);
      InsertMap(f, StableSort(ps[..n - 1]), ps[n - 1]);
      assert Map(f, ps)[..n - 1] == Map(f, ps[..n - 1]);
    }
  }

  lemma {:induction false} SortKeeps<T>(ps: seq<Timed<T>>, p: Timed<T>)
    ensures p in StableSort(ps) <==> p in ps
  {
    if ps != [] {
      var n := |ps|;
      SortKeeps(ps[..n - 1], p);
      InsertKeeps(StableSort(ps[..n - 1]), ps[n - 1], p);
      assert ps == ps[..n - 1] + [ps[n - 1]];
    }
  }

  lemma {:induction false} InsertKeeps<T>(sorted: seq<Timed<T>>, q: Timed<T>, p: Timed<T>)
    ensures p in InsertLast(sorted, q) <==> p in sorted || p == q
  {
    var n := |sorted|;
    if n > 0 && sorted[n - 1].ts > q.ts {
      InsertKeeps(sorted[..n - 1], q, p);
      assert sorted == sorted[..n - 1] + [sorted[n - 1]];
    }
  }

  lemma {:induction false} InsertItems<T>(sorted: seq<Timed<T>>, p: Timed<T>)
    ensures multiset(InsertLast(sorted, p)) == multiset(sorted) + multiset{p}
  {
    var n := |sorted|;
    if n > 0 && sorted[n - 1].ts > p.ts {
      InsertItems(sorted[..n - 1], p);
      assert sorted == sorted[..n - 1] + [sorted[n - 1]];
    }
  }

  /** Sorting neither drops nor adds. */
  lemma {:induction false} SortItems<T>(ps: seq<Timed<T>>)
    ensures multiset(StableSort(ps)) == multiset(ps)
  {
    if ps != [] {
      var n := |ps|;
      SortItems(ps[..n - 1]);
      InsertItems(StableSort(ps[..n - 1]), ps[n - 1]);
      assert ps == ps[..n - 1] + [ps[n - 1]];
    }
  }
}

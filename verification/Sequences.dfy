/** Induction principles over sequences. */
module Sequences {

  /** What holds of the empty sequence and survives one more element holds of every sequence. */
  lemma {:induction false} BySnoc<T>(holds: seq<T> -> bool, s: seq<T>)
    requires holds([])
    requires forall a, x | holds(a) :: holds(a + [x])
    ensures holds(s)
  {
    if s != [] {
      BySnoc(holds, s[..|s| - 1]);
      assert s == s[..|s| - 1] + [s[|s| - 1]];
    }
  }

  lemma {:induction false} Without<T>(s: seq<T>, i: nat)
    requires i < |s|
    ensures multiset(s[..i] + s[i + 1..]) == multiset(s) - multiset{s[i]}
  {
    assert s == s[..i] + [s[i]] + s[i + 1..];
  }

  lemma {:induction false} PlaceOf<T>(s: seq<T>, x: T) returns (i: nat)
    requires x in multiset(s)
    ensures i < |s| && s[i] == x
  {
    i :| 0 <= i < |s| && s[i] == x;
  }

  lemma {:induction false} SameSize<T>(a: seq<T>, b: seq<T>)
    requires multiset(a) == multiset(b)
    ensures |a| == |b|
  {
    assert |a| == |multiset(a)| == |multiset(b)| == |b|;
  }

  /** The last element of one of two reorderings stands somewhere in the other. */
  lemma {:induction false} TakeLast<T>(a: seq<T>, b: seq<T>)
    returns (front: seq<T>, last: T, left: seq<T>, right: seq<T>)
    requires multiset(a) == multiset(b) && a != []
    ensures a == front + [last] && b == left + [last] + right
    ensures multiset(front) == multiset(left + right)
  {
    var n := |a| - 1;
    front, last := a[..n], a[n];
    assert last in multiset(a);
    var i := PlaceOf(b, last);
    left, right := b[..i], b[i + 1..];
    Without(a, n);
    Without(b, i);
    assert front + a[n + 1..] == front;
  }

  /** What relates two empty sequences, and still relates two sequences after an element is put
      at the end of one and anywhere into the other, relates all reorderings. */
  lemma {:induction false} ByReordering<T>(relates: (seq<T>, seq<T>) -> bool, a: seq<T>, b: seq<T>)
    requires relates([], [])
    requires forall s, x, left, right | relates(s, left + right) :: relates(s + [x], left + [x] + right)
    requires multiset(a) == multiset(b)
    ensures relates(a, b)
    decreases |a|
  {
    SameSize(a, b);
    if a != [] {
      var front, last, left, right := TakeLast(a, b);
      ByReordering(relates, front, left + right);
    }
  }
}

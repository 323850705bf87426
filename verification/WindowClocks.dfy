/** The window store when clocks run back: exactly what a query returns after calls with any
    clocks, in particular one that is behind a clock already used on its key. */
module WindowClocks {
  import opened Chronology
  import opened WindowStore
  import Rounding

  /** Call `k` of the log records an event under `key`. */
  predicate Arrives<P>(log: seq<Op<P>>, key: Key, k: nat) {
    k < |log| && log[k].key == key && log[k].Add?
  }

  function Arrival<P>(log: seq<Op<P>>, key: Key, k: nat): Event<P>
    requires Arrives(log, key, k)
  {
    Timed(log[k].ts, log[k].payload)
  }

  function Window(key: Key, now: real): Span {
    Span(false, Cutoff(key, now), now)
  }

  // ---------- The sorted set ----------

  /** No clock used on the key has put `t` at or below the cutoff. */
  predicate Outlasts<P>(t: real, calls: seq<Op<P>>, key: Key) {
    forall j | 0 <= j < |calls| && calls[j].key == key :: t > Cutoff(key, calls[j].Clock())
  }

  /** The event that arrives with call `k` outlasts every call from there on, and is above `c`. */
  predicate KeptAt<P>(log: seq<Op<P>>, key: Key, c: real, k: nat) {
    Arrives(log, key, k) && log[k].ts > c && Outlasts(log[k].ts, log[k..], key)
  }

  /** The events so kept, in order of arrival. */
  function Kept<P>(log: seq<Op<P>>, key: Key, c: real): seq<Event<P>> {
    if log == [] then []
    else (if KeptAt(log, key, c, 0) then [Arrival(log, key, 0)] else []) + Kept(log[1..], key, c)
  }

  lemma {:induction false} RemoveMax<P>(es: seq<Event<P>>, c: real, d: real)
    ensures RemoveScores(RemoveScores(es, c), d) == RemoveScores(es, Rounding.Max(c, d))
  {
    if es != [] {
      var head := if es[0].ts > c then [es[0]] else [];
      RemoveSplit(head, RemoveScores(es[1..], c), d);
      RemoveMax(es[1..], c, d);
    }
  }

  /** What one more call keeps of an event. */
  lemma {:induction false} KeptAtStep<P>(log: seq<Op<P>>, op: Op<P>, key: Key, c: real)
    requires log != []
    ensures KeptAt(log + [op], key, c, 0)
       <==> KeptAt(log, key, if op.key == key then Rounding.Max(c, Cutoff(key, op.Clock())) else c, 0)
  {
    var all := log + [op];
    assert all[0..] == all && log[0..] == log;
    assert all[|log|] == op && forall j | 0 <= j < |log| :: all[j] == log[j];
  }

  lemma {:induction false} KeptStep<P>(log: seq<Op<P>>, op: Op<P>, key: Key, c: real)
    ensures var d := if op.key == key then Rounding.Max(c, Cutoff(key, op.Clock())) else c;
      Kept(log + [op], key, c) == Kept(log, key, d) + RemoveScores(History([op], key), d)
  {
    HistoryOfOne(op, key);
    if log == [] {
      assert log + [op] == [op] && [op][0..] == [op] && [op][1..] == [];
    } else {
      assert (log + [op])[1..] == log[1..] + [op];
      KeptAtStep(log, op, key, c);
      KeptStep(log[1..], op, key, c);
    }
  }

  lemma {:induction false} ScoresAreKept<P>(log: seq<Op<P>>, key: Key, c: real)
    ensures RemoveScores(Scores(log, key), c) == Kept(log, key, c)
  {
    if log != [] {
      var front, op := log[..|log| - 1], log[|log| - 1];
      var d := if op.key == key then Rounding.Max(c, Cutoff(key, op.Clock())) else c;
      assert log == front + [op];
      ScoresAreKept(front, key, d);
      KeptStep(front, op, key, c);
      HistoryOfOne(op, key);
      if op.key == key {
        var more := History([op], key);
        assert Scores(front, key) + [] == Scores(front, key);
        RemoveMax(Scores(front, key) + more, Cutoff(key, op.Clock()), c);
        RemoveSplit(Scores(front, key), more, d);
      }
    }
  }

  /** A query of the sorted set returns, after calls with any clocks, exactly the events above
      its own cutoff and above the cutoff of every call on the key since they arrived. */
  lemma {:induction false} ScoresReadIsKept<P>(log: seq<Op<P>>, key: Key, now: real)
    ensures ScoresRead(log, key, now) == Kept(log, key, Cutoff(key, now))
  {
    ScoresAreKept(log, key, Cutoff(key, now));
  }

  // ---------- The sorted set against the documented window ----------

  /** The event that arrives with call `k` lies in the documented window. */
  predicate WantedAt<P>(log: seq<Op<P>>, key: Key, now: real, k: nat) {
    Arrives(log, key, k) && Window(key, now).Has(log[k].ts)
  }

  lemma {:induction false} LiveCons<P>(log: seq<Op<P>>, key: Key, now: real)
    requires log != []
    ensures Live(log, key, now)
         == (if WantedAt(log, key, now, 0) then [Arrival(log, key, 0)] else []) + Live(log[1..], key, now)
  {
    assert log == [log[0]] + log[1..];
    HistoryAppend([log[0]], log[1..], key);
    HistoryOfOne(log[0], key);
    WithinSplit(History([log[0]], key), History(log[1..], key), Window(key, now));
  }

  lemma {:induction false} Later<P>(log: seq<Op<P>>, key: Key, now: real, k: nat)
    requires 0 < k < |log|
    ensures var c := Cutoff(key, now);
      && (KeptAt(log, key, c, k) <==> KeptAt(log[1..], key, c, k - 1))
      && (WantedAt(log, key, now, k) <==> WantedAt(log[1..], key, now, k - 1))
  {
    assert log[k..] == log[1..][k - 1..];
  }

  /** The sorted set still holds exactly the events of the window. */
  predicate KeepsWindow<P>(log: seq<Op<P>>, key: Key, now: real) {
    forall k | 0 <= k < |log| :: KeptAt(log, key, Cutoff(key, now), k) <==> WantedAt(log, key, now, k)
  }

  lemma {:induction false} KeepsWindowReadsLive<P>(log: seq<Op<P>>, key: Key, now: real)
    requires KeepsWindow(log, key, now)
    ensures Kept(log, key, Cutoff(key, now)) == Live(log, key, now)
  {
    if log != [] {
      LiveCons(log, key, now);
      forall k | 0 <= k < |log[1..]|
        ensures KeptAt(log[1..], key, Cutoff(key, now), k) <==> WantedAt(log[1..], key, now, k)
      {
        Later(log, key, now, k + 1);
      }
      KeepsWindowReadsLive(log[1..], key, now);
    }
  }

  lemma {:induction false} KeptIsIn<P>(log: seq<Op<P>>, key: Key, now: real, k: nat)
    requires KeptAt(log, key, Cutoff(key, now), k)
    ensures Arrival(log, key, k) in Kept(log, key, Cutoff(key, now))
  {
    if k > 0 {
      Later(log, key, now, k);
      KeptIsIn(log[1..], key, now, k - 1);
    }
  }

  /** Of an event in the window no more copies are kept than recorded, and fewer if one is lost. */
  lemma {:induction false} NoMoreKept<P>(log: seq<Op<P>>, key: Key, now: real, e: Event<P>)
    requires Window(key, now).Has(e.ts)
    ensures multiset(Kept(log, key, Cutoff(key, now)))[e] <= multiset(Live(log, key, now))[e]
  {
    if log != [] {
      LiveCons(log, key, now);
      NoMoreKept(log[1..], key, now, e);
    }
  }

  lemma {:induction false} CountStep<P>(head: seq<Event<P>>, a: seq<Event<P>>, head': seq<Event<P>>, b: seq<Event<P>>,
                                        e: Event<P>)
    requires multiset(a)[e] < multiset(b)[e] || (multiset(a)[e] <= multiset(b)[e] && head == [] && head' == [e])
    requires multiset(head)[e] <= multiset(head')[e]
    ensures multiset(head + a)[e] < multiset(head' + b)[e]
  {
  }

  lemma {:induction false} FewerKept<P>(log: seq<Op<P>>, key: Key, now: real, k: nat)
    requires WantedAt(log, key, now, k) && !KeptAt(log, key, Cutoff(key, now), k)
    ensures var e := Arrival(log, key, k);
      multiset(Kept(log, key, Cutoff(key, now)))[e] < multiset(Live(log, key, now))[e]
  {
    var e, c := Arrival(log, key, k), Cutoff(key, now);
    var head := if KeptAt(log, key, c, 0) then [Arrival(log, key, 0)] else [];
    var head' := if WantedAt(log, key, now, 0) then [Arrival(log, key, 0)] else [];
    LiveCons(log, key, now);
    if k == 0 {
      NoMoreKept(log[1..], key, now, e);
    } else {
      Later(log, key, now, k);
      FewerKept(log[1..], key, now, k - 1);
    }
    CountStep(head, Kept(log[1..], key, c), head', Live(log[1..], key, now), e);
  }

  /** After calls with any clocks, a query of the sorted set returns the documented window if
      and only if, for every event ever recorded under the key, it lies in that window exactly
      when it is above the query's cutoff and outlasted every call since it arrived. */
  lemma {:induction false} ScoresExactly<P>(log: seq<Op<P>>, key: Key, now: real)
    ensures multiset(ScoresRead(log, key, now)) == multiset(Live(log, key, now)) <==> KeepsWindow(log, key, now)
  {
    ScoresReadIsKept(log, key, now);
    if KeepsWindow(log, key, now) {
      KeepsWindowReadsLive(log, key, now);
    } else {
      var k :| 0 <= k < |log| && (KeptAt(log, key, Cutoff(key, now), k) != WantedAt(log, key, now, k));
      var e := Arrival(log, key, k);
      if WantedAt(log, key, now, k) {
        FewerKept(log, key, now, k);
      } else {
        KeptIsIn(log, key, now, k);
        WithinBounds(History(log, key), Window(key, now), e);
        assert e in multiset(Kept(log, key, Cutoff(key, now)));
      }
    }
  }

  // ---------- The deque ----------

  ghost predicate Suffix<P>(d: seq<Event<P>>, h: seq<Event<P>>) {
    |d| <= |h| && d == h[|h| - |d|..]
  }

  lemma {:induction false} SuffixAppend<P>(d: seq<Event<P>>, h: seq<Event<P>>, more: seq<Event<P>>)
    requires Suffix(d, h)
    ensures Suffix(d + more, h + more)
  {
  }

  lemma {:induction false} SuffixPop<P>(d: seq<Event<P>>, h: seq<Event<P>>, c: real)
    requires Suffix(d, h)
    ensures Suffix(PopExpired(d, c), h)
  {
    PopSpec(d, c);
  }

  /** After calls with any clocks, the deque is a suffix of the history. */
  lemma {:induction false} DequeIsAlwaysSuffix<P>(log: seq<Op<P>>, key: Key)
    ensures Suffix(Deque(log, key), History(log, key))
  {
    if log != [] {
      var front, op := log[..|log| - 1], log[|log| - 1];
      DequeIsAlwaysSuffix(front, key);
      if op.key == key {
        var d, h := Deque(front, key), History(front, key);
        var more := if op.Add? then [Timed(op.ts, op.payload)] else [];
        assert d + [] == d && h + [] == h;
        SuffixAppend(d, h, more);
        SuffixPop(d + more, h + more, Cutoff(key, op.Clock()));
      }
    }
  }

  /** What the deque still holds once a query at `now` has pruned it. */
  function Held<P>(log: seq<Op<P>>, key: Key, now: real): seq<Event<P>> {
    PopExpired(Deque(log, key), Cutoff(key, now))
  }

  lemma {:induction false} HeldIsSuffix<P>(log: seq<Op<P>>, key: Key, now: real)
    ensures Suffix(Held(log, key, now), History(log, key))
  {
    DequeIsAlwaysSuffix(log, key);
    SuffixPop(Deque(log, key), History(log, key), Cutoff(key, now));
  }

  /** What it has lost by then: the rest of the history. */
  function Popped<P>(log: seq<Op<P>>, key: Key, now: real): seq<Event<P>> {
    HeldIsSuffix(log, key, now);
    History(log, key)[..|History(log, key)| - |Held(log, key, now)|]
  }

  predicate NoneIn<P>(es: seq<Event<P>>, span: Span) {
    forall i | 0 <= i < |es| :: !span.Has(es[i].ts)
  }

  predicate NoneBefore<P>(es: seq<Event<P>>, t: real) {
    forall i | 0 <= i < |es| :: es[i].ts >= t
  }

  lemma {:induction false} WithinNone<P>(es: seq<Event<P>>, span: Span)
    ensures Within(es, span) == [] <==> NoneIn(es, span)
  {
    if es != [] {
      WithinNone(es[1..], span);
      assert NoneIn(es, span) <==> !span.Has(es[0].ts) && NoneIn(es[1..], span) by {
        assert forall i | 0 < i < |es| :: es[i] == es[1..][i - 1];
      }
    }
  }

  lemma {:induction false} SuffixReadExactly<P>(popped: seq<Event<P>>, held: seq<Event<P>>, lo: real, hi: real)
    requires lo <= hi
    ensures var span := Span(false, lo, hi);
      UpTo(held, hi) == Within(popped + held, span) <==> NoneIn(popped, span) && NoneBefore(held, lo)
  {
    var span := Span(false, lo, hi);
    WithinSplit(popped, held, span);
    WithinNone(popped, span);
    if NoneBefore(held, lo) {
      AllFresh(held, lo, hi);
    } else {
      var i :| 0 <= i < |held| && held[i].ts < lo;
      UpToBounds(held, hi, held[i]);
      WithinBounds(popped + held, span, held[i]);
    }
  }

  lemma {:induction false} HeldReadExactly<P>(h: seq<Event<P>>, held: seq<Event<P>>, lo: real, hi: real)
    requires lo <= hi && Suffix(held, h)
    ensures var span := Span(false, lo, hi);
      UpTo(held, hi) == Within(h, span) <==> NoneIn(h[..|h| - |held|], span) && NoneBefore(held, lo)
  {
    SuffixReadExactly(h[..|h| - |held|], held, lo, hi);
    assert h == h[..|h| - |held|] + held;
  }

  /** After calls with any clocks, a query of the deque returns the documented window, in order
      of arrival, if and only if it has popped no event of the window and holds none that is
      older than the window. */
  lemma {:induction false} DequeExactly<P>(log: seq<Op<P>>, key: Key, now: real)
    ensures DequeRead(log, key, now) == Live(log, key, now)
       <==> NoneIn(Popped(log, key, now), Window(key, now)) && NoneBefore(Held(log, key, now), Cutoff(key, now))
  {
    HeldIsSuffix(log, key, now);
    HeldReadExactly(History(log, key), Held(log, key, now), Cutoff(key, now), now);
  }

  lemma {:induction false} PopKeeps<P>(dq: seq<Event<P>>, c: real, e: Event<P>)
    requires e in dq && e.ts >= c
    ensures e in PopExpired(dq, c)
  {
    if dq[0].ts < c {
      assert dq == [dq[0]] + dq[1..];
      PopKeeps(dq[1..], c, e);
    }
  }

  /** No clock used on the key from call `k` on is more than the window ahead of its event. */
  predicate NeverExpires<P>(log: seq<Op<P>>, key: Key, k: nat)
    requires Arrives(log, key, k)
  {
    forall j | k <= j < |log| && log[j].key == key :: Cutoff(key, log[j].Clock()) <= log[k].ts
  }

  lemma {:induction false} DequeHolds<P>(log: seq<Op<P>>, key: Key, k: nat)
    requires Arrives(log, key, k) && NeverExpires(log, key, k)
    ensures Arrival(log, key, k) in Deque(log, key)
  {
    var n, e := |log| - 1, Arrival(log, key, k);
    var front, op := log[..n], log[n];
    if k < n {
      DequeHolds(front, key, k);
    }
    if op.key == key {
      PopKeeps(if op.Add? then Deque(front, key) + [Timed(op.ts, op.payload)] else Deque(front, key),
               Cutoff(key, op.Clock()), e);
    }
  }

  /** An event of the window that no clock since its arrival is more than the window ahead of is
      always returned by the deque, whatever other clocks were used. */
  lemma {:induction false} UnexpiredIsReturned<P>(log: seq<Op<P>>, key: Key, now: real, k: nat)
    requires WantedAt(log, key, now, k) && NeverExpires(log, key, k)
    ensures Arrival(log, key, k) in DequeRead(log, key, now)
  {
    var e := Arrival(log, key, k);
    DequeHolds(log, key, k);
    PopKeeps(Deque(log, key), Cutoff(key, now), e);
    UpToBounds(Held(log, key, now), now, e);
  }

  // ---------- Both can miss ----------

  /** Behind a clock that is more than the window ahead, both backends have lost an event that
      the documented window contains. */
  lemma {:induction false} BehindQueryMisses<P>(key: Key, now: real, p: P, ahead: real, q: P)
    requires Cutoff(key, ahead) > now
    ensures var log := [Add(key, now, p)] + [Add(key, ahead, q)];
      && Timed(now, p) in Live(log, key, now)
      && DequeRead(log, key, now) == []
      && Timed(now, p) !in ScoresRead(log, key, now)
  {
    var log := [Add(key, now, p)] + [Add(key, ahead, q)];
    HistoryAppend([Add(key, now, p)], [Add(key, ahead, q)], key);
    HistoryOfOne(Add(key, now, p), key);
    HistoryOfOne(Add(key, ahead, q), key);
    WithinBounds(History(log, key), Window(key, now), Timed(now, p));
    OnlyLaterHeld(log, key, now, p, ahead, q);
    OnlyLaterKept(log, key, now, p, ahead, q);
  }

  lemma {:induction false} OnlyLaterHeld<P>(log: seq<Op<P>>, key: Key, now: real, p: P, ahead: real, q: P)
    requires Cutoff(key, ahead) > now && log == [Add(key, now, p)] + [Add(key, ahead, q)]
    ensures DequeRead(log, key, now) == []
  {
    assert log[..1] == [Add(key, now, p)] && log[..1][..0] == [];
    FrontKeepsAll([Timed(now, p)], Cutoff(key, now));
    assert Deque(log[..1], key) == [Timed(now, p)];
    var both := [Timed(now, p)] + [Timed(ahead, q)];
    assert Deque(log, key) == PopExpired(both, Cutoff(key, ahead));
    assert both[1..] == [Timed(ahead, q)];
    FrontKeepsAll([Timed(ahead, q)], Cutoff(key, ahead));
    FrontKeepsAll([Timed(ahead, q)], Cutoff(key, now));
    assert [Timed(ahead, q)][1..] == [];
    assert UpTo([Timed(ahead, q)], now) == [];
  }

  lemma {:induction false} OnlyLaterKept<P>(log: seq<Op<P>>, key: Key, now: real, p: P, ahead: real, q: P)
    requires Cutoff(key, ahead) > now && log == [Add(key, now, p)] + [Add(key, ahead, q)]
    ensures Timed(now, p) !in ScoresRead(log, key, now)
  {
    var c := Cutoff(key, now);
    ScoresReadIsKept(log, key, now);
    assert log[0..] == log && log[1..] == [Add(key, ahead, q)] && log[1..][1..] == [];
    assert log[1].Clock() == ahead && !Outlasts(now, log, key);
    assert Kept(log, key, c) == [] + Kept(log[1..], key, c);
    assert Kept(log[1..], key, c) == (if KeptAt(log[1..], key, c, 0) then [Arrival(log[1..], key, 0)] else []) + [];
  }
}

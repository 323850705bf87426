/** The sliding-window store: the pruned deque of the in-memory backend, the pruned
    sorted set of the Redis backend, and both against the full history of a key. */
module WindowStore {
  import opened Chronology
  import opened Sequences
  import Decimal

  /** A window length with an entity name, which the program joins to one storage key. */
  datatype Key = Key(window: nat, name: string)

  function KeyText(key: Key): string {
    "threatlens:win:" + (Decimal.Text(key.window) + ":" + key.name)
  }

  /** Different windows or names never share a storage key. */
  lemma {:induction false} KeyTextsAreDistinct(a: Key, b: Key)
    ensures KeyText(a) == KeyText(b) <==> a == b
  {
    if KeyText(a) == KeyText(b) {
      var n := |"threatlens:win:"|;
      assert KeyText(a)[n..] == Decimal.Text(a.window) + ":" + a.name;
      assert KeyText(b)[n..] == Decimal.Text(b.window) + ":" + b.name;
      Decimal.NumberThenText(a.window, a.name, b.window, b.name);
    }
  }

  /** A recorded payload with its timestamp. */
  type Event<P> = Timed<P>

  /** One call on the store, with the clock it prunes by. */
  datatype Op<+P> =
    | Add(key: Key, ts: real, payload: P)
    | Get(key: Key, now: real)
    | Prune(key: Key, now: real)
  {
    function Clock(): real {
      if Add? then ts else now
    }
  }

  function Cutoff(key: Key, clock: real): real {
    clock - key.window as real
  }

  // ---------- The two backends as functions of the calls made so far ----------

  /** Pops from the left while the front is older than the cutoff. */
  function PopExpired<P>(dq: seq<Event<P>>, cutoff: real): seq<Event<P>> {
    if dq != [] && dq[0].ts < cutoff then PopExpired(dq[1..], cutoff) else dq
  }

  /** What popping leaves: the suffix from the first event the cutoff spares. */
  lemma {:induction false} PopSpec<P>(dq: seq<Event<P>>, cutoff: real)
    ensures var r := PopExpired(dq, cutoff);
      && |r| <= |dq| && r == dq[|dq| - |r|..]
      && (forall i | 0 <= i < |dq| - |r| :: dq[i].ts < cutoff)
      && (r != [] ==> r[0].ts >= cutoff)
  {
    if dq != [] && dq[0].ts < cutoff {
      PopSpec(dq[1..], cutoff);
    }
  }

  /** Removes every score up to and including the cutoff. */
  function RemoveScores<P>(es: seq<Event<P>>, cutoff: real): seq<Event<P>> {
    if es == [] then []
    else (if es[0].ts > cutoff then [es[0]] else []) + RemoveScores(es[1..], cutoff)
  }

  function DequeStep<P>(dq: seq<Event<P>>, op: Op<P>): seq<Event<P>> {
    PopExpired(if op.Add? then dq + [Timed(op.ts, op.payload)] else dq, Cutoff(op.key, op.Clock()))
  }

  function ScoreStep<P>(zs: seq<Event<P>>, op: Op<P>): seq<Event<P>> {
    RemoveScores(if op.Add? then zs + [Timed(op.ts, op.payload)] else zs, Cutoff(op.key, op.Clock()))
  }

  /** The deque of `key` after the calls of `log`. Calls on other keys leave it alone. */
  function Deque<P>(log: seq<Op<P>>, key: Key): seq<Event<P>> {
    if log == [] then []
    else
      var before, op := Deque(log[..|log| - 1], key), log[|log| - 1];
      if op.key != key then before else DequeStep(before, op)
  }

  /** The sorted set of `key`, in insertion order. */
  function Scores<P>(log: seq<Op<P>>, key: Key): seq<Event<P>> {
    if log == [] then []
    else
      var before, op := Scores(log[..|log| - 1], key), log[|log| - 1];
      if op.key != key then before else ScoreStep(before, op)
  }

  /** Events stamped at most `now`. */
  function UpTo<P>(es: seq<Event<P>>, now: real): seq<Event<P>> {
    if es == [] then []
    else (if es[0].ts <= now then [es[0]] else []) + UpTo(es[1..], now)
  }

  /** What a query at `now` reads from the deque, and from the sorted set. */
  function DequeRead<P>(log: seq<Op<P>>, key: Key, now: real): seq<Event<P>> {
    UpTo(PopExpired(Deque(log, key), Cutoff(key, now)), now)
  }

  function ScoresRead<P>(log: seq<Op<P>>, key: Key, now: real): seq<Event<P>> {
    RemoveScores(Scores(log, key), Cutoff(key, now))
  }

  // ---------- Specification: the full history ----------

  /** Every event ever recorded under `key`, in arrival order. */
  function History<P>(log: seq<Op<P>>, key: Key): seq<Event<P>> {
    if log == [] then []
    else
      var before, op := History(log[..|log| - 1], key), log[|log| - 1];
      if op.key == key && op.Add? then before + [Timed(op.ts, op.payload)] else before
  }

  /** An interval up to and including `hi`, from `lo` on or, when open, from just after it. */
  datatype Span = Span(open: bool, lo: real, hi: real) {
    predicate Has(t: real) {
      (if open then lo < t else lo <= t) && t <= hi
    }
  }

  /** The events of `es` inside the interval, in order. */
  function Within<P>(es: seq<Event<P>>, span: Span): seq<Event<P>> {
    if es == [] then []
    else (if span.Has(es[0].ts) then [es[0]] else []) + Within(es[1..], span)
  }

  /** The documented answer to a query: the events from `now - window` through `now`. */
  function Live<P>(log: seq<Op<P>>, key: Key, now: real): seq<Event<P>> {
    Within(History(log, key), Span(false, Cutoff(key, now), now))
  }

  /** `now` is not behind any clock already used on the key. */
  predicate NotBehind<P>(log: seq<Op<P>>, key: Key, now: real) {
    forall i | 0 <= i < |log| && log[i].key == key :: log[i].Clock() <= now
  }

  /** Some event arrived after a fresher one and has expired while that one has not. */
  predicate LateExpired<P>(es: seq<Event<P>>, cutoff: real) {
    exists i, j | 0 <= i < j < |es| :: es[i].ts >= cutoff && es[j].ts < cutoff
  }

  /** The calls made on one key. */
  function OnKey<P>(log: seq<Op<P>>, key: Key): seq<Op<P>> {
    if log == [] then []
    else
      var before := OnKey(log[..|log| - 1], key);
      if log[|log| - 1].key == key then before + [log[|log| - 1]] else before
  }

  /** Calls on other (window, name) pairs never change what a key holds. */
  lemma {:induction false} OtherKeysDoNotMatter<P>(log: seq<Op<P>>, key: Key)
    ensures Deque(log, key) == Deque(OnKey(log, key), key)
    ensures Scores(log, key) == Scores(OnKey(log, key), key)
    ensures History(log, key) == History(OnKey(log, key), key)
    ensures forall i | 0 <= i < |OnKey(log, key)| :: OnKey(log, key)[i].key == key
  {
    if log != [] {
      var before, op := OnKey(log[..|log| - 1], key), log[|log| - 1];
      OtherKeysDoNotMatter(log[..|log| - 1], key);
      assert (before + [op])[..|before|] == before;
    }
  }

  lemma {:induction false} HistoryAppend<P>(a: seq<Op<P>>, b: seq<Op<P>>, key: Key)
    ensures History(a + b, key) == History(a, key) + History(b, key)
  {
    if b == [] {
      assert a + b == a;
    } else {
      HistoryAppend(a, b[..|b| - 1], key);
      assert (a + b)[..|a + b| - 1] == a + b[..|b| - 1];
    }
  }

  lemma {:induction false} HistoryOfOne<P>(op: Op<P>, key: Key)
    ensures History([op], key) == if op.key == key && op.Add? then [Timed(op.ts, op.payload)] else []
  {
    assert [op][..0] == [];
  }

  // ---------- The deque against the history ----------

  /** `dq` is what remains of `h` after losing, from the front, events older than `cutoff`. */
  ghost predicate RemainsOf<P>(dq: seq<Event<P>>, h: seq<Event<P>>, cutoff: real) {
    && |dq| <= |h|
    && dq == h[|h| - |dq|..]
    && forall i | 0 <= i < |h| - |dq| :: h[i].ts < cutoff
  }

  lemma {:induction false} RemainsAppend<P>(dq: seq<Event<P>>, h: seq<Event<P>>, cutoff: real, e: Event<P>)
    requires RemainsOf(dq, h, cutoff)
    ensures RemainsOf(dq + [e], h + [e], cutoff)
  {
    assert (h + [e])[|h| - |dq|..] == dq + [e];
  }

  lemma {:induction false} RemainsPop<P>(dq: seq<Event<P>>, h: seq<Event<P>>, cutoff: real, c: real)
    requires RemainsOf(dq, h, cutoff) && c <= cutoff
    ensures RemainsOf(PopExpired(dq, c), h, cutoff)
  {
    var r, n := PopExpired(dq, c), |h| - |dq|;
    PopSpec(dq, c);
    assert h[|h| - |r|..] == dq[|dq| - |r|..];
    forall i | 0 <= i < |h| - |r| ensures h[i].ts < cutoff {
      if i >= n {
        assert h[i] == dq[i - n];
      }
    }
  }

  /** The deque is a suffix of the history, and what it lost has expired for `now`. */
  lemma {:induction false} DequeIsSuffix<P>(log: seq<Op<P>>, key: Key, now: real)
    requires NotBehind(log, key, now)
    ensures RemainsOf(Deque(log, key), History(log, key), Cutoff(key, now))
  {
    if log != [] {
      var front, op := log[..|log| - 1], log[|log| - 1];
      DequeIsSuffix(front, key, now);
      if op.key == key {
        assert op.Clock() <= now;
        var dq, h, c := Deque(front, key), History(front, key), Cutoff(key, now);
        if op.Add? {
          RemainsAppend(dq, h, c, Timed(op.ts, op.payload));
          RemainsPop(dq + [Timed(op.ts, op.payload)], h + [Timed(op.ts, op.payload)], c, Cutoff(key, op.Clock()));
        } else {
          RemainsPop(dq, h, c, Cutoff(key, op.Clock()));
        }
      }
    }
  }

  lemma {:induction false} WithinSplit<P>(a: seq<Event<P>>, b: seq<Event<P>>, span: Span)
    ensures Within(a + b, span) == Within(a, span) + Within(b, span)
  {
    if a == [] {
      assert a + b == b;
    } else {
      assert (a + b)[1..] == a[1..] + b;
      WithinSplit(a[1..], b, span);
    }
  }

  lemma {:induction false} NothingWithin<P>(es: seq<Event<P>>, span: Span)
    requires forall i | 0 <= i < |es| :: es[i].ts < span.lo
    ensures Within(es, span) == []
  {
    if es != [] {
      NothingWithin(es[1..], span);
    }
  }

  lemma {:induction false} WithinBelowUpTo<P>(es: seq<Event<P>>, lo: real, hi: real)
    ensures multiset(Within(es, Span(false, lo, hi))) <= multiset(UpTo(es, hi))
    ensures |Within(es, Span(false, lo, hi))| <= |UpTo(es, hi)|
  {
    if es != [] {
      WithinBelowUpTo(es[1..], lo, hi);
    }
  }

  lemma {:induction false} AllFresh<P>(es: seq<Event<P>>, lo: real, hi: real)
    requires forall i | 0 <= i < |es| :: es[i].ts >= lo
    ensures UpTo(es, hi) == Within(es, Span(false, lo, hi))
  {
    if es != [] {
      AllFresh(es[1..], lo, hi);
    }
  }

  lemma {:induction false} OneStale<P>(es: seq<Event<P>>, lo: real, hi: real, k: nat)
    requires lo <= hi && k < |es| && es[k].ts < lo
    ensures |UpTo(es, hi)| > |Within(es, Span(false, lo, hi))|
  {
    if k == 0 {
      WithinBelowUpTo(es[1..], lo, hi);
    } else {
      OneStale(es[1..], lo, hi, k - 1);
    }
  }

  /** A query reads the suffix that starts at the first unexpired event it still holds;
      everything before that suffix has expired. */
  lemma {:induction false} ReadIsSuffix<P>(log: seq<Op<P>>, key: Key, now: real) returns (n: nat)
    requires NotBehind(log, key, now)
    ensures var h, c := History(log, key), Cutoff(key, now);
      && n <= |h|
      && (forall i | 0 <= i < n :: h[i].ts < c)
      && (n < |h| ==> h[n].ts >= c)
      && DequeRead(log, key, now) == UpTo(h[n..], now)
      && Live(log, key, now) == Within(h[n..], Span(false, c, now))
  {
    var h, c := History(log, key), Cutoff(key, now);
    DequeIsSuffix(log, key, now);
    RemainsPop(Deque(log, key), h, c, c);
    var r := PopExpired(Deque(log, key), c);
    PopSpec(Deque(log, key), c);
    n := |h| - |r|;
    assert r != [] ==> r[0] == h[n];
    WithinSkips(h, n, Span(false, c, now));
  }

  lemma {:induction false} WithinSkips<P>(h: seq<Event<P>>, n: nat, span: Span)
    requires n <= |h| && forall i | 0 <= i < n :: h[i].ts < span.lo
    ensures Within(h, span) == Within(h[n..], span)
  {
    assert h[..n] + h[n..] == h;
    WithinSplit(h[..n], h[n..], span);
    NothingWithin(h[..n], span);
  }

  /** For any arrival order, a query not behind an earlier clock returns every recorded
      event of its window, with multiplicity. */
  lemma {:induction false} QueryMissesNothing<P>(log: seq<Op<P>>, key: Key, now: real)
    requires NotBehind(log, key, now)
    ensures multiset(Live(log, key, now)) <= multiset(DequeRead(log, key, now))
  {
    var n := ReadIsSuffix(log, key, now);
    WithinBelowUpTo(History(log, key)[n..], Cutoff(key, now), now);
  }

  /** It returns exactly the events of its window, in arrival order, if and only if no
      expired event arrived after one that is still fresh. */
  lemma {:induction false} QueryIsExactUnlessLate<P>(log: seq<Op<P>>, key: Key, now: real)
    requires NotBehind(log, key, now)
    ensures DequeRead(log, key, now) == Live(log, key, now)
       <==> !LateExpired(History(log, key), Cutoff(key, now))
  {
    var h, c := History(log, key), Cutoff(key, now);
    var n := ReadIsSuffix(log, key, now);
    SuffixExactUnlessLate(h, n, c, now);
  }

  lemma {:induction false} SuffixExactUnlessLate<P>(h: seq<Event<P>>, n: nat, c: real, now: real)
    requires n <= |h| && c <= now
    requires forall i | 0 <= i < n :: h[i].ts < c
    requires n < |h| ==> h[n].ts >= c
    ensures UpTo(h[n..], now) == Within(h[n..], Span(false, c, now)) <==> !LateExpired(h, c)
  {
    var rest := h[n..];
    if LateExpired(h, c) {
      var i, j :| 0 <= i < j < |h| && h[i].ts >= c && h[j].ts < c;
      assert n <= i && rest[j - n] == h[j];
      OneStale(rest, c, now, j - n);
    } else {
      forall i | 0 <= i < |rest| ensures rest[i].ts >= c {
        assert rest[i] == h[n + i] && (i > 0 ==> h[n].ts >= c);
      }
      AllFresh(rest, c, now);
    }
  }

  /** In particular, arrivals in timestamp order read back exactly. */
  lemma {:induction false} QueryIsExactInOrder<P>(log: seq<Op<P>>, key: Key, now: real)
    requires NotBehind(log, key, now) && InOrder(History(log, key))
    ensures DequeRead(log, key, now) == Live(log, key, now)
  {
    QueryIsExactUnlessLate(log, key, now);
  }

  // ---------- The sorted set against the history ----------

  lemma {:induction false} RemoveSplit<P>(a: seq<Event<P>>, b: seq<Event<P>>, c: real)
    ensures RemoveScores(a + b, c) == RemoveScores(a, c) + RemoveScores(b, c)
  {
    if a == [] {
      assert a + b == b;
    } else {
      assert (a + b)[1..] == a[1..] + b;
      RemoveSplit(a[1..], b, c);
    }
  }

  lemma {:induction false} RemoveTwice<P>(es: seq<Event<P>>, c: real, d: real)
    requires c <= d
    ensures RemoveScores(RemoveScores(es, c), d) == RemoveScores(es, d)
  {
    if es != [] {
      var head := if es[0].ts > c then [es[0]] else [];
      RemoveSplit(head, RemoveScores(es[1..], c), d);
      RemoveTwice(es[1..], c, d);
    }
  }

  /** A query on the sorted set returns the events strictly above the cutoff, for any
      arrival order. */
  lemma {:induction false} ScoresAreFilter<P>(log: seq<Op<P>>, key: Key, now: real)
    requires NotBehind(log, key, now)
    ensures ScoresRead(log, key, now) == RemoveScores(History(log, key), Cutoff(key, now))
  {
    if log != [] {
      var front, op := log[..|log| - 1], log[|log| - 1];
      ScoresAreFilter(front, key, now);
      if op.key == key {
        assert op.Clock() <= now;
        var zs, c, d := Scores(front, key), Cutoff(key, op.Clock()), Cutoff(key, now);
        if op.Add? {
          var e := [Timed(op.ts, op.payload)];
          RemoveTwice(zs + e, c, d);
          RemoveSplit(zs, e, d);
          RemoveSplit(History(front, key), e, d);
        } else {
          RemoveTwice(zs, c, d);
        }
      }
    }
  }

  // ---------- The two backends against each other ----------

  /** Events stamped exactly `t`. */
  function StampedAt<P>(es: seq<Event<P>>, t: real): seq<Event<P>> {
    Within(es, Span(false, t, t))
  }

  lemma {:induction false} NothingInFuture<P>(log: seq<Op<P>>, key: Key, now: real)
    requires NotBehind(log, key, now)
    ensures forall i | 0 <= i < |History(log, key)| :: History(log, key)[i].ts <= now
  {
    if log != [] {
      NothingInFuture(log[..|log| - 1], key, now);
      var op := log[|log| - 1];
      if op.key == key && op.Add? {
        assert op.Clock() <= now;
      }
    }
  }

  lemma {:induction false} ClosedIsOpenPlusBoundary<P>(es: seq<Event<P>>, lo: real, hi: real)
    requires lo <= hi && forall i | 0 <= i < |es| :: es[i].ts <= hi
    ensures multiset(Within(es, Span(false, lo, hi))) == multiset(RemoveScores(es, lo)) + multiset(StampedAt(es, lo))
  {
    if es != [] {
      ClosedIsOpenPlusBoundary(es[1..], lo, hi);
    }
  }

  /** For in-order events and clocks that never go back, a deque query returns what the
      sorted-set query returns plus exactly the events stamped `now - window`. */
  lemma {:induction false} BackendsAgreeUpToBoundary<P>(log: seq<Op<P>>, key: Key, now: real)
    requires NotBehind(log, key, now) && InOrder(History(log, key))
    ensures multiset(DequeRead(log, key, now))
         == multiset(ScoresRead(log, key, now)) + multiset(StampedAt(History(log, key), Cutoff(key, now)))
  {
    QueryIsExactInOrder(log, key, now);
    ScoresAreFilter(log, key, now);
    NothingInFuture(log, key, now);
    ClosedIsOpenPlusBoundary(History(log, key), Cutoff(key, now), now);
  }

  /** The sorted set returns the documented events, for any arrival order, exactly when none is
      stamped `now - window`. */
  lemma {:induction false} ScoresExactUnlessBoundary<P>(log: seq<Op<P>>, key: Key, now: real)
    requires NotBehind(log, key, now)
    ensures multiset(ScoresRead(log, key, now)) == multiset(Live(log, key, now))
       <==> StampedAt(History(log, key), Cutoff(key, now)) == []
  {
    ScoresAreFilter(log, key, now);
    NothingInFuture(log, key, now);
    var boundary := StampedAt(History(log, key), Cutoff(key, now));
    ClosedIsOpenPlusBoundary(History(log, key), Cutoff(key, now), now);
    if boundary != [] {
      assert boundary[0] in multiset(boundary);
    }
  }

  /** A query that is behind a clock already used: the sorted set also returns events stamped
      after it, which the deque leaves out. */
  lemma {:induction false} FutureEventIsReturned<P>(key: Key, now: real, p: P, ahead: real)
    requires now < ahead && key.window > 0
    ensures var log := [Add(key, ahead, p)];
      && Timed(ahead, p) in ScoresRead(log, key, now)
      && Timed(ahead, p) !in DequeRead(log, key, now)
      && Timed(ahead, p) !in Live(log, key, now)
  {
    var log := [Add(key, ahead, p)];
    assert log[..0] == [] && [] + [Timed(ahead, p)] == [Timed(ahead, p)];
    assert Scores(log, key) == RemoveScores([Timed(ahead, p)], Cutoff(key, ahead));
    RemovedBounds([Timed(ahead, p)], Cutoff(key, ahead), Timed(ahead, p));
    RemovedBounds(Scores(log, key), Cutoff(key, now), Timed(ahead, p));
    UpToBounds(PopExpired(Deque(log, key), Cutoff(key, now)), now, Timed(ahead, p));
    WithinBounds(History(log, key), Span(false, Cutoff(key, now), now), Timed(ahead, p));
  }

  // ---------- Either backend ----------

  /** What a query at `now` reads. */
  function Read<P>(redis: bool, log: seq<Op<P>>, key: Key, now: real): seq<Event<P>> {
    if redis then ScoresRead(log, key, now) else DequeRead(log, key, now)
  }

  lemma {:induction false} RemovedIsOpen<P>(es: seq<Event<P>>, lo: real, hi: real)
    requires forall i | 0 <= i < |es| :: es[i].ts <= hi
    ensures RemoveScores(es, lo) == Within(es, Span(true, lo, hi))
  {
    if es != [] {
      RemovedIsOpen(es[1..], lo, hi);
    }
  }

  /** For in-order events and clocks that never go back, either backend reads the events of the
      window, the sorted set without those at its lower end. */
  lemma {:induction false} ReadIsWithin<P>(redis: bool, log: seq<Op<P>>, key: Key, now: real)
    requires NotBehind(log, key, now) && InOrder(History(log, key))
    ensures Read(redis, log, key, now) == Within(History(log, key), Span(redis, Cutoff(key, now), now))
  {
    if redis {
      ScoresAreFilter(log, key, now);
      NothingInFuture(log, key, now);
      RemovedIsOpen(History(log, key), Cutoff(key, now), now);
    } else {
      QueryIsExactInOrder(log, key, now);
    }
  }

  lemma {:induction false} PopTwice<P>(dq: seq<Event<P>>, c: real)
    ensures PopExpired(PopExpired(dq, c), c) == PopExpired(dq, c)
  {
    PopSpec(dq, c);
  }

  /** A query changes nothing that queries at the same instant read, of its own key or others. */
  lemma {:induction false} QueryIsInvisible<P>(redis: bool, log: seq<Op<P>>, asked: Key, key: Key, now: real)
    ensures Read(redis, log + [Get(asked, now)], key, now) == Read(redis, log, key, now)
  {
    assert (log + [Get(asked, now)])[..|log|] == log;
    PopTwice(Deque(log, key), Cutoff(key, now));
    RemoveTwice(Scores(log, key), Cutoff(key, now), Cutoff(key, now));
  }

  lemma {:induction false} DequeAppend<P>(log: seq<Op<P>>, op: Op<P>, key: Key)
    requires op.key == key
    ensures Deque(log + [op], key) == DequeStep(Deque(log, key), op)
  {
    assert (log + [op])[..|log|] == log;
  }

  /** An event that arrives already expired, right after one stamped `now`, outlives its
      window: the deque returns it for a query at `now`; the sorted set does not. */
  lemma {:induction false} LateArrivalIsReturned<P>(key: Key, now: real, p: P, late: real, q: P)
    requires late < Cutoff(key, now)
    ensures var log := [Add(key, now, p)] + [Add(key, late, q)];
      && Timed(late, q) in DequeRead(log, key, now)
      && Timed(late, q) !in Live(log, key, now)
      && Timed(late, q) !in ScoresRead(log, key, now)
  {
    var log := [Add(key, now, p)] + [Add(key, late, q)];
    LateArrivalStays(key, now, p, late, q);
    UpToBounds([Timed(now, p), Timed(late, q)], now, Timed(late, q));
    FrontKeepsAll([Timed(now, p), Timed(late, q)], Cutoff(key, now));
    WithinBounds(History(log, key), Span(false, Cutoff(key, now), now), Timed(late, q));
    RemovedBounds(Scores(log, key), Cutoff(key, now), Timed(late, q));
  }

  /** Adding behind an event the cutoff spares pops nothing. */
  lemma {:induction false} AddKeepsAll<P>(log: seq<Op<P>>, key: Key, ts: real, p: P, dq: seq<Event<P>>)
    requires dq == Deque(log, key) + [Timed(ts, p)] && dq[0].ts >= Cutoff(key, ts)
    ensures Deque(log + [Add(key, ts, p)], key) == dq
  {
    DequeAppend(log, Add(key, ts, p), key);
    FrontKeepsAll(dq, Cutoff(key, ts));
  }

  lemma {:induction false} LateArrivalStays<P>(key: Key, now: real, p: P, late: real, q: P)
    requires late < now
    ensures Deque([Add(key, now, p)] + [Add(key, late, q)], key) == [Timed(now, p), Timed(late, q)]
  {
    var none: seq<Op<P>> := [];
    AddKeepsAll(none, key, now, p, [Timed(now, p)]);
    assert none + [Add(key, now, p)] == [Add(key, now, p)];
    AddKeepsAll([Add(key, now, p)], key, late, q, [Timed(now, p), Timed(late, q)]);
  }

  lemma {:induction false} FrontKeepsAll<P>(dq: seq<Event<P>>, c: real)
    requires dq != [] && dq[0].ts >= c
    ensures PopExpired(dq, c) == dq
  {
  }

  lemma {:induction false} UpToBounds<P>(es: seq<Event<P>>, hi: real, e: Event<P>)
    ensures e in UpTo(es, hi) <==> e in es && e.ts <= hi
  {
    if es != [] {
      UpToBounds(es[1..], hi, e);
      assert es == [es[0]] + es[1..];
    }
  }

  lemma {:induction false} WithinBounds<P>(es: seq<Event<P>>, span: Span, e: Event<P>)
    ensures e in Within(es, span) <==> e in es && span.Has(e.ts)
  {
    if es != [] {
      WithinBounds(es[1..], span, e);
      assert es == [es[0]] + es[1..];
    }
  }

  lemma {:induction false} RemovedBounds<P>(es: seq<Event<P>>, c: real, e: Event<P>)
    ensures e in RemoveScores(es, c) <==> e in es && e.ts > c
  {
    if es != [] {
      RemovedBounds(es[1..], c, e);
      assert es == [es[0]] + es[1..];
    }
  }

  // ---------- The store object ----------

  function Payloads<P>(es: seq<Event<P>>): (r: seq<P>)
    ensures |r| == |es| && forall i | 0 <= i < |es| :: r[i] == es[i].item
  {
    seq(|es|, i requires 0 <= i < |es| => es[i].item)
  }

  /** A key that holds nothing reads as empty. */
  function Lookup<P>(m: map<Key, seq<Event<P>>>, key: Key): seq<Event<P>> {
    if key in m then m[key] else []
  }

  /** Every key's deque, or every key's sorted set, is what the calls so far make it. */
  ghost predicate DequesHold<P>(m: map<Key, seq<Event<P>>>, log: seq<Op<P>>) {
    forall key :: Lookup(m, key) == Deque(log, key)
  }

  ghost predicate ScoresHold<P>(m: map<Key, seq<Event<P>>>, log: seq<Op<P>>) {
    forall key :: Lookup(m, key) == Scores(log, key)
  }

  lemma {:induction false} DequesStep<P>(m: map<Key, seq<Event<P>>>, log: seq<Op<P>>, op: Op<P>, m': map<Key,
                                         seq<Event<P>>>)
    requires DequesHold(m, log)
    requires Lookup(m', op.key) == DequeStep(Lookup(m, op.key), op)
    requires forall key | key != op.key :: Lookup(m', key) == Lookup(m, key)
    ensures DequesHold(m', log + [op])
  {
    forall key ensures Lookup(m', key) == Deque(log + [op], key) {
      assert (log + [op])[..|log|] == log;
    }
  }

  lemma {:induction false} ScoresStep<P>(m: map<Key, seq<Event<P>>>, log: seq<Op<P>>, op: Op<P>, m': map<Key,
                                         seq<Event<P>>>)
    requires ScoresHold(m, log)
    requires Lookup(m', op.key) == ScoreStep(Lookup(m, op.key), op)
    requires forall key | key != op.key :: Lookup(m', key) == Lookup(m, key)
    ensures ScoresHold(m', log + [op])
  {
    forall key ensures Lookup(m', key) == Scores(log + [op], key) {
      assert (log + [op])[..|log|] == log;
    }
  }

  /** `es` lists the members of a sorted set in the order of their scores. */
  ghost predicate ByScore<P>(es: seq<Event<P>>, zs: seq<Event<P>>) {
    multiset(es) == multiset(zs) && InOrder(es)
  }

  /** How a query lists the events that the calls so far entitle it to: the deque in order of
      arrival, the sorted set by score. */
  ghost predicate HandsOut<P(!new)>(redis: bool, payloads: seq<P>, read: seq<Event<P>>) {
    if redis then exists es :: ByScore(es, read) && payloads == Payloads(es) else payloads == Payloads(read)
  }

  lemma {:induction false} SortIsByScore<P>(zs: seq<Event<P>>)
    ensures ByScore(StableSort(zs), zs)
  {
    SortItems(zs);
    StableSortSpec(zs, 0.0);
  }

  /** Listing events in another order lists their payloads in another order. */
  lemma {:induction false} PayloadsOfReordered<P>(es: seq<Event<P>>, zs: seq<Event<P>>)
    requires multiset(es) == multiset(zs)
    ensures multiset(Payloads(es)) == multiset(Payloads(zs))
  {
    var relates := (a: seq<Event<P>>, b: seq<Event<P>>) => multiset(Payloads(a)) == multiset(Payloads(b));
    forall a, x, left, right | relates(a, left + right) ensures relates(a + [x], left + [x] + right) {
      assert Payloads(a + [x]) == Payloads(a) + [x.item];
      assert Payloads(left + [x] + right) == Payloads(left) + [x.item] + Payloads(right);
      assert Payloads(left + right) == Payloads(left) + Payloads(right);
    }
    ByReordering(relates, es, zs);
  }

  lemma {:induction false} HandedOutItems<P(!new)>(redis: bool, payloads: seq<P>, read: seq<Event<P>>)
    requires HandsOut(redis, payloads, read)
    ensures multiset(payloads) == multiset(Payloads(read))
  {
    if redis {
      var es :| ByScore(es, read) && payloads == Payloads(es);
      PayloadsOfReordered(es, read);
    }
  }

  /** The pruning loop all three operations of the in-memory backend share. */
  method PopLoop<P>(all: seq<Event<P>>, cutoff: real) returns (dq: seq<Event<P>>)
    ensures dq == PopExpired(all, cutoff)
  {
    dq := all;
    while |dq| > 0 && dq[0].ts < cutoff
      invariant PopExpired(dq, cutoff) == PopExpired(all, cutoff)
      decreases |dq|
    {
      dq := dq[1..];
    }
  }

  class SlidingWindowStore<P(!new)> {
    /** Whether a reachable Redis holds the windows; otherwise this process does. */
    const useRedis: bool
    var memory: map<Key, seq<Event<P>>>
    var zsets: map<Key, seq<Event<P>>>
    ghost var log: seq<Op<P>>

    ghost predicate Valid()
      reads this
    {
      if useRedis then ScoresHold(zsets, log) else DequesHold(memory, log)
    }

    constructor (useRedis: bool)
      ensures Valid() && log == [] && this.useRedis == useRedis
    {
      this.useRedis := useRedis;
      memory, zsets, log := map[], map[], [];
    }

    /** Appends to the key's deque (or scored set) and prunes it. */
    method AddEvent(key: Key, timestamp: real, payload: P)
      requires Valid()
      modifies this`memory, this`zsets, this`log
      ensures Valid() && log == old(log) + [Add(key, timestamp, payload)]
    {
      var cutoff := Cutoff(key, timestamp);
      if useRedis {
        zsets := zsets[key := RemoveScores(Lookup(zsets, key) + [Timed(timestamp, payload)], cutoff)];
        ScoresStep(old(zsets), log, Add(key, timestamp, payload), zsets);
      } else {
        var dq := PopLoop(Lookup(memory, key) + [Timed(timestamp, payload)], cutoff);
        memory := memory[key := dq];
        DequesStep(old(memory), log, Add(key, timestamp, payload), memory);
      }
      log := log + [Add(key, timestamp, payload)];
    }

    /** `get_events`. The sorted set hands its events out by score; what order equal scores
        have is its own business. */
    method GetEvents(key: Key, now: real) returns (payloads: seq<P>)
      requires Valid()
      modifies this`memory, this`zsets, this`log
      ensures Valid() && log == old(log) + [Get(key, now)]
      ensures HandsOut(useRedis, payloads, Read(useRedis, old(log), key, now))
    {
      var cutoff := Cutoff(key, now);
      if useRedis {
        var zs := RemoveScores(Lookup(zsets, key), cutoff);
        zsets := zsets[key := zs];
        var es := StableSort(zs);
        SortIsByScore(zs);
        payloads := Payloads(es);
        ScoresStep(old(zsets), log, Get(key, now), zsets);
      } else {
        var dq := PopLoop(Lookup(memory, key), cutoff);
        if key in memory {
          memory := memory[key := dq];
        }
        payloads := Payloads(UpTo(dq, now));
        DequesStep(old(memory), log, Get(key, now), memory);
      }
      log := log + [Get(key, now)];
    }

    /** `prune_window`: drops expired events, and the key itself once it is empty. */
    method PruneWindow(key: Key, now: real) returns (removed: nat)
      requires Valid()
      modifies this`memory, this`zsets, this`log
      ensures Valid() && log == old(log) + [Prune(key, now)]
      ensures useRedis ==> removed == |Scores(old(log), key)| - |ScoresRead(old(log), key, now)|
      ensures !useRedis ==> removed == |Deque(old(log), key)| - |PopExpired(Deque(old(log), key), Cutoff(key, now))|
      ensures !useRedis ==> (key in memory ==> memory[key] != [])
    {
      var cutoff := Cutoff(key, now);
      if useRedis {
        var zs := Lookup(zsets, key);
        var kept := RemoveScores(zs, cutoff);
        RemovedShrinks(zs, cutoff);
        removed := |zs| - |kept|;
        zsets := zsets[key := kept];
        ScoresStep(old(zsets), log, Prune(key, now), zsets);
      } else {
        var before := Lookup(memory, key);
        var dq := PopLoop(before, cutoff);
        PopSpec(before, cutoff);
        removed := |before| - |dq|;
        memory := if dq == [] then memory - {key} else memory[key := dq];
        DequesStep(old(memory), log, Prune(key, now), memory);
      }
      log := log + [Prune(key, now)];
    }
  }

  lemma {:induction false} RemovedShrinks<P>(es: seq<Event<P>>, c: real)
    ensures |RemoveScores(es, c)| <= |es|
  {
    if es != [] {
      RemovedShrinks(es[1..], c);
    }
  }
}

/** The Zeek log shipper: connection lines joined with DNS and TLS lines of the same uid
    through a cache, against a function of the log history. */
module UidJoin {
  import opened Wrappers

  /** Normalized records; `body` stands for the fields the join never touches. */
  datatype Flow = Flow(body: string, dnsQuery: Option<string>, dnsQueryType: Option<string>, ja3Hash: Option<string>)
  datatype Lookup = Lookup(body: string, dnsQuery: Option<string>, dnsQueryType: Option<string>)
  datatype Session = Session(body: string, ja3Hash: Option<string>)

  /** One line of conn.log, dns.log or ssl.log; an empty uid stands for a missing one. A blank
      line, a comment, text that is not JSON and a line of another log are all refused. */
  datatype Line =
    | ConnLine(uid: string, flow: Flow)
    | DnsLine(uid: string, lookup: Lookup)
    | SslLine(uid: string, session: Session)
    | Refused

  /** A record on its topic: traffic-flows, dns-queries, ssl-metadata. */
  datatype Message = TrafficFlow(flow: Flow) | DnsQuery(lookup: Lookup) | SslMetadata(session: Session)

  // ---------- The cache ----------

  /** Keys a cached dictionary lacks read as None. */
  datatype Cached = Cached(dnsQuery: Option<string>, dnsQueryType: Option<string>, ja3Hash: Option<string>)

  function Enrich(f: Flow, c: Cached): Flow {
    var g := if Truthy(c.dnsQuery) && !Truthy(f.dnsQuery)
             then f.(dnsQuery := c.dnsQuery, dnsQueryType := c.dnsQueryType) else f;
    if Truthy(c.ja3Hash) && !Truthy(g.ja3Hash) then g.(ja3Hash := c.ja3Hash) else g
  }

  // ---------- Specification: a function of the log ----------

  /** The latest dns line of `uid` since that uid's previous conn line. */
  function LatestDns(log: seq<Line>, uid: string): Option<Lookup> {
    if log == [] || uid == "" then None
    else
      match log[|log| - 1]
      case ConnLine(u, _) => if u == uid then None else LatestDns(log[..|log| - 1], uid)
      case DnsLine(u, l) => if u == uid then Some(l) else LatestDns(log[..|log| - 1], uid)
      case _ => LatestDns(log[..|log| - 1], uid)
  }

  /** The latest ssl line of `uid` since both its previous conn line and that dns line. */
  function LatestSsl(log: seq<Line>, uid: string): Option<Session> {
    if log == [] || uid == "" then None
    else
      match log[|log| - 1]
      case ConnLine(u, _) => if u == uid then None else LatestSsl(log[..|log| - 1], uid)
      case DnsLine(u, _) => if u == uid then None else LatestSsl(log[..|log| - 1], uid)
      case SslLine(u, s) => if u == uid then Some(s) else LatestSsl(log[..|log| - 1], uid)
      case Refused => LatestSsl(log[..|log| - 1], uid)
  }

  /** The join of a dns line and an ssl line, where present. */
  function Joined(d: Option<Lookup>, s: Option<Session>): Cached {
    Cached(if d.Some? then d.value.dnsQuery else None,
           if d.Some? then d.value.dnsQueryType else None,
           if s.Some? then s.value.ja3Hash else None)
  }

  function Known(log: seq<Line>, uid: string): Cached {
    Joined(LatestDns(log, uid), LatestSsl(log, uid))
  }

  /** The message a line emits after the lines of `log`. */
  function Emitted(log: seq<Line>, line: Line): Option<Message> {
    match line
    case ConnLine(uid, f) => Some(TrafficFlow(Enrich(f, Known(log, uid))))
    case DnsLine(_, l) => Some(DnsQuery(l))
    case SslLine(_, s) => Some(SslMetadata(s))
    case Refused => None
  }

  /** One message per accepted line, in order. */
  function Messages(log: seq<Line>): seq<Message> {
    if log == [] then []
    else
      var n := |log| - 1;
      Messages(log[..n]) + Listed(Emitted(log[..n], log[n]))
  }

  // ---------- What "latest" means, position by position ----------

  predicate IsDns(line: Line, uid: string) {
    line.DnsLine? && line.uid == uid
  }

  predicate IsConn(line: Line, uid: string) {
    line.ConnLine? && line.uid == uid
  }

  predicate IsSsl(line: Line, uid: string) {
    line.SslLine? && line.uid == uid
  }

  /** Line `i` is a dns line of `uid` and no conn or dns line of `uid` follows it. */
  predicate LastDnsAt(log: seq<Line>, uid: string, i: nat) {
    i < |log| && IsDns(log[i], uid) && forall j | i < j < |log| :: !IsConn(log[j], uid) && !IsDns(log[j], uid)
  }

  /** Line `i` is an ssl line of `uid` and no line of `uid` at all follows it. */
  predicate LastSslAt(log: seq<Line>, uid: string, i: nat) {
    i < |log| && IsSsl(log[i], uid)
    && forall j | i < j < |log| :: !IsConn(log[j], uid) && !IsDns(log[j], uid) && !IsSsl(log[j], uid)
  }

  lemma {:induction false} LatestDnsAt(log: seq<Line>, uid: string)
    requires uid != ""
    ensures LatestDns(log, uid).Some? <==> exists i: nat :: LastDnsAt(log, uid, i)
    ensures forall i: nat | LastDnsAt(log, uid, i) :: LatestDns(log, uid) == Some(log[i].lookup)
  {
    if log != [] {
      var n := |log| - 1;
      LatestDnsAt(log[..n], uid);
      if IsDns(log[n], uid) {
        assert LastDnsAt(log, uid, n);
      } else if LatestDns(log, uid).Some? {
        var i: nat :| LastDnsAt(log[..n], uid, i);
        assert LastDnsAt(log, uid, i);
      }
      forall i: nat | LastDnsAt(log, uid, i) ensures LatestDns(log, uid) == Some(log[i].lookup) {
        if i < n {
          assert LastDnsAt(log[..n], uid, i);
        }
      }
    }
  }

  lemma {:induction false} LatestSslAt(log: seq<Line>, uid: string)
    requires uid != ""
    ensures LatestSsl(log, uid).Some? <==> exists i: nat :: LastSslAt(log, uid, i)
    ensures forall i: nat | LastSslAt(log, uid, i) :: LatestSsl(log, uid) == Some(log[i].session)
  {
    if log != [] {
      var n := |log| - 1;
      LatestSslAt(log[..n], uid);
      if IsSsl(log[n], uid) {
        assert LastSslAt(log, uid, n);
      } else if LatestSsl(log, uid).Some? {
        var i: nat :| LastSslAt(log[..n], uid, i);
        assert LastSslAt(log, uid, i);
      }
      forall i: nat | LastSslAt(log, uid, i) ensures LatestSsl(log, uid) == Some(log[i].session) {
        if i < n {
          assert LastSslAt(log[..n], uid, i);
        }
      }
    }
  }

  /** The lines of one uid. */
  function OfUid(log: seq<Line>, uid: string): seq<Line> {
    if log == [] then []
    else
      var last := log[|log| - 1];
      OfUid(log[..|log| - 1], uid) + if !last.Refused? && last.uid == uid then [last] else []
  }

  /** Lines of other uids never influence what is known about a uid. */
  lemma {:induction false} OtherUidsDoNotMatter(log: seq<Line>, uid: string)
    ensures Known(log, uid) == Known(OfUid(log, uid), uid)
    ensures LatestDns(log, uid) == LatestDns(OfUid(log, uid), uid)
    ensures LatestSsl(log, uid) == LatestSsl(OfUid(log, uid), uid)
  {
    if log != [] {
      var front, last := log[..|log| - 1], log[|log| - 1];
      OtherUidsDoNotMatter(front, uid);
      if !last.Refused? && last.uid == uid {
        assert (OfUid(front, uid) + [last])[..|OfUid(front, uid)|] == OfUid(front, uid);
      } else {
        assert OfUid(front, uid) + [] == OfUid(front, uid);
      }
    }
  }

  /** A flow's own non-empty fields are never overwritten, and only missing ones are filled. */
  lemma {:induction false} OwnFieldsAreKept(f: Flow, c: Cached)
    ensures var g := Enrich(f, c);
      && g.body == f.body
      && (Truthy(f.dnsQuery) ==> g.dnsQuery == f.dnsQuery && g.dnsQueryType == f.dnsQueryType)
      && (Truthy(f.ja3Hash) ==> g.ja3Hash == f.ja3Hash)
      && (!Truthy(f.dnsQuery) && Truthy(c.dnsQuery) ==> g.dnsQuery == c.dnsQuery && g.dnsQueryType == c.dnsQueryType)
      && (!Truthy(f.ja3Hash) && Truthy(c.ja3Hash) ==> g.ja3Hash == c.ja3Hash)
      && (!Truthy(c.dnsQuery) ==> g.dnsQuery == f.dnsQuery && g.dnsQueryType == f.dnsQueryType)
      && (!Truthy(c.ja3Hash) ==> g.ja3Hash == f.ja3Hash)
  {
  }

  // ---------- The shipper ----------

  const NOTHING := Cached(None, None, None)

  /** The cache holds, for every uid, what the log says about it. */
  ghost predicate CacheOf(cache: map<string, Cached>, log: seq<Line>) {
    "" !in cache && forall uid :: (if uid in cache then cache[uid] else NOTHING) == Known(log, uid)
  }

  function CacheStep(cache: map<string, Cached>, line: Line): map<string, Cached> {
    if line.Refused? || line.uid == "" then cache
    else
      match line
      case ConnLine(uid, _) => cache - {uid}
      case DnsLine(uid, l) => cache[uid := Cached(l.dnsQuery, l.dnsQueryType, None)]
      case SslLine(uid, s) => cache[uid := (if uid in cache then cache[uid] else NOTHING).(ja3Hash := s.ja3Hash)]
  }

  lemma {:induction false} CacheFollows(cache: map<string, Cached>, log: seq<Line>, line: Line)
    requires CacheOf(cache, log)
    ensures CacheOf(CacheStep(cache, line), log + [line])
  {
    assert (log + [line])[..|log|] == log;
    var next := CacheStep(cache, line);
    forall uid ensures (if uid in next then next[uid] else NOTHING) == Known(log + [line], uid) {
      assert (if uid in cache then cache[uid] else NOTHING) == Known(log, uid);
    }
  }

  class ZeekLogShipper {
    var cache: map<string, Cached>
    var queue: seq<Message>
    /** Every line processed so far. */
    ghost var log: seq<Line>

    ghost predicate Valid()
      reads this
    {
      CacheOf(cache, log) && queue == Messages(log)
    }

    constructor ()
      ensures Valid() && log == []
    {
      cache, queue, log := map[], [], [];
    }

    /** `process_log_line` */
    method ProcessLogLine(line: Line) returns (record: Option<Message>)
      requires Valid()
      modifies this
      ensures Valid() && log == old(log) + [line]
      ensures record == Emitted(old(log), line)
      ensures queue == old(queue) + Listed(record)
    {
      CacheFollows(cache, log, line);
      ghost var after := CacheStep(cache, line);
      match line {
      case Refused =>
        record := None;
      case ConnLine(uid, f) =>
        var flow := f;
        assert Known(log, uid) == if uid in cache then cache[uid] else NOTHING;
        if uid != "" && uid in cache {
          flow := Enrich(f, cache[uid]);
          cache := cache - {uid};
        }
        record := Some(TrafficFlow(flow));
      case DnsLine(uid, l) =>
        if uid != "" {
          cache := cache[uid := Cached(l.dnsQuery, l.dnsQueryType, None)];
        }
        record := Some(DnsQuery(l));
      case SslLine(uid, s) =>
        if uid != "" {
          if uid !in cache {
            cache := cache[uid := NOTHING];
          }
          cache := cache[uid := cache[uid].(ja3Hash := s.ja3Hash)];
        }
        record := Some(SslMetadata(s));
      }
      assert cache == after;
      queue := queue + Listed(record);
      assert (log + [line])[..|log|] == log;
      log := log + [line];
    }

    /** `process_log_file`: all lines of one file, collecting the records. */
    method ProcessLogFile(lines: seq<Line>) returns (records: seq<Message>)
      requires Valid()
      modifies this
      ensures Valid() && log == old(log) + lines
      ensures queue == old(queue) + records
    {
      records := [];
      var i := 0;
      while i < |lines|
        invariant 0 <= i <= |lines|
        invariant Valid() && log == old(log) + lines[..i]
        invariant queue == old(queue) + records
      {
        var record := ProcessLogLine(lines[i]);
        if record.Some? {
          records := records + [record.value];
        }
        assert lines[..i + 1] == lines[..i] + [lines[i]];
        i := i + 1;
      }
      assert lines[..i] == lines;
    }
  }

  // ---------- What the queue holds ----------

  function AcceptedCount(log: seq<Line>): nat {
    if log == [] then 0 else AcceptedCount(log[..|log| - 1]) + if log[|log| - 1].Refused? then 0 else 1
  }

  /** Line `i` offers a DNS name to the next connection of `uid`. */
  predicate OffersDns(front: seq<Line>, uid: string, i: nat) {
    uid != "" && LastDnsAt(front, uid, i) && Truthy(front[i].lookup.dnsQuery)
  }

  /** Line `i` offers a fingerprint to the next connection of `uid`. */
  predicate OffersSsl(front: seq<Line>, uid: string, i: nat) {
    uid != "" && LastSslAt(front, uid, i) && Truthy(front[i].session.ja3Hash)
  }

  /** `g` is the flow `f` with its missing fields filled from the lines that offer them. */
  ghost predicate FilledFlow(front: seq<Line>, uid: string, f: Flow, g: Flow) {
    && g.body == f.body
    && (if Truthy(f.dnsQuery) || (forall i: nat :: !OffersDns(front, uid, i))
        then g.dnsQuery == f.dnsQuery && g.dnsQueryType == f.dnsQueryType
        else forall i: nat | OffersDns(front, uid, i) ::
               g.dnsQuery == front[i].lookup.dnsQuery && g.dnsQueryType == front[i].lookup.dnsQueryType)
    && (if Truthy(f.ja3Hash) || (forall i: nat :: !OffersSsl(front, uid, i))
        then g.ja3Hash == f.ja3Hash
        else forall i: nat | OffersSsl(front, uid, i) :: g.ja3Hash == front[i].session.ja3Hash)
  }

  /** Message `m` says what line `k` says, on that line's own topic. */
  ghost predicate Carries(log: seq<Line>, k: nat, m: Message)
    requires k < |log|
  {
    match log[k]
    case ConnLine(uid, f) => m.TrafficFlow? && FilledFlow(log[..k], uid, f, m.flow)
    case DnsLine(_, l) => m == DnsQuery(l)
    case SslLine(_, s) => m == SslMetadata(s)
    case Refused => false
  }

  lemma {:induction false} EnrichedIsFilled(front: seq<Line>, uid: string, f: Flow)
    ensures FilledFlow(front, uid, f, Enrich(f, Known(front, uid)))
  {
    if uid != "" {
      LatestDnsAt(front, uid);
      LatestSslAt(front, uid);
      if LatestDns(front, uid).Some? {
        var i: nat :| LastDnsAt(front, uid, i);
        assert OffersDns(front, uid, i) <==> Truthy(Known(front, uid).dnsQuery);
      }
      if LatestSsl(front, uid).Some? {
        var i: nat :| LastSslAt(front, uid, i);
        assert OffersSsl(front, uid, i) <==> Truthy(Known(front, uid).ja3Hash);
      }
    }
  }

  lemma {:induction false} EmittedCarries(log: seq<Line>, k: nat)
    requires k < |log| && !log[k].Refused?
    ensures Emitted(log[..k], log[k]).Some? && Carries(log, k, Emitted(log[..k], log[k]).value)
  {
    if log[k].ConnLine? {
      EnrichedIsFilled(log[..k], log[k].uid, log[k].flow);
    }
  }

  lemma {:induction false} MessageCount(log: seq<Line>)
    ensures |Messages(log)| == AcceptedCount(log)
  {
    if log != [] {
      var n := |log| - 1;
      MessageCount(log[..n]);
      if !log[n].Refused? {
        EmittedCarries(log, n);
      }
    }
  }

  lemma {:induction false} MessagesGrow(log: seq<Line>)
    requires log != []
    ensures Messages(log[..|log| - 1]) <= Messages(log)
  {
  }

  lemma {:induction false} CarriedBefore(log: seq<Line>, n: nat, k: nat, m: Message)
    requires k < n <= |log|
    ensures log[..n][..k] == log[..k] && (Carries(log[..n], k, m) <==> Carries(log, k, m))
  {
    assert log[..n][..k] == log[..k];
  }

  lemma {:induction false} LastMessage(log: seq<Line>)
    requires log != [] && !log[|log| - 1].Refused?
    ensures var n := |log| - 1;
      |Messages(log)| == AcceptedCount(log[..n]) + 1 && Carries(log, n, Messages(log)[AcceptedCount(log[..n])])
  {
    var n := |log| - 1;
    MessageCount(log[..n]);
    EmittedCarries(log, n);
  }

  /** The queue holds one message for each accepted line, in the order of the lines, and none for
      a refused one; the message of line `k` says what that line says, on the topic of its log. */
  lemma {:induction false} OneMessagePerLine(log: seq<Line>, k: nat)
    requires k < |log| && !log[k].Refused?
    ensures |Messages(log)| == AcceptedCount(log)
    ensures AcceptedCount(log[..k]) < |Messages(log)| && Carries(log, k, Messages(log)[AcceptedCount(log[..k])])
  {
    var n := |log| - 1;
    MessageCount(log);
    if k == n {
      LastMessage(log);
    } else {
      var front := log[..n];
      OneMessagePerLine(front, k);
      CarriedBefore(log, n, k, Messages(front)[AcceptedCount(front[..k])]);
      MessagesGrow(log);
    }
  }

  // ---------- The order of the files decides ----------

  lemma {:induction false} NothingKnownAfterConns(conns: seq<Line>, uid: string)
    requires forall i | 0 <= i < |conns| :: conns[i].ConnLine? || conns[i].Refused?
    ensures Known(conns, uid) == NOTHING && LatestDns(conns, uid) == None && LatestSsl(conns, uid) == None
  {
    if conns != [] {
      NothingKnownAfterConns(conns[..|conns| - 1], uid);
    }
  }

  /** Processing conn.log before dns.log and ssl.log, as the batch and the replay do, never
      enriches a flow: the k-th line of conn.log is emitted as it is. */
  lemma {:induction false} ConnFirstNeverEnriches(conns: seq<Line>, others: seq<Line>, k: nat)
    requires forall i | 0 <= i < |conns| :: conns[i].ConnLine? || conns[i].Refused?
    requires k < |conns| && conns[k].ConnLine?
    ensures Emitted((conns + others)[..k], conns[k]) == Some(TrafficFlow(conns[k].flow))
  {
    assert (conns + others)[..k] == conns[..k];
    NothingKnownAfterConns(conns[..k], conns[k].uid);
  }

  lemma {:induction false} SslFileKeepsDns(dns: seq<Line>, ssl: seq<Line>, uid: string)
    requires AllSsl(ssl) && AllDns(dns)
    ensures LatestDns(dns + ssl, uid) == LatestDns(dns, uid)
    ensures LatestSsl(dns + ssl, uid) == LatestSsl(ssl, uid)
  {
    if ssl == [] {
      assert dns + ssl == dns;
      NoSslInDns(dns, uid);
    } else {
      assert (dns + ssl)[..|dns + ssl| - 1] == dns + ssl[..|ssl| - 1];
      SslFileKeepsDns(dns, ssl[..|ssl| - 1], uid);
    }
  }

  lemma {:induction false} NoSslInDns(dns: seq<Line>, uid: string)
    requires AllDns(dns)
    ensures LatestSsl(dns, uid) == None
  {
    if dns != [] {
      NoSslInDns(dns[..|dns| - 1], uid);
    }
  }

  lemma {:induction false} OtherConnsKeep(front: seq<Line>, conns: seq<Line>, uid: string)
    requires forall i | 0 <= i < |conns| :: conns[i].Refused? || (conns[i].ConnLine? && conns[i].uid != uid)
    ensures LatestDns(front + conns, uid) == LatestDns(front, uid)
    ensures LatestSsl(front + conns, uid) == LatestSsl(front, uid)
  {
    if conns == [] {
      assert front + conns == front;
    } else {
      assert (front + conns)[..|front + conns| - 1] == front + conns[..|conns| - 1];
      OtherConnsKeep(front, conns[..|conns| - 1], uid);
    }
  }

  predicate AllDns(lines: seq<Line>) {
    forall i | 0 <= i < |lines| :: lines[i].DnsLine? || lines[i].Refused?
  }

  predicate AllSsl(lines: seq<Line>) {
    forall i | 0 <= i < |lines| :: lines[i].SslLine? || lines[i].Refused?
  }

  /** Line `k` of conn.log is the first connection of its uid. */
  predicate FirstConn(conns: seq<Line>, k: nat) {
    && k < |conns| && conns[k].ConnLine?
    && forall i | 0 <= i < |conns| ::
         conns[i].Refused? || (conns[i].ConnLine? && (i < k ==> conns[i].uid != conns[k].uid))
  }

  /** What the first connection of a uid is emitted as after other log files. */
  lemma {:induction false} EmittedAfter(front: seq<Line>, conns: seq<Line>, k: nat)
    requires FirstConn(conns, k)
    ensures Emitted((front + conns)[..|front| + k], conns[k])
         == Some(TrafficFlow(Enrich(conns[k].flow, Known(front, conns[k].uid))))
  {
    assert (front + conns)[..|front| + k] == front + conns[..k];
    OtherConnsKeep(front, conns[..k], conns[k].uid);
  }

  /** Processing dns.log, then ssl.log, then conn.log joins fully: the first connection of a uid
      is emitted with the fields of that uid's last dns line and last ssl line. */
  lemma {:induction false} DnsSslConnJoins(dns: seq<Line>, ssl: seq<Line>, conns: seq<Line>, k: nat)
    requires AllDns(dns) && AllSsl(ssl) && FirstConn(conns, k)
    ensures var uid := conns[k].uid;
      Emitted((dns + ssl + conns)[..|dns + ssl| + k], conns[k])
      == Some(TrafficFlow(Enrich(conns[k].flow, Joined(LatestDns(dns, uid), LatestSsl(ssl, uid)))))
  {
    EmittedAfter(dns + ssl, conns, k);
    SslFileKeepsDns(dns, ssl, conns[k].uid);
  }

  /** Every later connection of a uid is emitted as it is: the first one took the cache entry. */
  lemma {:induction false} LaterConnsAreNotJoined(front: seq<Line>, conns: seq<Line>, i: nat, k: nat)
    requires forall j | 0 <= j < |conns| :: conns[j].ConnLine? || conns[j].Refused?
    requires i < k < |conns| && conns[i].ConnLine? && conns[k].ConnLine? && conns[i].uid == conns[k].uid
    ensures Emitted((front + conns)[..|front| + k], conns[k]) == Some(TrafficFlow(conns[k].flow))
  {
    assert (front + conns)[..|front| + k] == front + conns[..k];
    TakenByConn(front, conns[..k], i);
  }

  lemma {:induction false} TakenByConn(front: seq<Line>, conns: seq<Line>, i: nat)
    requires forall j | 0 <= j < |conns| :: conns[j].ConnLine? || conns[j].Refused?
    requires i < |conns| && conns[i].ConnLine?
    ensures Known(front + conns, conns[i].uid) == NOTHING
  {
    var n := |conns| - 1;
    assert (front + conns)[..|front + conns| - 1] == front + conns[..n];
    if i < n {
      TakenByConn(front, conns[..n], i);
    }
  }

  lemma {:induction false} DnsFileDropsSsl(ssl: seq<Line>, dns: seq<Line>, uid: string)
    requires AllSsl(ssl) && AllDns(dns)
    ensures LatestDns(ssl + dns, uid) == LatestDns(dns, uid)
    ensures LatestSsl(ssl + dns, uid) == if LatestDns(dns, uid).Some? then None else LatestSsl(ssl, uid)
  {
    if dns == [] {
      assert ssl + dns == ssl;
      NoDnsInSsl(ssl, uid);
    } else {
      assert (ssl + dns)[..|ssl + dns| - 1] == ssl + dns[..|dns| - 1];
      DnsFileDropsSsl(ssl, dns[..|dns| - 1], uid);
    }
  }

  lemma {:induction false} NoDnsInSsl(ssl: seq<Line>, uid: string)
    requires AllSsl(ssl)
    ensures LatestDns(ssl, uid) == None
  {
    if ssl != [] {
      NoDnsInSsl(ssl[..|ssl| - 1], uid);
    }
  }

  /** Processing ssl.log before dns.log loses fingerprints: a dns line replaces the whole cache
      entry of its uid, so the fingerprint survives exactly when the uid has no dns line. */
  lemma {:induction false} SslDnsConnDropsFingerprint(ssl: seq<Line>, dns: seq<Line>, conns: seq<Line>, k: nat)
    requires AllSsl(ssl) && AllDns(dns) && FirstConn(conns, k)
    ensures var uid := conns[k].uid;
      var s := if LatestDns(dns, uid).Some? then None else LatestSsl(ssl, uid);
      Emitted((ssl + dns + conns)[..|ssl + dns| + k], conns[k])
      == Some(TrafficFlow(Enrich(conns[k].flow, Joined(LatestDns(dns, uid), s))))
  {
    EmittedAfter(ssl + dns, conns, k);
    DnsFileDropsSsl(ssl, dns, conns[k].uid);
  }
}

/** DNS wire-format names: the encoder of the capture generator, the
    compression-following decoder of the packet engine, and exactly which
    domain names survive the trip (RFC 1035, sections 3.1 and 4.1.4). */
module DnsNames {
  import opened Wrappers
  import opened Bytes

  // ---------- Text operations ----------

  /** `".".join(parts)` */
  function Join(parts: seq<string>): string {
    if parts == [] then ""
    else if |parts| == 1 then parts[0]
    else parts[0] + "." + Join(parts[1..])
  }

  /** `s.split(".")` */
  function Split(s: string): (parts: seq<string>)
    ensures parts != [] && Join(parts) == s
    ensures forall k | 0 <= k < |parts| :: '.' !in parts[k]
  {
    if s == "" then [""]
    else
      var rest := Split(s[1..]);
      if s[0] == '.' then [""] + rest
      else
        assert Join([[s[0]] + rest[0]] + rest[1..]) == [s[0]] + Join(rest) by {
          assert ([[s[0]] + rest[0]] + rest[1..])[1..] == rest[1..];
          if |rest| > 1 {
            assert [s[0]] + (rest[0] + "." + Join(rest[1..])) == [s[0]] + rest[0] + "." + Join(rest[1..]);
          }
        }
        [[s[0]] + rest[0]] + rest[1..]
  }

  /** `s.strip(".")` */
  function Strip(s: string): (r: string)
    ensures r == "" || (r[0] != '.' && r[|r| - 1] != '.')
  {
    if s == "" then ""
    else if s[0] == '.' then Strip(s[1..])
    else if s[|s| - 1] == '.' then Strip(s[..|s| - 1])
    else s
  }

  /** Only dots are removed, and only at the two ends. */
  lemma {:induction false} StripRemovesOuterDots(s: string) returns (left: string, right: string)
    ensures s == left + Strip(s) + right
    ensures (forall c | c in left :: c == '.') && (forall c | c in right :: c == '.')
  {
    left, right := "", "";
    if s != "" && s[0] == '.' {
      left, right := StripRemovesOuterDots(s[1..]);
      left := "." + left;
    } else if s != "" && s[|s| - 1] == '.' {
      left, right := StripRemovesOuterDots(s[..|s| - 1]);
      right := right + ".";
      assert s == s[..|s| - 1] + ".";
    }
  }

  // ---------- Encoder ----------

  /** The length-prefixed labels and the terminating zero. */
  function WireName(labels: seq<bytes>): bytes
    requires forall k | 0 <= k < |labels| :: |labels[k]| <= 255
  {
    if labels == [] then [0] else [|labels[0]|] + labels[0] + WireName(labels[1..])
  }

  predicate Encodable(labels: seq<string>) {
    forall k | 0 <= k < |labels| :: IsAscii(labels[k]) && |labels[k]| <= 255
  }

  function LabelBytes(labels: seq<string>): (r: seq<bytes>)
    requires Encodable(labels)
    ensures |r| == |labels|
    ensures forall k | 0 <= k < |labels| :: |r[k]| == |labels[k]| && DecodeAscii(r[k]) == labels[k]
  {
    seq(|labels|, k requires 0 <= k < |labels| => EncodeAscii(labels[k]))
  }

  /** `encode_dns_name`; `None` where it raises (a non-ASCII character, or a label
      whose length does not fit the one-byte prefix). */
  function EncodeName(domain: string): Option<bytes> {
    var parts := Split(Strip(domain));
    if Encodable(parts) then Some(WireName(LabelBytes(parts))) else None
  }

  /** A domain can be encoded exactly if each part between its dots, outer dots aside, is ASCII and
      at most 255 characters long. */
  lemma {:induction false} EncodedExactly(domain: string)
    ensures var parts := Split(Strip(domain));
      EncodeName(domain).Some?
      <==> (forall k | 0 <= k < |parts| :: |parts[k]| <= 255)
           && (forall k, i | 0 <= k < |parts| && 0 <= i < |parts[k]| :: parts[k][i] < 128 as char)
  {
    var parts := Split(Strip(domain));
    if forall k, i | 0 <= k < |parts| && 0 <= i < |parts[k]| :: parts[k][i] < 128 as char {
      assert forall k | 0 <= k < |parts| :: IsAscii(parts[k]);
    }
  }

  function Header(txId: u16, flags: u16, answers: u16): (r: bytes)
    ensures |r| == 12 && U16At(r, 0) == txId && U16At(r, 2) == flags && U16At(r, 4) == 1 && U16At(r, 6) == answers
    ensures U16At(r, 8) == U16At(r, 10) == 0
  {
    PackU16(txId) + PackU16(flags) + PackU16(1) + PackU16(answers) + PackU16(0) + PackU16(0)
  }

  function QuestionTail(qtype: u16): (r: bytes)
    ensures |r| == 4 && U16At(r, 0) == qtype && U16At(r, 2) == 1
  {
    PackU16(qtype) + PackU16(1)
  }

  /** The answer record: a pointer to offset 12, type A, class IN, TTL 300. */
  function Answer(ip: bytes): (r: bytes)
    ensures |r| == 12 + |ip| && r[..2] == [0xC0, 0x0C]
    ensures U16At(r, 0) == 0xC00C && U16At(r, 2) == 1 && U16At(r, 4) == 1
    ensures U16At(r, 6) == 0 && U16At(r, 8) == 300 && U16At(r, 10) == 4
  {
    PackU16(0xC00C) + PackU16(1) + PackU16(1) + PackU32(300) + PackU16(4) + ip
  }

  function BuildQuery(domain: string, qtype: u16, txId: u16): Option<bytes> {
    match EncodeName(domain)
    case None => None
    case Some(qname) => Some(Header(txId, 0x0100, 0) + qname + QuestionTail(qtype))
  }

  function BuildResponse(domain: string, answerIp: bytes, txId: u16): Option<bytes>
    requires |answerIp| == 4
  {
    match EncodeName(domain)
    case None => None
    case Some(qname) => Some(Header(txId, 0x8180, 1) + qname + QuestionTail(1) + Answer(answerIp))
  }

  // ---------- Decoder ----------

  /** The offsets of a payload of length `n`. */
  function Offsets(n: nat): (r: set<nat>)
    ensures forall i: nat :: i in r <==> i < n
  {
    if n == 0 then {} else Offsets(n - 1) + {n - 1}
  }

  /** What the decoding loop still collects: the labels, the offset it stops at,
      and the offset just past its first compression pointer if it follows one. */
  datatype Walked = Walked(labels: seq<bytes>, stop: nat, pointerEnd: Option<nat>)

  function Walk(p: bytes, curr: nat, visited: set<nat>): (w: Walked)
    requires visited <= Offsets(|p|)
    ensures forall k | 0 <= k < |w.labels| :: 1 <= |w.labels[k]| < 192
    decreases Offsets(|p|) - visited
  {
    if curr >= |p| || curr in visited then Walked([], curr, None)
    else
      var seen := visited + {curr};
      assert curr in Offsets(|p|) - visited && curr !in Offsets(|p|) - seen;
      var length := p[curr];
      if length == 0 then Walked([], curr, None)
      else if length >= 0xC0 then
        if curr + 1 >= |p| then Walked([], curr, None)
        else Walk(p, U16At(p, curr) % 0x4000, seen).(pointerEnd := Some(curr + 2))
      else if curr + 1 + length > |p| then Walked([], curr + 1, None)
      else
        var rest := Walk(p, curr + 1 + length, seen);
        rest.(labels := [p[curr + 1..curr + 1 + length]] + rest.labels)
  }

  /** What the whole walk yields when `done` labels were read before, and the
      first pointer, if already met, ended at `jump`. */
  function After(done: seq<bytes>, jump: Option<nat>, w: Walked): Walked {
    Walked(done + w.labels, w.stop, if jump.Some? then jump else w.pointerEnd)
  }

  function Texts(labels: seq<bytes>): (r: seq<string>)
    ensures |r| == |labels| && forall k | 0 <= k < |r| :: |r[k]| == |labels[k]|
  {
    if labels == [] then [] else [DecodeAscii(labels[0])] + Texts(labels[1..])
  }

  lemma {:induction false} TextsAppend(labels: seq<bytes>, last: bytes)
    ensures Texts(labels + [last]) == Texts(labels) + [DecodeAscii(last)]
  {
    if labels != [] {
      assert (labels + [last])[1..] == labels[1..] + [last];
      TextsAppend(labels[1..], last);
    }
  }

  function NameAt(p: bytes, offset: nat): string {
    Join(Texts(Walk(p, offset, {}).labels))
  }

  function NextAfterName(p: bytes, offset: nat): nat {
    var w := Walk(p, offset, {});
    match w.pointerEnd
    case Some(end) => end
    case None => w.stop + 1
  }

  /** One iteration over a label. */
  lemma {:induction false} WalkLabel(p: bytes, o: nat, visited: set<nat>)
    requires visited <= Offsets(|p|) && o < |p| && o !in visited
    requires 1 <= p[o] < 0xC0 && o + 1 + p[o] <= |p|
    ensures visited + {o} <= Offsets(|p|)
    ensures var rest := Walk(p, o + 1 + p[o], visited + {o});
      Walk(p, o, visited) == Walked([p[o + 1..o + 1 + p[o]]] + rest.labels, rest.stop, rest.pointerEnd)
  {
  }

  /** One iteration over a compression pointer. */
  lemma {:induction false} WalkPointer(p: bytes, o: nat, visited: set<nat>)
    requires visited <= Offsets(|p|) && o + 1 < |p| && o !in visited && p[o] >= 0xC0
    ensures visited + {o} <= Offsets(|p|)
    ensures Walk(p, o, visited) == Walk(p, U16At(p, o) % 0x4000, visited + {o}).(pointerEnd := Some(o + 2))
  {
  }

  lemma {:induction false} AfterLabel(done: seq<bytes>, jump: Option<nat>, p: bytes, o: nat, visited: set<nat>)
    requires visited <= Offsets(|p|) && o < |p| && o !in visited
    requires 1 <= p[o] < 0xC0 && o + 1 + p[o] <= |p|
    ensures visited + {o} <= Offsets(|p|)
    ensures After(done, jump, Walk(p, o, visited))
         == After(done + [p[o + 1..o + 1 + p[o]]], jump, Walk(p, o + 1 + p[o], visited + {o}))
  {
    WalkLabel(p, o, visited);
    var read, rest := p[o + 1..o + 1 + p[o]], Walk(p, o + 1 + p[o], visited + {o});
    assert done + ([read] + rest.labels) == (done + [read]) + rest.labels;
  }

  /** The loop has read `raw` and, if `jump` is present, followed a first pointer that ends
      there; the walk from `curr` completes the walk from `offset`. */
  ghost predicate Reading(p: bytes, offset: nat, raw: seq<bytes>, jump: Option<nat>, curr: nat, visited: set<nat>) {
    visited <= Offsets(|p|) && After(raw, jump, Walk(p, curr, visited)) == Walk(p, offset, {})
  }

  lemma {:induction false} StartReading(p: bytes, offset: nat)
    ensures Reading(p, offset, [], None, offset, {})
  {
    var w := Walk(p, offset, {});
    assert [] + w.labels == w.labels;
  }

  /** One iteration over a label. */
  lemma {:induction false} ReadLabel(p: bytes, offset: nat, raw: seq<bytes>, jump: Option<nat>, o: nat,
                                     visited: set<nat>)
    returns (more: seq<bytes>)
    requires Reading(p, offset, raw, jump, o, visited) && o < |p| && o !in visited
    requires 1 <= p[o] < 0xC0 && o + 1 + p[o] <= |p|
    ensures Reading(p, offset, more, jump, o + 1 + p[o], visited + {o})
    ensures Texts(more) == Texts(raw) + [DecodeAscii(p[o + 1..o + 1 + p[o]])]
    ensures Offsets(|p|) - (visited + {o}) < Offsets(|p|) - visited
  {
    more := raw + [p[o + 1..o + 1 + p[o]]];
    AfterLabel(raw, jump, p, o, visited);
    TextsAppend(raw, p[o + 1..o + 1 + p[o]]);
    assert o in Offsets(|p|) - visited;
  }

  /** One iteration over a compression pointer: only the first one fixes where the name ends. */
  lemma {:induction false} FollowPointer(p: bytes, offset: nat, raw: seq<bytes>, jump: Option<nat>, o: nat,
                                         visited: set<nat>)
    returns (first: Option<nat>)
    requires Reading(p, offset, raw, jump, o, visited) && o + 1 < |p| && o !in visited && p[o] >= 0xC0
    ensures first == if jump.Some? then jump else Some(o + 2)
    ensures Reading(p, offset, raw, first, U16At(p, o) % 0x4000, visited + {o})
    ensures Offsets(|p|) - (visited + {o}) < Offsets(|p|) - visited
  {
    first := if jump.Some? then jump else Some(o + 2);
    WalkPointer(p, o, visited);
    assert o in Offsets(|p|) - visited;
  }

  /** Where the loop stops nothing more is read; a truncated label moves the stop by one. */
  lemma {:induction false} StopReading(p: bytes, offset: nat, raw: seq<bytes>, jump: Option<nat>, o: nat,
                                       visited: set<nat>)
    requires Reading(p, offset, raw, jump, o, visited)
    requires || o >= |p| || o in visited || p[o] == 0 || (p[o] >= 0xC0 && o + 1 >= |p|)
             || (p[o] < 0xC0 && o + 1 + p[o] > |p|)
    ensures NameAt(p, offset) == Join(Texts(raw))
    ensures NextAfterName(p, offset)
         == if jump.Some? then jump.value
            else if o < |p| && o !in visited && 1 <= p[o] < 0xC0 then o + 2 else o + 1
  {
    assert raw + [] == raw;
  }

  /** `parse_dns_name`. The loop terminates on every input: an iteration that
      continues has added a new in-range offset to `visited`. */
  method ParseDnsName(payload: bytes, offset: nat) returns (domain: string, next: nat)
    ensures domain == NameAt(payload, offset)
    ensures next == NextAfterName(payload, offset)
  {
    var labels: seq<string> := [];
    var curr: nat := offset;
    var visited: set<nat> := {};
    var jumped := false;
    var finalOffset: nat := offset;
    ghost var raw: seq<bytes> := [];
    ghost var jump: Option<nat> := None;
    ghost var at, seen := curr, visited;
    StartReading(payload, offset);
    while curr < |payload|
      invariant at == curr && seen == visited && labels == Texts(raw)
      invariant jump == if jumped then Some(finalOffset) else None
      invariant Reading(payload, offset, raw, jump, at, seen)
      decreases Offsets(|payload|) - seen
    {
      if curr in visited {
        break;
      }
      visited := visited + {curr};
      var length := payload[curr];
      if length == 0 {
        if !jumped {
          finalOffset := curr + 1;
        }
        break;
      }
      if length >= 0xC0 {
        if curr + 1 >= |payload| {
          break;
        }
        var pointer := U16At(payload, curr) % 0x4000;
        jump := FollowPointer(payload, offset, raw, jump, at, seen);
        if !jumped {
          finalOffset := curr + 2;
          jumped := true;
        }
        curr := pointer;
        at, seen := curr, visited;
        continue;
      }
      curr := curr + 1;
      if curr + length > |payload| {
        break;
      }
      labels := labels + [DecodeAscii(payload[curr..curr + length])];
      raw := ReadLabel(payload, offset, raw, jump, at, seen);
      curr := curr + length;
      at, seen := curr, visited;
    }
    StopReading(payload, offset, raw, jump, at, seen);
    domain := Join(labels);
    next := if jumped then finalOffset else curr + 1;
  }

  // ---------- Round trips ----------

  /** Labels the decoder can read: not the terminator and not a pointer. RFC 1035
      allows 1..63 octets; the program's decoder accepts up to 191. */
  predicate Readable(labels: seq<bytes>) {
    forall k | 0 <= k < |labels| :: 1 <= |labels[k]| < 192
  }

  /** Length-prefixed labels without the terminating zero. */
  function LabelRun(labels: seq<bytes>): bytes
    requires Readable(labels)
  {
    if labels == [] then [] else [|labels[0]|] + labels[0] + LabelRun(labels[1..])
  }

  /** The labels lie in `p` one after the other, each behind its length, from `o` up to `e`. */
  predicate RunAt(p: bytes, o: nat, labels: seq<bytes>, e: nat)
    decreases |labels|
  {
    if labels == [] then o == e
    else
      var next := o + 1 + |labels[0]|;
      && next <= |p| && next <= e && 1 <= |labels[0]| < 0xC0
      && p[o] == |labels[0]| && p[o + 1..next] == labels[0]
      && RunAt(p, next, labels[1..], e)
  }

  lemma {:induction false} RunLies(p: bytes, o: nat, labels: seq<bytes>)
    requires Readable(labels) && Occurs(p, o, LabelRun(labels))
    ensures RunAt(p, o, labels, o + |LabelRun(labels)|)
    decreases |labels|
  {
    if labels != [] {
      var first := labels[0];
      OccursSplit(p, o, [|first|] + first, LabelRun(labels[1..]));
      OccursSplit(p, o, [|first|], first);
      OccursByte(p, o, |first|);
      RunLies(p, o + 1 + |first|, labels[1..]);
    }
  }

  /** Having read `labels` from `o` on, the walk goes on from `e` with `seen`. */
  ghost predicate GoesOn(p: bytes, o: nat, visited: set<nat>, labels: seq<bytes>, e: nat, seen: set<nat>) {
    && visited <= Offsets(|p|) && seen <= Offsets(|p|)
    && var rest := Walk(p, e, seen);
       Walk(p, o, visited) == Walked(labels + rest.labels, rest.stop, rest.pointerEnd)
  }

  lemma {:induction false} GoesOnFrom(p: bytes, o: nat, visited: set<nat>, labels: seq<bytes>, e: nat, seen: set<nat>)
    requires labels != [] && visited <= Offsets(|p|) && o !in visited && o < |p|
    requires 1 <= p[o] < 0xC0 && o + 1 + p[o] <= |p| && p[o + 1..o + 1 + p[o]] == labels[0]
    requires GoesOn(p, o + 1 + p[o], visited + {o}, labels[1..], e, seen)
    ensures GoesOn(p, o, visited, labels, e, seen)
  {
    WalkLabel(p, o, visited);
    var rest := Walk(p, e, seen).labels;
    assert [labels[0]] + (labels[1..] + rest) == labels + rest;
  }

  /** No offset from `o` up to `e` was visited. */
  predicate Fresh(visited: set<nat>, o: nat, e: nat) {
    forall v | v in visited :: v < o || e <= v
  }

  /** Only offsets from `o` up to `e` have been visited since. */
  predicate Grown(seen: set<nat>, visited: set<nat>, o: nat, e: nat) {
    visited <= seen && forall v | v in seen :: v in visited || o <= v < e
  }

  lemma {:induction false} VisitOne(n: nat, visited: set<nat>, o: nat, next: nat, e: nat)
    requires visited <= Offsets(n) && o < n && o < next <= e && Fresh(visited, o, e)
    ensures o !in visited && visited + {o} <= Offsets(n) && Fresh(visited + {o}, next, e)
    ensures forall seen :: Grown(seen, visited + {o}, next, e) ==> Grown(seen, visited, o, e) && o in seen
  {
  }

  /** What a run of labels leaves behind. */
  ghost predicate RunRead(p: bytes, o: nat, visited: set<nat>, labels: seq<bytes>, e: nat, seen: set<nat>) {
    Grown(seen, visited, o, e) && (labels != [] ==> o in seen) && GoesOn(p, o, visited, labels, e, seen)
  }

  lemma {:induction false} NoLabelsRead(p: bytes, o: nat, visited: set<nat>)
    requires visited <= Offsets(|p|)
    ensures RunRead(p, o, visited, [], o, visited)
  {
    assert [] + Walk(p, o, visited).labels == Walk(p, o, visited).labels;
  }

  lemma {:induction false} OneMoreRead(p: bytes, o: nat, visited: set<nat>, labels: seq<bytes>, next: nat, e: nat,
                                       seen: set<nat>)
    requires labels != [] && visited <= Offsets(|p|) && o < next <= e && next <= |p| && next == o + 1 + |labels[0]|
    requires 1 <= |labels[0]| < 0xC0 && p[o] == |labels[0]| && p[o + 1..next] == labels[0]
    requires Fresh(visited, o, e) && RunRead(p, next, visited + {o}, labels[1..], e, seen)
    ensures RunRead(p, o, visited, labels, e, seen)
  {
    VisitOne(|p|, visited, o, next, e);
    GoesOnFrom(p, o, visited, labels, e, seen);
  }

  lemma {:induction false} WalkRunAt(p: bytes, o: nat, labels: seq<bytes>, visited: set<nat>, e: nat)
    returns (seen: set<nat>)
    requires RunAt(p, o, labels, e) && visited <= Offsets(|p|) && Fresh(visited, o, e)
    ensures RunRead(p, o, visited, labels, e, seen)
    decreases |labels|
  {
    if labels == [] {
      seen := visited;
      NoLabelsRead(p, o, visited);
    } else {
      var next := o + 1 + |labels[0]|;
      VisitOne(|p|, visited, o, next, e);
      seen := WalkRunAt(p, next, labels[1..], visited + {o}, e);
      OneMoreRead(p, o, visited, labels, next, e, seen);
    }
  }

  /** Reading a run of labels collects them and goes on behind the run; every offset visited on
      the way lies inside it. */
  lemma {:induction false} WalkRun(p: bytes, o: nat, labels: seq<bytes>, visited: set<nat>) returns (seen: set<nat>)
    requires Readable(labels) && Occurs(p, o, LabelRun(labels)) && visited <= Offsets(|p|)
    requires Fresh(visited, o, o + |LabelRun(labels)|)
    ensures RunRead(p, o, visited, labels, o + |LabelRun(labels)|, seen)
  {
    RunLies(p, o, labels);
    seen := WalkRunAt(p, o, labels, visited, o + |LabelRun(labels)|);
  }

  lemma {:induction false} WireIsRun(labels: seq<bytes>)
    requires Readable(labels)
    ensures WireName(labels) == LabelRun(labels) + [0]
  {
    if labels != [] {
      WireIsRun(labels[1..]);
    }
  }

  lemma {:induction false} WalkTerminator(p: bytes, o: nat, visited: set<nat>)
    requires visited <= Offsets(|p|) && o < |p| && o !in visited && p[o] == 0
    ensures Walk(p, o, visited) == Walked([], o, None)
  {
  }

  /** A run of labels followed by a zero byte reads as those labels. */
  lemma {:induction false} WalkTerminatedRun(p: bytes, o: nat, labels: seq<bytes>, visited: set<nat>)
    requires Readable(labels) && visited <= Offsets(|p|)
    requires Occurs(p, o, LabelRun(labels)) && Occurs(p, o + |LabelRun(labels)|, [0])
    requires Fresh(visited, o, o + |LabelRun(labels)| + 1)
    ensures Walk(p, o, visited) == Walked(labels, o + |LabelRun(labels)|, None)
  {
    var e := o + |LabelRun(labels)|;
    OccursByte(p, e, 0);
    var seen := WalkRun(p, o, labels, visited);
    WalkTerminator(p, e, seen);
    assert labels + [] == labels;
  }

  /** Reading an encoded name recovers its labels, whatever the rest of the message
      holds, as long as none of its offsets was visited before. */
  lemma {:induction false} WalkWireName(p: bytes, o: nat, labels: seq<bytes>, visited: set<nat>)
    requires Readable(labels) && visited <= Offsets(|p|)
    requires Occurs(p, o, WireName(labels))
    requires forall v | v in visited :: v < o || o + |WireName(labels)| <= v
    ensures Walk(p, o, visited) == Walked(labels, o + |WireName(labels)| - 1, None)
  {
    WireIsRun(labels);
    OccursSplit(p, o, LabelRun(labels), [0]);
    WalkTerminatedRun(p, o, labels, visited);
  }

  lemma {:induction false} TextsOfLabelBytes(labels: seq<string>)
    requires Encodable(labels)
    ensures Texts(LabelBytes(labels)) == labels
  {
    TextsAt(LabelBytes(labels));
  }

  lemma {:induction false} TextsAt(labels: seq<bytes>)
    ensures forall k | 0 <= k < |labels| :: Texts(labels)[k] == DecodeAscii(labels[k])
  {
    if labels != [] {
      TextsAt(labels[1..]);
      forall k | 0 <= k < |labels| ensures Texts(labels)[k] == DecodeAscii(labels[k]) {
        if k > 0 {
          assert Texts(labels)[k] == Texts(labels[1..])[k - 1];
        }
      }
    }
  }

  /** Every label of the (dot-stripped) domain is one the decoder can read. */
  predicate Survives(domain: string) {
    forall k | 0 <= k < |Split(Strip(domain))| :: 1 <= |Split(Strip(domain))[k]| < 192
  }

  function QnameEnd(domain: string): nat
    requires EncodeName(domain).Some?
  {
    12 + |EncodeName(domain).value|
  }

  /** A message whose bytes from offset 12 are the encoded name reads back as that name. */
  lemma {:induction false} ReadBackName(domain: string, p: bytes)
    requires EncodeName(domain).Some? && Survives(domain)
    requires Occurs(p, 12, EncodeName(domain).value)
    ensures NameAt(p, 12) == Strip(domain)
    ensures NextAfterName(p, 12) == QnameEnd(domain)
  {
    var labels := Split(Strip(domain));
    WalkWireName(p, 12, LabelBytes(labels), {});
    TextsOfLabelBytes(labels);
  }

  lemma {:induction false} QueryRoundTrip(domain: string, qtype: u16, txId: u16)
    requires EncodeName(domain).Some? && Survives(domain)
    ensures var q := BuildQuery(domain, qtype, txId).value;
      && NameAt(q, 12) == Strip(domain)
      && NextAfterName(q, 12) == QnameEnd(domain)
  {
    QnameOccurs(domain, qtype, txId);
    ReadBackName(domain, BuildQuery(domain, qtype, txId).value);
  }

  lemma {:induction false} QnameOccurs(domain: string, qtype: u16, txId: u16)
    requires EncodeName(domain).Some?
    ensures Occurs(BuildQuery(domain, qtype, txId).value, 12, EncodeName(domain).value)
  {
    OccursInside(Header(txId, 0x0100, 0), EncodeName(domain).value, QuestionTail(qtype));
  }

  /** A query announces one question. */
  lemma {:induction false} QueryHeader(domain: string, qtype: u16, txId: u16)
    requires EncodeName(domain).Some?
    ensures |BuildQuery(domain, qtype, txId).value| >= 12
    ensures U16At(BuildQuery(domain, qtype, txId).value, 4) == 1
  {
  }

  lemma {:induction false} SurvivingNameIsNonEmpty(domain: string)
    requires Survives(domain)
    ensures Strip(domain) != ""
  {
    assert Split("")[0] == "";
  }

  /** The answer record's compressed name, right after the question, reads as the
      question's name; its two pointer bytes are all it consumes. */
  lemma {:induction false} ResponseRoundTrip(domain: string, answerIp: bytes, txId: u16)
    requires |answerIp| == 4 && EncodeName(domain).Some? && Survives(domain)
    ensures var r := BuildResponse(domain, answerIp, txId).value;
      && NameAt(r, 12) == Strip(domain)
      && NextAfterName(r, 12) == QnameEnd(domain)
      && NameAt(r, QnameEnd(domain) + 4) == Strip(domain)
      && NextAfterName(r, QnameEnd(domain) + 4) == QnameEnd(domain) + 6
  {
    var qname := EncodeName(domain).value;
    ResponseParts(Header(txId, 0x8180, 1), qname, QuestionTail(1), Answer(answerIp));
    var r := BuildResponse(domain, answerIp, txId).value;
    ReadBackName(domain, r);
    PointerToQname(domain, r, QnameEnd(domain) + 4);
  }

  lemma {:induction false} ResponseParts(header: bytes, qname: bytes, question: bytes, answer: bytes)
    requires |header| == 12 && |question| == 4 && |answer| >= 2
    ensures Occurs(header + qname + question + answer, 12, qname)
    ensures Occurs(header + qname + question + answer, 12 + |qname| + 4, answer[..2])
  {
    var front := header + qname + question;
    assert (front + answer)[|front|..|front| + 2] == answer[..2];
    assert front[12..12 + |qname|] == qname;
    assert (front + answer)[12..12 + |qname|] == front[12..12 + |qname|];
  }

  lemma {:induction false} PointerToQname(domain: string, p: bytes, o: nat)
    requires EncodeName(domain).Some? && Survives(domain)
    requires Occurs(p, 12, EncodeName(domain).value) && QnameEnd(domain) <= o
    requires Occurs(p, o, [0xC0, 0x0C])
    ensures NameAt(p, o) == Strip(domain) && NextAfterName(p, o) == o + 2
  {
    var labels := Split(Strip(domain));
    assert p[o..o + 2][0] == p[o] && p[o..o + 2][1] == p[o + 1];
    assert U16At(p, o) % 0x4000 == 12;
    WalkWireName(p, 12, LabelBytes(labels), {o});
    WalkPointer(p, o, {});
    assert {} + {o} == {o};
    TextsOfLabelBytes(labels);
  }

  // ---------- Compressed and broken names ----------

  /** Offset `e` holds a compression pointer to `t`. */
  predicate PointsTo(p: bytes, e: nat, t: nat) {
    e + 2 <= |p| && t < 0x4000 && U16At(p, e) == 0xC000 + t
  }

  /** A name ends for its message just past its first pointer, wherever that leads. */
  lemma {:induction false} FirstPointerEndsName(p: bytes, o: nat, labels: seq<bytes>, t: nat)
    requires Readable(labels) && Occurs(p, o, LabelRun(labels)) && PointsTo(p, o + |LabelRun(labels)|, t)
    ensures NextAfterName(p, o) == o + |LabelRun(labels)| + 2
  {
    var e := o + |LabelRun(labels)|;
    var seen := WalkRun(p, o, labels, {});
    assert e !in seen && p[e] >= 0xC0;
    WalkPointer(p, e, seen);
  }

  /** A partly compressed name reads as its own labels followed by those of the name it points
      to, anywhere else in the first 16384 bytes of the message. */
  lemma {:induction false} CompressedName(p: bytes, o: nat, labels: seq<bytes>, t: nat, shared: seq<bytes>)
    requires Readable(labels) && Readable(shared)
    requires Occurs(p, o, LabelRun(labels)) && PointsTo(p, o + |LabelRun(labels)|, t)
    requires Occurs(p, t, WireName(shared))
    requires t + |WireName(shared)| <= o || o + |LabelRun(labels)| + 2 <= t
    ensures NameAt(p, o) == Join(Texts(labels + shared))
    ensures NextAfterName(p, o) == o + |LabelRun(labels)| + 2
  {
    var e := o + |LabelRun(labels)|;
    var seen := WalkRun(p, o, labels, {});
    assert e !in seen && p[e] >= 0xC0 && U16At(p, e) % 0x4000 == t;
    WalkPointer(p, e, seen);
    WalkWireName(p, t, shared, seen + {e});
  }

  /** A pointer back to where the name started ends it: only the labels before it are read. */
  lemma {:induction false} LoopEndsName(p: bytes, o: nat, labels: seq<bytes>)
    requires Readable(labels) && Occurs(p, o, LabelRun(labels)) && PointsTo(p, o + |LabelRun(labels)|, o)
    ensures NameAt(p, o) == Join(Texts(labels)) && NextAfterName(p, o) == o + |LabelRun(labels)| + 2
  {
    var e := o + |LabelRun(labels)|;
    var seen := WalkRun(p, o, labels, {});
    assert e !in seen && p[e] >= 0xC0 && U16At(p, e) % 0x4000 == o;
    WalkPointer(p, e, seen);
    WalkVisited(p, o, seen + {e});
    assert labels + [] == labels;
  }

  lemma {:induction false} WalkVisited(p: bytes, o: nat, seen: set<nat>)
    requires seen <= Offsets(|p|) && o in seen
    ensures Walk(p, o, seen) == Walked([], o, None)
  {
  }

  /** Offset `e` is the end of the message, a label longer than what is left, or half a pointer. */
  predicate RunsOut(p: bytes, e: nat) {
    e == |p| || (e < |p| && 1 <= p[e] < 0xC0 && e + 1 + p[e] > |p|) || (e + 1 == |p| && p[e] >= 0xC0)
  }

  lemma {:induction false} WalkRunsOut(p: bytes, e: nat, seen: set<nat>)
    requires RunsOut(p, e) && seen <= Offsets(|p|) && e !in seen
    ensures Walk(p, e, seen) == Walked([], if e < |p| && p[e] < 0xC0 then e + 1 else e, None)
  {
  }

  /** A name that runs out of the message yields the labels before the end. */
  lemma {:induction false} CutShortName(p: bytes, o: nat, labels: seq<bytes>)
    requires Readable(labels) && Occurs(p, o, LabelRun(labels)) && RunsOut(p, o + |LabelRun(labels)|)
    ensures NameAt(p, o) == Join(Texts(labels))
    ensures var e := o + |LabelRun(labels)|;
      NextAfterName(p, o) == if e < |p| && p[e] < 0xC0 then e + 2 else e + 1
  {
    var e := o + |LabelRun(labels)|;
    var seen := WalkRun(p, o, labels, {});
    WalkRunsOut(p, e, seen);
    assert labels + [] == labels;
  }

  // ---------- Layout of queries and responses ----------

  /** A query: header with one question, the name, its type, and class IN. */
  lemma {:induction false} QueryLayout(domain: string, qtype: u16, txId: u16)
    requires EncodeName(domain).Some?
    ensures var q, e := BuildQuery(domain, qtype, txId).value, QnameEnd(domain);
      && |q| == e + 4
      && U16At(q, 0) == txId && U16At(q, 2) == 0x0100 && U16At(q, 4) == 1
      && U16At(q, 6) == U16At(q, 8) == U16At(q, 10) == 0
      && U16At(q, e) == qtype && U16At(q, e + 2) == 1
  {
    var name := EncodeName(domain).value;
    Words(Header(txId, 0x0100, 0), name, QuestionTail(qtype), []);
    assert Header(txId, 0x0100, 0) + name + QuestionTail(qtype) + [] == BuildQuery(domain, qtype, txId).value;
  }

  /** A response: the same with flags 0x8180 and one answer, an A record for the address with a
      time to live of 300 seconds. */
  lemma {:induction false} ResponseLayout(domain: string, ip: bytes, txId: u16)
    requires |ip| == 4 && EncodeName(domain).Some?
    ensures var r, a := BuildResponse(domain, ip, txId).value, QnameEnd(domain) + 4;
      && |r| == a + 16
      && U16At(r, 0) == txId && U16At(r, 2) == 0x8180 && U16At(r, 4) == 1 && U16At(r, 6) == 1
      && U16At(r, 8) == U16At(r, 10) == 0
      && U16At(r, a - 4) == 1 && U16At(r, a - 2) == 1
      && U16At(r, a) == 0xC00C && U16At(r, a + 2) == 1 && U16At(r, a + 4) == 1
      && U16At(r, a + 6) == 0 && U16At(r, a + 8) == 300 && U16At(r, a + 10) == 4 && r[a + 12..] == ip
  {
    var name := EncodeName(domain).value;
    var r := BuildResponse(domain, ip, txId).value;
    Words(Header(txId, 0x8180, 1), name, QuestionTail(1), Answer(ip));
    assert r[QnameEnd(domain) + 4..] == Answer(ip);
    assert Answer(ip)[12..] == ip;
  }

  /** The words of four parts stand where the parts stand. */
  lemma {:induction false} Words(header: bytes, name: bytes, tail: bytes, answer: bytes)
    requires |header| == 12 && |tail| == 4
    ensures var all, e := header + name + tail + answer, 12 + |name|;
      && (forall i | 0 <= i <= 10 :: U16At(all, i) == U16At(header, i))
      && (forall i | 0 <= i <= 2 :: U16At(all, e + i) == U16At(tail, i))
      && (forall i | 0 <= i < |answer| - 1 :: U16At(all, e + 4 + i) == U16At(answer, i))
  {
    var all, e := header + name + tail + answer, 12 + |name|;
    assert forall i | 0 <= i < 12 :: all[i] == header[i];
    assert forall i | 0 <= i < 4 :: all[e + i] == tail[i];
    assert forall i | 0 <= i < |answer| :: all[e + 4 + i] == answer[i];
  }

  // ---------- Exactly which domains survive ----------

  lemma {:induction false} JoinLength(parts: seq<string>, k: nat)
    requires k < |parts|
    ensures |Join(parts[..k])| <= |Join(parts)|
    ensures |Join(parts[..k])| == |Join(parts)| ==> |parts| == 1 && parts[0] == ""
  {
    if k == 0 {
      assert parts[..0] == [];
    } else {
      assert parts[..k][1..] == parts[1..][..k - 1];
      if k > 1 {
        JoinLength(parts[1..], k - 1);
      }
    }
  }

  /** The part at index `k` can be found in the joined text. */
  lemma {:induction false} PartInJoin(parts: seq<string>, k: nat) returns (at: nat)
    requires k < |parts|
    ensures at + |parts[k]| <= |Join(parts)|
    ensures Join(parts)[at..at + |parts[k]|] == parts[k]
  {
    if k == 0 {
      at := 0;
    } else {
      var inner := PartInJoin(parts[1..], k - 1);
      at := |parts[0]| + 1 + inner;
      var rest := Join(parts[1..]);
      assert Join(parts) == (parts[0] + ".") + rest;
      assert Join(parts)[at..at + |parts[k]|] == rest[inner..inner + |parts[k]|];
    }
  }

  /** Text joined from parts shorter than 192 has a dot in every window of 192 characters. */
  lemma {:induction false} DotInEveryWindow(parts: seq<string>, i: nat)
    requires forall k | 0 <= k < |parts| :: |parts[k]| < 192
    requires i + 192 <= |Join(parts)|
    ensures '.' in Join(parts)[i..i + 192]
  {
    var text := Join(parts);
    var first := |parts[0]|;
    assert |parts| > 1;
    if i <= first {
      assert text[i..i + 192][first - i] == '.';
    } else {
      var rest := Join(parts[1..]);
      assert text == (parts[0] + ".") + rest;
      DotInEveryWindow(parts[1..], i - first - 1);
      assert text[i..i + 192] == rest[i - first - 1..i - first - 1 + 192];
    }
  }

  lemma {:induction false} WindowInPart(text: string, at: nat, part: string, m: nat)
    requires at + |part| <= |text| && text[at..at + |part|] == part
    requires m <= |part| && '.' !in part
    ensures '.' !in text[at..at + m]
  {
    var window := text[at..at + m];
    forall i | 0 <= i < m ensures window[i] != '.' {
      assert window[i] == text[at..at + |part|][i];
      assert part[i] in part;
    }
  }

  /** A dot-free part of 192 characters cannot come out of joining shorter parts. */
  lemma {:induction false} LongPartIsNotJoined(labels: seq<string>, k: nat, parts: seq<string>)
    requires k < |labels| && |labels[k]| >= 192 && '.' !in labels[k]
    requires forall i | 0 <= i < |parts| :: |parts[i]| < 192
    ensures Join(parts) != Join(labels)
  {
    var at := PartInJoin(labels, k);
    WindowInPart(Join(labels), at, labels[k], 192);
    if Join(parts) == Join(labels) {
      DotInEveryWindow(parts, at);
      assert false;
    }
  }

  /** A label of 192 bytes or more never reads back: whatever the decoder returns
      has a dot in every 192 characters. */
  lemma {:induction false} LongLabelIsLost(domain: string, p: bytes, o: nat, k: nat)
    requires k < |Split(Strip(domain))| && |Split(Strip(domain))[k]| >= 192
    ensures NameAt(p, o) != Strip(domain)
  {
    LongPartIsNotJoined(Split(Strip(domain)), k, Texts(Walk(p, o, {}).labels));
  }

  lemma {:induction false} WireSplit(labels: seq<bytes>, k: nat)
    requires k <= |labels| && Readable(labels[..k]) && forall j | 0 <= j < |labels| :: |labels[j]| <= 255
    ensures WireName(labels) == LabelRun(labels[..k]) + WireName(labels[k..])
  {
    if k == 0 {
      assert labels[..0] == [] && labels[0..] == labels;
    } else {
      var rest := labels[1..];
      assert labels[..k][1..] == rest[..k - 1] && rest[k - 1..] == labels[k..] && labels[..k][0] == labels[0];
      WireSplit(rest, k - 1);
    }
  }

  /** An empty label ends the name early: only the labels before it are read. */
  lemma {:induction false} WalkStopsAtEmptyLabel(p: bytes, o: nat, labels: seq<bytes>, k: nat)
    requires k < |labels| && labels[k] == [] && Readable(labels[..k])
    requires forall j | 0 <= j < |labels| :: |labels[j]| <= 255
    requires Occurs(p, o, WireName(labels))
    ensures Walk(p, o, {}).labels == labels[..k]
  {
    WireSplit(labels, k);
    var rest := WireName(labels[k..]);
    assert rest == [0] + rest[1..];
    OccursSplit(p, o, LabelRun(labels[..k]), rest);
    OccursSplit(p, o + |LabelRun(labels[..k])|, [0], rest[1..]);
    WalkTerminatedRun(p, o, labels[..k], {});
  }

  lemma {:induction false} EmptyLabelIsLost(domain: string, p: bytes, k: nat)
    requires EncodeName(domain).Some? && Strip(domain) != ""
    requires Occurs(p, 12, EncodeName(domain).value)
    requires k < |Split(Strip(domain))| && Split(Strip(domain))[k] == ""
    requires forall j | 0 <= j < k :: 1 <= |Split(Strip(domain))[j]| < 192
    ensures NameAt(p, 12) != Strip(domain)
  {
    var labels := Split(Strip(domain));
    WalkStopsAtEmptyLabel(p, 12, LabelBytes(labels), k);
    JoinLength(labels, k);
    assert |NameAt(p, 12)| == |Join(labels[..k])| by {
      JoinLengthOnly(Texts(LabelBytes(labels)[..k]), labels[..k]);
    }
  }

  lemma {:induction false} JoinLengthOnly(a: seq<string>, b: seq<string>)
    requires |a| == |b| && forall k | 0 <= k < |a| :: |a[k]| == |b[k]|
    ensures |Join(a)| == |Join(b)|
  {
    if |a| > 1 {
      JoinLengthOnly(a[1..], b[1..]);
    }
  }

  /** A domain the generator can encode reads back from the query as itself (without
      its outer dots) exactly when it is empty or each label has 1 to 191 characters. */
  lemma {:induction false} QueryRoundTripExactly(domain: string, qtype: u16, txId: u16)
    requires EncodeName(domain).Some?
    ensures NameAt(BuildQuery(domain, qtype, txId).value, 12) == Strip(domain)
       <==> Strip(domain) == "" || Survives(domain)
  {
    var q := BuildQuery(domain, qtype, txId).value;
    var labels := Split(Strip(domain));
    QnameOccurs(domain, qtype, txId);
    if Survives(domain) {
      QueryRoundTrip(domain, qtype, txId);
    } else if Strip(domain) == "" {
      WalkStopsAtEmptyLabel(q, 12, LabelBytes(labels), 0);
    } else {
      var k := FirstUnreadable(labels);
      if |labels[k]| == 0 {
        EmptyLabelIsLost(domain, q, k);
      } else {
        LongLabelIsLost(domain, q, 12, k);
      }
    }
  }

  lemma {:induction false} FirstUnreadable(labels: seq<string>) returns (k: nat)
    requires !forall j | 0 <= j < |labels| :: 1 <= |labels[j]| < 192
    ensures k < |labels| && !(1 <= |labels[k]| < 192)
    ensures forall j | 0 <= j < k :: 1 <= |labels[j]| < 192
  {
    if 1 <= |labels[0]| < 192 {
      var rest := FirstUnreadable(labels[1..]);
      k := rest + 1;
      assert forall j | 1 <= j < k :: labels[j] == labels[1..][j - 1];
    } else {
      k := 0;
    }
  }
}

/** The two captive-portal DNS responders, `build_dns_reply` of `crates/firmware-nostd/src/ap.rs` and
    `build_a_response` of `crates/firmware/src/captive_dns.rs`, and the messages they answer
    (RFC 1035, sections 3.1, 4.1.1 and 4.1.2). */
module Dns {
  import opened Wrappers
  import opened Bytes

  const AP_IP: seq<byte> := [192, 168, 4, 1]
  const HEADER: nat := 12
  const TTL: seq<byte> := [0, 0, 0, 60]

  // ---------------------------------------------------------------- walking the name

  /** The offset of the root label's zero byte, following label lengths from `i`. */
  function NameEnd(q: seq<byte>, i: nat): (r: Option<nat>)
    ensures r.Some? ==> i <= r.value < |q| && q[r.value] == 0
    decreases |q| - i
  {
    if i >= |q| then None
    else if q[i] == 0 then Some(i)
    else NameEnd(q, i + 1 + q[i])
  }

  /** The same walk, given up at a length byte with one of its two top bits set. */
  function StrictEnd(q: seq<byte>, i: nat): (r: Option<nat>)
    ensures r.Some? ==> i <= r.value < |q| && q[r.value] == 0
    decreases |q| - i
  {
    if i >= |q| || q[i] >= 64 then None
    else if q[i] == 0 then Some(i)
    else StrictEnd(q, i + 1 + q[i])
  }

  lemma {:induction false} StrictIsNameEnd(q: seq<byte>, i: nat)
    ensures StrictEnd(q, i).Some? ==> NameEnd(q, i) == StrictEnd(q, i)
    decreases |q| - i
  {
    if i < |q| && 0 < q[i] < 64 {
      StrictIsNameEnd(q, i + 1 + q[i]);
    }
  }

  // ---------------------------------------------------------------- the replies

  function ReplyHeader(q: seq<byte>, answer: bool): seq<byte>
    requires |q| >= HEADER
  {
    [q[0], q[1], 0x81, 0x80, 0, 1, 0, if answer then 1 else 0, 0, 0, 0, 0]
  }

  function Answer(ip: seq<byte>): seq<byte> {
    [0xC0, 0x0C, 0, 1, 0, 1] + TTL + [0, 4] + ip
  }

  function OneQuestion(q: seq<byte>): bool
    requires |q| >= HEADER
  {
    BE16(q[4], q[5]) == 1
  }

  /** What `build_dns_reply` leaves at the front of an output buffer of `room` bytes. */
  function ApReply(q: seq<byte>, room: nat): Option<seq<byte>> {
    if |q| < HEADER || q[2] >= 0x80 || !OneQuestion(q) then None
    else
      match NameEnd(q, HEADER)
      case None => None
      case Some(e) =>
        if e + 5 > |q| || e + 5 + 16 > room then None
        else
          var answer := BE16(q[e + 1], q[e + 2]) == 1;
          Some(ReplyHeader(q, answer) + q[HEADER..e + 5] + if answer then Answer(AP_IP) else [])
  }

  /** What `build_a_response` returns. */
  function CaptiveReply(q: seq<byte>, ip: seq<byte>): Option<seq<byte>> {
    if |q| < HEADER || !OneQuestion(q) then None
    else
      match StrictEnd(q, HEADER)
      case None => None
      case Some(e) =>
        if e + 5 > |q| || BE16(q[e + 1], q[e + 2]) != 1 || BE16(q[e + 3], q[e + 4]) != 1 then None
        else Some(ReplyHeader(q, true) + q[HEADER..e + 5] + Answer(ip))
  }

  /** Copies `s` into `out` at offset `at`. */
  method CopyInto(out: array<byte>, at: nat, s: seq<byte>)
    requires at + |s| <= out.Length
    modifies out
    ensures out[..] == old(out[..at]) + s + old(out[at + |s|..])
  {
    for k := 0 to |s|
      invariant forall j :: 0 <= j < k ==> out[at + j] == s[j]
      invariant forall j :: 0 <= j < at || at + k <= j < out.Length ==> out[j] == old(out[j])
    {
      out[at + k] := s[k];
    }
  }

  lemma {:induction false} Stacked(old0: seq<byte>, a: seq<byte>, b: seq<byte>, now: seq<byte>)
    requires |a| + |b| <= |old0|
    requires now == (a + old0[|a|..])[..|a|] + b + (a + old0[|a|..])[|a| + |b|..]
    ensures now == a + b + old0[|a| + |b|..]
  {
    var s := a + old0[|a|..];
    assert s[..|a|] == a;
    assert s[|a| + |b|..] == old0[|a| + |b|..];
  }

  method BuildDnsReply(q: seq<byte>, out: array<byte>) returns (r: Option<nat>)
    modifies out
    ensures r.Some? <==> ApReply(q, out.Length).Some?
    ensures r.None? ==> out[..] == old(out[..])
    ensures r.Some? ==>
              var reply := ApReply(q, out.Length).value;
              r.value == |reply| <= out.Length && out[..] == reply + old(out[|reply|..])
  {
    if |q| < HEADER || q[2] >= 0x80 {
      return None;
    }
    if BE16(q[4], q[5]) != 1 {
      return None;
    }
    var i := HEADER;
    while i < |q| && q[i] != 0
      invariant HEADER <= i && NameEnd(q, HEADER) == NameEnd(q, i)
      decreases |q| - i
    {
      i := i + 1 + q[i];
    }
    var qEnd := i + 5;
    if qEnd > |q| || qEnd + 16 > out.Length {
      return None;
    }
    var o := WriteReply(q, qEnd, BE16(q[i + 1], q[i + 2]) == 1, out);
    r := Some(o);
  }

  method WriteReply(q: seq<byte>, qEnd: nat, answer: bool, out: array<byte>) returns (o: nat)
    requires HEADER <= qEnd <= |q| && qEnd + 16 <= out.Length
    modifies out
    ensures var reply := ReplyHeader(q, answer) + q[HEADER..qEnd] + if answer then Answer(AP_IP) else [];
            o == |reply| <= out.Length && out[..] == reply + old(out[|reply|..])
  {
    ghost var before := out[..];
    var header := ReplyHeader(q, answer);
    CopyInto(out, 0, header);
    assert out[..] == header + before[HEADER..];
    CopyInto(out, HEADER, q[HEADER..qEnd]);
    Stacked(before, header, q[HEADER..qEnd], out[..]);
    o := qEnd;
    ghost var part := header + q[HEADER..qEnd];
    if answer {
      CopyInto(out, o, Answer(AP_IP));
      Stacked(before, part, Answer(AP_IP), out[..]);
      o := o + 16;
    } else {
      assert part + [] == part;
    }
  }

  method BuildAResponse(req: seq<byte>, ip: seq<byte>) returns (r: Option<seq<byte>>)
    ensures r == CaptiveReply(req, ip)
  {
    if |req| < HEADER {
      return None;
    }
    if BE16(req[4], req[5]) != 1 {
      return None;
    }
    var i := HEADER;
    while i < |req|
      invariant HEADER <= i && StrictEnd(req, HEADER) == StrictEnd(req, i)
      invariant i < |req| || i == HEADER
      decreases |req| - i
    {
      var len := req[i];
      if len == 0 {
        i := i + 1;
        break;
      }
      if len >= 64 {
        return None;
      }
      i := i + len + 1;
      if i >= |req| {
        return None;
      }
    }
    if i + 4 > |req| {
      return None;
    }
    var qtype := BE16(req[i], req[i + 1]);
    var qclass := BE16(req[i + 2], req[i + 3]);
    if qtype != 1 || qclass != 1 {
      return None;
    }
    var qEnd := i + 4;
    var out := [req[0], req[1]];
    out := out + [0x81, 0x80];
    out := out + [0, 1] + [0, 1] + [0, 0] + [0, 0];
    assert out == ReplyHeader(req, true);
    out := AppendAnswer(out + req[HEADER..qEnd], ip);
    r := Some(out);
  }

  method AppendAnswer(question: seq<byte>, ip: seq<byte>) returns (out: seq<byte>)
    ensures out == question + Answer(ip)
  {
    out := question + [0xC0, 0x0C] + [0, 1] + [0, 1] + TTL + [0, 4] + ip;
  }

  // ---------------------------------------------------------------- queries as data

  /** A single-question message: the header words, the name's labels, type and class, and whatever
      follows the question. */
  datatype Query = Query(id: (byte, byte), flags: (byte, byte), others: seq<byte>, labels: seq<seq<byte>>,
                         qtype: (byte, byte), qclass: (byte, byte), rest: seq<byte>)

  function NameBytes(labels: seq<seq<byte>>): (r: seq<byte>)
    requires forall l :: l in labels ==> 0 < |l| < 256
    ensures r != []
  {
    if labels == [] then [0]
    else
      assert labels[0] in labels;
      [|labels[0]| as byte] + labels[0] + NameBytes(labels[1..])
  }

  predicate LabelsBelow(labels: seq<seq<byte>>, bound: nat) {
    forall l :: l in labels ==> 0 < |l| < bound
  }

  predicate Legal(m: Query) {
    LabelsBelow(m.labels, 64) && |m.others| == 6
  }

  function QuestionBytes(m: Query): seq<byte>
    requires Legal(m)
  {
    NameBytes(m.labels) + [m.qtype.0, m.qtype.1, m.qclass.0, m.qclass.1]
  }

  function HeaderBytes(m: Query): seq<byte>
    requires Legal(m)
  {
    [m.id.0, m.id.1, m.flags.0, m.flags.1, 0, 1] + m.others
  }

  function MessageBytes(m: Query): seq<byte>
    requires Legal(m)
  {
    HeaderBytes(m) + QuestionBytes(m) + m.rest
  }

  predicate AsksForA(m: Query) {
    m.qtype == (0, 1) && m.qclass == (0, 1)
  }

  /** The labels between offset `i` and the root label. */
  function LabelsFrom(q: seq<byte>, i: nat): (r: seq<seq<byte>>)
    requires StrictEnd(q, i).Some?
    ensures LabelsBelow(r, 64)
    decreases |q| - i
  {
    if q[i] == 0 then []
    else
      var n := i + 1 + q[i];
      [q[i + 1..n]] + LabelsFrom(q, n)
  }

  /** Walking a written name arrives at its last byte. */
  lemma {:induction false} WrittenNameEnd(a: seq<byte>, labels: seq<seq<byte>>, b: seq<byte>)
    requires LabelsBelow(labels, 64)
    ensures StrictEnd(a + NameBytes(labels) + b, |a|) == Some(|a| + |NameBytes(labels)| - 1)
    decreases |labels|
  {
    var q := a + NameBytes(labels) + b;
    if labels == [] {
      assert q[|a|] == 0;
    } else {
      var l := labels[0];
      assert l in labels;
      var first := [|l| as byte] + l;
      assert q == (a + first) + NameBytes(labels[1..]) + b;
      assert q[|a|] == |l| as byte;
      WrittenNameEnd(a + first, labels[1..], b);
    }
  }

  lemma {:induction false} ThreeParts(q: seq<byte>, i: nat, n: nat, e: nat)
    requires i < n <= e <= |q|
    ensures q[i..e] == [q[i]] + q[i + 1..n] + q[n..e]
  {
  }

  /** Every walk that ends has read a written name. */
  lemma {:induction false} WalkedNameIsWritten(q: seq<byte>, i: nat)
    requires StrictEnd(q, i).Some?
    ensures q[i..StrictEnd(q, i).value + 1] == NameBytes(LabelsFrom(q, i))
    decreases |q| - i
  {
    var e := StrictEnd(q, i).value;
    if q[i] != 0 {
      var n := i + 1 + q[i];
      WalkedNameIsWritten(q, n);
      var (labels, rest) := (LabelsFrom(q, i), LabelsFrom(q, n));
      assert labels[0] == q[i + 1..n] && labels[1..] == rest;
      ThreeParts(q, i, n, e + 1);
    }
  }

  lemma {:induction false} MessageFields(m: Query)
    requires Legal(m)
    ensures var q := MessageBytes(m);
            |q| >= HEADER && q[0] == m.id.0 && q[1] == m.id.1 && q[2] == m.flags.0 && OneQuestion(q)
    ensures var (q, e) := (MessageBytes(m), HEADER + |NameBytes(m.labels)| - 1);
            StrictEnd(q, HEADER) == Some(e) && e + 5 <= |q| &&
            (q[e + 1], q[e + 2]) == m.qtype && (q[e + 3], q[e + 4]) == m.qclass &&
            q[HEADER..e + 5] == QuestionBytes(m)
  {
    var q := MessageBytes(m);
    var (h, name) := (HeaderBytes(m), NameBytes(m.labels));
    var tail := [m.qtype.0, m.qtype.1, m.qclass.0, m.qclass.1];
    assert q == h + name + (tail + m.rest);
    WrittenNameEnd(h, m.labels, tail + m.rest);
    var e := HEADER + |name| - 1;
    assert q[e + 1..e + 5] == tail;
    assert q[e + 1..e + 5] == [q[e + 1], q[e + 2], q[e + 3], q[e + 4]];
  }

  /** The captive responder answers an address query and repeats its question unchanged. */
  lemma {:induction false} CaptiveAnswers(m: Query, ip: seq<byte>)
    requires Legal(m)
    ensures CaptiveReply(MessageBytes(m), ip) ==
            if AsksForA(m)
            then Some([m.id.0, m.id.1, 0x81, 0x80, 0, 1, 0, 1, 0, 0, 0, 0] + QuestionBytes(m) + Answer(ip))
            else None
  {
    MessageFields(m);
    OneInTwoBytes(m.qtype.0, m.qtype.1);
    OneInTwoBytes(m.qclass.0, m.qclass.1);
  }

  lemma {:induction false} OneInTwoBytes(hi: byte, lo: byte)
    ensures BE16(hi, lo) == 1 <==> (hi, lo) == (0, 1)
  {
  }

  /** So does the access point's, whenever the message is a query and its reply fits. */
  lemma {:induction false} ApAnswers(m: Query, room: nat)
    requires Legal(m) && m.flags.0 < 0x80 && HEADER + |QuestionBytes(m)| + 16 <= room
    ensures var a := m.qtype == (0, 1);
            ApReply(MessageBytes(m), room) ==
            Some([m.id.0, m.id.1, 0x81, 0x80, 0, 1, 0, if a then 1 else 0, 0, 0, 0, 0] + QuestionBytes(m) +
                 if a then Answer(AP_IP) else [])
  {
    MessageFields(m);
    StrictIsNameEnd(MessageBytes(m), HEADER);
    OneInTwoBytes(m.qtype.0, m.qtype.1);
  }

  /** Byte-identical replies for the same address. */
  lemma {:induction false} RespondersAgree(m: Query, room: nat)
    requires Legal(m) && AsksForA(m) && m.flags.0 < 0x80 && HEADER + |QuestionBytes(m)| + 16 <= room
    ensures ApReply(MessageBytes(m), room) == CaptiveReply(MessageBytes(m), AP_IP)
    ensures ApReply(MessageBytes(m), room).Some?
  {
    CaptiveAnswers(m, AP_IP);
    ApAnswers(m, room);
  }

  /** A datagram the captive responder answers is the encoding of an address query. */
  function ReadQuery(q: seq<byte>): (m: Query)
    requires |q| >= HEADER && StrictEnd(q, HEADER).Some? && StrictEnd(q, HEADER).value + 5 <= |q|
    ensures Legal(m)
  {
    var e := StrictEnd(q, HEADER).value;
    Query((q[0], q[1]), (q[2], q[3]), q[6..HEADER], LabelsFrom(q, HEADER), (q[e + 1], q[e + 2]),
          (q[e + 3], q[e + 4]), q[e + 5..])
  }

  lemma {:induction false} ReadBack(q: seq<byte>)
    requires |q| >= HEADER && OneQuestion(q) && StrictEnd(q, HEADER).Some? && StrictEnd(q, HEADER).value + 5 <= |q|
    ensures MessageBytes(ReadQuery(q)) == q
  {
    var e := StrictEnd(q, HEADER).value;
    var m := ReadQuery(q);
    ReadHeader(q);
    ReadQuestion(q);
    Pieces(q, e + 5);
    assert HeaderBytes(m) + QuestionBytes(m) + m.rest == q;
  }

  lemma {:induction false} Pieces(q: seq<byte>, k: nat)
    requires HEADER <= k <= |q|
    ensures q[..HEADER] + q[HEADER..k] + q[k..] == q
  {
  }

  lemma {:induction false} ReadHeader(q: seq<byte>)
    requires |q| >= HEADER && OneQuestion(q) && StrictEnd(q, HEADER).Some? && StrictEnd(q, HEADER).value + 5 <= |q|
    ensures HeaderBytes(ReadQuery(q)) == q[..HEADER]
  {
    OneInTwoBytes(q[4], q[5]);
    assert q[..HEADER] == [q[0], q[1], q[2], q[3], q[4], q[5]] + q[6..HEADER];
  }

  lemma {:induction false} ReadQuestion(q: seq<byte>)
    requires |q| >= HEADER && StrictEnd(q, HEADER).Some? && StrictEnd(q, HEADER).value + 5 <= |q|
    ensures QuestionBytes(ReadQuery(q)) == q[HEADER..StrictEnd(q, HEADER).value + 5]
  {
    var e := StrictEnd(q, HEADER).value;
    WalkedNameIsWritten(q, HEADER);
    FourBytes(q, e + 1);
    assert q[HEADER..e + 5] == q[HEADER..e + 1] + q[e + 1..e + 5];
  }

  lemma {:induction false} FourBytes(q: seq<byte>, i: nat)
    requires i + 4 <= |q|
    ensures q[i..i + 4] == [q[i], q[i + 1], q[i + 2], q[i + 3]]
  {
  }

  /** The captive responder answers exactly the single-question address queries with labels under 64
      bytes, whatever follows the question. */
  lemma {:induction false} CaptiveAnswersExactly(q: seq<byte>, ip: seq<byte>)
    ensures CaptiveReply(q, ip).Some? <==> exists m :: Legal(m) && AsksForA(m) && MessageBytes(m) == q
  {
    if CaptiveReply(q, ip).Some? {
      ReadBack(q);
      var e := StrictEnd(q, HEADER).value;
      OneInTwoBytes(q[e + 1], q[e + 2]);
      OneInTwoBytes(q[e + 3], q[e + 4]);
      assert AsksForA(ReadQuery(q));
    }
    forall m | Legal(m) && AsksForA(m) && MessageBytes(m) == q ensures CaptiveReply(q, ip).Some? {
      CaptiveAnswers(m, ip);
    }
  }

  /** On any datagram whatever: if both answer they send the same bytes, and when only one answers the
      reason is one of those listed. */
  lemma {:induction false} WhereTheyDiffer(q: seq<byte>, room: nat)
    ensures ApReply(q, room).Some? && CaptiveReply(q, AP_IP).Some? ==> ApReply(q, room) == CaptiveReply(q, AP_IP)
    ensures CaptiveReply(q, AP_IP).Some? ==>
              (ApReply(q, room).None? <==> q[2] >= 0x80 || |CaptiveReply(q, AP_IP).value| > room)
    ensures ApReply(q, room).Some? ==>
              var e := NameEnd(q, HEADER).value;
              CaptiveReply(q, AP_IP).None? <==>
              StrictEnd(q, HEADER).None? || BE16(q[e + 1], q[e + 2]) != 1 || BE16(q[e + 3], q[e + 4]) != 1
  {
    if |q| >= HEADER {
      StrictIsNameEnd(q, HEADER);
    }
  }
}

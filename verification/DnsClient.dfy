/** How a resolver reads a reply (RFC 1035, sections 3.1, 4.1 and 4.1.4), and what it reads of the responders'. */
module DnsClients {
  import opened Wrappers
  import opened Bytes
  import opened Dns

  function Word(r: seq<byte>, i: nat): nat
    requires i + 2 <= |r|
  {
    256 * (r[i] as int) + (r[i + 1] as int)
  }

  /** The offset behind the name at `i`: labels up to the root's, or a pointer. */
  function NameSkipped(r: seq<byte>, i: nat): (e: Option<nat>)
    ensures e.Some? ==> i < e.value <= |r|
    decreases |r| - i
  {
    if i >= |r| then None
    else if r[i] == 0 then Some(i + 1)
    else if r[i] >= 192 then (if i + 2 <= |r| then Some(i + 2) else None)
    else if r[i] >= 64 then None
    else NameSkipped(r, i + 1 + r[i])
  }

  /** One resource record whose owner is given by a pointer. */
  datatype Record = Record(owner: nat, rtype: nat, rclass: nat, ttl: nat, data: seq<byte>)

  function RecordAt(r: seq<byte>, i: nat): Option<Record> {
    if i + 12 > |r| || r[i] < 192 || i + 12 + Word(r, i + 10) > |r| then None
    else Some(Record(Word(r, i) - 0xC000, Word(r, i + 2), Word(r, i + 4), 0x1_0000 * Word(r, i + 6) + Word(r, i + 8),
                     r[i + 12..i + 12 + Word(r, i + 10)]))
  }

  /** A reply without error that repeats one question and holds one answer: its id, its question and the
      answer. */
  datatype Reply = Reply(id: nat, question: seq<byte>, answer: Record)

  function Resolved(r: seq<byte>): Option<Reply> {
    if |r| < 12 || r[2] < 128 || r[3] % 16 != 0 || Word(r, 4) != 1 || Word(r, 6) != 1 then None
    else
      match NameSkipped(r, 12)
      case None => None
      case Some(e) =>
        if e + 4 > |r| then None
        else
          match RecordAt(r, e + 4)
          case None => None
          case Some(record) => Some(Reply(Word(r, 0), r[12..e + 4], record))
  }

  lemma {:induction false} StrictIsSkipped(r: seq<byte>, i: nat)
    requires StrictEnd(r, i).Some?
    ensures NameSkipped(r, i) == Some(StrictEnd(r, i).value + 1)
    decreases |r| - i
  {
    if r[i] != 0 {
      StrictIsSkipped(r, i + 1 + r[i]);
    }
  }

  lemma {:induction false} AnswerIsRecord(a: seq<byte>, ip: seq<byte>)
    requires |ip| == 4
    ensures RecordAt(a + Answer(ip), |a|) == Some(Record(12, 1, 1, 60, ip))
  {
    var (r, i, s) := (a + Answer(ip), |a|, Answer(ip));
    assert r[i..] == s && |s| == 16;
    assert forall k :: 0 <= k < 16 ==> s[k] == r[i + k];
    assert r[i + 12..i + 16] == s[12..16] == ip;
  }

  lemma {:induction false} QuestionIsRead(h: seq<byte>, m: Query, answer: seq<byte>)
    requires Legal(m) && |h| == 12
    ensures var (r, e) := (h + QuestionBytes(m) + answer, 12 + |NameBytes(m.labels)|);
      NameSkipped(r, 12) == Some(e) && r[12..e + 4] == QuestionBytes(m) && |QuestionBytes(m)| == e - 8
  {
    var tail := [m.qtype.0, m.qtype.1, m.qclass.0, m.qclass.1];
    var r := h + QuestionBytes(m) + answer;
    assert r == h + NameBytes(m.labels) + (tail + answer);
    WrittenNameEnd(h, m.labels, tail + answer);
    StrictIsSkipped(r, 12);
  }

  lemma {:induction false} ReadsHeader(h: seq<byte>, rest: seq<byte>, m: Query, answers: byte)
    requires h == [m.id.0, m.id.1, 0x81, 0x80, 0, 1, 0, answers, 0, 0, 0, 0]
    ensures var r := h + rest;
      && Word(r, 0) == 256 * (m.id.0 as int) + (m.id.1 as int) && r[2] >= 128 && r[3] % 16 == 0
      && Word(r, 4) == 1 && Word(r, 6) == answers as int
  {
  }

  lemma {:induction false} ResolvedFrom(r: seq<byte>, e: nat, record: Record)
    requires |r| >= 12 && r[2] >= 128 && r[3] % 16 == 0 && Word(r, 4) == 1 && Word(r, 6) == 1
    requires NameSkipped(r, 12) == Some(e) && e + 4 <= |r| && RecordAt(r, e + 4) == Some(record)
    ensures Resolved(r) == Some(Reply(Word(r, 0), r[12..e + 4], record))
  {
  }

  lemma {:induction false} ReadsReply(m: Query, ip: seq<byte>)
    requires Legal(m) && |ip| == 4
    ensures Resolved([m.id.0, m.id.1, 0x81, 0x80, 0, 1, 0, 1, 0, 0, 0, 0] + QuestionBytes(m) + Answer(ip)) ==
      Some(Reply(256 * (m.id.0 as int) + (m.id.1 as int), QuestionBytes(m), Record(12, 1, 1, 60, ip)))
  {
    var h: seq<byte> := [m.id.0, m.id.1, 0x81, 0x80, 0, 1, 0, 1, 0, 0, 0, 0];
    ReadsFrom(h, QuestionBytes(m), Answer(ip), m, ip, 12 + |NameBytes(m.labels)|);
  }

  lemma {:induction false} ReadsFrom(h: seq<byte>, question: seq<byte>, answer: seq<byte>, m: Query, ip: seq<byte>,
      e: nat)
    requires Legal(m) && |ip| == 4 && question == QuestionBytes(m) && answer == Answer(ip)
    requires h == [m.id.0, m.id.1, 0x81, 0x80, 0, 1, 0, 1, 0, 0, 0, 0] && e == 12 + |NameBytes(m.labels)|
    ensures Resolved(h + question + answer) ==
      Some(Reply(256 * (m.id.0 as int) + (m.id.1 as int), question, Record(12, 1, 1, 60, ip)))
  {
    var r := h + question + answer;
    ReadsHeader(h, question + answer, m, 1);
    assert r == h + (question + answer);
    QuestionIsRead(h, m, answer);
    AnswerIsRecord(h + question, ip);
    ResolvedFrom(r, e, Record(12, 1, 1, 60, ip));
  }

  /** Whatever name is asked for, a client of the captive responder reads its own id and question, and for the
      name asked the configured address, for a minute. */
  lemma {:induction false} ClientResolves(m: Query, ip: seq<byte>)
    requires Legal(m) && AsksForA(m) && |ip| == 4
    ensures var reply := CaptiveReply(MessageBytes(m), ip);
      && reply.Some?
      && Resolved(reply.value) ==
           Some(Reply(256 * (m.id.0 as int) + (m.id.1 as int), QuestionBytes(m), Record(12, 1, 1, 60, ip)))
  {
    CaptiveAnswers(m, ip);
    ReadsReply(m, ip);
  }

  /** A client of the access point reads 192.168.4.1. */
  lemma {:induction false} ApClientResolves(m: Query, room: nat)
    requires Legal(m) && AsksForA(m) && m.flags.0 < 0x80 && HEADER + |QuestionBytes(m)| + 16 <= room
    ensures var reply := ApReply(MessageBytes(m), room);
      && reply.Some?
      && Resolved(reply.value) ==
           Some(Reply(256 * (m.id.0 as int) + (m.id.1 as int), QuestionBytes(m),
                      Record(12, 1, 1, 60, [192, 168, 4, 1])))
  {
    RespondersAgree(m, room);
    ClientResolves(m, AP_IP);
  }

  /** The access point answers queries only, with one question, so never a reply of its own or of another
      server. */
  lemma {:induction false} ApAnswersQueries(q: seq<byte>, room: nat)
    requires ApReply(q, room).Some?
    ensures |q| >= 12 && q[2] < 128 && Word(q, 4) == 1
    ensures forall any: nat :: ApReply(ApReply(q, room).value, any) == None
  {
    var r := ApReply(q, room).value;
    assert |r| >= 12 && r[2] == 0x81;
  }

  /** For any other type it reads that there is no answer. */
  lemma {:induction false} ApClientReadsNone(m: Query, room: nat)
    requires Legal(m) && m.qtype != (0, 1) && m.flags.0 < 0x80 && HEADER + |QuestionBytes(m)| + 16 <= room
    ensures var reply := ApReply(MessageBytes(m), room);
      && reply.Some? && |reply.value| == 12 + |QuestionBytes(m)|
      && Word(reply.value, 0) == 256 * (m.id.0 as int) + (m.id.1 as int)
      && reply.value[2] >= 128 && reply.value[3] % 16 == 0
      && Word(reply.value, 4) == 1 && Word(reply.value, 6) == 0 && reply.value[12..] == QuestionBytes(m)
  {
    ApAnswers(m, room);
    OneInTwoBytes(m.qtype.0, m.qtype.1);
    var h: seq<byte> := [m.id.0, m.id.1, 0x81, 0x80, 0, 1, 0, 0, 0, 0, 0, 0];
    assert ApReply(MessageBytes(m), room).value == h + QuestionBytes(m);
    ReadsHeader(h, QuestionBytes(m), m, 0);
  }
}

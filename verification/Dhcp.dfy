/** The one-lease DHCP server of the provisioning access point: `crates/firmware-nostd/src/ap.rs`
    (RFC 2131, section 2; RFC 2132, sections 3.1, 3.2 and 9.6). */
module Dhcp {
  import opened Wrappers
  import opened Bytes
  import opened DhcpClients

  const AP_IP: seq<byte> := [192, 168, 4, 1]
  const CLIENT_IP: seq<byte> := [192, 168, 4, 2]
  const MAGIC: seq<byte> := [0x63, 0x82, 0x53, 0x63]
  /** 7200 seconds, big-endian. */
  const LEASE: seq<byte> := [0, 0, 0x1C, 0x20]
  const OPTIONS: nat := 240
  const PAD: byte := 0
  const END: byte := 255
  const MESSAGE_TYPE: byte := 53

  // ---------------------------------------------------------------- reading

  /** The message type read from offset `i` of the options. */
  function Walk(req: seq<byte>, i: nat): Option<byte>
    decreases |req| - i
  {
    if i + 1 >= |req| || req[i] == END then None
    else if req[i] == PAD then Walk(req, i + 1)
    else if req[i] == MESSAGE_TYPE && req[i + 1] >= 1 && i + 2 < |req| then Some(req[i + 2])
    else Walk(req, i + 2 + req[i + 1])
  }

  function MsgType(req: seq<byte>): Option<byte> {
    if |req| < OPTIONS || req[236..OPTIONS] != MAGIC then None else Walk(req, OPTIONS)
  }

  method DhcpMsgType(req: seq<byte>) returns (r: Option<byte>)
    ensures r == MsgType(req)
  {
    if |req| < OPTIONS || req[236..OPTIONS] != MAGIC {
      return None;
    }
    var i := OPTIONS;
    while i + 1 < |req|
      invariant OPTIONS <= i && Walk(req, OPTIONS) == Walk(req, i)
      decreases |req| - i
    {
      var code := req[i];
      if code == END {
        break;
      }
      if code == PAD {
        i := i + 1;
        continue;
      }
      var len := req[i + 1];
      if code == MESSAGE_TYPE && len >= 1 && i + 2 < |req| {
        return Some(req[i + 2]);
      }
      i := i + 2 + len;
    }
    return None;
  }

  // ---------------------------------------------------------------- writing options

  datatype Item = Pad | Opt(code: byte, data: seq<byte>)

  /** One option as `put_opt` lays it out: the length byte is the low byte of the length. */
  function OptBytes(code: byte, data: seq<byte>): seq<byte> {
    [code, (|data| % 256) as byte] + data
  }

  function ItemBytes(it: Item): seq<byte> {
    if it.Pad? then [PAD] else OptBytes(it.code, it.data)
  }

  function ItemsBytes(items: seq<Item>): seq<byte> {
    if items == [] then [] else ItemBytes(items[0]) + ItemsBytes(items[1..])
  }

  method PutOpt(out: array<byte>, i: nat, code: byte, data: seq<byte>) returns (next: nat)
    requires i + 2 + |data| <= out.Length
    modifies out
    ensures next == i + 2 + |data|
    ensures out[..next] == old(out[..i]) + OptBytes(code, data)
    ensures forall j :: next <= j < out.Length ==> out[j] == old(out[j])
  {
    out[i] := code;
    out[i + 1] := |data| % 256;
    for k := 0 to |data|
      invariant out[i] == code && out[i + 1] == |data| % 256
      invariant forall j :: 0 <= j < k ==> out[i + 2 + j] == data[j]
      invariant forall j :: 0 <= j < i || i + 2 + k <= j < out.Length ==> out[j] == old(out[j])
    {
      out[i + 2 + k] := data[k];
    }
    next := i + 2 + |data|;
  }

  // ---------------------------------------------------------------- reading what was written

  /** Codes 0 and 255 have no length byte, and one length byte counts at most 255. */
  predicate Writable(it: Item) {
    it.Opt? ==> it.code != PAD && it.code != END && |it.data| < 256
  }

  predicate Encodable(items: seq<Item>) {
    items == [] || (Writable(items[0]) && Encodable(items[1..]))
  }

  predicate CarriesType(it: Item) {
    it.Opt? && it.code == MESSAGE_TYPE && it.data != []
  }

  /** The first byte of the first option 53 that has one. */
  function FirstType(items: seq<Item>): Option<byte> {
    if items == [] then None
    else if CarriesType(items[0]) then Some(items[0].data[0])
    else FirstType(items[1..])
  }

  /** `s` stands at offset `i`. */
  predicate At(req: seq<byte>, i: nat, s: seq<byte>) {
    i + |s| <= |req| && forall k :: 0 <= k < |s| ==> req[i + k] == s[k]
  }

  lemma {:induction false} AtSplit(req: seq<byte>, i: nat, a: seq<byte>, b: seq<byte>)
    requires At(req, i, a + b)
    ensures At(req, i, a) && At(req, i + |a|, b)
  {
    forall k | 0 <= k < |a| ensures req[i + k] == a[k] {
      assert (a + b)[k] == a[k];
    }
    forall k | 0 <= k < |b| ensures req[i + |a| + k] == b[k] {
      assert (a + b)[|a| + k] == req[i + (|a| + k)];
    }
  }

  lemma {:induction false} WalkOpt(req: seq<byte>, i: nat, code: byte, data: seq<byte>)
    requires code != PAD && code != END && |data| < 256 && i + 2 + |data| <= |req|
    requires forall k :: 0 <= k < 2 + |data| ==> req[i + k] == OptBytes(code, data)[k]
    ensures Walk(req, i) == if code == MESSAGE_TYPE && data != [] then Some(data[0]) else Walk(req, i + 2 + |data|)
  {
    assert req[i + 0] == OptBytes(code, data)[0];
    assert req[i + 1] == OptBytes(code, data)[1];
    if data != [] {
      assert req[i + 2] == OptBytes(code, data)[2];
    }
  }

  lemma {:induction false} WalkItem(req: seq<byte>, i: nat, it: Item)
    requires Writable(it) && i + |ItemBytes(it)| < |req|
    requires forall k :: 0 <= k < |ItemBytes(it)| ==> req[i + k] == ItemBytes(it)[k]
    ensures Walk(req, i) == if CarriesType(it) then Some(it.data[0]) else Walk(req, i + |ItemBytes(it)|)
  {
    match it
    case Pad => assert req[i + 0] == ItemBytes(it)[0];
    case Opt(code, data) => WalkOpt(req, i, code, data);
  }

  /** The items' bytes stand one after the other from `i`, with the end option behind them. */
  predicate Laid(req: seq<byte>, i: nat, items: seq<Item>)
    decreases |items|
  {
    if items == [] then i < |req| && req[i] == END
    else Here(req, i, items[0]) && Laid(req, i + |ItemBytes(items[0])|, items[1..])
  }

  predicate Here(req: seq<byte>, i: nat, it: Item) {
    i + |ItemBytes(it)| < |req| && At(req, i, ItemBytes(it))
  }

  lemma {:induction false} WalkItems(req: seq<byte>, i: nat, items: seq<Item>)
    requires Encodable(items) && Laid(req, i, items)
    ensures Walk(req, i) == FirstType(items)
    decreases |items|
  {
    if items != [] {
      WalkItem(req, i, items[0]);
      WalkItems(req, i + |ItemBytes(items[0])|, items[1..]);
    }
  }

  /** The items' bytes in front of `end`. */
  function ItemsBefore(items: seq<Item>, end: seq<byte>): (r: seq<byte>)
    ensures end != [] ==> r != []
  {
    if items == [] then end else ItemBytes(items[0]) + ItemsBefore(items[1..], end)
  }

  lemma {:induction false} ItemsThenEnd(items: seq<Item>, end: seq<byte>)
    ensures ItemsBytes(items) + end == ItemsBefore(items, end)
  {
    if items == [] {
      assert [] + end == end;
    } else {
      ItemsThenEnd(items[1..], end);
      assert ItemsBytes(items) + end == ItemBytes(items[0]) + (ItemsBytes(items[1..]) + end);
    }
  }

  lemma {:induction false} LaidFirst(req: seq<byte>, i: nat, it: Item, rest: seq<byte>)
    requires At(req, i, ItemBytes(it) + rest) && rest != []
    ensures Here(req, i, it) && At(req, i + |ItemBytes(it)|, rest)
  {
    AtSplit(req, i, ItemBytes(it), rest);
  }

  lemma {:induction false} LaidStep(req: seq<byte>, i: nat, items: seq<Item>, end: seq<byte>)
    requires items != [] && At(req, i, ItemsBefore(items, end)) && end != []
    ensures Here(req, i, items[0]) && At(req, i + |ItemBytes(items[0])|, ItemsBefore(items[1..], end))
  {
    LaidFirst(req, i, items[0], ItemsBefore(items[1..], end));
  }

  lemma {:induction false} LaidEnd(req: seq<byte>, i: nat, end: seq<byte>)
    requires At(req, i, end) && end != [] && end[0] == END
    ensures Laid(req, i, [])
  {
    assert req[i + 0] == end[0];
  }

  lemma {:induction false} LaidOut(req: seq<byte>, i: nat, items: seq<Item>, end: seq<byte>)
    requires At(req, i, ItemsBefore(items, end)) && end != [] && end[0] == END
    ensures Laid(req, i, items)
    decreases |items|
  {
    if items == [] {
      LaidEnd(req, i, end);
    } else {
      LaidStep(req, i, items, end);
      LaidOut(req, i + |ItemBytes(items[0])|, items[1..], end);
      LaidCons(req, i, items);
    }
  }

  lemma {:induction false} LaidCons(req: seq<byte>, i: nat, items: seq<Item>)
    requires items != [] && Here(req, i, items[0]) && Laid(req, i + |ItemBytes(items[0])|, items[1..])
    ensures Laid(req, i, items)
  {
  }

  lemma {:induction false} Layout(head: seq<byte>, bytes: seq<byte>, tail: seq<byte>)
    requires |head| == 236
    ensures var req := head + MAGIC + bytes + [END] + tail;
            |req| > OPTIONS && req[236..OPTIONS] == MAGIC && At(req, OPTIONS, bytes + ([END] + tail))
  {
  }

  /** Whatever comes before the cookie and after the end option, the type read is the first byte of the
      first non-empty option 53, or nothing. */
  lemma {:induction false} ReadsFirstType(head: seq<byte>, items: seq<Item>, tail: seq<byte>)
    requires |head| == 236 && Encodable(items)
    ensures MsgType(head + MAGIC + ItemsBytes(items) + [END] + tail) == FirstType(items)
  {
    var req := head + MAGIC + ItemsBytes(items) + [END] + tail;
    Layout(head, ItemsBytes(items), tail);
    ItemsThenEnd(items, [END] + tail);
    LaidOut(req, OPTIONS, items, [END] + tail);
    WalkItems(req, OPTIONS, items);
  }

  /** Longer data would not read back: its length byte wraps and its bytes are taken for options. */
  lemma {:induction false} LongDataMisread(head: seq<byte>, t: byte)
    requires |head| == 236
    ensures var items := [Opt(60, [MESSAGE_TYPE, 1, t] + Repeat(0, 253))];
            FirstType(items) == None && MsgType(head + MAGIC + ItemsBytes(items) + [END]) == Some(t)
  {
    var data := [MESSAGE_TYPE, 1, t] + Repeat(0, 253);
    OneItem(Opt(60, data));
    assert FirstType([]) == None;
    assert [Opt(60, data)][1..] == [];
    var req := head + MAGIC + OptBytes(60, data) + [END];
    assert req[236..OPTIONS] == MAGIC;
    MisreadBytes(head + MAGIC, data, t);
    MisreadWalk(req, t);
  }

  lemma {:induction false} OneItem(it: Item)
    ensures ItemsBytes([it]) == ItemBytes(it)
  {
    assert [it][1..] == [];
  }

  lemma {:induction false} MisreadBytes(a: seq<byte>, data: seq<byte>, t: byte)
    requires |a| == OPTIONS && |data| == 256 && data[0] == MESSAGE_TYPE && data[1] == 1 && data[2] == t
    ensures var req := a + OptBytes(60, data) + [END];
            req[240] == 60 && req[241] == 0 && req[242] == MESSAGE_TYPE && req[243] == 1 && req[244] == t
  {
    var opt := OptBytes(60, data);
    assert opt[0] == 60 && opt[1] == 0 && opt[2] == data[0] && opt[3] == data[1] && opt[4] == data[2];
  }

  lemma {:induction false} MisreadWalk(req: seq<byte>, t: byte)
    requires |req| > 245 && req[240] == 60 && req[241] == 0
    requires req[242] == MESSAGE_TYPE && req[243] == 1 && req[244] == t
    ensures Walk(req, OPTIONS) == Some(t)
  {
    assert Walk(req, 242) == Some(t);
  }

  // ---------------------------------------------------------------- the reply

  function ReplyItems(msgType: byte): seq<Item> {
    [Opt(53, [msgType]), Opt(54, AP_IP), Opt(51, LEASE), Opt(1, [255, 255, 255, 0]), Opt(3, AP_IP), Opt(6, AP_IP)]
  }

  /** Byte `j` of the fixed part: the client's transaction id, flags and hardware address come back. */
  function HeadByte(req: seq<byte>, j: nat): byte
    requires |req| >= 44
  {
    if j == 0 then 2
    else if j == 1 then 1
    else if j == 2 then 6
    else if 4 <= j < 8 || 10 <= j < 12 || 28 <= j < 44 then req[j]
    else if 16 <= j < 20 then CLIENT_IP[j - 16]
    else if 20 <= j < 24 then AP_IP[j - 20]
    else if 236 <= j < 240 then MAGIC[j - 236]
    else 0
  }

  function Head(req: seq<byte>): seq<byte>
    requires |req| >= 44
  {
    seq(OPTIONS, j requires 0 <= j < OPTIONS => HeadByte(req, j))
  }

  method Copy(out: array<byte>, lo: nat, src: seq<byte>)
    requires lo + |src| <= out.Length
    modifies out
    ensures forall j :: 0 <= j < out.Length ==>
                          out[j] == if lo <= j < lo + |src| then src[j - lo] else old(out[j])
  {
    for k := 0 to |src|
      invariant forall j :: 0 <= j < out.Length ==>
                              out[j] == if lo <= j < lo + k then src[j - lo] else old(out[j])
    {
      out[lo + k] := src[k];
    }
  }

  method WriteHead(req: seq<byte>, out: array<byte>)
    requires |req| >= 44 && out.Length == 300
    modifies out
    ensures out[..OPTIONS] == Head(req)
    ensures forall j :: OPTIONS <= j < 300 ==> out[j] == 0
  {
    for k := 0 to 300
      invariant forall j :: 0 <= j < k ==> out[j] == 0
    {
      out[k] := 0;
    }
    out[0], out[1], out[2] := 2, 1, 6;
    Copy(out, 4, req[4..8]);
    Copy(out, 10, req[10..12]);
    Copy(out, 16, CLIENT_IP);
    Copy(out, 20, AP_IP);
    Copy(out, 28, req[28..44]);
    Copy(out, 236, MAGIC);
    assert forall j :: 0 <= j < OPTIONS ==> out[j] == HeadByte(req, j);
  }

  lemma {:induction false} ItemsSnoc(items: seq<Item>, it: Item)
    ensures ItemsBytes(items + [it]) == ItemsBytes(items) + ItemBytes(it)
  {
    if items == [] {
      assert [it][1..] == [];
      assert items + [it] == [it];
    } else {
      assert (items + [it])[1..] == items[1..] + [it];
      ItemsSnoc(items[1..], it);
    }
  }

  lemma {:induction false} NextOption(head: seq<byte>, items: seq<Item>, code: byte, data: seq<byte>)
    ensures (head + ItemsBytes(items)) + OptBytes(code, data) == head + ItemsBytes(items + [Opt(code, data)])
  {
    ItemsSnoc(items, Opt(code, data));
    Regrouped(head, ItemsBytes(items), OptBytes(code, data));
  }

  lemma {:induction false} Regrouped(a: seq<byte>, b: seq<byte>, c: seq<byte>)
    ensures (a + b) + c == a + (b + c)
  {
  }

  /** Appends one more option to a buffer that holds the head and the options before it. */
  method PutNext(out: array<byte>, i: nat, code: byte, data: seq<byte>, ghost head: seq<byte>, ghost items: seq<Item>)
    returns (next: nat)
    requires i + 2 + |data| <= out.Length
    requires out[..i] == head + ItemsBytes(items)
    requires forall j :: i <= j < out.Length ==> out[j] == 0
    modifies out
    ensures next == i + 2 + |data|
    ensures out[..next] == head + ItemsBytes(items + [Opt(code, data)])
    ensures forall j :: next <= j < out.Length ==> out[j] == 0
  {
    next := PutOpt(out, i, code, data);
    NextOption(head, items, code, data);
  }

  method BuildDhcpReply(req: seq<byte>, msgType: byte, out: array<byte>) returns (n: nat)
    requires |req| >= 44 && out.Length == 300
    modifies out
    ensures n == 274
    ensures out[..] == Head(req) + ItemsBytes(ReplyItems(msgType)) + [END] + Repeat(0, 26)
  {
    WriteHead(req, out);
    ghost var head := Head(req);
    var i := OPTIONS;
    ghost var done: seq<Item> := [];
    assert out[..i] == head + ItemsBytes(done);
    i := PutNext(out, i, 53, [msgType], head, done);
    done := done + [Opt(53, [msgType])];
    i := PutNext(out, i, 54, AP_IP, head, done);
    done := done + [Opt(54, AP_IP)];
    i := PutNext(out, i, 51, LEASE, head, done);
    done := done + [Opt(51, LEASE)];
    i := PutNext(out, i, 1, [255, 255, 255, 0], head, done);
    done := done + [Opt(1, [255, 255, 255, 0])];
    i := PutNext(out, i, 3, AP_IP, head, done);
    done := done + [Opt(3, AP_IP)];
    i := PutNext(out, i, 6, AP_IP, head, done);
    done := done + [Opt(6, AP_IP)];
    assert done == ReplyItems(msgType);
    out[i] := END;
    n := i + 1;
    assert out[..i] == head + ItemsBytes(done);
    assert out[n..] == Repeat(0, 26);
    assert out[..] == out[..i] + [END] + out[n..];
  }

  lemma {:induction false} EncodableIf(items: seq<Item>)
    requires forall i :: 0 <= i < |items| ==> Writable(items[i])
    ensures Encodable(items)
  {
    if items != [] {
      EncodableIf(items[1..]);
    }
  }

  /** Reading the reply gives back the message type it was built with, from the sent bytes alone or
      from the whole buffer. */
  lemma {:induction false} ReplyReadsBack(req: seq<byte>, t: byte, padding: nat)
    requires |req| >= 44
    ensures MsgType(Head(req) + ItemsBytes(ReplyItems(t)) + [END] + Repeat(0, padding)) == Some(t)
  {
    var head := Head(req);
    assert head == head[..236] + MAGIC;
    EncodableIf(ReplyItems(t));
    ReadsFirstType(head[..236], ReplyItems(t), Repeat(0, padding));
    assert head[..236] + MAGIC + ItemsBytes(ReplyItems(t)) == head + ItemsBytes(ReplyItems(t));
  }

  // ---------------------------------------------------------------- the server

  /** The type of the reply the server sends to a datagram, if it answers at all. */
  function ReplyType(req: seq<byte>): Option<byte> {
    if |req| < OPTIONS || req[0] != 1 then None
    else
      match MsgType(req)
      case Some(t) => if t == 1 then Some(2) else if t == 3 then Some(5) else None
      case None => None
  }

  /** One turn of the server loop: `n` bytes of `out` are sent, none when `n` is zero. */
  method Serve(req: seq<byte>, out: array<byte>) returns (n: nat)
    requires out.Length == 300
    modifies out
    ensures n == (if ReplyType(req).Some? then 274 else 0)
    ensures n == 0 ==> out[..] == old(out[..])
    ensures n > 0 ==> out[..n] == Head(req) + ItemsBytes(ReplyItems(ReplyType(req).value)) + [END]
    ensures n > 0 ==> ReplyType(out[..n]) == None
    ensures n > 0 ==> Addressed(req, out[..n]) && Leased(out[..n], ReplyType(req).value)
  {
    if |req| < OPTIONS || req[0] != 1 {
      return 0;
    }
    var t := DhcpMsgType(req);
    var replyType;
    if t == Some(1) {
      replyType := 2;
    } else if t == Some(3) {
      replyType := 5;
    } else {
      return 0;
    }
    n := BuildDhcpReply(req, replyType, out);
    assert |ItemsBytes(ReplyItems(replyType))| == 33 by { ReplyLength(replyType); }
    assert out[..n] == Head(req) + ItemsBytes(ReplyItems(replyType)) + [END];
    ClientReads(req, replyType);
  }

  /** What the server reads of a request is the first byte of the option 53 that its client wrote. */
  lemma {:induction false} WalkIsLookup(req: seq<byte>, i: nat)
    requires Lookup(req, 53, i).Some? && Lookup(req, 53, i).value != []
    ensures Walk(req, i) == Some(Lookup(req, 53, i).value[0])
    decreases |req| - i
  {
    if req[i] == 0 {
      WalkIsLookup(req, i + 1);
    } else if req[i] != 53 {
      WalkIsLookup(req, i + 2 + req[i + 1]);
    }
  }

  /** A DISCOVER (1) is answered by an OFFER (2), a REQUEST (3) by an ACK (5), and nothing else. */
  lemma {:induction false} AnswersByType(req: seq<byte>)
    requires |req| >= 240 && req[0] == 1 && req[236..240] == [99, 130, 83, 99]
    requires Lookup(req, 53, 240).Some? && Lookup(req, 53, 240).value != []
    ensures var t := Lookup(req, 53, 240).value[0];
      ReplyType(req) == if t == 1 then Some(2) else if t == 3 then Some(5) else None
  {
    WalkIsLookup(req, 240);
  }

  /** Nor is anything that is no request of a DHCP client. */
  lemma {:induction false} IgnoresOthers(req: seq<byte>)
    requires |req| < 240 || req[0] != 1 || req[236..240] != [99, 130, 83, 99]
    ensures ReplyType(req) == None
  {
  }

  // ---------------------------------------------------------------- what the client reads

  /** The data of the first option with this code. */
  function FirstData(items: seq<Item>, code: byte): Option<seq<byte>> {
    if items == [] then None
    else if items[0].Opt? && items[0].code == code then Some(items[0].data)
    else FirstData(items[1..], code)
  }

  lemma {:induction false} LookupItem(msg: seq<byte>, i: nat, it: Item, code: byte)
    requires Writable(it) && Here(msg, i, it) && code != PAD && code != END
    ensures Lookup(msg, code, i) ==
      if it.Opt? && it.code == code then Some(it.data) else Lookup(msg, code, i + |ItemBytes(it)|)
  {
    var b := ItemBytes(it);
    assert msg[i + 0] == b[0];
    if it.Opt? {
      assert msg[i + 1] == b[1];
      assert msg[i + 2..i + 2 + |it.data|] == it.data by {
        forall k | 0 <= k < |it.data| ensures msg[i + 2..i + 2 + |it.data|][k] == it.data[k] {
          assert msg[i + (2 + k)] == b[2 + k];
        }
      }
    }
  }

  /** What a lookup finds among laid-out items, for any way to look. */
  ghost predicate Steps(look: nat -> Option<seq<byte>>, i: nat, items: seq<Item>, code: byte)
    decreases |items|
  {
    if items == [] then look(i) == None
    else
      var (it, next) := (items[0], i + |ItemBytes(items[0])|);
      look(i) == (if it.Opt? && it.code == code then Some(it.data) else look(next)) &&
      Steps(look, next, items[1..], code)
  }

  lemma {:induction false} StepsFind(look: nat -> Option<seq<byte>>, i: nat, items: seq<Item>, code: byte)
    requires Steps(look, i, items, code)
    ensures look(i) == FirstData(items, code)
    decreases |items|
  {
    if items != [] {
      StepsFind(look, i + |ItemBytes(items[0])|, items[1..], code);
    }
  }

  function Lookups(msg: seq<byte>, code: byte): nat -> Option<seq<byte>> {
    (i: nat) => Lookup(msg, code, i)
  }

  lemma {:induction false} LaidRest(msg: seq<byte>, i: nat, items: seq<Item>)
    requires Encodable(items) && Laid(msg, i, items) && items != []
    ensures Writable(items[0]) && Here(msg, i, items[0])
    ensures Encodable(items[1..]) && Laid(msg, i + |ItemBytes(items[0])|, items[1..])
  {
  }

  lemma {:induction false} LookupFirst(msg: seq<byte>, i: nat, items: seq<Item>, code: byte)
    requires items != [] && Writable(items[0]) && Here(msg, i, items[0]) && code != PAD && code != END
    ensures Lookups(msg, code)(i) ==
      if items[0].Opt? && items[0].code == code then Some(items[0].data)
      else Lookups(msg, code)(i + |ItemBytes(items[0])|)
  {
    LookupItem(msg, i, items[0], code);
  }

  lemma {:induction false} LookupSteps(msg: seq<byte>, i: nat, items: seq<Item>, code: byte)
    requires Encodable(items) && Laid(msg, i, items) && code != PAD && code != END
    ensures Steps(Lookups(msg, code), i, items, code)
    decreases |items|
  {
    if items != [] {
      LaidRest(msg, i, items);
      LookupFirst(msg, i, items, code);
      LookupSteps(msg, i + |ItemBytes(items[0])|, items[1..], code);
      StepsCons(Lookups(msg, code), i, items, code);
    }
  }

  lemma {:induction false} StepsCons(look: nat -> Option<seq<byte>>, i: nat, items: seq<Item>, code: byte)
    requires items != [] && Steps(look, i + |ItemBytes(items[0])|, items[1..], code)
    requires look(i) ==
      if items[0].Opt? && items[0].code == code then Some(items[0].data) else look(i + |ItemBytes(items[0])|)
    ensures Steps(look, i, items, code)
  {
  }

  lemma {:induction false} LookupItems(msg: seq<byte>, i: nat, items: seq<Item>, code: byte)
    requires Encodable(items) && Laid(msg, i, items) && code != PAD && code != END
    ensures Lookup(msg, code, i) == FirstData(items, code)
  {
    LookupSteps(msg, i, items, code);
    StepsFind(Lookups(msg, code), i, items, code);
  }

  lemma {:induction false} FirstDataCons(it: Item, rest: seq<Item>, code: byte)
    ensures FirstData([it] + rest, code) ==
      if it.Opt? && it.code == code then Some(it.data) else FirstData(rest, code)
  {
    assert ([it] + rest)[1..] == rest;
  }

  lemma {:induction false} DataOf(t: byte, code: byte)
    ensures FirstData(ReplyItems(t), code) ==
      if code == 53 then Some([t]) else if code == 54 then Some(AP_IP) else if code == 51 then Some(LEASE)
      else if code == 1 then Some([255, 255, 255, 0]) else if code == 3 || code == 6 then Some(AP_IP) else None
  {
    var i6 := [Opt(6, AP_IP)];
    var i3 := [Opt(3, AP_IP)] + i6;
    var i1 := [Opt(1, [255, 255, 255, 0])] + i3;
    var i51 := [Opt(51, LEASE)] + i1;
    var i54 := [Opt(54, AP_IP)] + i51;
    assert [Opt(6, AP_IP)] + [] == i6 && FirstData([], code) == None;
    FirstDataCons(Opt(6, AP_IP), [], code);
    FirstDataCons(Opt(3, AP_IP), i6, code);
    FirstDataCons(Opt(1, [255, 255, 255, 0]), i3, code);
    FirstDataCons(Opt(51, LEASE), i1, code);
    FirstDataCons(Opt(54, AP_IP), i51, code);
    FirstDataCons(Opt(53, [t]), i54, code);
    assert ReplyItems(t) == [Opt(53, [t])] + i54;
  }

  lemma {:induction false} ReplyOption(req: seq<byte>, t: byte, code: byte)
    requires |req| >= 44 && code != PAD && code != END
    ensures Lookup(Head(req) + ItemsBytes(ReplyItems(t)) + [END], code, OPTIONS) == FirstData(ReplyItems(t), code)
  {
    var (head, items) := (Head(req), ReplyItems(t));
    var msg := head + ItemsBytes(items) + [END];
    assert head == head[..236] + MAGIC;
    Layout(head[..236], ItemsBytes(items), []);
    assert msg == head[..236] + MAGIC + ItemsBytes(items) + [END] + [];
    assert [END] + [] == [END];
    ItemsThenEnd(items, [END]);
    LaidOut(msg, OPTIONS, items, [END]);
    EncodableIf(items);
    LookupItems(msg, OPTIONS, items, code);
  }

  lemma {:induction false} HeadIsAddressed(req: seq<byte>, rest: seq<byte>)
    requires |req| >= 44
    ensures Addressed(req, Head(req) + rest)
  {
    var (head, msg) := (Head(req), Head(req) + rest);
    assert forall j :: 0 <= j < OPTIONS ==> msg[j] == HeadByte(req, j);
  }

  /** What a client reads of the reply to its request. */
  lemma {:induction false} ClientReads(req: seq<byte>, t: byte)
    requires |req| >= 44
    ensures var msg := Head(req) + ItemsBytes(ReplyItems(t)) + [END];
      Addressed(req, msg) && Leased(msg, t)
  {
    var items := ItemsBytes(ReplyItems(t));
    HeadIsAddressed(req, items + [END]);
    assert Head(req) + items + [END] == Head(req) + (items + [END]);
    forall code: byte | code != PAD && code != END
      ensures Lookup(Head(req) + items + [END], code, OPTIONS) == FirstData(ReplyItems(t), code)
    {
      ReplyOption(req, t, code);
    }
    DataOf(t, 53);
    DataOf(t, 54);
    DataOf(t, 51);
    DataOf(t, 1);
    DataOf(t, 3);
    DataOf(t, 6);
  }

  lemma {:induction false} ReplyLength(t: byte)
    ensures |ItemsBytes(ReplyItems(t))| == 33
  {
    var a := [Opt(53, [t]), Opt(54, AP_IP), Opt(51, LEASE)];
    var b := [Opt(1, [255, 255, 255, 0]), Opt(3, AP_IP), Opt(6, AP_IP)];
    ThreeItems(a);
    ThreeItems(b);
    assert ReplyItems(t) == a + b;
    ItemsJoin(a, b);
  }

  lemma {:induction false} ItemsJoin(a: seq<Item>, b: seq<Item>)
    ensures ItemsBytes(a + b) == ItemsBytes(a) + ItemsBytes(b)
  {
    if a == [] {
      assert a + b == b;
    } else {
      assert (a + b)[1..] == a[1..] + b;
      ItemsJoin(a[1..], b);
    }
  }

  lemma {:induction false} ThreeItems(s: seq<Item>)
    requires |s| == 3
    ensures |ItemsBytes(s)| == |ItemBytes(s[0])| + |ItemBytes(s[1])| + |ItemBytes(s[2])|
  {
    assert s[1..][0] == s[1] && s[1..][1..] == [s[2]] && [s[2]][1..] == [];
    assert |ItemsBytes([s[2]])| == |ItemBytes(s[2])|;
    assert |ItemsBytes(s[1..])| == |ItemBytes(s[1])| + |ItemsBytes([s[2]])|;
  }
}

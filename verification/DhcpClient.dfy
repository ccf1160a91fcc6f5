/** How a client reads a reply: the fixed fields by their offsets and the options by their codes
    (RFC 2131, section 2; RFC 2132, section 2). */
module DhcpClients {
  import opened Wrappers
  import opened Bytes

  /** The data of the first option with this code, from offset `i` of the options. */
  function Lookup(msg: seq<byte>, code: byte, i: nat): Option<seq<byte>>
    decreases |msg| - i
  {
    if i >= |msg| || msg[i] == 255 then None
    else if msg[i] == 0 then Lookup(msg, code, i + 1)
    else if i + 1 >= |msg| || i + 2 + msg[i + 1] > |msg| then None
    else if msg[i] == code then Some(msg[i + 2..i + 2 + msg[i + 1]])
    else Lookup(msg, code, i + 2 + msg[i + 1])
  }

  function Seconds(data: seq<byte>): nat
    requires |data| == 4
  {
    0x100_0000 * (data[0] as int) + 0x1_0000 * (data[1] as int) + 0x100 * (data[2] as int) + (data[3] as int)
  }

  /** Addresses that agree wherever the mask has a full byte; a byte of it is full or zero. */
  predicate SameSubnet(a: seq<byte>, b: seq<byte>, mask: seq<byte>) {
    |a| == |b| == |mask| == 4 && forall i :: 0 <= i < 4 ==> (mask[i] == 255 && a[i] == b[i]) || mask[i] == 0
  }

  /** The fixed part: a reply on Ethernet to this request, with no second file or name, that offers
      192.168.4.2 on behalf of 192.168.4.1. */
  predicate Addressed(req: seq<byte>, msg: seq<byte>) {
    && 240 <= |msg| && 44 <= |req|
    && msg[0] == 2 && msg[1] == 1 && msg[2] == 6 && msg[3] == 0
    && msg[4..8] == req[4..8] && msg[10..12] == req[10..12] && msg[28..44] == req[28..44]
    && msg[8] == 0 && msg[9] == 0 && msg[12..16] == [0, 0, 0, 0] && msg[24..28] == [0, 0, 0, 0]
    && msg[16..20] == [192, 168, 4, 2] && msg[20..24] == [192, 168, 4, 1]
    && (forall j :: 44 <= j < 236 ==> msg[j] == 0)
    && msg[236..240] == [99, 130, 83, 99]
  }

  /** The options: the type, the server, a lease of two hours, and a network in which the client can reach the
      router, which is the server and not the client. */
  predicate Leased(msg: seq<byte>, msgType: byte) {
    var (server, lease, mask) := (Lookup(msg, 54, 240), Lookup(msg, 51, 240), Lookup(msg, 1, 240));
    var (router, dns) := (Lookup(msg, 3, 240), Lookup(msg, 6, 240));
    && |msg| >= 240
    && Lookup(msg, 53, 240) == Some([msgType])
    && server == Some([192, 168, 4, 1]) && server == router == dns
    && lease.Some? && |lease.value| == 4 && Seconds(lease.value) == 7200
    && mask == Some([255, 255, 255, 0])
    && SameSubnet(msg[16..20], router.value, mask.value) && msg[16..20] != router.value
  }
}

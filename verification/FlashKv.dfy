/** The flash-backed key-value store: `crates/firmware-nostd/src/nvs.rs`. */
module FlashKvs {
  import opened Bytes
  import opened Wrappers

  const REGION_OFFSET: nat := 0x9000
  const REGION_LEN: nat := 8 * 1024
  const MAGIC: seq<byte> := [0x57, 0x43, 0x4B, 0x56]
  const VERSION: nat := 1
  const ERASED: byte := 0xFF

  /** The next multiple of four. */
  function Pad4(n: nat): (r: nat)
    ensures n <= r < n + 4
  {
    if n == 0 then 0 else if n <= 4 then 4 else 4 + Pad4(n - 4)
  }

  predicate Aligned(n: nat) {
    Pad4(n) == n
  }

  /** Rounding as the source does it, with a mask. */
  lemma {:induction false} Pad4IsMask(n: nat)
    ensures Pad4(n) == (n + 3) / 4 * 4
  {
    if n > 4 {
      Pad4IsMask(n - 4);
    }
  }

  lemma {:induction false} PadsOn(pos: nat, n: nat)
    requires Aligned(pos)
    ensures Pad4(pos + n) == pos + Pad4(n)
  {
    if pos > 0 {
      PadsOn(pos - 4, n);
    }
  }

  lemma {:induction false} PadAligned(n: nat)
    ensures Aligned(Pad4(n))
  {
    if n > 4 {
      PadAligned(n - 4);
    }
  }

  lemma {:induction false} NextAligned(pos: nat, e: Entry)
    requires Aligned(pos)
    ensures Aligned(pos + Size(e))
  {
    PadsOn(pos, 8);
    PadAligned(|e.key|);
    PadsOn(pos + 8, Pad4(|e.key|));
    PadAligned(|e.value|);
    PadsOn(pos + 8 + Pad4(|e.key|), Pad4(|e.value|));
  }

  // ----- the RAM cache: an ordered map from UTF-8 keys to bytes -----

  datatype Entry = Entry(key: seq<byte>, value: seq<byte>)

  predicate Less(a: seq<byte>, b: seq<byte>) {
    b != [] && (a == [] || a[0] < b[0] || (a[0] == b[0] && Less(a[1..], b[1..])))
  }

  ghost predicate Ordered(m: seq<Entry>) {
    forall i, j :: 0 <= i < j < |m| ==> Less(m[i].key, m[j].key)
  }

  function Lookup(m: seq<Entry>, key: seq<byte>): Option<seq<byte>> {
    if m == [] then None
    else if m[0].key == key then Some(m[0].value)
    else Lookup(m[1..], key)
  }

  function Put(m: seq<Entry>, key: seq<byte>, value: seq<byte>): seq<Entry> {
    if m == [] || Less(key, m[0].key) then [Entry(key, value)] + m
    else if m[0].key == key then [Entry(key, value)] + m[1..]
    else [m[0]] + Put(m[1..], key, value)
  }

  function Delete(m: seq<Entry>, key: seq<byte>): seq<Entry> {
    if m == [] then []
    else if m[0].key == key then m[1..]
    else [m[0]] + Delete(m[1..], key)
  }

  lemma {:induction false} LessOrder(a: seq<byte>, b: seq<byte>)
    ensures !Less(a, a)
    ensures Less(a, b) ==> !Less(b, a)
    ensures a != b ==> Less(a, b) || Less(b, a)
  {
    if a != [] && b != [] {
      LessOrder(a[1..], b[1..]);
      assert a == [a[0]] + a[1..] && b == [b[0]] + b[1..];
    }
    if a != [] {
      LessOrder(a[1..], a[1..]);
    }
  }

  lemma {:induction false} LessTransitive(a: seq<byte>, b: seq<byte>, c: seq<byte>)
    requires Less(a, b) && Less(b, c)
    ensures Less(a, c)
  {
    if a != [] && a[0] == b[0] == c[0] {
      LessTransitive(a[1..], b[1..], c[1..]);
    }
  }

  /** Putting keeps the order and every key but the one put. */
  lemma {:induction false} PutOrdered(m: seq<Entry>, key: seq<byte>, value: seq<byte>)
    requires Ordered(m)
    ensures Ordered(Put(m, key, value))
    ensures forall e :: e in Put(m, key, value) ==> e in m || e == Entry(key, value)
  {
    if m == [] {
    } else if Less(key, m[0].key) {
      forall j | 0 <= j < |m|
        ensures Less(key, m[j].key)
      {
        if j > 0 { LessTransitive(key, m[0].key, m[j].key); }
      }
    } else if m[0].key != key {
      PutOrdered(m[1..], key, value);
      LessOrder(key, m[0].key);
      var r := Put(m[1..], key, value);
      forall j | 0 <= j < |r|
        ensures Less(m[0].key, r[j].key)
      {
        assert r[j] in r;
      }
    }
  }

  lemma {:induction false} LookupPut(m: seq<Entry>, key: seq<byte>, value: seq<byte>, other: seq<byte>)
    requires Ordered(m)
    ensures Lookup(Put(m, key, value), other) == if other == key then Some(value) else Lookup(m, other)
  {
    if m == [] {
    } else if Less(key, m[0].key) {
      LessOrder(key, m[0].key);
      assert ([Entry(key, value)] + m)[1..] == m;
    } else if m[0].key != key {
      LookupPut(m[1..], key, value, other);
    }
  }

  lemma {:induction false} DeleteOrdered(m: seq<Entry>, key: seq<byte>)
    requires Ordered(m)
    ensures Ordered(Delete(m, key))
    ensures forall e :: e in Delete(m, key) ==> e in m
  {
    if m != [] {
      DeleteOrdered(m[1..], key);
      var r := Delete(m[1..], key);
      forall j | 0 <= j < |r|
        ensures Less(m[0].key, r[j].key)
      {
        assert r[j] in r;
      }
    }
  }

  lemma {:induction false} LookupDelete(m: seq<Entry>, key: seq<byte>, other: seq<byte>)
    requires Ordered(m)
    ensures Lookup(Delete(m, key), other) == if other == key then None else Lookup(m, other)
  {
    if m != [] {
      LookupDelete(m[1..], key, other);
      LookupAbove(m[1..], m[0].key);
    }
  }

  lemma {:induction false} LookupAbove(m: seq<Entry>, key: seq<byte>)
    requires forall e :: e in m ==> Less(key, e.key)
    ensures Lookup(m, key) == None
  {
    if m != [] {
      LessOrder(key, key);
      assert m[0] in m;
      LookupAbove(m[1..], key);
    }
  }

  /** A key above all others goes to the end. */
  lemma {:induction false} PutAppends(m: seq<Entry>, e: Entry)
    requires Ordered(m + [e])
    ensures Put(m, e.key, e.value) == m + [e]
  {
    if m != [] {
      var all := m + [e];
      assert all[0] == m[0] && all[|m|] == e;
      LessOrder(m[0].key, e.key);
      LessOrder(m[0].key, m[0].key);
      assert all[1..] == m[1..] + [e];
      PutAppends(m[1..], e);
    }
  }

  // ----- UTF-8, as `String::from_utf8` accepts it -----

  predicate Tail(b: seq<byte>, i: nat, hi: nat)
    requires hi <= |b|
  {
    i < hi && 0x80 <= b[i] <= 0xBF
  }

  /** The length of the well-formed character at `i`, 0 if there is none before `hi`. */
  function CharLen(b: seq<byte>, i: nat, hi: nat): (n: nat)
    requires i < hi <= |b|
    ensures i + n <= hi
  {
    var h := b[i];
    if h < 0x80 then 1
    else if 0xC2 <= h <= 0xDF && Tail(b, i + 1, hi) then 2
    else if 0xE0 <= h <= 0xEF && Tail(b, i + 1, hi) && Tail(b, i + 2, hi)
      && (h != 0xE0 || b[i + 1] >= 0xA0) && (h != 0xED || b[i + 1] <= 0x9F) then 3
    else if 0xF0 <= h <= 0xF4 && Tail(b, i + 1, hi) && Tail(b, i + 2, hi) && Tail(b, i + 3, hi)
      && (h != 0xF0 || b[i + 1] >= 0x90) && (h != 0xF4 || b[i + 1] <= 0x8F) then 4
    else 0
  }

  /** `b[i..hi]` is UTF-8. */
  predicate Utf8In(b: seq<byte>, i: nat, hi: nat)
    requires i <= hi <= |b|
    decreases hi - i
  {
    i == hi || (CharLen(b, i, hi) > 0 && Utf8In(b, i + CharLen(b, i, hi), hi))
  }

  predicate Utf8(b: seq<byte>) {
    Utf8In(b, 0, |b|)
  }

  lemma {:induction false} Utf8Same(a: seq<byte>, i: nat, hi: nat, b: seq<byte>, d: nat)
    requires i <= hi <= |a| && hi + d <= |b|
    requires forall k :: i <= k < hi ==> a[k] == b[k + d]
    ensures Utf8In(a, i, hi) <==> Utf8In(b, i + d, hi + d)
    decreases hi - i
  {
    if i < hi {
      var n := CharLen(a, i, hi);
      SameCharLen(a, i, hi, b, d);
      if n > 0 {
        Utf8Same(a, i + n, hi, b, d);
      }
    }
  }

  lemma {:induction false} SameCharLen(a: seq<byte>, i: nat, hi: nat, b: seq<byte>, d: nat)
    requires i < hi <= |a| && hi + d <= |b|
    requires forall k :: i <= k < hi ==> a[k] == b[k + d]
    ensures CharLen(a, i, hi) == CharLen(b, i + d, hi + d)
  {
    assert b[i + d] == a[i];
    assert i + 1 < hi ==> a[i + 1] == b[i + 1 + d];
    assert i + 2 < hi ==> a[i + 2] == b[i + 2 + d];
    assert i + 3 < hi ==> a[i + 3] == b[i + 3 + d];
  }

  // ----- the image -----

  function Padded(s: seq<byte>): (r: seq<byte>)
    ensures |r| == Pad4(|s|) && r[..|s|] == s
  {
    s + Repeat(0, Pad4(|s|) - |s|)
  }

  function EncodeEntry(e: Entry): seq<byte> {
    LE32(|e.key|) + LE32(|e.value|) + Padded(e.key) + Padded(e.value)
  }

  /** The bytes an entry takes. */
  function Size(e: Entry): nat {
    8 + Pad4(|e.key|) + Pad4(|e.value|)
  }

  function EncodeAll(m: seq<Entry>): (r: seq<byte>)
    ensures |r| >= |m|
  {
    if m == [] then [] else EncodeEntry(m[0]) + EncodeAll(m[1..])
  }

  function Header(count: nat): seq<byte> {
    MAGIC + LE32(VERSION) + LE32(count)
  }

  function Encode(m: seq<Entry>): seq<byte> {
    Header(|m|) + EncodeAll(m)
  }

  function U32At(buf: seq<byte>, pos: nat): nat
    requires pos + 4 <= |buf|
  {
    (buf[pos] as int) + 0x100 * (buf[pos + 1] as int) +
    0x1_0000 * (buf[pos + 2] as int) + 0x100_0000 * (buf[pos + 3] as int)
  }

  /** An entry's place: its start and the lengths it gives. Padding is counted from the region's start. */
  datatype Span = Span(pos: nat, klen: nat, vlen: nat) {
    function KeyEnd(): nat { pos + 8 + klen }
    function ValueStart(): nat { Pad4(KeyEnd()) }
    function ValueEnd(): nat { ValueStart() + vlen }
    function Next(): nat { Pad4(ValueEnd()) }
  }

  function ReadSpan(buf: seq<byte>, pos: nat): (r: Option<Span>)
    ensures r.Some? ==> InBounds(buf, r.value)
  {
    if pos + 8 > |buf| then None
    else
      var s := Span(pos, U32At(buf, pos), U32At(buf, pos + 4));
      if s.KeyEnd() > |buf| || !Utf8In(buf, pos + 8, s.KeyEnd()) || s.ValueEnd() > |buf| then None else Some(s)
  }

  predicate InBounds(buf: seq<byte>, s: Span) {
    s.ValueEnd() <= |buf|
  }

  function EntryAt(buf: seq<byte>, s: Span): Entry
    requires InBounds(buf, s)
  {
    Entry(buf[s.pos + 8..s.KeyEnd()], buf[s.ValueStart()..s.ValueEnd()])
  }

  /** An entry read, and where the next one starts. */
  datatype Found = Found(entry: Entry, next: nat)

  function ReadEntry(buf: seq<byte>, pos: nat): Option<Found> {
    match ReadSpan(buf, pos)
    case None => None
    case Some(s) => Some(Found(EntryAt(buf, s), s.Next()))
  }

  function ReaderOf(buf: seq<byte>): nat -> Option<Found> {
    (pos: nat) => ReadEntry(buf, pos)
  }

  /** The `count` entries that `read` finds from `pos` on. */
  function EntriesFrom(read: nat -> Option<Found>, pos: nat, count: nat): Option<seq<Entry>>
    decreases count
  {
    if count == 0 then Some([])
    else
      match read(pos)
      case None => None
      case Some(f) => Prepended(f.entry, EntriesFrom(read, f.next, count - 1))
  }

  function Prepended(e: Entry, rest: Option<seq<Entry>>): Option<seq<Entry>> {
    if rest.Some? then Some([e] + rest.value) else None
  }

  function PutEntry(m: seq<Entry>, e: Entry): seq<Entry> {
    Put(m, e.key, e.value)
  }

  /** The entries put into an empty map one after the other. */
  function PutAll(es: seq<Entry>): seq<Entry> {
    if es == [] then [] else PutEntry(PutAll(es[..|es| - 1]), es[|es| - 1])
  }

  function Collected(es: Option<seq<Entry>>): Option<seq<Entry>> {
    if es.Some? then Some(PutAll(es.value)) else None
  }

  /** What a region of any content decodes to. */
  function Decode(buf: seq<byte>): Option<seq<Entry>>
    requires |buf| >= 12
  {
    if buf[0..4] != MAGIC || U32At(buf, 4) != VERSION then None
    else Collected(EntriesFrom(ReaderOf(buf), 12, U32At(buf, 8)))
  }

  // ----- loading what was written -----

  /** `s` stands in the buffer at `pos`. */
  predicate Shows(buf: seq<byte>, pos: nat, s: seq<byte>) {
    pos + |s| <= |buf| && buf[pos..pos + |s|] == s
  }

  lemma {:induction false} ShowsSplit(buf: seq<byte>, pos: nat, a: seq<byte>, b: seq<byte>)
    requires Shows(buf, pos, a + b)
    ensures Shows(buf, pos, a) && Shows(buf, pos + |a|, b)
  {
    assert a == (a + b)[..|a|] && b == (a + b)[|a|..];
  }

  lemma {:induction false} ShowsNumber(buf: seq<byte>, pos: nat, n: nat)
    requires Shows(buf, pos, LE32(n)) && n < U32_MODULUS
    ensures pos + 4 <= |buf| && U32At(buf, pos) == n
  {
    LE32RoundTrip(n);
    var b := buf[pos..pos + 4];
    assert b[0] == buf[pos] && b[1] == buf[pos + 1] && b[2] == buf[pos + 2] && b[3] == buf[pos + 3];
  }

  lemma {:induction false} ShowsPadded(buf: seq<byte>, pos: nat, s: seq<byte>)
    requires Shows(buf, pos, Padded(s))
    ensures pos + Pad4(|s|) <= |buf|
    ensures pos + |s| <= |buf| && buf[pos..pos + |s|] == s
  {
    ShowsSplit(buf, pos, s, Repeat(0, Pad4(|s|) - |s|));
  }

  lemma {:induction false} ShowsFields(buf: seq<byte>, pos: nat, e: Entry)
    requires Shows(buf, pos, EncodeEntry(e))
    ensures Shows(buf, pos, LE32(|e.key|)) && Shows(buf, pos + 4, LE32(|e.value|))
    ensures Shows(buf, pos + 8, Padded(e.key)) && Shows(buf, pos + 8 + Pad4(|e.key|), Padded(e.value))
    ensures |EncodeEntry(e)| == Size(e)
  {
    var (a, b, k, v) := (LE32(|e.key|), LE32(|e.value|), Padded(e.key), Padded(e.value));
    ShowsSplit(buf, pos, a + b + k, v);
    ShowsSplit(buf, pos, a + b, k);
    ShowsSplit(buf, pos, a, b);
  }

  /** Where an entry written at `pos` is found. */
  function SpanOf(pos: nat, e: Entry): Span {
    Span(pos, |e.key|, |e.value|)
  }

  /** Padding from the region's start is padding each part, as every entry starts aligned. */
  lemma {:induction false} SpanPlaces(pos: nat, klen: nat, vlen: nat)
    requires Aligned(pos)
    ensures var (s, v) := (Span(pos, klen, vlen), pos + 8 + Pad4(klen));
      s.ValueStart() == v && s.ValueEnd() == v + vlen && s.Next() == v + Pad4(vlen)
  {
    PadsOn(pos, 8);
    PadsOn(pos + 8, klen);
    PadAligned(klen);
    PadsOn(pos + 8, Pad4(klen));
    PadsOn(pos + 8 + Pad4(klen), vlen);
  }

  lemma {:induction false} ShowsLengths(buf: seq<byte>, pos: nat, e: Entry)
    requires |buf| < U32_MODULUS && Shows(buf, pos, EncodeEntry(e))
    ensures pos + Size(e) <= |buf|
    ensures U32At(buf, pos) == |e.key| && U32At(buf, pos + 4) == |e.value|
  {
    ShowsFields(buf, pos, e);
    ShowsNumber(buf, pos, |e.key|);
    ShowsNumber(buf, pos + 4, |e.value|);
  }

  lemma {:induction false} ShowsParts(buf: seq<byte>, pos: nat, e: Entry)
    requires Shows(buf, pos, EncodeEntry(e))
    ensures Shows(buf, pos + 8, e.key) && Shows(buf, pos + 8 + Pad4(|e.key|), e.value)
  {
    ShowsFields(buf, pos, e);
    ShowsPadded(buf, pos + 8, e.key);
    ShowsPadded(buf, pos + 8 + Pad4(|e.key|), e.value);
  }

  lemma {:induction false} ShowsKey(buf: seq<byte>, pos: nat, e: Entry)
    requires Shows(buf, pos, EncodeEntry(e)) && Utf8(e.key)
    ensures Utf8In(buf, pos + 8, pos + 8 + |e.key|)
  {
    ShowsParts(buf, pos, e);
    ShowsText(buf, pos + 8, e.key);
  }

  lemma {:induction false} ShowsSpan(buf: seq<byte>, pos: nat, e: Entry)
    requires |buf| < U32_MODULUS && Aligned(pos)
    requires Shows(buf, pos, EncodeEntry(e)) && Utf8(e.key)
    ensures ReadSpan(buf, pos) == Some(SpanOf(pos, e))
  {
    ShowsLengths(buf, pos, e);
    ShowsKey(buf, pos, e);
    SpanPlaces(pos, |e.key|, |e.value|);
  }

  lemma {:induction false} ShowsEntry(buf: seq<byte>, pos: nat, e: Entry)
    requires Shows(buf, pos, EncodeEntry(e)) && Aligned(pos)
    ensures InBounds(buf, SpanOf(pos, e)) && EntryAt(buf, SpanOf(pos, e)) == e
    ensures SpanOf(pos, e).Next() == pos + Size(e)
  {
    ShowsParts(buf, pos, e);
    SpanPlaces(pos, |e.key|, |e.value|);
  }

  lemma {:induction false} ShowsText(buf: seq<byte>, pos: nat, s: seq<byte>)
    requires Shows(buf, pos, s) && Utf8(s)
    ensures Utf8In(buf, pos, pos + |s|)
  {
    forall k | 0 <= k < |s|
      ensures s[k] == buf[k + pos]
    {
      assert buf[pos..pos + |s|][k] == buf[k + pos];
    }
    Utf8Same(s, 0, |s|, buf, pos);
  }

  lemma {:induction false} ShowsFirst(buf: seq<byte>, pos: nat, todo: seq<Entry>)
    requires todo != [] && Shows(buf, pos, EncodeAll(todo))
    ensures Shows(buf, pos, EncodeEntry(todo[0]))
    ensures Shows(buf, pos + Size(todo[0]), EncodeAll(todo[1..]))
  {
    ShowsSplit(buf, pos, EncodeEntry(todo[0]), EncodeAll(todo[1..]));
  }

  /** The reader finds these entries one after the other. */
  predicate Places(read: nat -> Option<Found>, pos: nat, todo: seq<Entry>)
    decreases |todo|
  {
    todo != [] ==>
      var next := pos + Size(todo[0]);
      read(pos) == Some(Found(todo[0], next)) && Places(read, next, todo[1..])
  }

  lemma {:induction false} FindsAll(read: nat -> Option<Found>, pos: nat, todo: seq<Entry>)
    requires Places(read, pos, todo)
    ensures EntriesFrom(read, pos, |todo|) == Some(todo)
    decreases |todo|
  {
    if todo != [] {
      var next := pos + Size(todo[0]);
      FindsAll(read, next, todo[1..]);
      FoundFirst(read, pos, Found(todo[0], next), todo[1..]);
      assert todo == [todo[0]] + todo[1..];
    }
  }

  predicate AllText(es: seq<Entry>) {
    es == [] || (Utf8(es[0].key) && AllText(es[1..]))
  }

  lemma {:induction false} AllTextIf(es: seq<Entry>)
    requires forall e :: e in es ==> Utf8(e.key)
    ensures AllText(es)
  {
    if es != [] {
      assert es[0] in es;
      AllTextIf(es[1..]);
    }
  }

  /** The written entries are where the reader looks for them. */
  lemma {:induction false} ShowsPlaces(buf: seq<byte>, pos: nat, todo: seq<Entry>)
    requires |buf| < U32_MODULUS && Aligned(pos)
    requires Shows(buf, pos, EncodeAll(todo))
    requires AllText(todo)
    ensures Places(ReaderOf(buf), pos, todo)
    decreases |todo|
  {
    if todo != [] {
      PlacesStep(buf, pos, todo);
      ShowsPlaces(buf, pos + Size(todo[0]), todo[1..]);
      PlacesFirst(ReaderOf(buf), pos, todo);
    }
  }

  predicate Finds(read: nat -> Option<Found>, pos: nat, e: Entry) {
    read(pos) == Some(Found(e, pos + Size(e)))
  }

  lemma {:induction false} PlacesStep(buf: seq<byte>, pos: nat, todo: seq<Entry>)
    requires |buf| < U32_MODULUS && Aligned(pos) && todo != []
    requires Shows(buf, pos, EncodeAll(todo))
    requires AllText(todo)
    ensures Finds(ReaderOf(buf), pos, todo[0])
    ensures var next := pos + Size(todo[0]);
      Aligned(next) && Shows(buf, next, EncodeAll(todo[1..])) && AllText(todo[1..])
  {
    ShowsFirst(buf, pos, todo);
    ShowsFound(buf, pos, todo[0]);
    NextAligned(pos, todo[0]);
  }

  lemma {:induction false} PlacesFirst(read: nat -> Option<Found>, pos: nat, todo: seq<Entry>)
    requires todo != [] && Finds(read, pos, todo[0])
    requires Places(read, pos + Size(todo[0]), todo[1..])
    ensures Places(read, pos, todo)
  {
  }

  lemma {:induction false} ShowsFound(buf: seq<byte>, pos: nat, e: Entry)
    requires |buf| < U32_MODULUS && Aligned(pos)
    requires Shows(buf, pos, EncodeEntry(e)) && Utf8(e.key)
    ensures ReaderOf(buf)(pos) == Some(Found(e, pos + Size(e)))
  {
    ShowsSpan(buf, pos, e);
    ShowsEntry(buf, pos, e);
  }

  lemma {:induction false} FoundFirst(read: nat -> Option<Found>, pos: nat, f: Found, rest: seq<Entry>)
    requires read(pos) == Some(f) && EntriesFrom(read, f.next, |rest|) == Some(rest)
    ensures EntriesFrom(read, pos, |rest| + 1) == Some([f.entry] + rest)
  {
  }

  /** Putting entries in key order appends them. */
  lemma {:induction false} PutAllAppends(es: seq<Entry>)
    requires Ordered(es)
    ensures PutAll(es) == es
  {
    if es != [] {
      var init, e := es[..|es| - 1], es[|es| - 1];
      assert es == init + [e];
      PutAllAppends(init);
      PutAppends(init, e);
    }
  }

  /** Behind an intact header the entries are loaded. */
  lemma {:induction false} DecodesBody(buf: seq<byte>, count: nat)
    requires Shows(buf, 0, Header(count)) && count < U32_MODULUS
    ensures |buf| >= 12 && Decode(buf) == Collected(EntriesFrom(ReaderOf(buf), 12, count))
  {
    ShowsSplit(buf, 0, MAGIC + LE32(VERSION), LE32(count));
    ShowsSplit(buf, 0, MAGIC, LE32(VERSION));
    ShowsNumber(buf, 4, VERSION);
    ShowsNumber(buf, 8, count);
  }

  /** Every map whose image fits is read back exactly, whatever fills the rest of the region. */
  lemma {:induction false} RoundTrip(m: seq<Entry>, tail: seq<byte>)
    requires Ordered(m) && forall e :: e in m ==> Utf8(e.key)
    requires |Encode(m) + tail| < U32_MODULUS
    ensures Decode(Encode(m) + tail) == Some(m)
  {
    var buf := Encode(m) + tail;
    ImageShows(m, tail);
    DecodesBody(buf, |m|);
    AllTextIf(m);
    ShowsPlaces(buf, 12, m);
    FindsAll(ReaderOf(buf), 12, m);
    PutAllAppends(m);
  }

  lemma {:induction false} ImageShows(m: seq<Entry>, tail: seq<byte>)
    ensures Shows(Encode(m) + tail, 0, Header(|m|)) && Shows(Encode(m) + tail, 12, EncodeAll(m))
  {
    Prefix(Header(|m|), EncodeAll(m), tail);
  }

  lemma {:induction false} Prefix(a: seq<byte>, b: seq<byte>, c: seq<byte>)
    ensures Shows(a + b + c, 0, a) && Shows(a + b + c, |a|, b)
  {
  }
}

/** What a reboot finds after a write of the flash image that stopped half way. The image carries no
    checksum: its lengths and the text of its keys are all that loading can check. */
module FlashKvTorn {
  import opened Bytes
  import opened Wrappers
  import opened FlashKvs
  import opened FlashKvStores

  /** From `from` on the flash is erased. */
  predicate Blank(buf: seq<byte>, from: nat) {
    forall i :: from <= i < |buf| ==> buf[i] == ERASED
  }

  /** The first `n` bytes of `s` stand at `pos`, and nothing behind them. */
  predicate Torn(buf: seq<byte>, pos: nat, s: seq<byte>, n: nat) {
    && pos + |s| <= |buf| <= REGION_LEN && n <= |s|
    && (forall i :: pos <= i < pos + n ==> buf[i] == s[i - pos])
    && Blank(buf, pos + n)
  }

  /** A value of which the first `k` bytes were written. */
  function Smeared(v: seq<byte>, k: int): (r: seq<byte>)
    ensures |r| == |v| && forall i :: 0 <= i < |v| ==> r[i] == if i < k then v[i] else ERASED
  {
    seq(|v|, i requires 0 <= i < |v| => if i < k then v[i] else ERASED)
  }

  // ----- lengths and text that were not written -----

  lemma {:induction false} ErasedIsHuge(buf: seq<byte>, pos: nat)
    requires pos + 4 <= |buf| && buf[pos + 3] == ERASED
    ensures U32At(buf, pos) >= 0xFF00_0000
  {
  }

  lemma {:induction false} ErasedIsNoChar(b: seq<byte>, i: nat, hi: nat, j: nat)
    requires i <= j < hi <= |b| && b[j] == ERASED && CharLen(b, i, hi) > 0
    ensures i + CharLen(b, i, hi) <= j
  {
  }

  lemma {:induction false} ErasedIsNoText(b: seq<byte>, i: nat, hi: nat, j: nat)
    requires i <= j < hi <= |b| && b[j] == ERASED
    ensures !Utf8In(b, i, hi)
    decreases hi - i
  {
    var n := CharLen(b, i, hi);
    if n > 0 {
      ErasedIsNoChar(b, i, hi, j);
      ErasedIsNoText(b, i + n, hi, j);
    }
  }

  /** Nothing is read from erased flash. */
  lemma {:induction false} BlankReads(buf: seq<byte>, pos: nat)
    requires Blank(buf, pos) && |buf| <= REGION_LEN
    ensures ReadEntry(buf, pos) == None
  {
    if pos + 8 <= |buf| {
      ErasedIsHuge(buf, pos);
    }
  }

  // ----- one entry -----

  /** Byte `i` of an entry's encoding. */
  lemma {:induction false} EntryBytes(e: Entry)
    ensures var s := EncodeEntry(e);
      && |s| == Size(e)
      && (forall i :: 0 <= i < 4 ==> s[i] == ByteOf(|e.key|, i))
      && (forall i :: 4 <= i < 8 ==> s[i] == ByteOf(|e.value|, i - 4))
      && (forall i :: 8 <= i < 8 + |e.key| ==> s[i] == e.key[i - 8])
      && (forall i :: 8 + Pad4(|e.key|) <= i < 8 + Pad4(|e.key|) + |e.value| ==>
           s[i] == e.value[i - 8 - Pad4(|e.key|)])
  {
    var (a, b) := (LE32(|e.key|), LE32(|e.value|));
    var (k, v) := (Padded(e.key), Padded(e.value));
    PaddedBytes(e.key);
    PaddedBytes(e.value);
    FourParts(a, b, k, v);
  }

  lemma {:induction false} PaddedBytes(s: seq<byte>)
    ensures |Padded(s)| == Pad4(|s|) && forall i :: 0 <= i < |s| ==> Padded(s)[i] == s[i]
  {
  }

  lemma {:induction false} FourParts(a: seq<byte>, b: seq<byte>, k: seq<byte>, v: seq<byte>)
    requires |a| == |b| == 4
    ensures var s := a + b + k + v;
      && |s| == 8 + |k| + |v|
      && (forall i :: 0 <= i < 4 ==> s[i] == a[i])
      && (forall i :: 4 <= i < 8 ==> s[i] == b[i - 4])
      && (forall i :: 8 <= i < 8 + |k| ==> s[i] == k[i - 8])
      && (forall i :: 8 + |k| <= i < |s| ==> s[i] == v[i - 8 - |k|])
  {
  }

  lemma {:induction false} NumberFrom(buf: seq<byte>, pos: nat, n: nat)
    requires pos + 4 <= |buf| && n < U32_MODULUS
    requires forall i :: pos <= i < pos + 4 ==> buf[i] == ByteOf(n, i - pos)
    ensures U32At(buf, pos) == n
  {
    LE32RoundTrip(n);
    assert buf[pos] == ByteOf(n, 0) && buf[pos + 1] == ByteOf(n, 1);
    assert buf[pos + 2] == ByteOf(n, 2) && buf[pos + 3] == ByteOf(n, 3);
  }

  /** The lengths, if they were written. */
  lemma {:induction false} TornLengths(buf: seq<byte>, pos: nat, e: Entry, n: nat)
    requires Torn(buf, pos, EncodeEntry(e), n)
    ensures pos + Size(e) <= |buf|
    ensures n >= 4 ==> U32At(buf, pos) == |e.key|
    ensures n < 4 ==> U32At(buf, pos) >= 0xFF00_0000
    ensures n >= 8 ==> U32At(buf, pos + 4) == |e.value|
    ensures n < 8 ==> U32At(buf, pos + 4) >= 0xFF00_0000
  {
    EntryBytes(e);
    if n >= 4 { NumberFrom(buf, pos, |e.key|); } else { ErasedIsHuge(buf, pos); }
    if n >= 8 { NumberFrom(buf, pos + 4, |e.value|); } else { ErasedIsHuge(buf, pos + 4); }
  }

  lemma {:induction false} HugeReads(buf: seq<byte>, pos: nat)
    requires pos + 8 <= |buf| <= REGION_LEN
    requires U32At(buf, pos) >= 0xFF00_0000 || U32At(buf, pos + 4) >= 0xFF00_0000
    ensures ReadEntry(buf, pos) == None
  {
  }

  lemma {:induction false} NoTextReads(buf: seq<byte>, pos: nat, klen: nat)
    requires pos + 8 + klen <= |buf| && U32At(buf, pos) == klen && !Utf8In(buf, pos + 8, pos + 8 + klen)
    ensures ReadEntry(buf, pos) == None
  {
  }

  /** Without the whole key nothing is read. */
  lemma {:induction false} TornKeyReads(buf: seq<byte>, pos: nat, e: Entry, n: nat)
    requires Torn(buf, pos, EncodeEntry(e), n) && n < 8 + |e.key|
    ensures ReadEntry(buf, pos) == None
  {
    TornLengths(buf, pos, e, n);
    if n < 8 {
      HugeReads(buf, pos);
    } else {
      CutText(buf, pos, EncodeEntry(e), n, 8 + |e.key|);
      NoTextReads(buf, pos, |e.key|);
    }
  }

  lemma {:induction false} CutText(buf: seq<byte>, pos: nat, s: seq<byte>, n: nat, end: nat)
    requires Torn(buf, pos, s, n) && 8 <= n < end <= |s|
    ensures !Utf8In(buf, pos + 8, pos + end)
  {
    assert buf[pos + end - 1] == ERASED;
    ErasedIsNoText(buf, pos + 8, pos + end, pos + end - 1);
  }

  lemma {:induction false} TornKey(buf: seq<byte>, pos: nat, e: Entry, n: nat)
    requires Torn(buf, pos, EncodeEntry(e), n) && n >= 8 + |e.key| && Utf8(e.key)
    ensures pos + 8 + |e.key| <= |buf| && buf[pos + 8..pos + 8 + |e.key|] == e.key
    ensures Utf8In(buf, pos + 8, pos + 8 + |e.key|)
  {
    EntryBytes(e);
    WrittenText(buf, pos, EncodeEntry(e), n, e.key);
  }

  lemma {:induction false} WrittenText(buf: seq<byte>, pos: nat, s: seq<byte>, n: nat, key: seq<byte>)
    requires Torn(buf, pos, s, n) && n >= 8 + |key| && Utf8(key)
    requires forall i :: 8 <= i < 8 + |key| ==> s[i] == key[i - 8]
    ensures buf[pos + 8..pos + 8 + |key|] == key && Utf8In(buf, pos + 8, pos + 8 + |key|)
  {
    forall i | 0 <= i < |key| ensures key[i] == buf[i + (pos + 8)] {
      assert buf[pos + (8 + i)] == s[8 + i];
    }
    Utf8Same(key, 0, |key|, buf, pos + 8);
  }

  lemma {:induction false} TornValue(buf: seq<byte>, pos: nat, e: Entry, n: nat)
    requires Torn(buf, pos, EncodeEntry(e), n)
    ensures var v := pos + 8 + Pad4(|e.key|);
      v + |e.value| <= |buf| && buf[v..v + |e.value|] == Smeared(e.value, n - 8 - Pad4(|e.key|))
  {
    EntryBytes(e);
    var v := 8 + Pad4(|e.key|);
    var (read, smeared) := (buf[pos + v..pos + v + |e.value|], Smeared(e.value, n - v));
    forall i | 0 <= i < |e.value| ensures read[i] == smeared[i] {
      if v + i < n {
        assert buf[pos + (v + i)] == EncodeEntry(e)[v + i];
      }
    }
  }

  lemma {:induction false} SpanRead(buf: seq<byte>, pos: nat, e: Entry)
    requires Aligned(pos) && pos + Size(e) <= |buf|
    requires U32At(buf, pos) == |e.key| && U32At(buf, pos + 4) == |e.value|
    requires Utf8In(buf, pos + 8, pos + 8 + |e.key|)
    ensures ReadSpan(buf, pos) == Some(SpanOf(pos, e)) && SpanOf(pos, e).Next() == pos + Size(e)
    ensures SpanOf(pos, e).ValueStart() == pos + 8 + Pad4(|e.key|)
  {
    SpanPlaces(pos, |e.key|, |e.value|);
  }

  lemma {:induction false} TornSpan(buf: seq<byte>, pos: nat, e: Entry, n: nat)
    requires Torn(buf, pos, EncodeEntry(e), n) && n >= 8 + |e.key| && Utf8(e.key) && Aligned(pos)
    ensures ReadSpan(buf, pos) == Some(SpanOf(pos, e)) && SpanOf(pos, e).Next() == pos + Size(e)
    ensures SpanOf(pos, e).ValueStart() == pos + 8 + Pad4(|e.key|)
  {
    TornLengths(buf, pos, e, n);
    TornKey(buf, pos, e, n);
    SpanRead(buf, pos, e);
  }

  lemma {:induction false} TornParts(buf: seq<byte>, pos: nat, e: Entry, n: nat)
    requires Torn(buf, pos, EncodeEntry(e), n) && n >= 8 + |e.key| && Utf8(e.key)
    requires SpanOf(pos, e).ValueStart() == pos + 8 + Pad4(|e.key|)
    ensures InBounds(buf, SpanOf(pos, e))
    ensures EntryAt(buf, SpanOf(pos, e)) == Entry(e.key, Smeared(e.value, n - 8 - Pad4(|e.key|)))
  {
    TornKey(buf, pos, e, n);
    TornValue(buf, pos, e, n);
  }

  /** With the key written, the entry is read with whatever stands where its value belongs. */
  lemma {:induction false} TornValueReads(buf: seq<byte>, pos: nat, e: Entry, n: nat)
    requires Torn(buf, pos, EncodeEntry(e), n) && n >= 8 + |e.key| && Utf8(e.key) && Aligned(pos)
    ensures ReadEntry(buf, pos) ==
      Some(Found(Entry(e.key, Smeared(e.value, n - 8 - Pad4(|e.key|))), pos + Size(e)))
  {
    TornSpan(buf, pos, e, n);
    TornParts(buf, pos, e, n);
  }

  // ----- the whole image -----

  /** What is read of the entries if `n` of their bytes were written. */
  function TornRead(todo: seq<Entry>, n: nat): Option<seq<Entry>> {
    if todo == [] then Some([])
    else
      var (e, rest) := (todo[0], todo[1..]);
      if n >= Size(e) then Prepended(e, TornRead(rest, n - Size(e)))
      else if n >= 8 + |e.key| && rest == [] then
        Some([Entry(e.key, Smeared(e.value, n - 8 - Pad4(|e.key|)))])
      else None
  }

  lemma {:induction false} TornFirst(buf: seq<byte>, pos: nat, a: seq<byte>, b: seq<byte>, n: nat)
    requires Torn(buf, pos, a + b, n) && n <= |a|
    ensures Torn(buf, pos, a, n)
  {
    forall i | pos <= i < pos + n ensures buf[i] == a[i - pos] {
      assert (a + b)[i - pos] == a[i - pos];
    }
  }

  lemma {:induction false} TornSecond(buf: seq<byte>, pos: nat, a: seq<byte>, b: seq<byte>, n: nat)
    requires Torn(buf, pos, a + b, n) && n >= |a|
    ensures Torn(buf, pos + |a|, b, n - |a|)
  {
    forall i | pos + |a| <= i < pos + n ensures buf[i] == b[i - (pos + |a|)] {
      assert (a + b)[i - pos] == b[i - pos - |a|];
    }
  }

  lemma {:induction false} TornShows(buf: seq<byte>, pos: nat, a: seq<byte>, b: seq<byte>, n: nat)
    requires Torn(buf, pos, a + b, n) && n >= |a|
    ensures Shows(buf, pos, a)
  {
    forall i | 0 <= i < |a| ensures buf[pos..pos + |a|][i] == a[i] {
      assert (a + b)[i] == a[i] && buf[pos + i] == (a + b)[(pos + i) - pos];
    }
  }

  lemma {:induction false} AllWritten(v: seq<byte>, k: int)
    requires k >= |v|
    ensures Smeared(v, k) == v
  {
  }

  lemma {:induction false} EntrySize(e: Entry)
    ensures |EncodeEntry(e)| == Size(e)
  {
  }

  /** What a reader finds at the torn entries. */
  predicate TornPlaces(read: nat -> Option<Found>, pos: nat, todo: seq<Entry>, n: nat)
    decreases |todo|
  {
    todo != [] ==>
      var (e, next) := (todo[0], pos + Size(todo[0]));
      if n >= Size(e) then read(pos) == Some(Found(e, next)) && TornPlaces(read, next, todo[1..], n - Size(e))
      else if n >= 8 + |e.key| then
        read(pos) == Some(Found(Entry(e.key, Smeared(e.value, n - 8 - Pad4(|e.key|))), next)) && read(next) == None
      else read(pos) == None
  }

  /** Reading the torn entries. */
  lemma {:induction false} ReadsTorn(read: nat -> Option<Found>, pos: nat, todo: seq<Entry>, n: nat)
    requires TornPlaces(read, pos, todo, n)
    ensures EntriesFrom(read, pos, |todo|) == TornRead(todo, n)
    decreases |todo|
  {
    if todo != [] {
      var (e, rest, next) := (todo[0], todo[1..], pos + Size(todo[0]));
      if n >= Size(e) {
        FirstRead(read, pos, Found(e, next), |rest|);
        ReadsTorn(read, next, rest, n - Size(e));
      } else if n >= 8 + |e.key| {
        var f := Found(Entry(e.key, Smeared(e.value, n - 8 - Pad4(|e.key|))), next);
        FirstRead(read, pos, f, |rest|);
        LastRead(read, f, |rest|);
      }
    }
  }

  lemma {:induction false} FirstRead(read: nat -> Option<Found>, pos: nat, f: Found, count: nat)
    requires read(pos) == Some(f)
    ensures EntriesFrom(read, pos, count + 1) == Prepended(f.entry, EntriesFrom(read, f.next, count))
  {
  }

  /** Behind a torn entry nothing more is read. */
  lemma {:induction false} LastRead(read: nat -> Option<Found>, f: Found, count: nat)
    requires read(f.next) == None
    ensures Prepended(f.entry, EntriesFrom(read, f.next, count)) == if count == 0 then Some([f.entry]) else None
  {
    assert [f.entry] + [] == [f.entry];
  }

  lemma {:induction false} CutFound(buf: seq<byte>, pos: nat, e: Entry, n: nat)
    requires Aligned(pos) && Utf8(e.key) && Torn(buf, pos, EncodeEntry(e), n) && n < Size(e) == |EncodeEntry(e)|
    ensures n < 8 + |e.key| ==> ReaderOf(buf)(pos) == None
    ensures n >= 8 + |e.key| ==>
      ReaderOf(buf)(pos) == Some(Found(Entry(e.key, Smeared(e.value, n - 8 - Pad4(|e.key|))), pos + Size(e))) &&
      ReaderOf(buf)(pos + Size(e)) == None
  {
    if n < 8 + |e.key| {
      TornKeyReads(buf, pos, e, n);
    } else {
      TornValueReads(buf, pos, e, n);
      BlankReads(buf, pos + Size(e));
    }
  }

  lemma {:induction false} StepRest(buf: seq<byte>, pos: nat, e: Entry, tail: seq<byte>, n: nat)
    requires Aligned(pos) && Torn(buf, pos, EncodeEntry(e) + tail, n) && n >= Size(e)
    ensures Aligned(pos + Size(e)) && Torn(buf, pos + Size(e), tail, n - Size(e))
  {
    EntrySize(e);
    TornSecond(buf, pos, EncodeEntry(e), tail, n);
    NextAligned(pos, e);
  }

  lemma {:induction false} StepCut(buf: seq<byte>, pos: nat, e: Entry, tail: seq<byte>, n: nat)
    requires Aligned(pos) && Utf8(e.key) && Torn(buf, pos, EncodeEntry(e) + tail, n) && n < Size(e)
    ensures CutAt(ReaderOf(buf), pos, e, n)
  {
    EntrySize(e);
    TornFirst(buf, pos, EncodeEntry(e), tail, n);
    CutFound(buf, pos, e, n);
  }

  /** The entries still to be read stand torn at `pos`. */
  type Stands = (nat, seq<Entry>, nat) -> bool

  function StandsIn(buf: seq<byte>): Stands {
    (pos: nat, todo: seq<Entry>, n: nat) => Aligned(pos) && AllText(todo) && Torn(buf, pos, EncodeAll(todo), n)
  }

  /** Whole entries are read, and the rest stands behind them. */
  ghost predicate ReadsWhole(read: nat -> Option<Found>, stands: Stands) {
    forall pos: nat, todo: seq<Entry>, n: nat :: stands(pos, todo, n) && todo != [] && n >= Size(todo[0]) ==>
      Finds(read, pos, todo[0])
  }

  ghost predicate LeavesRest(stands: Stands) {
    forall pos: nat, todo: seq<Entry>, n: nat :: stands(pos, todo, n) && todo != [] && n >= Size(todo[0]) ==>
      stands(pos + Size(todo[0]), todo[1..], n - Size(todo[0]))
  }

  predicate CutAt(read: nat -> Option<Found>, pos: nat, e: Entry, n: nat) {
    if n < 8 + |e.key| then read(pos) == None
    else
      read(pos) == Some(Found(Entry(e.key, Smeared(e.value, n - 8 - Pad4(|e.key|))), pos + Size(e))) &&
      read(pos + Size(e)) == None
  }

  ghost predicate ReadsCut(read: nat -> Option<Found>, stands: Stands) {
    forall pos: nat, todo: seq<Entry>, n: nat :: stands(pos, todo, n) && todo != [] && n < Size(todo[0]) ==>
      CutAt(read, pos, todo[0], n)
  }

  lemma {:induction false} Placed(read: nat -> Option<Found>, stands: Stands, pos: nat, todo: seq<Entry>, n: nat)
    requires ReadsWhole(read, stands) && LeavesRest(stands) && ReadsCut(read, stands)
    requires stands(pos, todo, n)
    ensures TornPlaces(read, pos, todo, n)
    decreases |todo|
  {
    if todo != [] {
      if n >= Size(todo[0]) {
        Placed(read, stands, pos + Size(todo[0]), todo[1..], n - Size(todo[0]));
      } else {
        assert CutAt(read, pos, todo[0], n);
      }
    }
  }

  predicate ShowsEntryAt(buf: seq<byte>, pos: nat, e: Entry) {
    |buf| <= REGION_LEN && Aligned(pos) && Utf8(e.key) && Shows(buf, pos, EncodeEntry(e))
  }

  type Shown = (nat, Entry) -> bool

  function ShownIn(buf: seq<byte>): Shown {
    (pos: nat, e: Entry) => ShowsEntryAt(buf, pos, e)
  }

  ghost predicate ShowsWhole(shown: Shown, stands: Stands) {
    forall pos: nat, todo: seq<Entry>, n: nat :: stands(pos, todo, n) && todo != [] && n >= Size(todo[0]) ==>
      shown(pos, todo[0])
  }

  ghost predicate ReadsShown(read: nat -> Option<Found>, shown: Shown) {
    forall pos: nat, e: Entry :: shown(pos, e) ==> Finds(read, pos, e)
  }

  lemma {:induction false} FirstStands(buf: seq<byte>, pos: nat, todo: seq<Entry>, n: nat)
    requires StandsIn(buf)(pos, todo, n) && todo != []
    ensures var (e, tail) := (todo[0], EncodeAll(todo[1..]));
      Aligned(pos) && Utf8(e.key) && AllText(todo[1..]) && Torn(buf, pos, EncodeEntry(e) + tail, n)
  {
  }

  lemma {:induction false} FirstShows(buf: seq<byte>, pos: nat, e: Entry, tail: seq<byte>, n: nat)
    requires Aligned(pos) && Utf8(e.key) && Torn(buf, pos, EncodeEntry(e) + tail, n) && n >= Size(e)
    ensures ShownIn(buf)(pos, e)
  {
    EntrySize(e);
    TornShows(buf, pos, EncodeEntry(e), tail, n);
  }

  lemma {:induction false} WholeIsShown(buf: seq<byte>)
    ensures ShowsWhole(ShownIn(buf), StandsIn(buf))
  {
    forall pos: nat, todo: seq<Entry>, n: nat | StandsIn(buf)(pos, todo, n) && todo != [] && n >= Size(todo[0])
      ensures ShownIn(buf)(pos, todo[0])
    {
      FirstStands(buf, pos, todo, n);
      FirstShows(buf, pos, todo[0], EncodeAll(todo[1..]), n);
    }
  }

  lemma {:induction false} ShownIsFound(buf: seq<byte>, pos: nat, e: Entry)
    requires ShownIn(buf)(pos, e)
    ensures ReaderOf(buf)(pos) == Some(Found(e, pos + Size(e)))
  {
    ShowsFound(buf, pos, e);
  }

  lemma {:induction false} ShownIsRead(buf: seq<byte>)
    ensures ReadsShown(ReaderOf(buf), ShownIn(buf))
  {
    var (read, shown) := (ReaderOf(buf), ShownIn(buf));
    forall pos: nat, e: Entry | shown(pos, e)
      ensures Finds(read, pos, e)
    {
      ShownIsFound(buf, pos, e);
    }
  }

  lemma {:induction false} WholeIsRead(read: nat -> Option<Found>, shown: Shown, stands: Stands)
    requires ShowsWhole(shown, stands) && ReadsShown(read, shown)
    ensures ReadsWhole(read, stands)
  {
  }

  lemma {:induction false} RestStands(buf: seq<byte>, pos: nat, todo: seq<Entry>, n: nat)
    requires StandsIn(buf)(pos, todo, n) && todo != [] && n >= Size(todo[0])
    ensures StandsIn(buf)(pos + Size(todo[0]), todo[1..], n - Size(todo[0]))
  {
    FirstStands(buf, pos, todo, n);
    StepRest(buf, pos, todo[0], EncodeAll(todo[1..]), n);
  }

  lemma {:induction false} RestIsLeft(buf: seq<byte>)
    ensures LeavesRest(StandsIn(buf))
  {
    forall pos: nat, todo: seq<Entry>, n: nat | StandsIn(buf)(pos, todo, n) && todo != [] && n >= Size(todo[0])
      ensures StandsIn(buf)(pos + Size(todo[0]), todo[1..], n - Size(todo[0]))
    {
      RestStands(buf, pos, todo, n);
    }
  }

  lemma {:induction false} CutIsRead(buf: seq<byte>)
    ensures ReadsCut(ReaderOf(buf), StandsIn(buf))
  {
    forall pos: nat, todo: seq<Entry>, n: nat | StandsIn(buf)(pos, todo, n) && todo != [] && n < Size(todo[0])
      ensures CutAt(ReaderOf(buf), pos, todo[0], n)
    {
      FirstStands(buf, pos, todo, n);
      StepCut(buf, pos, todo[0], EncodeAll(todo[1..]), n);
    }
  }

  lemma {:induction false} TornIsPlaced(buf: seq<byte>, pos: nat, todo: seq<Entry>, n: nat)
    requires StandsIn(buf)(pos, todo, n)
    ensures TornPlaces(ReaderOf(buf), pos, todo, n)
  {
    WholeIsShown(buf);
    ShownIsRead(buf);
    WholeIsRead(ReaderOf(buf), ShownIn(buf), StandsIn(buf));
    RestIsLeft(buf);
    CutIsRead(buf);
    Placed(ReaderOf(buf), StandsIn(buf), pos, todo, n);
  }

  /** The keys that are read are those of the map, in order. */
  lemma {:induction false} TornKeys(todo: seq<Entry>, n: nat)
    requires TornRead(todo, n).Some?
    ensures var r := TornRead(todo, n).value;
      |r| == |todo| && forall i :: 0 <= i < |todo| ==> r[i].key == todo[i].key
  {
    if todo != [] && n >= Size(todo[0]) {
      TornKeys(todo[1..], n - Size(todo[0]));
    }
  }

  lemma {:induction false} TornOrdered(m: seq<Entry>, n: nat)
    requires Ordered(m) && TornRead(m, n).Some?
    ensures Ordered(TornRead(m, n).value)
  {
    TornKeys(m, n);
  }

  /** The map a reboot finds after a write of `m` that stopped after `n` bytes. */
  function TornMap(m: seq<Entry>, n: nat): seq<Entry> {
    if n >= 12 && TornRead(m, n - 12).Some? then TornRead(m, n - 12).value else []
  }

  lemma {:induction false} NoHeader(buf: seq<byte>, n: nat)
    requires 12 <= |buf| <= REGION_LEN && n < 12 && Blank(buf, n)
    ensures Decode(buf) == None
  {
    if n < 8 {
      ErasedIsHuge(buf, 4);
    } else {
      ErasedIsHuge(buf, 8);
      BlankReads(buf, 12);
    }
  }

  lemma {:induction false} WrittenIsTorn(m: seq<Entry>, n: nat)
    requires Fits(m) && n <= |Encode(m)|
    ensures Torn(Written(Encode(m), n), 0, Encode(m), n)
  {
  }

  /** A reboot finds exactly this map. */
  lemma {:induction false} RebootFindsTorn(m: seq<Entry>, n: nat)
    requires Legal(m) && Fits(m) && n < |Encode(m)|
    ensures BootCache(Written(Encode(m), n)) == TornMap(m, n)
  {
    var buf := Written(Encode(m), n);
    WrittenIsTorn(m, n);
    if n < 12 {
      NoHeader(buf, n);
    } else {
      TornShows(buf, 0, Header(|m|), EncodeAll(m), n);
      DecodesBody(buf, |m|);
      TornBody(buf, m, n);
      TornReads(buf, m, n - 12);
    }
  }

  lemma {:induction false} TornBody(buf: seq<byte>, m: seq<Entry>, n: nat)
    requires Legal(m) && Torn(buf, 0, Encode(m), n) && n >= 12
    ensures StandsIn(buf)(12, m, n - 12)
  {
    TornSecond(buf, 0, Header(|m|), EncodeAll(m), n);
    AllTextIf(m);
    assert Aligned(12);
  }

  lemma {:induction false} TornReads(buf: seq<byte>, m: seq<Entry>, n: nat)
    requires Legal(m) && StandsIn(buf)(12, m, n)
    ensures Collected(EntriesFrom(ReaderOf(buf), 12, |m|)) == TornRead(m, n)
  {
    TornIsPlaced(buf, 12, m, n);
    ReadsTorn(ReaderOf(buf), 12, m, n);
    if TornRead(m, n).Some? {
      TornOrdered(m, n);
      PutAllAppends(TornRead(m, n).value);
    }
  }

  // ----- the same, put simply -----

  function LastEntry(m: seq<Entry>): Entry
    requires m != []
  {
    m[|m| - 1]
  }

  /** Where the last entry starts among the entries' bytes. */
  function LastStart(m: seq<Entry>): nat
    requires m != []
  {
    if |m| == 1 then 0 else Size(m[0]) + LastStart(m[1..])
  }

  function LastLost(m: seq<Entry>, n: nat): Option<seq<Entry>>
    requires m != []
  {
    var (e, s) := (LastEntry(m), LastStart(m));
    if n < s + 8 + |e.key| then None
    else Some(m[..|m| - 1] + [Entry(e.key, Smeared(e.value, n - s - 8 - Pad4(|e.key|)))])
  }

  lemma {:induction false} LastLostRest(m: seq<Entry>, n: nat)
    requires |m| > 1
    ensures n < Size(m[0]) ==> LastLost(m, n) == None
    ensures n >= Size(m[0]) ==> LastLost(m, n) == Prepended(m[0], LastLost(m[1..], n - Size(m[0])))
  {
    var (e, rest) := (m[0], m[1..]);
    assert LastEntry(rest) == LastEntry(m) && LastStart(m) == Size(e) + LastStart(rest);
    if n >= Size(e) && LastLost(rest, n - Size(e)).Some? {
      var x := LastLost(rest, n - Size(e)).value;
      assert [e] + x == m[..|m| - 1] + [x[|x| - 1]];
    }
  }

  lemma {:induction false} LastTorn(e: Entry, n: nat)
    ensures TornRead([e], n) ==
      if n < 8 + |e.key| then None else Some([Entry(e.key, Smeared(e.value, n - 8 - Pad4(|e.key|)))])
  {
    assert [e][1..] == [];
    if n >= Size(e) {
      AllWritten(e.value, n - 8 - Pad4(|e.key|));
      assert TornRead([], n - Size(e)) == Some([]);
      assert [e] + [] == [e];
    }
  }

  lemma {:induction false} TornReadRest(m: seq<Entry>, n: nat)
    requires |m| > 1
    ensures TornRead(m, n) ==
      if n >= Size(m[0]) then Prepended(m[0], TornRead(m[1..], n - Size(m[0]))) else None
  {
  }

  lemma {:induction false} LastTornOnly(m: seq<Entry>, n: nat)
    requires |m| == 1
    ensures TornRead(m, n) == LastLost(m, n)
  {
    var e := m[0];
    LastTorn(e, n);
    assert m == [e] && LastEntry(m) == e && LastStart(m) == 0;
    assert forall x: Entry :: m[..0] + [x] == [x];
  }

  /** Either the store is empty or only the end of the last value is lost; the first exactly when the
      write stopped before the end of the last key. */
  lemma {:induction false} TornExact(m: seq<Entry>, n: nat)
    requires m != []
    ensures TornRead(m, n) == LastLost(m, n)
    decreases |m|
  {
    if |m| == 1 {
      LastTornOnly(m, n);
    } else {
      LastLostRest(m, n);
      TornReadRest(m, n);
      if n >= Size(m[0]) {
        TornExact(m[1..], n - Size(m[0]));
      }
    }
  }
}

/** The store object: a RAM cache that is the truth for reads, and the flash region that
    each change rewrites whole. */
module FlashKvStores {
  import opened Bytes
  import opened Wrappers
  import opened FlashKvs

  datatype NvsResult = Ok | Full | Io

  /** What goes wrong while rewriting: nothing, the erase, or the write after `n` bytes. */
  datatype Fault = NoFault | EraseFails | WriteStops(n: nat)

  ghost predicate Legal(m: seq<Entry>) {
    Ordered(m) && forall e :: e in m ==> Utf8(e.key)
  }

  /** The store a device boots with, whatever the region holds. */
  function BootCache(region: seq<byte>): seq<Entry>
    requires |region| == REGION_LEN
  {
    if Decode(region).Some? then Decode(region).value else []
  }

  predicate Fits(m: seq<Entry>) {
    |Encode(m)| <= REGION_LEN
  }

  /** The region after a write of `image` that stopped after `n` bytes. */
  function Written(image: seq<byte>, n: nat): (r: seq<byte>)
    requires |image| <= REGION_LEN
    ensures |r| == REGION_LEN
  {
    if n < |image| then image[..n] + Repeat(ERASED, REGION_LEN - n)
    else image + Repeat(ERASED, REGION_LEN - |image|)
  }

  class FlashKv {
    const flash: array<byte>
    var cache: seq<Entry>

    ghost predicate Valid()
      reads this
    {
      flash.Length >= REGION_OFFSET + REGION_LEN && Legal(cache)
    }

    function Region(): (r: seq<byte>)
      requires flash.Length >= REGION_OFFSET + REGION_LEN
      reads flash
      ensures |r| == REGION_LEN
    {
      flash[REGION_OFFSET..REGION_OFFSET + REGION_LEN]
    }

    /** Boots from the region; unreadable content counts as an empty store. */
    constructor (flash: array<byte>)
      requires flash.Length >= REGION_OFFSET + REGION_LEN
      ensures Valid() && this.flash == flash && cache == BootCache(flash[REGION_OFFSET..REGION_OFFSET + REGION_LEN])
    {
      var loaded := Load(flash[REGION_OFFSET..REGION_OFFSET + REGION_LEN]);
      DecodesLegal(flash[REGION_OFFSET..REGION_OFFSET + REGION_LEN]);
      this.flash := flash;
      cache := if loaded.Some? then loaded.value else [];
    }

    method Get(key: seq<byte>) returns (r: Option<seq<byte>>)
      ensures r == Lookup(cache, key)
    {
      r := Lookup(cache, key);
    }

    /** The cache changes even when the flash does not. */
    method Set(key: seq<byte>, value: seq<byte>, fault: Fault) returns (r: NvsResult)
      requires Valid() && Utf8(key)
      modifies this, flash
      ensures Valid() && cache == Put(old(cache), key, value)
      ensures Rewritten(old(flash[..]), flash[..], cache, fault, r)
    {
      PutOrdered(cache, key, value);
      cache := Put(cache, key, value);
      r := Flush(fault);
    }

    method Remove(key: seq<byte>, fault: Fault) returns (r: NvsResult)
      requires Valid()
      modifies this, flash
      ensures Valid() && cache == Delete(old(cache), key)
      ensures Rewritten(old(flash[..]), flash[..], cache, fault, r)
    {
      DeleteOrdered(cache, key);
      cache := Delete(cache, key);
      r := Flush(fault);
    }

    method Flush(fault: Fault) returns (r: NvsResult)
      requires Valid()
      modifies flash
      ensures r.Full? <==> |Encode(cache)| > 8192
      ensures Rewritten(old(flash[..]), flash[..], cache, fault, r)
    {
      var buf := BuildImage(cache);
      if |buf| > REGION_LEN {
        return Full;
      }
      if fault.EraseFails? {
        return Io;
      }
      forall i | REGION_OFFSET <= i < REGION_OFFSET + REGION_LEN {
        flash[i] := ERASED;
      }
      var n := if fault.WriteStops? && fault.n < |buf| then fault.n else |buf|;
      forall i | 0 <= i < n {
        flash[REGION_OFFSET + i] := buf[i];
      }
      ghost var want := Written(buf, n);
      forall i | 0 <= i < REGION_LEN
        ensures flash[REGION_OFFSET + i] == want[i]
      {
      }
      assert Region() == want;
      return if fault.WriteStops? then Io else Ok;
    }
  }

  /** What a rewrite did to the whole flash. */
  ghost predicate Rewritten(before: seq<byte>, after: seq<byte>, cache: seq<Entry>, fault: Fault, r: NvsResult) {
    && |before| == |after| >= REGION_OFFSET + REGION_LEN
    && after[..REGION_OFFSET] == before[..REGION_OFFSET]
    && after[REGION_OFFSET + REGION_LEN..] == before[REGION_OFFSET + REGION_LEN..]
    && r == (if !Fits(cache) then Full else if fault.NoFault? then Ok else Io)
    && if r.Full? || fault.EraseFails? then after == before
       else RegionOf(after) == Written(Encode(cache), if fault.WriteStops? then fault.n else |Encode(cache)|)
  }

  function RegionOf(flash: seq<byte>): (r: seq<byte>)
    requires |flash| >= REGION_OFFSET + REGION_LEN
    ensures |r| == REGION_LEN
  {
    flash[REGION_OFFSET..REGION_OFFSET + REGION_LEN]
  }

  method BuildImage(cache: seq<Entry>) returns (buf: seq<byte>)
    ensures buf == Encode(cache)
  {
    buf := MAGIC + LE32(VERSION) + LE32(|cache|);
    var i := 0;
    assert Aligned(12) && |buf| == 12;
    while i < |cache|
      invariant 0 <= i <= |cache| && Aligned(|buf|)
      invariant buf + EncodeAll(cache[i..]) == Encode(cache)
    {
      StepForward(buf, cache, i);
      buf := AppendEntry(buf, cache[i]);
      i := i + 1;
    }
    assert buf + EncodeAll([]) == buf;
  }

  lemma {:induction false} StepForward(buf: seq<byte>, cache: seq<Entry>, i: nat)
    requires i < |cache|
    ensures (buf + EncodeEntry(cache[i])) + EncodeAll(cache[i + 1..]) == buf + EncodeAll(cache[i..])
  {
    assert cache[i..][1..] == cache[i + 1..];
    Assoc(buf, EncodeEntry(cache[i]), EncodeAll(cache[i + 1..]));
  }

  lemma {:induction false} Assoc(a: seq<byte>, b: seq<byte>, c: seq<byte>)
    ensures (a + b) + c == a + (b + c)
  {
  }

  method AppendEntry(before: seq<byte>, e: Entry) returns (buf: seq<byte>)
    requires Aligned(|before|)
    ensures buf == before + EncodeEntry(e) && Aligned(|buf|)
  {
    buf := before + LE32(|e.key|) + LE32(|e.value|);
    buf := buf + e.key;
    buf := buf + Repeat(0, Pad4(|buf|) - |buf|);
    buf := buf + e.value;
    buf := buf + Repeat(0, Pad4(|buf|) - |buf|);
    EntryAppended(before, e, buf);
    NextAligned(|before|, e);
  }

  /** Padding the aligned buffer pads the string just added. */
  lemma {:induction false} PadsString(b: seq<byte>, s: seq<byte>)
    requires Aligned(|b|)
    ensures (b + s) + Repeat(0, Pad4(|b + s|) - |b + s|) == b + Padded(s)
  {
    PadsOn(|b|, |s|);
    Assoc(b, s, Repeat(0, Pad4(|s|) - |s|));
  }

  lemma {:induction false} EntryAppended(b: seq<byte>, e: Entry, now: seq<byte>)
    requires Aligned(|b|)
    requires var b1 := b + LE32(|e.key|) + LE32(|e.value|) + e.key;
      var b2 := b1 + Repeat(0, Pad4(|b1|) - |b1|) + e.value;
      now == b2 + Repeat(0, Pad4(|b2|) - |b2|)
    ensures now == b + EncodeEntry(e)
  {
    var b0 := b + LE32(|e.key|) + LE32(|e.value|);
    PadsOn(|b|, 8);
    PadsString(b0, e.key);
    PadAligned(|e.key|);
    PadsOn(|b0|, Pad4(|e.key|));
    PadsString(b0 + Padded(e.key), e.value);
    Regroup(b, LE32(|e.key|), LE32(|e.value|), Padded(e.key), Padded(e.value));
  }

  lemma {:induction false} Regroup(b: seq<byte>, x: seq<byte>, y: seq<byte>, z: seq<byte>, w: seq<byte>)
    ensures b + x + y + z + w == b + (x + y + z + w)
  {
  }

  /** Reads a region of any content; every access is in bounds. */
  method Load(buf: seq<byte>) returns (r: Option<seq<Entry>>)
    requires |buf| >= 12
    ensures r == Decode(buf)
  {
    if buf[0..4] != MAGIC {
      return None;
    }
    if U32At(buf, 4) != VERSION {
      return None;
    }
    r := LoadAll(ReaderOf(buf), U32At(buf, 8));
  }

  /** Entries read so far, and what is still to come. */
  function Followed(done: seq<Entry>, rest: Option<seq<Entry>>): Option<seq<Entry>> {
    if rest.Some? then Some(done + rest.value) else None
  }

  lemma {:induction false} FollowedNext(done: seq<Entry>, e: Entry, rest: Option<seq<Entry>>)
    ensures Followed(done, Prepended(e, rest)) == Followed(done + [e], rest)
  {
    if rest.Some? {
      assert done + ([e] + rest.value) == (done + [e]) + rest.value;
    }
  }

  lemma {:induction false} FollowedStart(rest: Option<seq<Entry>>)
    ensures Followed([], rest) == rest
  {
    if rest.Some? {
      assert [] + rest.value == rest.value;
    }
  }

  lemma {:induction false} PutAllSnoc(done: seq<Entry>, e: Entry)
    ensures PutAll(done + [e]) == PutEntry(PutAll(done), e)
  {
    assert (done + [e])[..|done|] == done;
  }

  /** The loading loop, for any way to read one entry. */
  method LoadAll(read: nat -> Option<Found>, count: nat) returns (r: Option<seq<Entry>>)
    ensures r == Collected(EntriesFrom(read, 12, count))
  {
    var m: seq<Entry> := [];
    ghost var done: seq<Entry> := [];
    var pos: nat := 12;
    var i := 0;
    FollowedStart(EntriesFrom(read, 12, count));
    while i < count
      invariant 0 <= i <= count
      invariant m == PutAll(done)
      invariant EntriesFrom(read, 12, count) == Followed(done, EntriesFrom(read, pos, count - i))
    {
      var found := read(pos);
      if found.None? {
        return None;
      }
      var Found(e, next) := found.value;
      FollowedNext(done, e, EntriesFrom(read, next, count - i - 1));
      PutAllSnoc(done, e);
      done := done + [e];
      m := PutEntry(m, e);
      pos := next;
      i := i + 1;
    }
    assert done + [] == done;
    return Some(m);
  }

  /** Whatever is read back is a legal map. */
  lemma {:induction false} DecodesLegal(buf: seq<byte>)
    requires |buf| >= 12
    ensures Decode(buf).Some? ==> Legal(Decode(buf).value)
  {
    var es := EntriesFrom(ReaderOf(buf), 12, U32At(buf, 8));
    if es.Some? {
      forall pos: nat | ReadEntry(buf, pos).Some? ensures Utf8(ReadEntry(buf, pos).value.entry.key) {
        FirstKeyIsText(buf, pos);
      }
      KeysAreText(ReaderOf(buf), 12, U32At(buf, 8));
      PutAllLegal(es.value);
    }
  }

  lemma {:induction false} PutAllLegal(es: seq<Entry>)
    requires forall e :: e in es ==> Utf8(e.key)
    ensures Legal(PutAll(es))
  {
    if es != [] {
      var init, e := es[..|es| - 1], es[|es| - 1];
      PutAllLegal(init);
      assert e in es;
      PutOrdered(PutAll(init), e.key, e.value);
    }
  }

  lemma {:induction false} FirstKeyIsText(buf: seq<byte>, pos: nat)
    requires ReadEntry(buf, pos).Some?
    ensures Utf8(ReadEntry(buf, pos).value.entry.key)
  {
    var s := ReadSpan(buf, pos).value;
    KeyIsText(buf, s.pos + 8, s.KeyEnd());
  }

  lemma {:induction false} KeysAreText(read: nat -> Option<Found>, pos: nat, count: nat)
    requires forall p: nat :: read(p).Some? ==> Utf8(read(p).value.entry.key)
    requires EntriesFrom(read, pos, count).Some?
    ensures forall e :: e in EntriesFrom(read, pos, count).value ==> Utf8(e.key)
    decreases count
  {
    if count > 0 {
      var f := read(pos).value;
      KeysAreText(read, f.next, count - 1);
    }
  }

  lemma {:induction false} KeyIsText(buf: seq<byte>, lo: nat, hi: nat)
    requires lo <= hi <= |buf| && Utf8In(buf, lo, hi)
    ensures Utf8(buf[lo..hi])
  {
    Utf8Same(buf[lo..hi], 0, hi - lo, buf, lo);
  }

  // ----- what a reboot finds -----

  /** After a rewrite that reported success a reboot finds exactly the cache. */
  lemma {:induction false} RebootAfterOk(before: seq<byte>, after: seq<byte>, cache: seq<Entry>)
    requires Legal(cache) && Rewritten(before, after, cache, NoFault, Ok)
    ensures BootCache(RegionOf(after)) == cache
  {
    WholeImage(cache);
    assert RegionOf(after) == Written(Encode(cache), |Encode(cache)|);
  }

  lemma {:induction false} WholeImage(m: seq<Entry>)
    requires Legal(m) && Fits(m)
    ensures Decode(Written(Encode(m), |Encode(m)|)) == Some(m)
  {
    var (image, fill) := (Encode(m), Repeat(ERASED, REGION_LEN - |Encode(m)|));
    ImageShows(m, fill);
    assert Written(image, |image|) == image + fill;
    RoundTrip(m, fill);
  }
}

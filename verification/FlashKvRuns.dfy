/** What the flash store keeps over whole runs of changes and reboots. An erase may fail, and a write may
    stop after any number of bytes. */
module FlashKvRuns {
  import opened Bytes
  import opened Wrappers
  import opened FlashKvs
  import opened FlashKvStores
  import opened FlashKvTorn

  datatype Op =
    | Set(key: seq<byte>, value: seq<byte>, fault: Fault)
    | Remove(key: seq<byte>, fault: Fault)
    | Reboot

  datatype State = State(region: seq<byte>, cache: seq<Entry>)

  ghost predicate Sound(s: State) {
    |s.region| == REGION_LEN && Legal(s.cache)
  }

  function Boot(region: seq<byte>): State
    requires |region| == REGION_LEN
  {
    State(region, BootCache(region))
  }

  function CacheAfter(cache: seq<Entry>, op: Op): seq<Entry>
    requires !op.Reboot?
  {
    match op
    case Set(key, value, _) => Put(cache, key, value)
    case Remove(key, _) => Delete(cache, key)
  }

  /** Whether a change reports success. */
  predicate Succeeds(cache: seq<Entry>, op: Op)
    requires !op.Reboot?
  {
    Fits(CacheAfter(cache, op)) && op.fault.NoFault?
  }

  /** Whether a change erases the region. */
  predicate Erases(cache: seq<Entry>, op: Op)
    requires !op.Reboot?
  {
    Fits(CacheAfter(cache, op)) && !op.fault.EraseFails?
  }

  /** How much of the image is written once the region is erased. */
  function Reach(image: seq<byte>, fault: Fault): nat {
    if fault.WriteStops? then fault.n else |image|
  }

  function Next(s: State, op: Op): State
    requires |s.region| == REGION_LEN
  {
    if op.Reboot? then Boot(s.region)
    else
      var (cache, image) := (CacheAfter(s.cache, op), Encode(CacheAfter(s.cache, op)));
      State(if Erases(s.cache, op) then Written(image, Reach(image, op.fault)) else s.region, cache)
  }

  function Run(s: State, ops: seq<Op>): (r: State)
    requires |s.region| == REGION_LEN
    ensures |r.region| == REGION_LEN
  {
    if ops == [] then s else Next(Run(s, ops[..|ops| - 1]), ops[|ops| - 1])
  }

  predicate TextKeys(ops: seq<Op>) {
    forall i :: 0 <= i < |ops| && ops[i].Set? ==> Utf8(ops[i].key)
  }

  /** What a rewrite with the map `cache` leaves for a reboot. */
  function Left(cache: seq<Entry>, fault: Fault): seq<Entry> {
    if fault.WriteStops? && fault.n < |Encode(cache)| then TornMap(cache, fault.n) else cache
  }

  /** The map left by the last change that erased the region, or what the device first booted with. */
  function LastLeft(s: State, ops: seq<Op>): seq<Entry>
    requires |s.region| == REGION_LEN
  {
    if ops == [] then s.cache
    else
      var (before, op) := (ops[..|ops| - 1], ops[|ops| - 1]);
      var cache := Run(s, before).cache;
      if !op.Reboot? && Erases(cache, op) then Left(CacheAfter(cache, op), op.fault) else LastLeft(s, before)
  }

  /** The map of the last change that reported success, or what the device first booted with. */
  function LastSaved(s: State, ops: seq<Op>): seq<Entry>
    requires |s.region| == REGION_LEN
  {
    if ops == [] then s.cache
    else
      var (before, op) := (ops[..|ops| - 1], ops[|ops| - 1]);
      var cache := Run(s, before).cache;
      if !op.Reboot? && Succeeds(cache, op) then CacheAfter(cache, op) else LastSaved(s, before)
  }

  lemma {:induction false} StaysSound(s: State, ops: seq<Op>)
    requires Sound(s) && TextKeys(ops)
    ensures Sound(Run(s, ops))
  {
    if ops != [] {
      var (before, op) := (ops[..|ops| - 1], ops[|ops| - 1]);
      StaysSound(s, before);
      SoundNext(Run(s, before), op);
    }
  }

  lemma {:induction false} SoundNext(s: State, op: Op)
    requires Sound(s) && (op.Set? ==> Utf8(op.key))
    ensures Sound(Next(s, op))
  {
    match op
    case Set(key, value, _) => PutOrdered(s.cache, key, value);
    case Remove(key, _) => DeleteOrdered(s.cache, key);
    case Reboot => DecodesLegal(s.region);
  }

  lemma {:induction false} RebootFindsLeft(cache: seq<Entry>, fault: Fault)
    requires Legal(cache) && Fits(cache)
    ensures BootCache(Written(Encode(cache), Reach(Encode(cache), fault))) == Left(cache, fault)
  {
    if fault.WriteStops? && fault.n < |Encode(cache)| {
      RebootFindsTorn(cache, fault.n);
    } else {
      WholeImage(cache);
    }
  }

  /** After any run, with writes stopping anywhere, a reboot finds exactly the map left by the last change
      that got as far as erasing the region. */
  lemma {:induction false} RebootFindsLastLeft(region: seq<byte>, ops: seq<Op>)
    requires |region| == REGION_LEN && TextKeys(ops)
    ensures BootCache(Run(Boot(region), ops).region) == LastLeft(Boot(region), ops)
  {
    if ops != [] {
      var (before, op) := (ops[..|ops| - 1], ops[|ops| - 1]);
      RebootFindsLastLeft(region, before);
      DecodesLegal(region);
      StaysSound(Boot(region), before);
      var s := Run(Boot(region), before);
      SoundNext(s, op);
      if !op.Reboot? && Erases(s.cache, op) {
        RebootFindsLeft(CacheAfter(s.cache, op), op.fault);
      }
    }
  }

  /** No write stops short. */
  predicate Untorn(ops: seq<Op>) {
    forall i :: 0 <= i < |ops| && !ops[i].Reboot? ==> !ops[i].fault.WriteStops?
  }

  /** Then a reboot finds the map of the last change that reported success, however far the cache has
      moved on since by changes that did not fit or could not be erased for. */
  lemma {:induction false} RebootFindsLastSaved(region: seq<byte>, ops: seq<Op>)
    requires |region| == REGION_LEN && TextKeys(ops) && Untorn(ops)
    ensures BootCache(Run(Boot(region), ops).region) == LastSaved(Boot(region), ops)
  {
    RebootFindsLastLeft(region, ops);
    LeftIsSaved(Boot(region), ops);
  }

  lemma {:induction false} LeftIsSaved(s: State, ops: seq<Op>)
    requires |s.region| == REGION_LEN && Untorn(ops)
    ensures LastLeft(s, ops) == LastSaved(s, ops)
  {
    if ops != [] {
      LeftIsSaved(s, ops[..|ops| - 1]);
    }
  }

  /** The object's methods are these steps: what a rewrite does to the region. */
  lemma {:induction false} RewriteIsStep(before: seq<byte>, after: seq<byte>, s: State, op: Op, r: NvsResult)
    requires !op.Reboot? && |before| >= REGION_OFFSET + REGION_LEN && s.region == RegionOf(before)
    requires Rewritten(before, after, CacheAfter(s.cache, op), op.fault, r)
    ensures Next(s, op).region == RegionOf(after)
    ensures r.Ok? <==> Succeeds(s.cache, op)
  {
  }
}

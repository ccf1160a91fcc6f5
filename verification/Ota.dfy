/** Streaming a firmware image into the inactive slot: `inactive_slot`, `activate_inactive_slot` and
    `write_image` of `crates/firmware-nostd/src/ota.rs`. */
module Ota {
  import opened Wrappers
  import opened Bytes

  const SECTOR: nat := 4096
  const MIN_IMAGE: nat := 64 * 1024

  // ---------------------------------------------------------------- choosing the slot

  datatype AppKind = Factory | Slot(n: nat) | Test

  datatype Partition = App(kind: AppKind, offset: nat, len: nat) | Data(offset: nat, len: nat)

  predicate Candidate(p: Partition, booted: AppKind) {
    p.App? && p.kind != booted && p.kind != Factory
  }

  /** The table's first candidate. */
  ghost predicate FirstOf(table: seq<Partition>, booted: AppKind, p: Partition) {
    exists i :: 0 <= i < |table| && table[i] == p && Candidate(table[i], booted) &&
                forall j :: 0 <= j < i ==> !Candidate(table[j], booted)
  }

  /** The first application partition that is neither the booted one nor the factory image; none when
      the booted partition is unknown or holds no application. */
  method InactiveSlot(table: seq<Partition>, booted: Option<Partition>) returns (r: Option<Partition>)
    ensures r.Some? ==> booted.Some? && booted.value.App? && FirstOf(table, booted.value.kind, r.value)
    ensures r.None? ==> booted.None? || !booted.value.App? ||
                        forall j :: 0 <= j < |table| ==> !Candidate(table[j], booted.value.kind)
  {
    if booted.None? || !booted.value.App? {
      return None;
    }
    for i := 0 to |table|
      invariant forall j :: 0 <= j < i ==> !Candidate(table[j], booted.value.kind)
    {
      if table[i].App? {
        if table[i].kind != booted.value.kind && table[i].kind != Factory {
          return Some(table[i]);
        }
      }
    }
    return None;
  }

  predicate Apart(p: Partition, q: Partition) {
    p.offset + p.len <= q.offset || q.offset + q.len <= p.offset
  }

  /** Partitions are whole sectors of the flash and do not overlap. */
  ghost predicate WellFormed(table: seq<Partition>, flashLen: nat) {
    && (forall i :: 0 <= i < |table| ==>
          table[i].offset % SECTOR == 0 && table[i].len % SECTOR == 0 && table[i].offset + table[i].len <= flashLen)
    && (forall i, j :: 0 <= i < j < |table| ==> Apart(table[i], table[j]))
  }

  lemma {:induction false} SlotIsApart(table: seq<Partition>, flashLen: nat, slot: Partition, booted: Partition)
    requires WellFormed(table, flashLen) && slot in table && booted in table && slot != booted
    ensures Apart(slot, booted)
  {
    var i :| 0 <= i < |table| && table[i] == slot;
    var j :| 0 <= j < |table| && table[j] == booted;
    assert i < j ==> Apart(table[i], table[j]);
    assert j < i ==> Apart(table[j], table[i]);
  }

  // ---------------------------------------------------------------- the slot that boots next

  /** The table lists slots 0 to `count - 1` in this order, and no other application but the factory image. */
  ghost predicate SlotsInOrder(table: seq<Partition>, count: nat) {
    && (forall i :: 0 <= i < |table| && table[i].App? ==>
          table[i].kind == Factory || (table[i].kind.Slot? && table[i].kind.n < count))
    && (forall i, j :: 0 <= i < j < |table| && IsSlot(table[i]) && IsSlot(table[j]) ==>
          table[i].kind.n < table[j].kind.n)
    && (forall k :: 0 <= k < count ==> HasSlot(table, k))
  }

  ghost predicate HasSlot(table: seq<Partition>, k: nat) {
    exists i :: 0 <= i < |table| && Is(table[i], k)
  }

  predicate IsSlot(p: Partition) { p.App? && p.kind.Slot? }

  predicate Is(p: Partition, k: nat) { p.App? && p.kind == Slot(k) }

  /** The boot data moves on to the following slot, from the last to the first. */
  ghost predicate Rotates(next: AppKind -> AppKind, count: nat) {
    forall k: nat :: k < count ==> next(Slot(k)) == Slot((k + 1) % count)
  }

  /** The slot that is written while slot `k` runs. */
  function Spare(k: nat): nat { if k == 0 then 1 else 0 }

  lemma {:induction false} FirstIsSpare(table: seq<Partition>, count: nat, k: nat, slot: Partition)
    requires SlotsInOrder(table, count) && k < count && count >= 2 && FirstOf(table, Slot(k), slot)
    ensures slot.kind == Slot(Spare(k))
  {
    var i :| 0 <= i < |table| && table[i] == slot && Candidate(table[i], Slot(k)) &&
             forall j :: 0 <= j < i ==> !Candidate(table[j], Slot(k));
    assert HasSlot(table, Spare(k));
    var j :| 0 <= j < |table| && Is(table[j], Spare(k));
    assert IsSlot(table[i]) && IsSlot(table[j]) && Candidate(table[j], Slot(k));
  }

  lemma {:induction false} Following(s: nat, count: nat)
    requires s < count
    ensures (s + 1) % count == if s + 1 == count then 0 else s + 1
  {
  }

  /** With slot `k` running and slot `s` selected: when moving on selects the slot that is written. Two slots
      meet exactly if the selected one is running, so not once a failed attempt has moved the selection;
      more than two need not meet at all. */
  lemma {:induction false} RotationMeets(table: seq<Partition>, count: nat, next: AppKind -> AppKind, k: nat, s: nat,
      slot: Partition)
    requires SlotsInOrder(table, count) && Rotates(next, count) && k < count && s < count && count >= 2
    requires FirstOf(table, Slot(k), slot)
    ensures next(Slot(s)) == slot.kind <==> (s + 1) % count == Spare(k)
    ensures s == k ==> (next(Slot(s)) == slot.kind <==> count == 2 || k == 0 || k == count - 1)
    ensures count == 2 ==> (next(Slot(s)) == slot.kind <==> s == k)
  {
    assert next(Slot(s)) == Slot((s + 1) % count);
    FirstIsSpare(table, count, k, slot);
    Following(s, count);
  }

  /** The layout both firmwares are flashed with. */
  const LAYOUT: seq<Partition> :=
    [Data(0x9000, 0x6000), Data(0xF000, 0x2000), Data(0x11000, 0x1000),
     App(Slot(0), 0x20000, 0x1F0000), App(Slot(1), 0x210000, 0x1F0000)]

  lemma {:induction false} LayoutIsInOrder()
    ensures SlotsInOrder(LAYOUT, 2)
  {
    assert Is(LAYOUT[3], 0) && Is(LAYOUT[4], 1);
    assert HasSlot(LAYOUT, 0) && HasSlot(LAYOUT, 1);
  }

  /** A first attempt selected slot 1 and could not mark it, so slot 0 still runs. The next one writes slot 1
      again, and moving on selects slot 0. */
  lemma {:induction false} RetrySelectsRunning(next: AppKind -> AppKind, slot: Partition)
    requires Rotates(next, 2) && FirstOf(LAYOUT, Slot(0), slot)
    ensures slot == LAYOUT[4] && next(Slot(1)) == Slot(0) && slot.kind != Slot(0)
  {
    LayoutIsInOrder();
    RotationMeets(LAYOUT, 2, next, 0, 1, slot);
    FirstIsSpare(LAYOUT, 2, 0, slot);
    assert next(Slot(1)) == Slot((1 + 1) % 2);
  }

  // ---------------------------------------------------------------- the device

  function SectorDown(a: nat): nat { a - a % SECTOR }
  function SectorUp(a: nat): nat { a + (SECTOR - a % SECTOR) % SECTOR }

  lemma {:induction false} HullInside(offset: nat, len: nat, lo: nat, hi: nat)
    requires offset % SECTOR == 0 && len % SECTOR == 0 && offset <= lo <= hi <= offset + len
    ensures offset <= SectorDown(lo) && SectorUp(hi) <= offset + len
  {
    RoundDown(offset, lo);
    RoundUp(offset + len, hi);
  }

  lemma {:induction false} RoundDown(a: nat, x: nat)
    requires a % SECTOR == 0 && a <= x
    ensures a <= SectorDown(x)
  {
    assert a / SECTOR <= x / SECTOR;
    assert SectorDown(x) == x / SECTOR * SECTOR;
    assert a == a / SECTOR * SECTOR;
  }

  lemma {:induction false} RoundUp(b: nat, x: nat)
    requires b % SECTOR == 0 && x <= b
    ensures SectorUp(x) <= b
  {
    assert b == b / SECTOR * SECTOR;
    if x % SECTOR != 0 {
      assert x / SECTOR < b / SECTOR;
      assert SectorUp(x) == (x / SECTOR + 1) * SECTOR;
    }
  }

  /** The flash, which slot the boot data selects, and the pending reboot. `next` is the slot that the boot
      data moves on to from the selected one. A reliable device is one whose writes do not fail. */
  class Device {
    const flash: array<byte>
    const reliable: bool
    const next: AppKind -> AppKind
    var selected: AppKind
    var rebooting: bool

    constructor (flash: array<byte>, selected: AppKind, next: AppKind -> AppKind, reliable: bool)
      ensures this.flash == flash && this.selected == selected && this.next == next && !rebooting
      ensures this.reliable == reliable
    {
      this.flash, this.selected, this.next, this.reliable := flash, selected, next, reliable;
      rebooting := false;
    }

    /** A storage write: it succeeds and changes exactly these bytes, or fails having left anything in
        the sectors it touches. */
    method Write(off: nat, data: seq<byte>) returns (ok: bool)
      requires off + |data| <= flash.Length
      modifies flash
      ensures reliable ==> ok
      ensures ok ==> flash[off..off + |data|] == data
      ensures ok ==> forall j :: 0 <= j < flash.Length && !(off <= j < off + |data|) ==> flash[j] == old(flash[j])
      ensures forall j :: 0 <= j < flash.Length && !(SectorDown(off) <= j < SectorUp(off + |data|)) ==>
                            flash[j] == old(flash[j])
    {
      var succeeds: bool := *;
      ok := reliable || succeeds;
      if ok {
        for k := 0 to |data|
          invariant forall j :: 0 <= j < k ==> flash[off + j] == data[j]
          invariant forall j :: 0 <= j < flash.Length && !(off <= j < off + k) ==> flash[j] == old(flash[j])
        {
          flash[off + k] := data[k];
        }
      } else {
        var end := if SectorUp(off + |data|) < flash.Length then SectorUp(off + |data|) else flash.Length;
        for k := SectorDown(off) to end
          invariant forall j :: 0 <= j < flash.Length && !(SectorDown(off) <= j < k) ==> flash[j] == old(flash[j])
        {
          flash[k] := *;
        }
      }
    }

    /** Moves the boot data on to the next slot and marks it new; either step may fail. */
    method Activate() returns (ok: bool)
      modifies this
      ensures reliable ==> ok
      ensures ok ==> selected == next(old(selected))
      ensures selected == next(old(selected)) || selected == old(selected)
      ensures rebooting == old(rebooting)
    {
      var selects: bool := *;
      if !selects && !reliable {
        return false;
      }
      selected := next(selected);
      var marks: bool := *;
      ok := reliable || marks;
    }
  }

  /** The request body: the bytes that will ever arrive, in pieces of any size. A reliable reader never
      fails and never comes back empty while bytes are left. */
  class Reader {
    const body: seq<byte>
    const reliable: bool
    var pos: nat

    ghost predicate Valid()
      reads this
    {
      pos <= |body|
    }

    constructor (body: seq<byte>, reliable: bool)
      ensures Valid() && this.body == body && pos == 0 && this.reliable == reliable
    {
      this.body, this.reliable, this.pos := body, reliable, 0;
    }

    /** Up to `room` bytes, an empty piece at any time, or an error. */
    method Read(room: nat) returns (r: Option<seq<byte>>)
      requires Valid()
      modifies this
      ensures Valid()
      ensures reliable ==> r.Some? && (room > 0 && old(pos) < |body| ==> r.value != [])
      ensures r.Some? ==> |r.value| <= room && pos == old(pos) + |r.value| && r.value == body[old(pos)..pos]
    {
      var fails: bool := *;
      if fails && !reliable {
        return None;
      }
      var least := if reliable && room > 0 && pos < |body| then 1 else 0;
      assert 0 <= least <= room && pos + least <= |body|;
      var n :| least <= n <= room && pos + n <= |body|;
      r := Some(body[pos..pos + n]);
      pos := pos + n;
    }
  }

  // ---------------------------------------------------------------- streaming

  /** The inner loop: fills at most `want` bytes of the sector buffer from the body; `None` on a read
      error, fewer bytes when a read comes back empty. */
  method FillSector(reader: Reader, sector: array<byte>, want: nat) returns (r: Option<nat>)
    requires reader.Valid() && want <= sector.Length
    modifies reader, sector
    ensures reader.Valid()
    ensures reader.reliable && old(reader.pos) + want <= |reader.body| ==> r == Some(want)
    ensures r.Some? ==> r.value <= want && reader.pos == old(reader.pos) + r.value &&
                        sector[..r.value] == reader.body[old(reader.pos)..reader.pos]
  {
    var filled := 0;
    while filled < want
      invariant reader.Valid() && 0 <= filled <= want
      invariant reader.pos == old(reader.pos) + filled
      invariant sector[..filled] == reader.body[old(reader.pos)..reader.pos]
      decreases want - filled
    {
      var piece := reader.Read(want - filled);
      if piece.None? {
        return None;
      }
      if piece.value == [] {
        break;
      }
      PutPiece(sector, filled, piece.value);
      Adjacent(reader.body, old(reader.pos), old(reader.pos) + filled, reader.pos);
      filled := filled + |piece.value|;
    }
    r := Some(filled);
  }

  lemma {:induction false} Adjacent(s: seq<byte>, i: nat, j: nat, k: nat)
    requires i <= j <= k <= |s|
    ensures s[i..j] + s[j..k] == s[i..k]
  {
  }

  method PutPiece(sector: array<byte>, at: nat, piece: seq<byte>)
    requires at + |piece| <= sector.Length
    modifies sector
    ensures sector[..at + |piece|] == old(sector[..at]) + piece
  {
    for k := 0 to |piece|
      invariant forall j :: 0 <= j < at ==> sector[j] == old(sector[j])
      invariant forall j :: 0 <= j < k ==> sector[at + j] == piece[j]
    {
      sector[at + k] := piece[k];
    }
  }

  /** One chunk into the slot after the `written` bytes already there. */
  method WriteChunk(dev: Device, slot: Partition, written: nat, data: seq<byte>, ghost done: seq<byte>)
    returns (ok: bool)
    requires slot.offset % SECTOR == 0 && slot.len % SECTOR == 0 && slot.offset + slot.len <= dev.flash.Length
    requires written + |data| <= slot.len && written == |done|
    requires dev.flash[slot.offset..slot.offset + written] == done
    modifies dev.flash
    ensures dev.reliable ==> ok
    ensures ok ==> dev.flash[slot.offset..slot.offset + written + |data|] == done + data
    ensures forall j :: 0 <= j < dev.flash.Length && !(slot.offset <= j < slot.offset + slot.len) ==>
                          dev.flash[j] == old(dev.flash[j])
  {
    var off := slot.offset + written;
    HullInside(slot.offset, slot.len, off, off + |data|);
    ok := dev.Write(off, data);
    if ok {
      ghost var now := dev.flash[..];
      assert now[slot.offset..off] == done;
      assert now[slot.offset..off + |data|] == now[slot.offset..off] + now[off..off + |data|];
    }
  }

  method StreamInto(dev: Device, reader: Reader, slot: Partition, total: nat) returns (ok: bool)
    requires reader.Valid() && total <= slot.len
    requires slot.offset % SECTOR == 0 && slot.len % SECTOR == 0 && slot.offset + slot.len <= dev.flash.Length
    modifies reader, dev.flash
    ensures reader.Valid()
    ensures dev.reliable && reader.reliable && old(reader.pos) + total <= |reader.body| ==> ok
    ensures ok ==> old(reader.pos) + total <= |reader.body| &&
                   dev.flash[slot.offset..slot.offset + total] ==
                   reader.body[old(reader.pos)..old(reader.pos) + total]
    ensures forall j :: 0 <= j < dev.flash.Length && !(slot.offset <= j < slot.offset + slot.len) ==>
                          dev.flash[j] == old(dev.flash[j])
  {
    var sector := new byte[SECTOR](_ => 0);
    var written := 0;
    ghost var start := reader.pos;
    while written < total
      invariant reader.Valid() && 0 <= written <= total && reader.pos == start + written
      invariant dev.flash[slot.offset..slot.offset + written] == reader.body[start..start + written]
      invariant forall j :: 0 <= j < dev.flash.Length && !(slot.offset <= j < slot.offset + slot.len) ==>
                              dev.flash[j] == old(dev.flash[j])
      decreases total - written
    {
      var want := if SECTOR < total - written then SECTOR else total - written;
      var filled := FillSector(reader, sector, want);
      if filled.None? {
        return false;
      }
      if filled.value == 0 {
        return false;
      }
      ghost var done := reader.body[start..start + written];
      var wrote := WriteChunk(dev, slot, written, sector[..filled.value], done);
      if !wrote {
        return false;
      }
      Adjacent(reader.body, start, start + written, reader.pos);
      written := written + filled.value;
    }
    ok := true;
  }

  /** The slot's first bytes are the body's first `total` bytes. */
  ghost predicate Holds(dev: Device, slot: Partition, body: seq<byte>, total: nat)
    reads dev.flash
  {
    slot.offset + total <= dev.flash.Length && total <= |body| &&
    dev.flash[slot.offset..slot.offset + total] == body[..total]
  }

  /** Success means that the inactive slot starts with the whole body and that the boot data has moved on;
      `RotationMeets` says when that selects this slot. However the call ends, nothing outside the slot has
      changed, the booted partition in particular, and the boot data moved only if the image is complete. When
      nothing fails and the body is long enough, it succeeds. `total` is the content length. */
  method WriteImage(dev: Device, reader: Reader, total: nat, table: seq<Partition>, booted: Option<Partition>)
    returns (ok: bool, ghost slot: Option<Partition>)
    requires reader.Valid() && reader.pos == 0
    requires WellFormed(table, dev.flash.Length) && (booted.Some? ==> booted.value in table)
    requires total < U32_MODULUS
    modifies dev, reader, dev.flash
    ensures slot.Some? ==> slot.value in table && booted.Some? && booted.value.App? &&
                           FirstOf(table, booted.value.kind, slot.value)
    ensures ok ==> slot.Some? && MIN_IMAGE <= total <= slot.value.len && Holds(dev, slot.value, reader.body, total)
    ensures ok ==> dev.selected == dev.next(old(dev.selected))
    ensures dev.selected != old(dev.selected) ==>
              slot.Some? && dev.selected == dev.next(old(dev.selected)) && Holds(dev, slot.value, reader.body, total)
    ensures slot.None? && MIN_IMAGE <= total && booted.Some? && booted.value.App? ==>
              forall p :: p in table ==> !Candidate(p, booted.value.kind)
    ensures dev.reliable && reader.reliable && total <= |reader.body| ==>
              (ok <==> MIN_IMAGE <= total && slot.Some? && total <= slot.value.len)
    ensures dev.rebooting == (ok || old(dev.rebooting))
    ensures forall j :: 0 <= j < dev.flash.Length &&
                        (slot.Some? ==> !(slot.value.offset <= j < slot.value.offset + slot.value.len)) ==>
                          dev.flash[j] == old(dev.flash[j])
    ensures booted.Some? ==>
              forall j :: booted.value.offset <= j < booted.value.offset + booted.value.len && j < dev.flash.Length ==>
                            dev.flash[j] == old(dev.flash[j])
  {
    slot := None;
    if total < MIN_IMAGE {
      return false, None;
    }
    var found := InactiveSlot(table, booted);
    if found.None? {
      return false, None;
    }
    slot := found;
    var target := found.value;
    SlotIsApart(table, dev.flash.Length, target, booted.value);
    if total > target.len {
      return false, slot;
    }
    var streamed := StreamInto(dev, reader, target, total);
    if !streamed {
      return false, slot;
    }
    assert Holds(dev, target, reader.body, total);
    var activated := dev.Activate();
    if !activated {
      return false, slot;
    }
    dev.rebooting := true;
    return true, slot;
  }
}

/** The hot tier object: its operations, proved against the table model. */
module HotTier {
  import opened Options
  import opened HotBucket
  import opened HotTable

  class HotTier {
    /** `bucket_index`. */
    const route: nat -> nat
    const buckets: array<Bucket>
    var size: int
    var evictions: nat
    var pinFailures: nat

    ghost function View(): (t: Table)
      reads this, buckets
    {
      Table(buckets[..], size, evictions, pinFailures)
    }

    ghost predicate Valid()
      reads this, buckets
    {
      Shaped(View()) && Inv(View(), route)
    }

    constructor (n: nat, bucketIndex: nat -> nat)
      requires forall fp: nat :: bucketIndex(fp) < n
      ensures Valid() && fresh(buckets) && route == bucketIndex && View() == EmptyTable(n)
    {
      route := bucketIndex;
      buckets := new Bucket[n](_ => EmptyBucket());
      size, evictions, pinFailures := 0, 0, 0;
      new;
      EmptyInv(n, bucketIndex);
      assert View() == EmptyTable(n);
    }

    /** The common body of `upsert` and `upsert_pinned`. With nobody else at work the first try succeeds. */
    method PlaceEntry(fp: nat, off: nat, pin: bool) returns (slot: Option<nat>, old_: Option<nat>)
      requires Valid() && fp != 0
      modifies this, buckets
      ensures Valid()
      ensures View() == Insert(old(View()), route, fp, off, pin)
      ensures slot == Place(old(View()).buckets[route(fp)], fp, off, pin).slot
      ensures old_ == Peek(old(View()), route, fp)
    {
      ghost var t := View();
      InsertInv(t, route, fp, off, pin);
      hide Inv, Total;
      var bi := route(fp);
      var b := buckets[bi];
      var hit, firstEmpty := Probe(b, fp);
      if hit.Some? {
        var i := hit.value;
        buckets[bi] := Bucket(b.slots[i := Slot(fp, off)], b.visited[i := true], b.hand, StateAfter(b, i, pin));
        return hit, Some(b.slots[i].off);
      }
      old_ := None;
      if firstEmpty.Some? {
        buckets[bi] := Claim(b, firstEmpty.value, fp, off, pin);
        size := size + 1;
        return firstEmpty, None;
      }
      var b1;
      slot, b1 := SieveEvict(b);
      hide SieveFrom;
      if slot.None? {
        buckets[bi] := b1;
        if pin {
          pinFailures := pinFailures + 1;
        }
        return;
      }
      if b.slots[slot.value] != Empty {
        size, evictions := size - 1, evictions + 1;
      }
      buckets[bi] := Claim(b1, slot.value, fp, off, pin);
      size := size + 1;
    }

    /** `upsert`: the offset replaced, if any. */
    method Upsert(fp: nat, off: nat) returns (old_: Option<nat>)
      requires Valid() && fp != 0
      modifies this, buckets
      ensures Valid() && View() == Step(old(View()), route, HotTable.Upsert(fp, off))
      ensures old_ == Peek(old(View()), route, fp)
    {
      var _, replaced := PlaceEntry(fp, off, false);
      old_ := replaced;
      hide Insert, Inv;
    }

    method UpsertPinned(fp: nat, off: nat) returns (ref: SlotRef)
      requires Valid() && fp != 0
      modifies this, buckets
      ensures Valid() && View() == Step(old(View()), route, HotTable.Pin(fp, off))
      ensures ref == PinRef(old(View()), route, fp, off)
    {
      var slot, _ := PlaceEntry(fp, off, true);
      hide Insert, Inv, Place;
      ref := if slot.Some? then Ref(route(fp), slot.value) else NoRef;
    }

    method Lookup(fp: nat) returns (r: Option<nat>)
      requires Valid() && fp != 0
      modifies buckets
      ensures Valid() && View() == Step(old(View()), route, HotTable.Lookup(fp))
      ensures r == Peek(old(View()), route, fp)
    {
      ghost var t := View();
      StepInv(t, route, HotTable.Lookup(fp));
      hide Inv;
      var bi := route(fp);
      var b := buckets[bi];
      var hit, _ := Probe(b, fp);
      if hit.None? {
        return None;
      }
      buckets[bi] := Touch(b, hit.value, true);
      r := Some(b.slots[hit.value].off);
    }

    method Remove(fp: nat) returns (found: bool)
      requires Valid() && fp != 0
      modifies this, buckets
      ensures Valid() && View() == Step(old(View()), route, HotTable.Remove(fp))
      ensures found == Peek(old(View()), route, fp).Some?
    {
      ghost var t := View();
      StepInv(t, route, HotTable.Remove(fp));
      hide Inv;
      var bi := route(fp);
      var b := buckets[bi];
      var hit, _ := Probe(b, fp);
      if hit.None? {
        return false;
      }
      buckets[bi] := Touch(b.(slots := b.slots[hit.value := Empty]), hit.value, false);
      size := size - 1;
      found := true;
    }

    method CasSlotState(ref: SlotRef, from: SlotState, to: SlotState) returns (ok: bool)
      requires Valid() && InRange(View(), ref)
      modifies buckets
      ensures Valid() && View() == Step(old(View()), route, HotTable.CasState(ref, from, to))
      ensures ok == (ref.Ref? && old(View()).buckets[ref.bucket].state[ref.slot] == from)
    {
      ghost var t := View();
      StepInv(t, route, HotTable.CasState(ref, from, to));
      hide Inv;
      if ref.NoRef? {
        return false;
      }
      var b := buckets[ref.bucket];
      ok := b.state[ref.slot] == from;
      if ok {
        buckets[ref.bucket] := b.(state := b.state[ref.slot := to]);
      }
    }

    method Release(ref: SlotRef)
      requires Valid() && InRange(View(), ref)
      modifies buckets
      ensures Valid() && View() == Step(old(View()), route, HotTable.Unpin(ref))
    {
      ghost var t := View();
      StepInv(t, route, HotTable.Unpin(ref));
      hide Inv;
      if ref.Ref? {
        var b := buckets[ref.bucket];
        buckets[ref.bucket] := b.(state := b.state[ref.slot := Unpinned]);
      }
    }
  }
}

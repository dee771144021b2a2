/** Every slot, visited bit, state, hand and counter of the hot tier after each operation, told from the bucket before
    it, and what a hit does for the entry it hits. */
module HotExact {
  import opened Options
  import opened HotBucket
  import opened HotTable

  // ---------------------------------------------------------------- where an entry goes

  predicate Holds(b: Bucket, i: nat, fp: nat)
    requires WellFormed(b)
  {
    i < SlotsPerBucket && b.slots[i].fp == fp
  }

  predicate Lacks(b: Bucket, fp: nat)
    requires WellFormed(b)
  {
    forall i :: 0 <= i < SlotsPerBucket ==> b.slots[i].fp != fp
  }

  /** An entry for `fp` needs a slot freed for it: it is not there, and nothing is empty. */
  predicate Crowded(b: Bucket, fp: nat)
    requires WellFormed(b)
  {
    Lacks(b, fp) && Lacks(b, 0)
  }

  /** The slot an entry for `fp` goes to: its own, else the first empty one, else the victim of the sweep. */
  ghost predicate Chosen(b: Bucket, fp: nat, v: nat)
    requires WellFormed(b) && v < SlotsPerBucket
  {
    if !Lacks(b, fp) then Holds(b, v, fp) && forall i :: 0 <= i < v ==> b.slots[i].fp != fp
    else if !Lacks(b, 0) then Holds(b, v, 0) && forall i :: 0 <= i < v ==> b.slots[i].fp != 0
    else Victim(b, v)
  }

  /** The bucket once the entry is in slot `v`. The visited bit is set by an update and clear after a new entry; the
      sweep takes the bits it passes and moves the hand behind the victim. */
  ghost predicate Stored(b: Bucket, fp: nat, off: nat, pin: bool, v: nat, b': Bucket)
    requires WellFormed(b) && WellFormed(b') && v < SlotsPerBucket
  {
    && b'.slots == b.slots[v := Slot(fp, off)]
    && b'.state == (if pin then b.state[v := Pinned] else b.state)
    && b'.hand == (if Crowded(b, fp) then (v + 1) % SlotsPerBucket else b.hand)
    && forall i: nat :: i < SlotsPerBucket ==>
         b'.visited[i] == if i == v then !Lacks(b, fp) else b.visited[i] && !(Crowded(b, fp) && Swept(b, v, i))
  }

  lemma LacksIff(b: Bucket, fp: nat)
    requires WellFormed(b)
    ensures Lacks(b, fp) <==> Find(b, fp) == SlotsPerBucket
  {
  }

  /** Placing an entry is exactly this, and the flags say whether it is new and whether another one left. */
  lemma PlaceExact(b: Bucket, fp: nat, off: nat, pin: bool)
    requires WellFormed(b)
    ensures var r := Place(b, fp, off, pin);
            if r.slot.Some? then
              && Chosen(b, fp, r.slot.value) && Stored(b, fp, off, pin, r.slot.value, r.b)
              && r.isNew == Lacks(b, fp) && r.evicted == Crowded(b, fp)
            else r.b == b && Crowded(b, fp) && !r.isNew && !r.evicted
  {
    LacksIff(b, fp);
    LacksIff(b, 0);
    if Crowded(b, fp) {
      PlaceCrowded(b, fp, off, pin);
    } else {
      hide SieveFrom, Lacks, Victim, Swept;
    }
  }

  lemma PlaceCrowded(b: Bucket, fp: nat, off: nat, pin: bool)
    requires WellFormed(b) && Crowded(b, fp)
    ensures var r := Place(b, fp, off, pin);
            if r.slot.Some? then
              && Victim(b, r.slot.value) && Stored(b, fp, off, pin, r.slot.value, r.b) && r.isNew && r.evicted
            else r.b == b && !r.isNew && !r.evicted
  {
    LacksIff(b, fp);
    LacksIff(b, 0);
    SieveExact(b);
    var s := SieveFrom(b, 0);
    hide SieveFrom, Lacks, Victim, Swept, IndexOf;
    if s.idx.Some? {
      var v := s.idx.value;
      NotEmpty(b, v);
      assert b.slots[v := Empty][v := Slot(fp, off)] == b.slots[v := Slot(fp, off)];
      assert Place(b, fp, off, pin) == Placed(Claim(s.b, v, fp, off, pin), Some(v), true, true);
    }
  }

  lemma NotEmpty(b: Bucket, v: nat)
    requires WellFormed(b) && Lacks(b, 0) && v < SlotsPerBucket
    ensures b.slots[v].fp != 0
  {
  }

  // ---------------------------------------------------------------- every operation

  /** The bucket `fp` is routed to. */
  function Home(t: Table, route: Route, fp: nat): (b: Bucket)
    requires Shaped(t) && route(fp) < |t.buckets|
    ensures WellFormed(b)
  {
    t.buckets[route(fp)]
  }

  /** Nothing but the visited bit, the word or the state of one slot. */
  predicate OnlySlot(b: Bucket, b': Bucket, i: nat, x: Slot, hit: bool, s: SlotState)
    requires WellFormed(b) && i < SlotsPerBucket
  {
    b' == Bucket(b.slots[i := x], b.visited[i := hit], b.hand, b.state[i := s])
  }

  /** Bucket `bi` after `op`, from its state before. */
  ghost predicate BucketAfter(t: Table, route: Route, op: Op, bi: nat, b': Bucket)
    requires Shaped(t) && Legal(t, op) && Routes(t, route) && bi < |t.buckets| && WellFormed(b')
  {
    var b := t.buckets[bi];
    match op
    case Upsert(fp, off) => if bi != route(fp) then b' == b else PutAfter(b, fp, off, false, b')
    case Pin(fp, off) => if bi != route(fp) then b' == b else PutAfter(b, fp, off, true, b')
    case Lookup(fp) =>
      if bi != route(fp) || Lacks(b, fp) then b' == b
      else exists i: nat :: Holds(b, i, fp) && OnlySlot(b, b', i, b.slots[i], true, b.state[i])
    case Remove(fp) =>
      if bi != route(fp) || Lacks(b, fp) then b' == b
      else exists i: nat :: Holds(b, i, fp) && OnlySlot(b, b', i, Empty, false, b.state[i])
    case CasState(ref, from, to) =>
      if ref.NoRef? || ref.bucket != bi || b.state[ref.slot] != from then b' == b
      else OnlySlot(b, b', ref.slot, b.slots[ref.slot], b.visited[ref.slot], to)
    case Unpin(ref) =>
      if ref.NoRef? || ref.bucket != bi then b' == b
      else OnlySlot(b, b', ref.slot, b.slots[ref.slot], b.visited[ref.slot], Unpinned)
  }

  /** An entry is stored where it belongs, or, with every slot blocked, nothing changes. */
  ghost predicate PutAfter(b: Bucket, fp: nat, off: nat, pin: bool, b': Bucket)
    requires WellFormed(b) && WellFormed(b')
  {
    if AllBlocked(b, fp) then b' == b
    else exists v: nat :: v < SlotsPerBucket && Chosen(b, fp, v) && Stored(b, fp, off, pin, v, b')
  }

  ghost predicate AllBlocked(b: Bucket, fp: nat)
    requires WellFormed(b)
  {
    forall i: nat :: i < SlotsPerBucket ==> Blocked(b, fp, i)
  }

  /** Evictions are counted where a crowded bucket gives up an entry, pin failures where nothing could be pinned. */
  ghost predicate CountersAfter(t: Table, route: Route, op: Op, t': Table)
    requires Shaped(t) && Legal(t, op) && Routes(t, route)
  {
    var puts := op.Upsert? || op.Pin?;
    && t'.evictions == t.evictions
         + (if puts && Crowded(Home(t, route, op.fp), op.fp) && !AllBlocked(Home(t, route, op.fp), op.fp) then 1 else 0)
    && t'.pinFailures == t.pinFailures + (if op.Pin? && AllBlocked(Home(t, route, op.fp), op.fp) then 1 else 0)
  }

  /** Every operation does exactly what `BucketAfter` and `CountersAfter` say: slots, visited bits, hands and states of
      all buckets, and the counters besides the size. */
  lemma StepExact(t: Table, route: Route, op: Op, bi: nat)
    requires Shaped(t) && Legal(t, op) && Routes(t, route) && bi < |t.buckets|
    ensures var t' := Step(t, route, op);
            && |t'.buckets| == |t.buckets| && WellFormed(t'.buckets[bi])
            && BucketAfter(t, route, op, bi, t'.buckets[bi]) && CountersAfter(t, route, op, t')
  {
    match op
    case Upsert(fp, off) => InsertExact(t, route, fp, off, false);
    case Pin(fp, off) => InsertExact(t, route, fp, off, true);
    case Lookup(fp) => HitExact(t, route, op, bi);
    case Remove(fp) => HitExact(t, route, op, bi);
    case CasState(ref, from, to) =>
      hide AllBlocked, Crowded, IndexOf;
    case Unpin(ref) =>
      hide AllBlocked, Crowded, IndexOf;
  }

  lemma InsertExact(t: Table, route: Route, fp: nat, off: nat, pin: bool)
    requires Shaped(t) && fp != 0 && Routes(t, route)
    ensures var t', b := Insert(t, route, fp, off, pin), Home(t, route, fp);
            && |t'.buckets| == |t.buckets| && WellFormed(t'.buckets[route(fp)])
            && PutAfter(b, fp, off, pin, t'.buckets[route(fp)])
            && (forall bi :: 0 <= bi < |t.buckets| && bi != route(fp) ==> t'.buckets[bi] == t.buckets[bi])
            && t'.evictions == t.evictions + (if Crowded(b, fp) && !AllBlocked(b, fp) then 1 else 0)
            && t'.pinFailures == t.pinFailures + (if pin && AllBlocked(b, fp) then 1 else 0)
  {
    var b := Home(t, route, fp);
    PlaceExact(b, fp, off, pin);
    PlaceFailsIff(b, fp, off, pin);
    hide Place, Chosen, Stored, Crowded;
  }

  lemma HitExact(t: Table, route: Route, op: Op, bi: nat)
    requires Shaped(t) && Legal(t, op) && Routes(t, route) && bi < |t.buckets| && (op.Lookup? || op.Remove?)
    ensures var t' := Step(t, route, op);
            && |t'.buckets| == |t.buckets| && WellFormed(t'.buckets[bi])
            && BucketAfter(t, route, op, bi, t'.buckets[bi]) && CountersAfter(t, route, op, t')
  {
    var b := t.buckets[bi];
    LacksIff(b, op.fp);
    hide AllBlocked, Crowded, Lacks;
    if bi == route(op.fp) && Find(b, op.fp) < SlotsPerBucket {
      var i := Find(b, op.fp);
      assert Holds(b, i, op.fp);
      assert b.state[i := b.state[i]] == b.state && b.slots[i := b.slots[i]] == b.slots;
    }
  }

  /** `upsert_pinned` returns an invalid reference iff every slot is blocked, and else the slot that now holds the entry,
      pinned. */
  lemma PinRefExact(t: Table, route: Route, fp: nat, off: nat)
    requires Shaped(t) && fp != 0 && Routes(t, route)
    ensures var ref, t' := PinRef(t, route, fp, off), Step(t, route, Pin(fp, off));
            if AllBlocked(Home(t, route, fp), fp) then ref == NoRef
            else
              && ref.Ref? && ref.bucket == route(fp) < |t'.buckets| && WellFormed(t'.buckets[route(fp)])
              && ref.slot < SlotsPerBucket && t'.buckets[ref.bucket].slots[ref.slot] == Slot(fp, off)
              && t'.buckets[ref.bucket].state[ref.slot] == Pinned
  {
    var b := Home(t, route, fp);
    PlaceExact(b, fp, off, true);
    PlaceFailsIff(b, fp, off, true);
    hide Place, Chosen, Crowded, AllBlocked;
  }

  // ---------------------------------------------------------------- what a hit is worth

  /** The entry of `fp` has been hit since a sweep last passed it. */
  ghost predicate HitEntry(t: Table, route: Route, fp: nat)
    requires Shaped(t) && Routes(t, route)
  {
    exists i: nat :: Holds(Home(t, route, fp), i, fp) && Home(t, route, fp).visited[i]
  }

  /** `op` frees a slot in bucket `bi`, or finds none to free. */
  predicate Sweeps(t: Table, route: Route, op: Op, bi: nat)
    requires Shaped(t) && bi < |t.buckets|
  {
    (op.Upsert? || op.Pin?) && route(op.fp) == bi && Crowded(t.buckets[bi], op.fp)
  }

  lemma LookupHits(t: Table, route: Route, fp: nat)
    requires Inv(t, route) && Shaped(t) && fp != 0 && Peek(t, route, fp).Some?
    ensures Inv(Step(t, route, Lookup(fp)), route) && Shaped(Step(t, route, Lookup(fp)))
    ensures HitEntry(Step(t, route, Lookup(fp)), route, fp)
  {
    StepInv(t, route, Lookup(fp));
    StepExact(t, route, Lookup(fp), route(fp));
    LacksIff(Home(t, route, fp), fp);
    var t' := Step(t, route, Lookup(fp));
    var b, b' := Home(t, route, fp), Home(t', route, fp);
    assert Routes(t', route) && !Lacks(b, fp);
    hide Step, Inv, Lacks;
    var i: nat :| Holds(b, i, fp) && OnlySlot(b, b', i, b.slots[i], true, b.state[i]);
    assert Holds(b', i, fp) && b'.visited[i];
  }

  /** No operation but its removal takes a hit entry away or its bit, unless it sweeps the bucket; and a sweep spares
      the entry as long as some unpinned slot is unvisited. */
  lemma HitKept(t: Table, route: Route, op: Op, fp: nat)
    requires Inv(t, route) && Shaped(t) && Legal(t, op) && fp != 0 && HitEntry(t, route, fp) && op != Remove(fp)
    ensures Inv(Step(t, route, op), route) && Shaped(Step(t, route, op))
    ensures !Sweeps(t, route, op, route(fp)) ==> HitEntry(Step(t, route, op), route, fp)
    ensures HasCold(Home(t, route, fp)) ==> Peek(Step(t, route, op), route, fp).Some?
  {
    StepInv(t, route, op);
    StepExact(t, route, op, route(fp));
    var t', b := Step(t, route, op), Home(t, route, fp);
    var i: nat :| Holds(b, i, fp) && b.visited[i];
    hide Step;
    assert BucketInv(route, route(fp), b);
    hide Inv;
    EntryAfter(t, route, op, fp, i, t'.buckets[route(fp)]);
    var b' := Home(t', route, fp);
    LacksIff(b', fp);
    if Holds(b', i, fp) && b'.visited[i] {
      assert HitEntry(t', route, fp);
    }
  }

  lemma EntryAfter(t: Table, route: Route, op: Op, fp: nat, i: nat, b': Bucket)
    requires Shaped(t) && Legal(t, op) && Routes(t, route) && fp != 0 && op != Remove(fp)
    requires BucketInv(route, route(fp), Home(t, route, fp))
    requires Holds(Home(t, route, fp), i, fp) && Home(t, route, fp).visited[i] && WellFormed(b')
    requires BucketAfter(t, route, op, route(fp), b')
    ensures !Sweeps(t, route, op, route(fp)) ==> Holds(b', i, fp) && b'.visited[i]
    ensures HasCold(Home(t, route, fp)) ==> Holds(b', i, fp)
  {
    var b := Home(t, route, fp);
    hide HasCold, Swept, AllBlocked;
    if (op.Upsert? || op.Pin?) && route(op.fp) == route(fp) && !AllBlocked(b, op.fp) {
      var v: nat :| v < SlotsPerBucket && Chosen(b, op.fp, v) && Stored(b, op.fp, op.off, op.Pin?, v, b');
      if op.fp != fp {
        ChosenSpares(b, op.fp, v, i);
      } else {
        assert !Lacks(b, fp) && v == i;
      }
    }
  }

  /** An entry goes to no slot that holds another fingerprint, except to a victim. */
  lemma ChosenSpares(b: Bucket, fp: nat, v: nat, i: nat)
    requires WellFormed(b) && v < SlotsPerBucket && i < SlotsPerBucket && Chosen(b, fp, v)
    requires b.slots[i].fp != 0 && b.slots[i].fp != fp
    ensures v == i ==> Crowded(b, fp) && Victim(b, v)
  {
  }

  /** The table after a run in which no operation sweeps the bucket of `fp` or removes `fp`. */
  ghost predicate Unswept(t: Table, route: Route, ops: seq<Op>, fp: nat)
    requires Inv(t, route) && Shaped(t)
    decreases |ops|
  {
    ops == []
    || (Legal(t, ops[0]) && ops[0] != Remove(fp) && !Sweeps(t, route, ops[0], route(fp))
        && (StepInv(t, route, ops[0]); Unswept(Step(t, route, ops[0]), route, ops[1..], fp)))
  }

  ghost function After(t: Table, route: Route, ops: seq<Op>, fp: nat): (t': Table)
    requires Inv(t, route) && Shaped(t) && Unswept(t, route, ops, fp)
    ensures Inv(t', route) && Shaped(t')
    decreases |ops|
  {
    if ops == [] then t
    else
      StepInv(t, route, ops[0]);
      After(Step(t, route, ops[0]), route, ops[1..], fp)
  }

  lemma {:induction false} HitRun(t: Table, route: Route, ops: seq<Op>, fp: nat)
    requires Inv(t, route) && Shaped(t) && fp != 0 && HitEntry(t, route, fp) && Unswept(t, route, ops, fp)
    ensures HitEntry(After(t, route, ops, fp), route, fp)
    decreases |ops|
  {
    if ops != [] {
      HitKept(t, route, ops[0], fp);
      hide Step, Inv, HitEntry;
      HitRun(Step(t, route, ops[0]), route, ops[1..], fp);
    }
  }

  /** Over every run: an entry that was hit since the last sweep of its bucket is not the next victim while an unpinned
      slot of the bucket is unvisited. */
  lemma HitSurvives(t: Table, route: Route, fp: nat, ops: seq<Op>, op: Op)
    requires Inv(t, route) && Shaped(t) && fp != 0 && Peek(t, route, fp).Some?
    requires var t1 := Step(t, route, Lookup(fp)); Inv(t1, route) && Shaped(t1) && Unswept(t1, route, ops, fp)
    requires var t2 := After(Step(t, route, Lookup(fp)), route, ops, fp); Legal(t2, op) && HasCold(Home(t2, route, fp))
    requires op != Remove(fp)
    ensures var t2 := After(Step(t, route, Lookup(fp)), route, ops, fp);
            Shaped(Step(t2, route, op)) && |Step(t2, route, op).buckets| == |t2.buckets|
            && Peek(Step(t2, route, op), route, fp).Some?
  {
    LookupHits(t, route, fp);
    var t1 := Step(t, route, Lookup(fp));
    HitRun(t1, route, ops, fp);
    var t2 := After(t1, route, ops, fp);
    HitKept(t2, route, op, fp);
    StepWidth(t2, route, op);
  }
}

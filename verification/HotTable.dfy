/** The hot tier as a table of buckets, and runs of its operations, each taken without interference. */
module HotTable {
  import opened Options
  import opened HotBucket

  datatype Table = Table(buckets: seq<Bucket>, size: int, evictions: nat, pinFailures: nat)

  /** Where an entry was placed; `NoRef` is the invalid reference of a failed placement. */
  datatype SlotRef = NoRef | Ref(bucket: nat, slot: nat)

  datatype Op =
    | Upsert(fp: nat, off: nat)
    | Pin(fp: nat, off: nat)
    | Lookup(fp: nat)
    | Remove(fp: nat)
    | CasState(ref: SlotRef, from: SlotState, to: SlotState)
    | Unpin(ref: SlotRef)

  type Route = nat -> nat

  ghost predicate Routes(t: Table, route: Route) { forall fp: nat :: route(fp) < |t.buckets| }

  // ---------------------------------------------------------------- placing an entry in a bucket

  datatype Placed = Placed(b: Bucket, slot: Option<nat>, isNew: bool, evicted: bool)

  function StateAfter(b: Bucket, i: nat, pin: bool): (s: seq<SlotState>)
    requires WellFormed(b) && i < SlotsPerBucket
    ensures |s| == SlotsPerBucket
  {
    if pin then b.state[i := Pinned] else b.state
  }

  /** Update in place, else the first empty slot, else the slot SIEVE frees, else nowhere. */
  function Place(b: Bucket, fp: nat, off: nat, pin: bool): (r: Placed)
    requires WellFormed(b)
    ensures WellFormed(r.b) && (r.slot.Some? ==> r.slot.value < SlotsPerBucket)
  {
    var i := Find(b, fp);
    if i < SlotsPerBucket then
      Placed(Bucket(b.slots[i := Slot(fp, off)], b.visited[i := true], b.hand, StateAfter(b, i, pin)), Some(i), false, false)
    else
      var e := Find(b, 0);
      if e < SlotsPerBucket then Placed(Claim(b, e, fp, off, pin), Some(e), true, false)
      else
        var r := SieveFrom(b, 0);
        if r.idx.None? then Placed(r.b, None, false, false)
        else Placed(Claim(r.b, r.idx.value, fp, off, pin), r.idx, true, b.slots[r.idx.value] != Empty)
  }

  function Claim(b: Bucket, i: nat, fp: nat, off: nat, pin: bool): (b': Bucket)
    requires WellFormed(b) && i < SlotsPerBucket
    ensures WellFormed(b')
  {
    Bucket(b.slots[i := Slot(fp, off)], b.visited[i := false], b.hand, StateAfter(b, i, pin))
  }

  function Touch(b: Bucket, i: nat, hit: bool): (b': Bucket)
    requires WellFormed(b) && i < SlotsPerBucket
    ensures WellFormed(b')
  {
    b.(visited := b.visited[i := hit])
  }

  // ---------------------------------------------------------------- operations

  predicate Shaped(t: Table) { forall i :: 0 <= i < |t.buckets| ==> WellFormed(t.buckets[i]) }

  predicate InRange(t: Table, ref: SlotRef) { ref.Ref? ==> ref.bucket < |t.buckets| && ref.slot < SlotsPerBucket }

  predicate Legal(t: Table, op: Op) {
    if op.CasState? || op.Unpin? then InRange(t, op.ref) else op.fp != 0
  }

  function Insert(t: Table, route: Route, fp: nat, off: nat, pin: bool): (t': Table)
    requires Shaped(t) && route(fp) < |t.buckets|
  {
    var bi := route(fp);
    var r := Place(t.buckets[bi], fp, off, pin);
    Table(t.buckets[bi := r.b],
          t.size + (if r.isNew then 1 else 0) - (if r.evicted then 1 else 0),
          t.evictions + (if r.evicted then 1 else 0),
          t.pinFailures + (if pin && r.slot.None? then 1 else 0))
  }

  function SetState(t: Table, ref: SlotRef, s: SlotState): (t': Table)
    requires Shaped(t) && ref.Ref? && InRange(t, ref)
  {
    var b := t.buckets[ref.bucket];
    t.(buckets := t.buckets[ref.bucket := b.(state := b.state[ref.slot := s])])
  }

  function Step(t: Table, route: Route, op: Op): (t': Table)
    requires Shaped(t) && Legal(t, op) && (op.Upsert? || op.Pin? || op.Lookup? || op.Remove? ==> route(op.fp) < |t.buckets|)
  {
    match op
    case Upsert(fp, off) => Insert(t, route, fp, off, false)
    case Pin(fp, off) => Insert(t, route, fp, off, true)
    case Lookup(fp) =>
      var bi := route(fp);
      var i := Find(t.buckets[bi], fp);
      if i < SlotsPerBucket then t.(buckets := t.buckets[bi := Touch(t.buckets[bi], i, true)]) else t
    case Remove(fp) =>
      var bi := route(fp);
      var b := t.buckets[bi];
      var i := Find(b, fp);
      if i < SlotsPerBucket then
        t.(buckets := t.buckets[bi := Touch(b.(slots := b.slots[i := Empty]), i, false)], size := t.size - 1)
      else t
    case CasState(ref, from, to) =>
      if ref.Ref? && t.buckets[ref.bucket].state[ref.slot] == from then SetState(t, ref, to) else t
    case Unpin(ref) => if ref.Ref? then SetState(t, ref, Unpinned) else t
  }

  /** What `lookup` and `peek` answer. */
  function Peek(t: Table, route: Route, fp: nat): (r: Option<nat>)
    requires Shaped(t) && route(fp) < |t.buckets|
  {
    var b := t.buckets[route(fp)];
    var i := Find(b, fp);
    if i < SlotsPerBucket then Some(b.slots[i].off) else None
  }

  /** The reference `upsert_pinned` returns. */
  function PinRef(t: Table, route: Route, fp: nat, off: nat): (r: SlotRef)
    requires Shaped(t) && route(fp) < |t.buckets|
  {
    var r := Place(t.buckets[route(fp)], fp, off, true);
    if r.slot.Some? then Ref(route(fp), r.slot.value) else NoRef
  }

  // ---------------------------------------------------------------- invariant

  /** Empty words are zero, entries sit in the bucket their fingerprint selects, and no fingerprint sits twice. */
  ghost predicate BucketInv(route: Route, bi: nat, b: Bucket) {
    && WellFormed(b)
    && (forall i :: 0 <= i < SlotsPerBucket ==> if b.slots[i].fp == 0 then b.slots[i] == Empty else route(b.slots[i].fp) == bi)
    && (forall i, j :: 0 <= i < j < SlotsPerBucket && b.slots[i].fp == b.slots[j].fp ==> b.slots[i].fp == 0)
  }

  function Count(s: seq<Slot>): (n: nat)
    decreases |s|
  {
    if s == [] then 0 else (if s[|s| - 1].fp != 0 then 1 else 0) + Count(s[..|s| - 1])
  }

  function Total(bs: seq<Bucket>): (n: nat)
    decreases |bs|
  {
    if bs == [] then 0 else Count(bs[|bs| - 1].slots) + Total(bs[..|bs| - 1])
  }

  ghost predicate Inv(t: Table, route: Route) {
    && Routes(t, route)
    && (forall bi :: 0 <= bi < |t.buckets| ==> BucketInv(route, bi, t.buckets[bi]))
    && t.size == Total(t.buckets)
  }

  lemma {:induction false} CountUpdate(s: seq<Slot>, i: nat, x: Slot)
    requires i < |s|
    ensures Count(s[i := x]) == Count(s) - (if s[i].fp != 0 then 1 else 0) + (if x.fp != 0 then 1 else 0)
    decreases |s|
  {
    var s' := s[i := x];
    if i == |s| - 1 {
      assert s'[..|s| - 1] == s[..|s| - 1];
    } else {
      CountUpdate(s[..|s| - 1], i, x);
      assert s'[..|s| - 1] == s[..|s| - 1][i := x];
    }
  }

  lemma {:induction false} TotalUpdate(bs: seq<Bucket>, i: nat, b: Bucket)
    requires i < |bs|
    ensures Total(bs[i := b]) == Total(bs) - Count(bs[i].slots) + Count(b.slots)
    decreases |bs|
  {
    var bs' := bs[i := b];
    if i == |bs| - 1 {
      assert bs'[..|bs| - 1] == bs[..|bs| - 1];
    } else {
      TotalUpdate(bs[..|bs| - 1], i, b);
      assert bs'[..|bs| - 1] == bs[..|bs| - 1][i := b];
    }
  }

  /** Where `Place` may put an entry, and that it touches one slot only. */
  lemma PlaceFacts(b: Bucket, fp: nat, off: nat, pin: bool)
    requires WellFormed(b)
    ensures var r := Place(b, fp, off, pin);
            && (r.slot.None? ==> r.b == b && !r.isNew && !r.evicted && Find(b, fp) == SlotsPerBucket)
            && (r.slot.Some? ==>
                  var v := r.slot.value;
                  && r.b.slots == b.slots[v := Slot(fp, off)] && r.b.state == StateAfter(b, v, pin)
                  && (if r.isNew then Find(b, fp) == SlotsPerBucket else v == Find(b, fp) && !r.evicted)
                  && (r.isNew && !r.evicted ==> b.slots[v].fp == 0 || b.slots[v] == Empty)
                  && (r.evicted ==> b.slots[v] != Empty && b.state[v] == Unpinned))
  {
    SieveExact(b);
    hide SieveFrom;
    var r := Place(b, fp, off, pin);
    if r.slot.Some? && r.isNew && Find(b, 0) == SlotsPerBucket {
      var v := r.slot.value;
      assert b.slots[v := Empty][v := Slot(fp, off)] == b.slots[v := Slot(fp, off)];
    }
  }

  /** Slot `i` is of no use for placing `fp`. */
  predicate Blocked(b: Bucket, fp: nat, i: nat)
    requires WellFormed(b) && i < SlotsPerBucket
  {
    b.slots[i].fp != fp && b.slots[i].fp != 0 && !Free(b, i)
  }

  lemma AbsentIff(b: Bucket, fp: nat)
    requires WellFormed(b)
    ensures Find(b, fp) == SlotsPerBucket <==> forall i :: 0 <= i < SlotsPerBucket ==> b.slots[i].fp != fp
  {
  }

  lemma PlaceNowhere(b: Bucket, fp: nat, off: nat, pin: bool)
    requires WellFormed(b)
    ensures Place(b, fp, off, pin).slot.None? <==>
            Find(b, fp) == SlotsPerBucket && Find(b, 0) == SlotsPerBucket && SieveFrom(b, 0).idx.None?
  {
    hide SieveFrom, IndexOf;
  }

  /** Nothing can be placed iff the fingerprint is absent, the bucket is full and no slot of it is unpinned. */
  lemma PlaceFailsIff(b: Bucket, fp: nat, off: nat, pin: bool)
    requires WellFormed(b)
    ensures Place(b, fp, off, pin).slot.None? <==> forall i: nat :: i < SlotsPerBucket ==> Blocked(b, fp, i)
  {
    hide SieveFrom, IndexOf, Victim, Evicted, Place, Find;
    PlaceNowhere(b, fp, off, pin);
    AbsentIff(b, fp);
    AbsentIff(b, 0);
    SieveExact(b);
    if forall i: nat :: i < SlotsPerBucket ==> Blocked(b, fp, i) {
      forall i: nat | i < SlotsPerBucket ensures !Free(b, i) && b.slots[i].fp != fp && b.slots[i].fp != 0 {
        assert Blocked(b, fp, i);
      }
    }
  }

  lemma PlaceInv(route: Route, b: Bucket, fp: nat, off: nat, pin: bool)
    requires fp != 0 && BucketInv(route, route(fp), b)
    ensures var r := Place(b, fp, off, pin);
            && BucketInv(route, route(fp), r.b)
            && Count(r.b.slots) == Count(b.slots) + (if r.isNew then 1 else 0) - (if r.evicted then 1 else 0)
  {
    PlaceFacts(b, fp, off, pin);
    var r := Place(b, fp, off, pin);
    hide Place;
    if r.slot.Some? {
      CountUpdate(b.slots, r.slot.value, Slot(fp, off));
    }
  }

  /** One bucket replaced by one that keeps the invariant. */
  lemma BucketStep(t: Table, route: Route, bi: nat, b: Bucket, t': Table)
    requires Inv(t, route) && bi < |t.buckets| && BucketInv(route, bi, b)
    requires t'.buckets == t.buckets[bi := b] && t'.size == t.size + Count(b.slots) - Count(t.buckets[bi].slots)
    ensures Inv(t', route)
  {
    TotalUpdate(t.buckets, bi, b);
  }

  lemma StepInv(t: Table, route: Route, op: Op)
    requires Inv(t, route) && Shaped(t) && Legal(t, op)
    ensures Inv(Step(t, route, op), route) && Shaped(Step(t, route, op))
  {
    var t' := Step(t, route, op);
    match op
    case Upsert(fp, off) => InsertInv(t, route, fp, off, false);
    case Pin(fp, off) => InsertInv(t, route, fp, off, true);
    case Lookup(fp) => BucketStep(t, route, route(fp), t'.buckets[route(fp)], t');
    case Remove(fp) => RemoveInv(t, route, fp);
    case CasState(ref, _, _) => if ref.Ref? { BucketStep(t, route, ref.bucket, t'.buckets[ref.bucket], t'); }
    case Unpin(ref) => if ref.Ref? { BucketStep(t, route, ref.bucket, t'.buckets[ref.bucket], t'); }
  }

  lemma InsertInv(t: Table, route: Route, fp: nat, off: nat, pin: bool)
    requires Inv(t, route) && Shaped(t) && fp != 0
    ensures Inv(Insert(t, route, fp, off, pin), route)
  {
    var bi := route(fp);
    PlaceInv(route, t.buckets[bi], fp, off, pin);
    hide Place;
    BucketStep(t, route, bi, Place(t.buckets[bi], fp, off, pin).b, Insert(t, route, fp, off, pin));
  }

  lemma RemoveInv(t: Table, route: Route, fp: nat)
    requires Inv(t, route) && Shaped(t) && fp != 0
    ensures Inv(Step(t, route, Remove(fp)), route)
  {
    var bi := route(fp);
    var b := t.buckets[bi];
    var i := Find(b, fp);
    if i < SlotsPerBucket {
      CountUpdate(b.slots, i, Empty);
      BucketStep(t, route, bi, Touch(b.(slots := b.slots[i := Empty]), i, false), Step(t, route, Remove(fp)));
    }
  }

  // ---------------------------------------------------------------- what a step does to one fingerprint

  /** In a bucket without repetitions, a slot that holds `fp` is the one probing finds. */
  lemma FoundAt(route: Route, bi: nat, b: Bucket, fp: nat, i: nat)
    requires BucketInv(route, bi, b) && fp != 0 && i < SlotsPerBucket && b.slots[i].fp == fp
    ensures Find(b, fp) == i
  {
  }

  /** After any operation, a fingerprint the operation does not write is answered as before or has been evicted. */
  lemma OthersAfter(t: Table, route: Route, op: Op, fp: nat)
    requires Inv(t, route) && Shaped(t) && Legal(t, op) && fp != 0
    requires op.Upsert? || op.Pin? || op.Remove? ==> op.fp != fp
    ensures Shaped(Step(t, route, op)) && |Step(t, route, op).buckets| == |t.buckets|
    ensures Peek(Step(t, route, op), route, fp).Some? ==> Peek(Step(t, route, op), route, fp) == Peek(t, route, fp)
  {
    StepInv(t, route, op);
    StepWidth(t, route, op);
    var t' := Step(t, route, op);
    var b, b' := t.buckets[route(fp)], t'.buckets[route(fp)];
    hide Step;
    var i := Find(b', fp);
    if i < SlotsPerBucket {
      SlotKept(t, route, op, fp, i);
      FoundAt(route, route(fp), b, fp, i);
    }
  }

  /** A slot that holds `fp` after an operation that does not write `fp` held the same word before. */
  lemma SlotKept(t: Table, route: Route, op: Op, fp: nat, i: nat)
    requires Inv(t, route) && Shaped(t) && Legal(t, op) && fp != 0 && i < SlotsPerBucket
    requires op.Upsert? || op.Pin? || op.Remove? ==> op.fp != fp
    requires |Step(t, route, op).buckets| == |t.buckets| && Shaped(Step(t, route, op))
    requires Step(t, route, op).buckets[route(fp)].slots[i].fp == fp
    ensures t.buckets[route(fp)].slots[i] == Step(t, route, op).buckets[route(fp)].slots[i]
  {
    assert op.Upsert? || op.Pin? ==> route(op.fp) < |t.buckets|;
    hide Inv, Place, IndexOf;
    match op
    case Upsert(f, off) => PlacedElsewhere(t.buckets[route(f)], f, off, false, fp, i);
    case Pin(f, off) => PlacedElsewhere(t.buckets[route(f)], f, off, true, fp, i);
    case _ =>
  }

  lemma PlacedElsewhere(b: Bucket, f: nat, off: nat, pin: bool, fp: nat, i: nat)
    requires WellFormed(b) && f != fp && i < SlotsPerBucket
    ensures Place(b, f, off, pin).b.slots[i].fp == fp ==> Place(b, f, off, pin).b.slots[i] == b.slots[i]
  {
    PlaceFacts(b, f, off, pin);
    hide Place;
  }

  /** A write is answered with its own offset or not at all, a removal with nothing. */
  lemma OwnAfter(t: Table, route: Route, op: Op)
    requires Inv(t, route) && Shaped(t) && Legal(t, op) && (op.Upsert? || op.Pin? || op.Remove?)
    ensures Shaped(Step(t, route, op)) && |Step(t, route, op).buckets| == |t.buckets|
    ensures var p := Peek(Step(t, route, op), route, op.fp);
            if op.Remove? then p == None
            else p == if Place(t.buckets[route(op.fp)], op.fp, op.off, op.Pin?).slot.Some? then Some(op.off) else None
  {
    StepInv(t, route, op);
    var t' := Step(t, route, op);
    var b, b' := t.buckets[route(op.fp)], t'.buckets[route(op.fp)];
    if op.Remove? {
      var i := Find(b, op.fp);
      forall j | 0 <= j < SlotsPerBucket && j != i ensures b'.slots[j].fp != op.fp {
        assert b'.slots[j] == b.slots[j];
      }
    } else {
      PlaceFacts(b, op.fp, op.off, op.Pin?);
      var r := Place(b, op.fp, op.off, op.Pin?);
      hide Place;
      if r.slot.Some? {
        FoundAt(route, route(op.fp), b', op.fp, r.slot.value);
      }
    }
  }

  // ---------------------------------------------------------------- runs

  ghost predicate AllLegal(t: Table, ops: seq<Op>) { forall i :: 0 <= i < |ops| ==> Legal(t, ops[i]) }

  /** The table after a run; every step keeps the number of buckets. */
  ghost function Exec(t: Table, route: Route, ops: seq<Op>): (t': Table)
    requires Inv(t, route) && Shaped(t) && AllLegal(t, ops)
    ensures Inv(t', route) && Shaped(t') && |t'.buckets| == |t.buckets|
    decreases |ops|
  {
    if ops == [] then t
    else
      var t1 := Exec(t, route, ops[..|ops| - 1]);
      StepInv(t1, route, ops[|ops| - 1]);
      StepWidth(t1, route, ops[|ops| - 1]);
      Step(t1, route, ops[|ops| - 1])
  }

  lemma StepWidth(t: Table, route: Route, op: Op)
    requires Inv(t, route) && Shaped(t) && Legal(t, op)
    ensures |Step(t, route, op).buckets| == |t.buckets|
  {
    hide Place;
  }

  function EmptyBucket(): (b: Bucket) {
    Bucket(seq(SlotsPerBucket, _ => Empty), seq(SlotsPerBucket, _ => false), 0, seq(SlotsPerBucket, _ => Unpinned))
  }

  function EmptyTable(n: nat): (t: Table) { Table(seq(n, _ => EmptyBucket()), 0, 0, 0) }

  lemma {:induction false} CountEmpty(s: seq<Slot>)
    requires forall i :: 0 <= i < |s| ==> s[i] == Empty
    ensures Count(s) == 0
    decreases |s|
  {
    if s != [] {
      CountEmpty(s[..|s| - 1]);
    }
  }

  lemma {:induction false} TotalEmpty(n: nat)
    ensures Total(seq(n, _ => EmptyBucket())) == 0
    decreases n
  {
    if n > 0 {
      TotalEmpty(n - 1);
      assert seq(n, _ => EmptyBucket())[..n - 1] == seq(n - 1, _ => EmptyBucket());
      CountEmpty(EmptyBucket().slots);
    }
  }

  lemma EmptyInv(n: nat, route: Route)
    requires forall fp: nat :: route(fp) < n
    ensures Inv(EmptyTable(n), route) && Shaped(EmptyTable(n))
    ensures forall fp: nat :: fp != 0 ==> Peek(EmptyTable(n), route, fp) == None
  {
    TotalEmpty(n);
  }

  /** The offset last written for `fp` and not removed since, from the operations alone. */
  function LastWritten(ops: seq<Op>, fp: nat): (r: Option<nat>)
    decreases |ops|
  {
    if ops == [] then None
    else
      var op := ops[|ops| - 1];
      if (op.Upsert? || op.Pin?) && op.fp == fp then Some(op.off)
      else if op.Remove? && op.fp == fp then None
      else LastWritten(ops[..|ops| - 1], fp)
  }

  /** Each fingerprint has at most one slot. */
  ghost predicate NoneTwice(t: Table)
    requires Shaped(t)
  {
    forall a, i, c, j :: 0 <= a < |t.buckets| && 0 <= i < SlotsPerBucket && 0 <= c < |t.buckets| && 0 <= j < SlotsPerBucket
      ==> t.buckets[a].slots[i].fp == t.buckets[c].slots[j].fp ==> t.buckets[a].slots[i].fp == 0 || (a == c && i == j)
  }

  lemma InvNoneTwice(t: Table, route: Route)
    requires Inv(t, route) && Shaped(t)
    ensures NoneTwice(t)
  {
    forall a | 0 <= a < |t.buckets| ensures BucketInv(route, a, t.buckets[a]) {
    }
  }

  /** Over every run from a table without `fp`, such as the empty one: a lookup gives nothing or the last offset
      written, each fingerprint has at most one slot, and `size` is the number of occupied slots. */
  lemma CoherentCache(t: Table, route: Route, ops: seq<Op>, fp: nat)
    requires Inv(t, route) && Shaped(t) && AllLegal(t, ops) && fp != 0 && Peek(t, route, fp) == None
    ensures var t' := Exec(t, route, ops);
            && NoneTwice(t') && t'.size == Total(t'.buckets)
            && (Peek(t', route, fp).Some? ==> Peek(t', route, fp) == LastWritten(ops, fp))
  {
    PeekIsLast(t, route, ops, fp);
    InvNoneTwice(Exec(t, route, ops), route);
  }

  lemma {:induction false} PeekIsLast(t: Table, route: Route, ops: seq<Op>, fp: nat)
    requires Inv(t, route) && Shaped(t) && AllLegal(t, ops) && fp != 0 && Peek(t, route, fp) == None
    ensures var t' := Exec(t, route, ops);
            Peek(t', route, fp).Some? ==> Peek(t', route, fp) == LastWritten(ops, fp)
    decreases |ops|
  {
    if ops != [] {
      var before, op := ops[..|ops| - 1], ops[|ops| - 1];
      PeekIsLast(t, route, before, fp);
      var t1 := Exec(t, route, before);
      if (op.Upsert? || op.Pin? || op.Remove?) && op.fp == fp {
        OwnAfter(t1, route, op);
      } else {
        OthersAfter(t1, route, op, fp);
      }
    }
  }

  // ---------------------------------------------------------------- pinned entries

  /** The operation takes the entry away: it removes the fingerprint or releases its slot. */
  predicate LetsGo(op: Op, fp: nat, ref: SlotRef) {
    || (op.Remove? && op.fp == fp)
    || (op.Unpin? && op.ref == ref)
    || (op.CasState? && op.ref == ref && op.to == Unpinned)
  }

  /** `fp` sits in the slot `ref`, which SIEVE must skip. */
  ghost predicate Guarded(t: Table, fp: nat, ref: SlotRef) {
    && ref.Ref? && InRange(t, ref) && WellFormed(t.buckets[ref.bucket])
    && t.buckets[ref.bucket].slots[ref.slot].fp == fp && t.buckets[ref.bucket].state[ref.slot] != Unpinned
  }

  lemma GuardKept(t: Table, route: Route, op: Op, fp: nat, ref: SlotRef)
    requires Inv(t, route) && Shaped(t) && Legal(t, op) && fp != 0 && Guarded(t, fp, ref) && !LetsGo(op, fp, ref)
    ensures Guarded(Step(t, route, op), fp, ref)
  {
    var b := t.buckets[ref.bucket];
    assert route(fp) == ref.bucket && Find(b, fp) == ref.slot by { FoundAt(route, ref.bucket, b, fp, ref.slot); }
    hide Inv, BucketInv;
    if op.Upsert? || op.Pin? {
      PlaceFacts(t.buckets[route(op.fp)], op.fp, op.off, op.Pin?);
    }
    hide Place;
  }

  lemma {:induction false} GuardedRun(t: Table, route: Route, ops: seq<Op>, fp: nat, ref: SlotRef)
    requires Inv(t, route) && Shaped(t) && AllLegal(t, ops) && fp != 0 && Guarded(t, fp, ref)
    requires forall i :: 0 <= i < |ops| ==> !LetsGo(ops[i], fp, ref)
    ensures Guarded(Exec(t, route, ops), fp, ref)
    decreases |ops|
  {
    if ops != [] {
      var before := ops[..|ops| - 1];
      GuardedRun(t, route, before, fp, ref);
      GuardKept(Exec(t, route, before), route, ops[|ops| - 1], fp, ref);
    }
  }

  lemma {:induction false} ExecConcat(t: Table, route: Route, xs: seq<Op>, ys: seq<Op>)
    requires Inv(t, route) && Shaped(t) && AllLegal(t, xs + ys)
    ensures AllLegal(t, xs) && AllLegal(Exec(t, route, xs), ys)
    ensures Exec(t, route, xs + ys) == Exec(Exec(t, route, xs), route, ys)
    decreases |ys|
  {
    LegalParts(t, t, xs, ys);
    LegalParts(t, Exec(t, route, xs), xs, ys);
    hide Inv, Shaped, Step, AllLegal, Legal;
    if ys == [] {
      assert xs + ys == xs;
    } else {
      var zs := ys[..|ys| - 1];
      assert (xs + ys)[..|xs + ys| - 1] == xs + zs && (xs + ys)[|xs + ys| - 1] == ys[|ys| - 1];
      LegalPrefix(t, xs + ys);
      ExecConcat(t, route, xs, zs);
    }
  }

  lemma LegalParts(t: Table, t': Table, xs: seq<Op>, ys: seq<Op>)
    requires AllLegal(t, xs + ys) && |t'.buckets| == |t.buckets|
    ensures AllLegal(t, xs) && AllLegal(t', ys)
  {
    forall i | 0 <= i < |xs| ensures Legal(t, xs[i]) {
      assert xs[i] == (xs + ys)[i];
    }
    forall i | 0 <= i < |ys| ensures Legal(t', ys[i]) {
      assert ys[i] == (xs + ys)[|xs| + i];
    }
  }

  lemma LegalPrefix(t: Table, ops: seq<Op>)
    requires AllLegal(t, ops) && ops != []
    ensures AllLegal(t, ops[..|ops| - 1])
  {
  }

  lemma PinGuards(t: Table, route: Route, fp: nat, off: nat)
    requires Inv(t, route) && Shaped(t) && fp != 0 && PinRef(t, route, fp, off).Ref?
    ensures Guarded(Step(t, route, Pin(fp, off)), fp, PinRef(t, route, fp, off))
  {
    PlaceFacts(t.buckets[route(fp)], fp, off, true);
    hide Place;
  }

  lemma GuardedFound(t: Table, route: Route, fp: nat, ref: SlotRef)
    requires Inv(t, route) && Shaped(t) && fp != 0 && Guarded(t, fp, ref)
    ensures Peek(t, route, fp).Some?
  {
    assert BucketInv(route, ref.bucket, t.buckets[ref.bucket]);
    FoundAt(route, ref.bucket, t.buckets[ref.bucket], fp, ref.slot);
  }

  /** An entry that `upsert_pinned` placed stays findable, with the last offset written, through every run that
      neither removes it nor releases its slot. */
  lemma PinnedStays(t: Table, route: Route, before: seq<Op>, fp: nat, off: nat, after: seq<Op>)
    requires Inv(t, route) && Shaped(t) && fp != 0 && Peek(t, route, fp) == None
    requires AllLegal(t, before) && AllLegal(t, after)
    requires var ref := PinRef(Exec(t, route, before), route, fp, off);
             ref.Ref? && forall i :: 0 <= i < |after| ==> !LetsGo(after[i], fp, ref)
    ensures var ops := before + [Pin(fp, off)] + after;
            && AllLegal(t, ops) && Peek(Exec(t, route, ops), route, fp).Some?
            && Peek(Exec(t, route, ops), route, fp) == LastWritten(ops, fp)
  {
    var pre := before + [Pin(fp, off)];
    var ops := pre + after;
    assert AllLegal(t, ops);
    ExecConcat(t, route, pre, after);
    var t1 := Exec(t, route, before);
    var ref := PinRef(t1, route, fp, off);
    var t2 := Exec(t, route, pre);
    assert t2 == Step(t1, route, Pin(fp, off)) by { assert pre[..|pre| - 1] == before; }
    PinGuards(t1, route, fp, off);
    hide Place, Exec, Inv, Shaped, Step, PinRef;
    GuardedRun(t2, route, after, fp, ref);
    GuardedFound(Exec(t, route, ops), route, fp, ref);
    PeekIsLast(t, route, ops, fp);
  }
}

/** Writer operations on a region as store lists: what a crash between any two stores leaves behind,
    and what running the interrupted operation again makes of it. */
module ColdCrash {
  import opened Options
  import opened ColdRegion
  import opened ColdSteps
  import opened ColdUpsert
  import opened ColdGroup

  datatype Op =
    | Put(h: nat, k: Word, o: Word)
    | Del(h: nat, k: Word)
    | Batch(h: nat, es: seq<Pair>)

  ghost function OpStores(r: Region, op: Op): (ss: seq<Store>)
    requires Inv(r) && op.h < r.main
  {
    match op
    case Put(h, k, o) => UpsertStores(r, h, k, o)
    case Del(h, k) => RemoveStores(r, h, k)
    case Batch(h, es) => GroupStores(r, h, es)
  }

  /** The pairs an operation may write. */
  function Writes(op: Op): (w: set<(Word, Word)>)
  {
    match op
    case Put(_, k, o) => {(k, o)}
    case Del(_, k) => {(k, TOMBSTONE)}
    case Batch(_, es) => PairSet(es)
  }

  /** The operation ran to its end without running out of overflow buckets. */
  ghost predicate Fits(r: Region, op: Op)
    requires Inv(r) && op.h < r.main
  {
    match op
    case Put(h, k, _) => UpsertOk(r, h, k)
    case Del(_, _) => true
    case Batch(h, es) => GroupWritten(r, h, es) == |es|
  }

  ghost function After(r: Region, op: Op): (r': Region)
    requires Inv(r) && op.h < r.main
  {
    Run(r, OpStores(r, op))
  }

  /** Memory as a process killed after the first `n` stores leaves it. */
  ghost function Crashed(r: Region, op: Op, n: nat): (r': Region)
    requires Inv(r) && op.h < r.main && n <= |OpStores(r, op)|
  {
    Run(r, OpStores(r, op)[..n])
  }

  /** The offset the last pair with key `k` carries. */
  function LastOff(es: seq<Pair>, k: Word): (o: Option<Word>)
  {
    if es == [] then None
    else if LastOff(es[1..], k).Some? then LastOff(es[1..], k)
    else if es[0].key == k then Some(es[0].off)
    else None
  }

  /** The operation on the map: the new entry of key `k` of chain `g`, given its old one. */
  function Effect(op: Op, g: nat, k: Word, old_: Option<Word>): (e: Option<Word>)
  {
    match op
    case Put(h, q, o) => if g == h && k == q then Some(o) else old_
    case Del(h, q) => if g == h && k == q && old_.Some? then Some(TOMBSTONE) else old_
    case Batch(h, es) => if g == h && LastOff(es, k).Some? then LastOff(es, k) else old_
  }

  lemma OpAlong(r: Region, op: Op)
    requires Inv(r) && op.h < r.main
    ensures Along(r, OpStores(r, op), op.h, Writes(op))
  {
    match op
    case Put(h, k, o) => UpsertCorrect(r, h, k, o);
    case Del(h, k) => RemoveCorrect(r, h, k);
    case Batch(h, es) => GroupRefines(r, h, es);
  }

  /** A run of upserts leaves each key the last offset written for it. */
  lemma {:induction false} UpsertRunEnt(v: Region, h: nat, es: seq<Pair>, n: nat, v': Region, g: nat, k: Word)
    requires Inv(v) && h < v.main && g < v.main && n <= |es| && UpsertRun(v, h, es, n, v')
    ensures Inv(v') && v'.main == v.main && v'.over == v.over
    ensures Ent(v', g, k) == Effect(Batch(h, es[..n]), g, k, Ent(v, g, k))
    decreases n
  {
    hide Upsert, UpsertOk;
    if n > 0 {
      UpsertCorrect(v, h, es[0].key, es[0].off);
      UpsertRunEnt(Upsert(v, h, es[0].key, es[0].off), h, es[1..], n - 1, v', g, k);
      EffectCons(h, es, n, g, k, Ent(v, g, k));
    }
  }

  /** A batch acts as its first pair followed by the rest. */
  lemma EffectCons(h: nat, es: seq<Pair>, n: nat, g: nat, k: Word, e: Option<Word>)
    requires 0 < n <= |es|
    ensures Effect(Batch(h, es[..n]), g, k, e)
         == Effect(Batch(h, es[1..][..n - 1]), g, k, Effect(Put(h, es[0].key, es[0].off), g, k, e))
  {
    assert es[1..][..n - 1] == es[..n][1..];
  }

  /** What an operation gets done: a put that finds no room does nothing, a batch stops at the first
      pair that finds none. */
  ghost function Performed(r: Region, op: Op): (op': Op)
    requires Inv(r) && op.h < r.main
    ensures op'.h == op.h
    ensures Fits(r, op) ==> op' == op
  {
    match op
    case Put(h, k, o) => if UpsertOk(r, h, k) then op else Batch(h, [])
    case Del(_, _) => op
    case Batch(h, es) =>
      assert es[..|es|] == es;
      Batch(h, es[..GroupWritten(r, h, es)])
  }

  /** Every operation does to the stored map exactly what `Effect` says of what it performed, for every
      key of every chain. */
  lemma OpEffect(r: Region, op: Op, g: nat, k: Word)
    requires Inv(r) && op.h < r.main && g < r.main
    ensures Inv(After(r, op)) && After(r, op).main == r.main && After(r, op).over == r.over
    ensures Ent(After(r, op), g, k) == Effect(Performed(r, op), g, k, Ent(r, g, k))
  {
    match op
    case Put(h, q, o) => UpsertCorrect(r, h, q, o);
    case Del(h, q) => RemoveCorrect(r, h, q);
    case Batch(h, es) =>
      GroupRefines(r, h, es);
      UpsertRunEnt(r, h, es, GroupWritten(r, h, es), After(r, op), g, k);
  }

  /** Crash at any store boundary: the invariant holds, every entry is the old one or a pair being
      written, and keys the operation does not mention keep their entry. */
  lemma CrashSafe(r: Region, op: Op, n: nat, g: nat, k: Word)
    requires Inv(r) && op.h < r.main && n <= |OpStores(r, op)| && g < r.main
    ensures Inv(Crashed(r, op, n)) && Crashed(r, op, n).main == r.main && Crashed(r, op, n).over == r.over
    ensures var e := Ent(Crashed(r, op, n), g, k);
            e == Ent(r, g, k) || (g == op.h && e.Some? && (k, e.value) in Writes(op))
  {
    OpAlong(r, op);
    AlongPrefix(r, OpStores(r, op), n, op.h, Writes(op));
    assert EntKept(r, Crashed(r, op, n), g, k, op.h, Writes(op));
  }

  lemma {:induction false} LastOffWritten(es: seq<Pair>, k: Word, o: Word)
    requires (k, o) in PairSet(es)
    ensures LastOff(es, k).Some?
    decreases |es|
  {
    assert Pair(k, o) in es;
    var i :| 0 <= i < |es| && es[i] == Pair(k, o);
    if i > 0 {
      assert es[1..][i - 1] == Pair(k, o);
      LastOffWritten(es[1..], k, o);
    }
  }

  /** Running the operation again after the crash gives the map an uncrashed run gives, as long as
      both runs find room in the overflow pool. */
  lemma Replay(r: Region, op: Op, n: nat, g: nat, k: Word)
    requires Inv(r) && op.h < r.main && n <= |OpStores(r, op)| && g < r.main
    requires Fits(r, op)
    requires Inv(Crashed(r, op, n)) && Crashed(r, op, n).main == r.main && Fits(Crashed(r, op, n), op)
    ensures Inv(After(Crashed(r, op, n), op)) && Inv(After(r, op))
    ensures After(Crashed(r, op, n), op).main == After(r, op).main == r.main
    ensures Ent(After(Crashed(r, op, n), op), g, k) == Ent(After(r, op), g, k)
  {
    var c := Crashed(r, op, n);
    CrashSafe(r, op, n, g, k);
    OpEffect(r, op, g, k);
    OpEffect(c, op, g, k);
    var e := Ent(c, g, k);
    if e != Ent(r, g, k) {
      if op.Batch? {
        LastOffWritten(op.es, k, e.value);
      } else if op.Del? {
        DelCrash(r, op, n);
      }
    }
  }

  /** A removal is one store or none, so its crash states are its start and its end. */
  lemma DelCrash(r: Region, op: Op, n: nat)
    requires Inv(r) && op.Del? && op.h < r.main && n <= |OpStores(r, op)|
    ensures Crashed(r, op, n) == r || (Crashed(r, op, n) == After(r, op) && Find(r, op.h, op.k).Some?)
  {
    var ss := OpStores(r, op);
    assert |ss| <= 1;
    if n == |ss| {
      assert ss[..n] == ss;
    } else {
      assert ss[..n] == [];
    }
  }

  // ---------------------------------------------------------------- room in the pool

  lemma {:induction false} UpsertRunRoom(v: Region, h: nat, es: seq<Pair>, n: nat, v': Region)
    requires Inv(v) && h < v.main && n <= |es| && UpsertRun(v, h, es, n, v') && v.alloc + |es| <= v.over
    ensures n == |es|
    decreases n
  {
    hide Upsert, UpsertOk;
    if n == 0 && es != [] {
      UpsertRoom(v, h, es[0].key, es[0].off);
    } else if n > 0 {
      UpsertCorrect(v, h, es[0].key, es[0].off);
      UpsertRoom(v, h, es[0].key, es[0].off);
      UpsertRunRoom(Upsert(v, h, es[0].key, es[0].off), h, es[1..], n - 1, v');
    }
  }

  /** Overflow buckets an operation may need. */
  function Need(op: Op): (n: nat) {
    match op
    case Put(_, _, _) => 1
    case Del(_, _) => 0
    case Batch(_, es) => |es|
  }

  /** One free overflow bucket per pair to be written is always room enough. */
  lemma RoomFits(r: Region, op: Op)
    requires Inv(r) && op.h < r.main && r.alloc + Need(op) <= r.over
    ensures Fits(r, op)
  {
    if op.Batch? {
      GroupRefines(r, op.h, op.es);
      UpsertRunRoom(r, op.h, op.es, GroupWritten(r, op.h, op.es), After(r, op));
    }
  }

  /** A created region has room for an operation on as many pairs as it has overflow buckets. */
  lemma NewRegionRoom(main: nat, over: nat, op: Op)
    requires main > 0 && op.h < main && Need(op) <= over
    ensures Inv(NewRegion(main, over)) && Fits(NewRegion(main, over), op)
  {
    NewRegionEmpty(main, over);
    RoomFits(NewRegion(main, over), op);
  }

  // ---------------------------------------------------------------- room after a crash

  /** No store of the list moves the allocation cursor past `b`. */
  ghost predicate AllocUpTo(ss: seq<Store>, b: nat) {
    forall i :: 0 <= i < |ss| && ss[i].SetAlloc? ==> ss[i].n <= b
  }

  lemma {:induction false} RunAlloc(r: Region, ss: seq<Store>, b: nat)
    requires r.alloc <= b && AllocUpTo(ss, b)
    ensures Run(r, ss).alloc <= b
    decreases |ss|
  {
    if ss != [] {
      RunAlloc(Apply(r, ss[0]), ss[1..], b);
    }
  }

  lemma {:induction false} FlipAlloc(d: seq<Dirty>, b: nat)
    ensures AllocUpTo(FlipStores(d), b)
    decreases |d|
  {
    if d != [] {
      FlipAlloc(d[1..], b);
    }
  }

  lemma EntryAlloc(r: Region, d: seq<Dirty>, h: nat, k: Word, o: Word)
    requires h < r.main && Inv(Overlay(r, d))
    ensures var p := PlanOf(Overlay(r, d), h, k);
            (p.Extend? ==> p.t < |r.buckets|) && AllocUpTo(EntryStores(r, p, k, o), r.alloc + 1)
  {
    hide Find, FirstFree, Tail;
  }

  lemma {:induction false} StageAlloc(r: Region, d: seq<Dirty>, h: nat, es: seq<Pair>, w: set<(Word, Word)>)
    requires GroupState(r, d, h, w) && PairsIn(es, w)
    ensures AllocUpTo(Stage(r, d, h, es, w).stores, r.alloc + |es|)
    decreases |es|
  {
    if es != [] {
      var k, o := es[0].key, es[0].off;
      var p := PlanOf(Overlay(r, d), h, k);
      EntryStep(r, d, h, k, o, w, p);
      EntryAlloc(r, d, h, k, o);
      var ss := EntryStores(r, p, k, o);
      hide EntryStores, PlanOf, GroupState, Evolves, Along;
      RunAlloc(r, ss, r.alloc + 1);
      if !p.Full? {
        StageAlloc(Run(r, ss), EntryDirty(r, d, p), h, es[1..], w);
      }
    }
  }

  /** A crashed operation has taken at most the buckets it may need. */
  lemma CrashedAlloc(r: Region, op: Op, n: nat)
    requires Inv(r) && op.h < r.main && n <= |OpStores(r, op)|
    ensures Crashed(r, op, n).alloc <= r.alloc + Need(op)
  {
    var ss := OpStores(r, op);
    assert AllocUpTo(ss, r.alloc + Need(op)) by {
      match op
      case Put(h, k, o) => PutAlloc(r, h, k, o);
      case Del(h, k) =>
      case Batch(h, es) =>
        StartState(r, h, PairSet(es));
        var s := Stage(r, [], h, es, PairSet(es));
        StageAlloc(r, [], h, es, PairSet(es));
        FlipAlloc(s.dirty, r.alloc + |es|);
    }
    assert AllocUpTo(ss[..n], r.alloc + Need(op));
    RunAlloc(r, ss[..n], r.alloc + Need(op));
  }

  lemma PutAlloc(r: Region, h: nat, k: Word, o: Word)
    requires Inv(r) && h < r.main
    ensures AllocUpTo(UpsertStores(r, h, k, o), r.alloc + 1)
  {
    hide Find, FirstFree, Tail;
  }

  /** With room for twice what the operation may need before the crash, running it again always gives the map an
      uncrashed run gives. */
  lemma ReplayWithRoom(r: Region, op: Op, n: nat, g: nat, k: Word)
    requires Inv(r) && op.h < r.main && n <= |OpStores(r, op)| && g < r.main && r.alloc + 2 * Need(op) <= r.over
    ensures Inv(Crashed(r, op, n)) && Crashed(r, op, n).main == r.main
    ensures Fits(r, op) && Fits(Crashed(r, op, n), op)
    ensures Inv(After(Crashed(r, op, n), op)) && Inv(After(r, op))
    ensures After(Crashed(r, op, n), op).main == After(r, op).main == r.main
    ensures Ent(After(Crashed(r, op, n), op), g, k) == Ent(After(r, op), g, k)
  {
    hide OpStores, After, Crashed, Fits, Inv, Ent;
    CrashSafe(r, op, n, g, k);
    CrashedAlloc(r, op, n);
    RoomFits(r, op);
    RoomFits(Crashed(r, op, n), op);
    Replay(r, op, n, g, k);
  }
}

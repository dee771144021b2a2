/** A lock-free `lookup` interleaved, load by load, with the individual stores of any sequence of
    writer operations on the same region. */
module ColdReader {
  import opened Options
  import opened ColdRegion
  import opened ColdSteps
  import opened ColdCrash

  /** Progress of one lookup. The header of a bucket is loaded once; `occ` and `next` are that copy. */
  datatype Reader =
    | AtBucket(b: nat)
    | AtSlot(b: nat, occ: set<nat>, next: nat, i: nat)
    | Matched(b: nat, i: nat)
    | Done(res: Option<Word>)

  /** One step of the lookup of `k`: at most one load from shared memory. */
  function ReaderStep(r: Region, k: Word, rd: Reader): (rd': Reader)
  {
    match rd
    case AtBucket(b) =>
      if b < |r.buckets| then AtSlot(b, r.buckets[b].occ, r.buckets[b].next, 0) else rd
    case AtSlot(b, occ, next, i) =>
      if i >= SLOTS then (if next == 0 then Done(None) else AtBucket(r.main + next))
      else if i in occ && b < |r.buckets| && i < |r.buckets[b].entries| && r.buckets[b].entries[i].key == k then
        Matched(b, i)
      else AtSlot(b, occ, next, i + 1)
    case Matched(b, i) =>
      if b < |r.buckets| && i < |r.buckets[b].entries| then
        var o := r.buckets[b].entries[i].off;
        Done(if o == TOMBSTONE then None else Some(o))
      else rd
    case Done(_) => rd
  }

  /** Shared memory, the stores the writer of the current operation still has to issue, the pairs and
      the chain it writes, and the reader. */
  datatype Sys = Sys(r: Region, pending: seq<Store>, h: nat, w: set<(Word, Word)>, rd: Reader)

  /** The writer holds the region lock, so an operation starts only when the last one has finished;
      what it will store is settled by the memory it starts from. */
  ghost predicate Begin(s: Sys, s': Sys, op: Op) {
    && Inv(s.r) && s.pending == [] && op.h < s.r.main
    && s' == s.(pending := OpStores(s.r, op), h := op.h, w := Writes(op))
  }

  ghost predicate Next(s: Sys, s': Sys, k: Word) {
    || (exists op :: Begin(s, s', op))
    || (s.pending != [] && s' == s.(r := Apply(s.r, s.pending[0]), pending := s.pending[1..]))
    || s' == s.(rd := ReaderStep(s.r, k, s.rd))
  }

  ghost predicate Sound(s: Sys) {
    Inv(s.r) && Along(s.r, s.pending, s.h, s.w)
  }

  /** A lookup of `k` on chain `h` from its first step: the writer may be anywhere in an operation. */
  ghost predicate Execution(run: seq<Sys>, h: nat, k: Word) {
    && |run| > 0 && Sound(run[0]) && h < run[0].r.main && run[0].rd == AtBucket(h)
    && (forall j :: 0 <= j < |run| - 1 ==> Next(run[j], run[j + 1], k))
  }

  lemma NextSound(s: Sys, s': Sys, k: Word)
    requires Sound(s) && Next(s, s', k)
    ensures Sound(s') && Grows(s.r, s'.r)
  {
    if op :| Begin(s, s', op) {
      OpAlong(s.r, op);
    }
  }

  // ---------------------------------------------------------------- the reader's invariant

  /** The slot where `k` was published when the lookup began lies ahead of the reader. */
  ghost predicate Ahead(r: Region, rd: Reader, l: Loc)
    requires Shape(r)
  {
    match rd
    case AtBucket(b) => b < |r.buckets| && Reach(r, b, l.b)
    case AtSlot(b, occ, next, i) =>
      if b == l.b then l.i in occ && i <= l.i
      else next != 0 && r.main + next < |r.buckets| && Reach(r, r.main + next, l.b)
    case Matched(_, _) => true
    case Done(_) => true
  }

  /** What the reader has seen is still true: it is on the chain, its header copy is a part of the
      current header, and a matched slot is published under `k`. */
  ghost predicate Seen(r: Region, h: nat, k: Word, rd: Reader)
    requires Shape(r) && h < r.main
  {
    match rd
    case AtBucket(b) => b < |r.buckets| && Reach(r, h, b)
    case AtSlot(b, occ, next, i) =>
      b < |r.buckets| && Reach(r, h, b) && occ <= r.buckets[b].occ && (next != 0 ==> next == r.buckets[b].next)
    case Matched(b, i) => Pub(r, h, b, i, k)
    case Done(_) => true
  }

  /** `l0` is where `k` was published when the lookup began, if it was. */
  ghost predicate Tracks(r: Region, h: nat, k: Word, l0: Option<Loc>, rd: Reader) {
    && Inv(r) && h < r.main && Seen(r, h, k, rd)
    && (l0.Some? ==> Pub(r, h, l0.value.b, l0.value.i, k) && Ahead(r, rd, l0.value))
  }

  lemma TracksGrow(r: Region, r': Region, h: nat, k: Word, l0: Option<Loc>, rd: Reader)
    requires Tracks(r, h, k, l0, rd) && Inv(r') && Grows(r, r')
    ensures Tracks(r', h, k, l0, rd)
  {
    SeenGrow(r, r', h, k, rd);
    if l0.Some? {
      GrowsPub(r, r', h, l0.value.b, l0.value.i, k);
      AheadGrow(r, r', rd, l0.value);
    }
  }

  lemma SeenGrow(r: Region, r': Region, h: nat, k: Word, rd: Reader)
    requires Shape(r) && h < r.main && Seen(r, h, k, rd) && Shape(r') && Grows(r, r')
    ensures Seen(r', h, k, rd)
  {
    match rd
    case AtBucket(b) => GrowsReach(r, r', h, b);
    case AtSlot(b, occ, next, i) =>
      GrowsReach(r, r', h, b);
      assert GrowsBucket(r.buckets[b], r'.buckets[b]);
    case Matched(b, i) => GrowsPub(r, r', h, b, i, k);
    case Done(_) =>
  }

  lemma AheadGrow(r: Region, r': Region, rd: Reader, l: Loc)
    requires Shape(r) && Ahead(r, rd, l) && Shape(r') && Grows(r, r')
    ensures Ahead(r', rd, l)
  {
    match rd
    case AtBucket(b) => GrowsReach(r, r', b, l.b);
    case AtSlot(b, occ, next, i) =>
      if b != l.b {
        GrowsReach(r, r', r.main + next, l.b);
      }
    case Matched(_, _) =>
    case Done(_) =>
  }

  /** A reader step keeps the invariant; if it answers, the answer is the value the key has right now,
      or absence of a key that was not published at the start. */
  lemma TracksStep(r: Region, h: nat, k: Word, l0: Option<Loc>, rd: Reader)
    requires Tracks(r, h, k, l0, rd) && !rd.Done?
    ensures Tracks(r, h, k, l0, ReaderStep(r, k, rd))
    ensures ReaderStep(r, k, rd).Done? ==>
              var res := ReaderStep(r, k, rd).res;
              res == Val(r, h, k) || (l0.None? && res == None)
  {
    match rd
    case AtBucket(b) =>
      if l0.Some? && b != l0.value.b {
        assert Reach(r, r.main + r.buckets[b].next, l0.value.b);
      }
    case AtSlot(b, occ, next, i) => SlotStep(r, h, k, l0, b, occ, next, i);
    case Matched(b, i) => EntIs(r, h, b, i, k);
  }

  lemma SlotStep(r: Region, h: nat, k: Word, l0: Option<Loc>, b: nat, occ: set<nat>, next: nat, i: nat)
    requires Tracks(r, h, k, l0, AtSlot(b, occ, next, i))
    ensures Tracks(r, h, k, l0, ReaderStep(r, k, AtSlot(b, occ, next, i)))
    ensures ReaderStep(r, k, AtSlot(b, occ, next, i)).Done? ==> l0.None?
  {
    if i >= SLOTS {
      if next != 0 {
        assert Reach(r, b, r.main + next) by { assert Reach(r, r.main + next, r.main + next); }
        ReachTrans(r, h, b, r.main + next);
      }
    } else if l0.Some? && b == l0.value.b && i == l0.value.i {
      assert r.buckets[b].entries[i].key == k;
    }
  }

  // ---------------------------------------------------------------- linearizability

  /** Answer `res` is the value of `k` in memory `r`. */
  ghost predicate Answers(r: Region, h: nat, k: Word, res: Option<Word>) {
    Inv(r) && h < r.main && res == Val(r, h, k)
  }

  lemma {:induction false} ExecutionTracks(run: seq<Sys>, h: nat, k: Word, j: nat)
    requires Execution(run, h, k) && j < |run|
    ensures Sound(run[j]) && h < run[j].r.main
    ensures Tracks(run[j].r, h, k, Find(run[0].r, h, k), run[j].rd)
    ensures run[j].rd.Done? ==> exists m :: 0 <= m <= j && Answers(run[m].r, h, k, run[j].rd.res)
    decreases j
  {
    var l0 := Find(run[0].r, h, k);
    if j > 0 {
      ExecutionTracks(run, h, k, j - 1);
      var s, s' := run[j - 1], run[j];
      NextSound(s, s', k);
      if s'.rd == s.rd {
        TracksGrow(s.r, s'.r, h, k, l0, s.rd);
        if s.rd.Done? {
          var m :| 0 <= m <= j - 1 && Answers(run[m].r, h, k, s.rd.res);
        }
      } else {
        assert s' == s.(rd := ReaderStep(s.r, k, s.rd));
        TracksStep(s.r, h, k, l0, s.rd);
        if s'.rd.Done? {
          if s'.rd.res == Val(s.r, h, k) {
            assert Answers(run[j - 1].r, h, k, s'.rd.res);
          } else {
            assert Answers(run[0].r, h, k, s'.rd.res);
          }
        }
      }
    }
  }

  /** Lock-free lookup is linearizable: whatever stores of whatever operations fall between its loads,
      it answers with a value, or an absence, that the key really had at some moment of the call. */
  lemma LookupLinearizable(run: seq<Sys>, h: nat, k: Word)
    requires Execution(run, h, k) && run[|run| - 1].rd.Done?
    ensures exists m :: 0 <= m < |run| && Answers(run[m].r, h, k, run[|run| - 1].rd.res)
  {
    ExecutionTracks(run, h, k, |run| - 1);
    var m :| 0 <= m <= |run| - 1 && Answers(run[m].r, h, k, run[|run| - 1].rd.res);
  }

  // ---------------------------------------------------------------- a lookup left alone

  /** The lookup after `n` steps with memory at rest. */
  function Alone(r: Region, k: Word, rd: Reader, n: nat): (rd': Reader)
    decreases n
  {
    if n == 0 then rd else Alone(r, k, ReaderStep(r, k, rd), n - 1)
  }

  lemma {:induction false} AloneThen(r: Region, k: Word, rd: Reader, n: nat, m: nat)
    ensures Alone(r, k, rd, n + m) == Alone(r, k, Alone(r, k, rd, n), m)
    decreases n
  {
    if n > 0 {
      AloneThen(r, k, ReaderStep(r, k, rd), n - 1, m);
    }
  }

  /** Within a bucket the lookup comes to the first match, or to the end. */
  lemma {:induction false} SlotsAlone(r: Region, k: Word, b: nat, i: nat)
    requires Shape(r) && b < |r.buckets| && i <= SLOTS
    ensures var bk := r.buckets[b];
            var j := FindIn(bk, k, i);
            && j - i <= SLOTS
            && Alone(r, k, AtSlot(b, bk.occ, bk.next, i), j - i) == AtSlot(b, bk.occ, bk.next, j)
    decreases SLOTS - i
  {
    var bk := r.buckets[b];
    if FindIn(bk, k, i) > i {
      SlotsAlone(r, k, b, i + 1);
    }
  }

  /** A lookup that nothing interferes with answers, after at most nine steps for each bucket it may pass, with the value
      the key has. */
  lemma {:induction false} LookupAlone(r: Region, b: nat, k: Word)
    requires Shape(r) && b < |r.buckets|
    ensures exists n: nat :: n <= 9 * (|r.buckets| - b) && Alone(r, k, AtBucket(b), n) == Done(Val(r, b, k))
    decreases |r.buckets| - b
  {
    var bk := r.buckets[b];
    var j := FindIn(bk, k, 0);
    SlotsAlone(r, k, b, 0);
    assert Alone(r, k, AtBucket(b), 1 + j) == AtSlot(b, bk.occ, bk.next, j) by {
      assert ReaderStep(r, k, AtBucket(b)) == AtSlot(b, bk.occ, bk.next, 0);
    }
    var n := LastSteps(r, b, k, j);
    AloneThen(r, k, AtBucket(b), 1 + j, n);
  }

  lemma LastSteps(r: Region, b: nat, k: Word, j: nat) returns (n: nat)
    requires Shape(r) && b < |r.buckets| && j == FindIn(r.buckets[b], k, 0)
    ensures 1 + j + n <= 9 * (|r.buckets| - b)
    ensures Alone(r, k, AtSlot(b, r.buckets[b].occ, r.buckets[b].next, j), n) == Done(Val(r, b, k))
    decreases |r.buckets| - b, 0
  {
    var bk := r.buckets[b];
    var here := AtSlot(b, bk.occ, bk.next, j);
    if j < SLOTS {
      assert ReaderStep(r, k, here) == Matched(b, j);
      n := 2;
      assert Alone(r, k, here, 2) == Alone(r, k, Matched(b, j), 1) == ReaderStep(r, k, Matched(b, j));
    } else if bk.next == 0 {
      n := 1;
      assert Alone(r, k, here, 1) == ReaderStep(r, k, here);
    } else {
      var next := r.main + bk.next;
      LookupAlone(r, next, k);
      var m: nat :| m <= 9 * (|r.buckets| - next) && Alone(r, k, AtBucket(next), m) == Done(Val(r, next, k));
      n := 1 + m;
      assert ReaderStep(r, k, here) == AtBucket(next);
    }
  }
}

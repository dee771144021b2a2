/** One 16-slot bucket of the hot tier and the SIEVE eviction over it. */
module HotBucket {
  import opened Options

  const SlotsPerBucket: nat := 16

  /** The two state bits of a slot. */
  datatype SlotState = Unpinned | Pinned | InFlush

  /** A slot word: fingerprint and compact offset. Fingerprint 0 means empty. */
  datatype Slot = Slot(fp: nat, off: nat)

  const Empty: Slot := Slot(0, 0)

  datatype Bucket = Bucket(slots: seq<Slot>, visited: seq<bool>, hand: nat, state: seq<SlotState>)

  predicate WellFormed(b: Bucket) {
    && |b.slots| == |b.visited| == |b.state| == SlotsPerBucket && b.hand < SlotsPerBucket
  }

  predicate Free(b: Bucket, i: nat)
    requires WellFormed(b) && i < SlotsPerBucket
  {
    b.state[i] == Unpinned
  }

  /** `(hand + k) % 16` for a sweep of at most two rounds. */
  function At(hand: nat, k: nat): (i: nat)
    requires hand < SlotsPerBucket && k < 2 * SlotsPerBucket
    ensures i < SlotsPerBucket && i == (hand + k) % SlotsPerBucket
    ensures k < SlotsPerBucket ==> Rank(hand, i) == k
    ensures k >= SlotsPerBucket ==> Rank(hand, i) == k - SlotsPerBucket
  {
    if hand + k < SlotsPerBucket then hand + k
    else if hand + k < 2 * SlotsPerBucket then hand + k - SlotsPerBucket
    else hand + k - 2 * SlotsPerBucket
  }

  /** How far slot `i` is from the hand. */
  function Rank(hand: nat, i: nat): (k: nat)
    requires hand < SlotsPerBucket && i < SlotsPerBucket
    ensures k < SlotsPerBucket
  {
    if i >= hand then i - hand else i + SlotsPerBucket - hand
  }

  // ---------------------------------------------------------------- what eviction should do

  /** Some slot that may be evicted has not been visited since the last sweep. */
  ghost predicate HasCold(b: Bucket)
    requires WellFormed(b)
  {
    exists i: nat :: i < SlotsPerBucket && Free(b, i) && !b.visited[i]
  }

  /** `v` is the slot SIEVE must free: the first unpinned unvisited one from the hand, or, when every unpinned
      slot was visited, the first unpinned one. */
  ghost predicate Victim(b: Bucket, v: nat)
    requires WellFormed(b)
  {
    && v < SlotsPerBucket && Free(b, v)
    && (HasCold(b) ==> !b.visited[v])
    && (forall i: nat :: i < SlotsPerBucket && Free(b, i) && (HasCold(b) ==> !b.visited[i]) ==>
          Rank(b.hand, v) <= Rank(b.hand, i))
  }

  /** Whether the sweep to `v` passes slot `i` and takes its visited bit. */
  ghost predicate Swept(b: Bucket, v: nat, i: nat)
    requires WellFormed(b) && v < SlotsPerBucket && i < SlotsPerBucket
  {
    Free(b, i) && (!HasCold(b) || Rank(b.hand, i) < Rank(b.hand, v))
  }

  /** The bucket after `v` has been freed. */
  ghost predicate Evicted(b: Bucket, v: nat, b': Bucket)
    requires WellFormed(b) && v < SlotsPerBucket
  {
    && WellFormed(b') && b'.slots == b.slots[v := Empty] && b'.state == b.state
    && b'.hand == (v + 1) % SlotsPerBucket
    && forall i: nat :: i < SlotsPerBucket ==> b'.visited[i] == (b.visited[i] && !Swept(b, v, i))
  }

  // ---------------------------------------------------------------- what the loop does

  datatype Sweep = Sweep(idx: Option<nat>, b: Bucket)

  /** The bucket when the sweep stops at slot `i`. */
  function Stop(b: Bucket, i: nat): (b': Bucket)
    requires WellFormed(b) && i < SlotsPerBucket
    ensures WellFormed(b')
  {
    b.(slots := b.slots[i := Empty], hand := (i + 1) % SlotsPerBucket)
  }

  /** `sieve_evict` from step `k` of its loop on. */
  function SieveFrom(b: Bucket, k: nat): (r: Sweep)
    requires WellFormed(b) && k <= 2 * SlotsPerBucket
    ensures WellFormed(r.b) && (r.idx.Some? ==> r.idx.value < SlotsPerBucket)
    decreases 2 * SlotsPerBucket - k
  {
    if k == 2 * SlotsPerBucket then Sweep(None, b)
    else
      var i := At(b.hand, k);
      if b.state[i] != Unpinned then SieveFrom(b, k + 1)
      else if b.visited[i] then SieveFrom(b.(visited := b.visited[i := false]), k + 1)
      else Sweep(Some(i), Stop(b, i))
  }

  /** How the bucket `c` of step `k` looks when the sweep started in `b`. */
  ghost predicate Progress(b: Bucket, c: Bucket, k: nat)
    requires WellFormed(b) && WellFormed(c)
  {
    && c.slots == b.slots && c.state == b.state && c.hand == b.hand
    && (forall i: nat :: i < SlotsPerBucket ==> c.visited[i] == (b.visited[i] && !(Free(b, i) && Rank(b.hand, i) < k)))
    && (forall i: nat :: i < SlotsPerBucket && Free(b, i) && Rank(b.hand, i) < k ==> b.visited[i])
    && (forall i: nat :: i < SlotsPerBucket && Rank(b.hand, i) + SlotsPerBucket < k ==> !Free(b, i))
  }

  lemma Passes(b: Bucket, c: Bucket, c': Bucket, k: nat)
    requires WellFormed(b) && WellFormed(c) && k < 2 * SlotsPerBucket && Progress(b, c, k)
    requires var i := At(c.hand, k);
             || (!Free(c, i) && c' == c)
             || (Free(c, i) && c.visited[i] && c' == c.(visited := c.visited[i := false]))
    ensures WellFormed(c') && Progress(b, c', k + 1)
  {
    var v := At(c.hand, k);
    forall i: nat | i < SlotsPerBucket && i != v ensures Rank(b.hand, i) != Rank(b.hand, v) {
    }
  }

  lemma {:induction false} SieveProgress(b: Bucket, c: Bucket, k: nat)
    requires WellFormed(b) && WellFormed(c) && k <= 2 * SlotsPerBucket && Progress(b, c, k)
    ensures var r := SieveFrom(c, k);
            if r.idx.Some? then Victim(b, r.idx.value) && Evicted(b, r.idx.value, r.b)
            else r.b == b && forall i: nat :: i < SlotsPerBucket ==> !Free(b, i)
    decreases 2 * SlotsPerBucket - k
  {
    if k == 2 * SlotsPerBucket {
      assert forall i: nat :: i < SlotsPerBucket ==> !Free(b, i);
      assert c.visited == b.visited;
    } else {
      var i := At(c.hand, k);
      if c.state[i] != Unpinned {
        Passes(b, c, c, k);
        SieveProgress(b, c, k + 1);
      } else if c.visited[i] {
        var c' := c.(visited := c.visited[i := false]);
        Passes(b, c, c', k);
        SieveProgress(b, c', k + 1);
      } else {
        StopsRight(b, c, k);
      }
    }
  }

  lemma StopsRight(b: Bucket, c: Bucket, k: nat)
    requires WellFormed(b) && WellFormed(c) && k < 2 * SlotsPerBucket && Progress(b, c, k)
    requires Free(c, At(c.hand, k)) && !c.visited[At(c.hand, k)]
    ensures Victim(b, At(c.hand, k)) && Evicted(b, At(c.hand, k), Stop(c, At(c.hand, k)))
  {
    var v := At(c.hand, k);
    assert Free(b, v);
    if k < SlotsPerBucket {
      assert !b.visited[v];
    } else {
      assert forall i: nat :: i < SlotsPerBucket && Free(b, i) ==> b.visited[i];
    }
  }

  /** SIEVE eviction is total and exact: it fails iff no slot is unpinned, and then changes nothing; otherwise it
      frees the victim, and only visited bits of unpinned slots it passed change besides. */
  lemma SieveExact(b: Bucket)
    requires WellFormed(b)
    ensures var r := SieveFrom(b, 0);
            && (r.idx.None? <==> forall i: nat :: i < SlotsPerBucket ==> !Free(b, i))
            && (r.idx.None? ==> r.b == b)
            && (r.idx.Some? ==> Victim(b, r.idx.value) && Evicted(b, r.idx.value, r.b))
  {
    SieveProgress(b, b, 0);
  }

  /** The specification leaves no choice. */
  lemma VictimUnique(b: Bucket, v: nat, w: nat, b': Bucket, b'': Bucket)
    requires WellFormed(b) && Victim(b, v) && Victim(b, w) && Evicted(b, v, b') && Evicted(b, w, b'')
    ensures v == w && b' == b''
  {
    assert Rank(b.hand, v) == Rank(b.hand, w);
    assert v == w;
    assert b'.visited == b''.visited;
  }

  /** `sieve_evict`. */
  method SieveEvict(b: Bucket) returns (idx: Option<nat>, b': Bucket)
    requires WellFormed(b)
    ensures Sweep(idx, b') == SieveFrom(b, 0)
  {
    b' := b;
    var k := 0;
    while k < 2 * SlotsPerBucket
      invariant k <= 2 * SlotsPerBucket && WellFormed(b') && b'.hand == b.hand
      invariant SieveFrom(b', k) == SieveFrom(b, 0)
    {
      var i := At(b.hand, k);
      if b'.state[i] == Unpinned {
        if b'.visited[i] {
          b' := b'.(visited := b'.visited[i := false]);
        } else {
          b' := Stop(b', i);
          return Some(i), b';
        }
      }
      k := k + 1;
    }
    return None, b';
  }

  // ---------------------------------------------------------------- probing

  /** First slot from `i` whose fingerprint is `fp`, or the length. */
  function IndexOf(s: seq<Slot>, fp: nat, i: nat): (j: nat)
    requires i <= |s|
    ensures i <= j <= |s| && (j < |s| ==> s[j].fp == fp) && forall m :: i <= m < j ==> s[m].fp != fp
    decreases |s| - i
  {
    if i == |s| || s[i].fp == fp then i else IndexOf(s, fp, i + 1)
  }

  function Find(b: Bucket, fp: nat): (i: nat) { IndexOf(b.slots, fp, 0) }

  /** The probe loop shared by the operations: the matching slot, or else the first empty one. */
  method Probe(b: Bucket, fp: nat) returns (hit: Option<nat>, firstEmpty: Option<nat>)
    requires WellFormed(b) && fp != 0
    ensures hit == if Find(b, fp) < SlotsPerBucket then Some(Find(b, fp)) else None
    ensures hit.None? ==> firstEmpty == if Find(b, 0) < SlotsPerBucket then Some(Find(b, 0)) else None
  {
    firstEmpty := None;
    var i := 0;
    while i < SlotsPerBucket
      invariant i <= SlotsPerBucket
      invariant Find(b, fp) == IndexOf(b.slots, fp, i)
      invariant firstEmpty.Some? ==> firstEmpty == Some(Find(b, 0)) && Find(b, 0) < i
      invariant firstEmpty.None? ==> Find(b, 0) == IndexOf(b.slots, 0, i)
    {
      if b.slots[i].fp == fp {
        return Some(i), firstEmpty;
      }
      if b.slots[i].fp == 0 && firstEmpty.None? {
        firstEmpty := Some(i);
      }
      i := i + 1;
    }
    hit := None;
  }
}

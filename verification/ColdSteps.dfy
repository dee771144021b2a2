/** What one store of a locked writer may do to a region: the invariant holds again, published
    slots and links stay, and no key changes its entry except to a pair being written. */
module ColdSteps {
  import opened Options
  import opened ColdRegion

  /** Published slots stay published under the same key, and links once set stay set. */
  ghost predicate Grows(r: Region, r': Region) {
    && r'.main == r.main && r'.over == r.over && |r'.buckets| == |r.buckets|
    && (forall b :: 0 <= b < |r.buckets| ==> GrowsBucket(r.buckets[b], r'.buckets[b]))
  }

  ghost predicate GrowsBucket(bk: Bucket, bk': Bucket) {
    && bk.occ <= bk'.occ
    && (bk.next != 0 ==> bk'.next == bk.next)
    && |bk'.entries| == |bk.entries|
    && (forall i :: i in bk.occ && i < |bk.entries| ==> bk'.entries[i].key == bk.entries[i].key)
  }

  /** The entry of key `k` on chain `g` is kept, or `g` is the chain `h` being written and the
      entry becomes the offset of a pair `(k, o)` in `w`. */
  ghost predicate EntKept(r: Region, r': Region, g: nat, k: Word, h: nat, w: set<(Word, Word)>)
    requires Shape(r) && Shape(r') && g < |r.buckets| && g < |r'.buckets|
  {
    || Ent(r', g, k) == Ent(r, g, k)
    || (g == h && Ent(r', g, k).Some? && (k, Ent(r', g, k).value) in w)
  }

  ghost predicate Evolves(r: Region, r': Region, h: nat, w: set<(Word, Word)>)
    requires Inv(r)
  {
    && Inv(r')
    && Grows(r, r')
    && (forall g: nat, k: Word :: g < r.main ==> EntKept(r, r', g, k, h, w))
  }

  /** Every single store of `ss`, run from `r`, is an evolution. */
  ghost predicate Along(r: Region, ss: seq<Store>, h: nat, w: set<(Word, Word)>)
    requires Inv(r)
    decreases |ss|
  {
    ss == [] || (Evolves(r, Apply(r, ss[0]), h, w) && Along(Apply(r, ss[0]), ss[1..], h, w))
  }

  lemma EvolvesTrans(a: Region, b: Region, c: Region, h: nat, w: set<(Word, Word)>)
    requires Inv(a) && Inv(b) && Evolves(a, b, h, w) && Evolves(b, c, h, w)
    ensures Evolves(a, c, h, w)
  {
    forall g: nat, k: Word | g < a.main ensures EntKept(a, c, g, k, h, w) {
      assert EntKept(a, b, g, k, h, w) && EntKept(b, c, g, k, h, w);
    }
    forall x | 0 <= x < |a.buckets| ensures GrowsBucket(a.buckets[x], c.buckets[x]) {
      assert GrowsBucket(a.buckets[x], b.buckets[x]) && GrowsBucket(b.buckets[x], c.buckets[x]);
    }
  }

  lemma EvolvesRefl(r: Region, h: nat, w: set<(Word, Word)>)
    requires Inv(r)
    ensures Evolves(r, r, h, w)
  {
  }

  lemma EvolvesWeaken(r: Region, r': Region, h: nat, w: set<(Word, Word)>, w': set<(Word, Word)>)
    requires Inv(r) && Evolves(r, r', h, w) && w <= w'
    ensures Evolves(r, r', h, w')
  {
    forall g: nat, k: Word | g < r.main ensures EntKept(r, r', g, k, h, w') {
      assert EntKept(r, r', g, k, h, w);
    }
  }

  /** Every prefix of a well-behaved store list is one evolution of the start state. */
  lemma {:induction false} AlongPrefix(r: Region, ss: seq<Store>, n: nat, h: nat, w: set<(Word, Word)>)
    requires Inv(r) && Along(r, ss, h, w) && n <= |ss|
    ensures Evolves(r, Run(r, ss[..n]), h, w)
    decreases n
  {
    if n == 0 {
      EvolvesRefl(r, h, w);
    } else {
      var r1 := Apply(r, ss[0]);
      AlongPrefix(r1, ss[1..], n - 1, h, w);
      assert ss[1..][..n - 1] == ss[..n][1..];
      EvolvesTrans(r, r1, Run(r, ss[..n]), h, w);
    }
  }

  lemma AlongWhole(r: Region, ss: seq<Store>, h: nat, w: set<(Word, Word)>)
    requires Inv(r) && Along(r, ss, h, w)
    ensures Evolves(r, Run(r, ss), h, w)
  {
    AlongPrefix(r, ss, |ss|, h, w);
    assert ss[..|ss|] == ss;
  }

  lemma {:induction false} AlongAppend(r: Region, s1: seq<Store>, s2: seq<Store>, h: nat, w: set<(Word, Word)>)
    requires Inv(r) && Along(r, s1, h, w)
    requires Inv(Run(r, s1)) && Along(Run(r, s1), s2, h, w)
    ensures Along(r, s1 + s2, h, w)
    decreases |s1|
  {
    if s1 == [] {
      assert s1 + s2 == s2;
    } else {
      assert (s1 + s2)[0] == s1[0] && (s1 + s2)[1..] == s1[1..] + s2;
      AlongAppend(Apply(r, s1[0]), s1[1..], s2, h, w);
    }
  }

  lemma {:induction false} AlongWeaken(r: Region, ss: seq<Store>, h: nat, w: set<(Word, Word)>, w': set<(Word, Word)>)
    requires Inv(r) && Along(r, ss, h, w) && w <= w'
    ensures Along(r, ss, h, w')
    decreases |ss|
  {
    if ss != [] {
      EvolvesWeaken(r, Apply(r, ss[0]), h, w, w');
      AlongWeaken(Apply(r, ss[0]), ss[1..], h, w, w');
    }
  }

  // ---------------------------------------------------------------- chains as the region grows

  lemma {:induction false} GrowsReach(r: Region, r': Region, b: nat, c: nat)
    requires Shape(r) && Shape(r') && Grows(r, r') && b < |r.buckets| && Reach(r, b, c)
    ensures Reach(r', b, c)
    decreases |r.buckets| - b
  {
    if b != c {
      assert GrowsBucket(r.buckets[b], r'.buckets[b]);
      GrowsReach(r, r', r.main + r.buckets[b].next, c);
    }
  }

  /** A published key stays at its slot forever. */
  lemma GrowsPub(r: Region, r': Region, h: nat, b: nat, i: nat, k: Word)
    requires Shape(r) && Shape(r') && Grows(r, r') && h < |r.buckets| && Pub(r, h, b, i, k)
    ensures Pub(r', h, b, i, k)
  {
    GrowsReach(r, r', h, b);
    assert GrowsBucket(r.buckets[b], r'.buckets[b]);
  }

  /** Entries are determined by the published slots. */
  lemma EntByPub(r: Region, r': Region, g: nat, k: Word)
    requires Inv(r) && Inv(r') && r.main == r'.main && g < r.main
    requires forall b: nat, i: nat :: Pub(r, g, b, i, k) <==> Pub(r', g, b, i, k)
    requires forall b: nat, i: nat :: Pub(r, g, b, i, k) ==> r.buckets[b].entries[i].off == r'.buckets[b].entries[i].off
    ensures Ent(r, g, k) == Ent(r', g, k)
  {
    match Find(r, g, k)
    case Some(l) =>
      EntIs(r, g, l.b, l.i, k);
      EntIs(r', g, l.b, l.i, k);
    case None =>
      match Find(r', g, k) {
        case Some(l) => FindComplete(r, g, l.b, l.i, k);
        case None =>
      }
  }

  // ---------------------------------------------------------------- one lemma per kind of store

  ghost predicate SameLinks(r: Region, r': Region) {
    && r'.main == r.main && r'.over == r.over && |r'.buckets| == |r.buckets|
    && (forall x :: 0 <= x < |r.buckets| ==> r.buckets[x].next == r'.buckets[x].next)
  }

  /** A change that touches no link and no slot published on any chain cannot be seen. */
  lemma Invisible(r: Region, r': Region, h: nat, w: set<(Word, Word)>)
    requires Inv(r) && Shape(r') && Injective(r') && Fresh(r') && SameLinks(r, r') && Grows(r, r')
    requires forall g: nat, b: nat :: g < r.main && b < |r.buckets| && Reach(r, g, b) ==>
               r.buckets[b].occ == r'.buckets[b].occ
    requires forall b, i :: 0 <= b < |r.buckets| && i in r.buckets[b].occ ==>
               r'.buckets[b].entries[i] == r.buckets[b].entries[i]
    ensures Evolves(r, r', h, w)
  {
    forall g: nat, b: nat, i: nat, k: Word | g < r.main
      ensures Pub(r, g, b, i, k) <==> Pub(r', g, b, i, k)
    {
      if b < |r.buckets| {
        ReachSame(r, r', g, b);
      }
    }
    assert Unique(r');
    forall g: nat, k: Word | g < r.main ensures EntKept(r, r', g, k, h, w) {
      EntByPub(r, r', g, k);
    }
  }

  /** Writing into an unpublished slot of an allocated bucket. */
  lemma StoreUnpublished(r: Region, s: Store, h: nat, w: set<(Word, Word)>)
    requires Inv(r) && (s.SetKey? || s.SetOff?)
    requires s.b <= r.main + r.alloc && s.b < |r.buckets| && s.i < SLOTS && s.i !in r.buckets[s.b].occ
    ensures Evolves(r, Apply(r, s), h, w)
  {
    UnpublishedShape(r, s, Apply(r, s));
    Invisible(r, Apply(r, s), h, w);
  }

  lemma UnpublishedShape(r: Region, s: Store, r': Region)
    requires Inv(r) && (s.SetKey? || s.SetOff?) && r' == Apply(r, s)
    requires s.b <= r.main + r.alloc && s.b < |r.buckets| && s.i < SLOTS && s.i !in r.buckets[s.b].occ
    ensures Shape(r') && Injective(r') && Fresh(r') && SameLinks(r, r') && Grows(r, r')
  {
  }

  /** Bumping the allocation cursor, or undoing a bump past the end of the pool. */
  lemma StoreAlloc(r: Region, n: nat, h: nat, w: set<(Word, Word)>)
    requires Inv(r) && (n >= r.alloc || n >= r.over)
    ensures Evolves(r, Apply(r, SetAlloc(n)), h, w)
  {
    Invisible(r, Apply(r, SetAlloc(n)), h, w);
  }

  lemma StoreCount(r: Region, h: nat, w: set<(Word, Word)>)
    requires Inv(r)
    ensures Evolves(r, Apply(r, AddCount), h, w)
  {
    Invisible(r, Apply(r, AddCount), h, w);
  }

  ghost predicate Unlinked(r: Region, n: nat) {
    forall c :: 0 <= c < |r.buckets| ==> r.buckets[c].next != n
  }

  lemma UnlinkedUnreached(r: Region, n: nat, g: nat)
    requires Shape(r) && n != 0 && Unlinked(r, n) && g < r.main
    ensures !Reach(r, g, r.main + n)
  {
    if Reach(r, g, r.main + n) {
      var p := Pred(r, g, r.main + n);
    }
  }

  /** Publishing slot 0 of an overflow bucket that is not linked yet. */
  lemma StoreDetachedHeader(r: Region, n: nat, h: nat, w: set<(Word, Word)>)
    requires Inv(r) && 0 < n <= r.over && n <= r.alloc && Unlinked(r, n)
    requires r.buckets[r.main + n].occ == {} && r.buckets[r.main + n].next == 0
    ensures Evolves(r, Apply(r, SetHdr(r.main + n, {0}, 0)), h, w)
  {
    var r' := Apply(r, SetHdr(r.main + n, {0}, 0));
    forall g: nat, b: nat | g < r.main && b < |r.buckets| && Reach(r, g, b)
      ensures r.buckets[b].occ == r'.buckets[b].occ
    {
      UnlinkedUnreached(r, n, g);
    }
    DetachedShape(r, n, r');
    Invisible(r, r', h, w);
  }

  lemma DetachedShape(r: Region, n: nat, r': Region)
    requires Inv(r) && 0 < n <= r.over && n <= r.alloc
    requires r.buckets[r.main + n].occ == {} && r.buckets[r.main + n].next == 0
    requires r' == Apply(r, SetHdr(r.main + n, {0}, 0))
    ensures Shape(r') && Injective(r') && Fresh(r') && SameLinks(r, r') && Grows(r, r')
  {
  }

  /** Same links, same occupancy, same published keys: the same published slots. */
  lemma PubKept(r: Region, r': Region)
    requires Inv(r) && Shape(r') && SameLinks(r, r')
    requires forall b :: 0 <= b < |r.buckets| ==> r.buckets[b].occ == r'.buckets[b].occ
    requires forall b, i :: 0 <= b < |r.buckets| && i in r.buckets[b].occ ==>
               r'.buckets[b].entries[i].key == r.buckets[b].entries[i].key
    ensures forall g: nat, c: nat, j: nat, q: Word :: g < r.main ==> (Pub(r, g, c, j, q) <==> Pub(r', g, c, j, q))
    ensures Unique(r')
  {
    forall g: nat, c: nat, j: nat, q: Word | g < r.main
      ensures Pub(r, g, c, j, q) <==> Pub(r', g, c, j, q)
    {
      if c < |r.buckets| {
        ReachSame(r, r', g, c);
      }
    }
  }

  /** Updating the offset of a published slot in place. */
  lemma StoreOffset(r: Region, b: nat, i: nat, k: Word, o: Word, h: nat, w: set<(Word, Word)>)
    requires Inv(r) && h < r.main && Pub(r, h, b, i, k) && (k, o) in w
    ensures Evolves(r, Apply(r, SetOff(b, i, o)), h, w)
    ensures Ent(Apply(r, SetOff(b, i, o)), h, k) == Some(o)
  {
    ReachBound(r, h, b);
    var r' := Apply(r, SetOff(b, i, o));
    StoreOffsetInv(r, b, i, o, r');
    EntIs(r', h, b, i, k);
    forall g: nat, q: Word | g < r.main ensures EntKept(r, r', g, q, h, w) {
      if g == h && q == k {
      } else {
        forall c: nat, j: nat | Pub(r, g, c, j, q)
          ensures r.buckets[c].entries[j].off == r'.buckets[c].entries[j].off
        {
          if c == b && j == i {
            ChainsDisjoint(r, g, h, b);
          }
        }
        EntByPub(r, r', g, q);
      }
    }
  }

  lemma StoreOffsetInv(r: Region, b: nat, i: nat, o: Word, r': Region)
    requires Inv(r) && b < |r.buckets| && i in r.buckets[b].occ && r' == Apply(r, SetOff(b, i, o))
    ensures Inv(r') && Grows(r, r')
    ensures forall g: nat, c: nat, j: nat, q: Word :: g < r.main ==> (Pub(r, g, c, j, q) <==> Pub(r', g, c, j, q))
  {
    PubKept(r, r');
  }

  /** `v` is `r` with some more occupancy bits. */
  ghost predicate Covers(r: Region, v: Region) {
    && SameLinks(r, v) && v.alloc == r.alloc
    && (forall b :: 0 <= b < |r.buckets| ==> CoversBucket(r.buckets[b], v.buckets[b]))
  }

  ghost predicate CoversBucket(bk: Bucket, vk: Bucket) {
    vk.entries == bk.entries && bk.occ <= vk.occ
  }

  /** A region that shows fewer published slots than a legal one is legal. */
  lemma CoveredInv(r: Region, v: Region)
    requires Inv(v) && Shape(r) && Covers(r, v) && Fresh(r)
    ensures Inv(r)
    ensures forall g: nat, b: nat, i: nat, k: Word :: g < r.main && Pub(r, g, b, i, k) ==> Pub(v, g, b, i, k)
  {
    forall g: nat, b: nat, i: nat, k: Word | g < r.main && Pub(r, g, b, i, k) ensures Pub(v, g, b, i, k) {
      ReachSame(r, v, g, b);
      assert CoversBucket(r.buckets[b], v.buckets[b]);
    }
  }

  /** Flipping occupancy bits on chain `h`, staying below a legal region `v`. */
  lemma StorePublish(r: Region, v: Region, b: nat, bits: set<nat>, h: nat, w: set<(Word, Word)>)
    requires Inv(r) && Inv(v) && Covers(r, v) && h < r.main && b < |r.buckets| && b <= r.main + r.alloc
    requires Reach(r, h, b) && bits <= v.buckets[b].occ
    requires forall i :: i in bits && i !in r.buckets[b].occ ==>
               (v.buckets[b].entries[i].key, v.buckets[b].entries[i].off) in w
    ensures Evolves(r, Apply(r, OrOcc(b, bits)), h, w)
    ensures Covers(Apply(r, OrOcc(b, bits)), v)
  {
    var r' := Apply(r, OrOcc(b, bits));
    PublishCovers(r, v, b, bits);
    CoveredInv(r', v);
    forall g: nat, k: Word | g < r.main ensures EntKept(r, r', g, k, h, w) {
      PublishEnt(r, r', b, bits, g, k, h, w);
    }
  }

  lemma PublishCovers(r: Region, v: Region, b: nat, bits: set<nat>)
    requires Inv(r) && Inv(v) && Covers(r, v) && b < |r.buckets| && b <= r.main + r.alloc
    requires bits <= v.buckets[b].occ
    ensures var r' := Apply(r, OrOcc(b, bits));
            Covers(r', v) && Shape(r') && Fresh(r') && SameLinks(r, r') && Grows(r, r')
  {
    var r' := Apply(r, OrOcc(b, bits));
    assert CoversBucket(r.buckets[b], v.buckets[b]);
    assert BucketShape(v.buckets[b]);
    forall x | 0 <= x < |r.buckets| ensures CoversBucket(r'.buckets[x], v.buckets[x]) {
      assert CoversBucket(r.buckets[x], v.buckets[x]);
    }
  }

  lemma PublishEnt(r: Region, r': Region, b: nat, bits: set<nat>, g: nat, k: Word, h: nat, w: set<(Word, Word)>)
    requires Inv(r) && Inv(r') && r' == Apply(r, OrOcc(b, bits)) && g < r.main && h < r.main && b < |r.buckets|
    requires Grows(r, r') && SameLinks(r, r') && Reach(r, h, b)
    requires forall i :: i in bits && i !in r.buckets[b].occ ==>
               i < SLOTS && (r.buckets[b].entries[i].key, r.buckets[b].entries[i].off) in w
    ensures EntKept(r, r', g, k, h, w)
  {
    match Find(r', g, k)
    case Some(l) =>
      ReachSame(r, r', g, l.b);
      if Pub(r, g, l.b, l.i, k) {
        EntIs(r, g, l.b, l.i, k);
      } else {
        assert l.b == b && l.i in bits && l.i !in r.buckets[b].occ;
        ChainsDisjoint(r, g, h, b);
      }
    case None =>
      if Find(r, g, k).Some? {
        var l := Find(r, g, k).value;
        GrowsPub(r, r', g, l.b, l.i, k);
        FindComplete(r', g, l.b, l.i, k);
      }
  }

  /** Publishing a free slot that holds a key absent from its chain keeps keys unique. */
  lemma PublishNew(r: Region, b: nat, i: nat, k: Word, h: nat)
    requires Inv(r) && h < r.main && b < |r.buckets| && b <= r.main + r.alloc && i < SLOTS
    requires Reach(r, h, b) && i !in r.buckets[b].occ && r.buckets[b].entries[i].key == k
    requires Find(r, h, k) == None
    ensures Inv(Apply(r, OrOcc(b, {i}))) && Covers(r, Apply(r, OrOcc(b, {i})))
  {
    var r' := Apply(r, OrOcc(b, {i}));
    PublishNewShape(r, b, i, r');
    forall g: nat, c: nat, j: nat, q: Word | g < r.main && Pub(r', g, c, j, q)
      ensures Pub(r, g, c, j, q) || (g == h && c == b && j == i && q == k)
    {
      ReachSame(r, r', g, c);
      if c == b && j == i {
        ChainsDisjoint(r, g, h, b);
      }
    }
    AddedUnique(r, r', h, b, i, k);
  }

  lemma PublishNewShape(r: Region, b: nat, i: nat, r': Region)
    requires Inv(r) && b < |r.buckets| && b <= r.main + r.alloc && i < SLOTS && r' == Apply(r, OrOcc(b, {i}))
    ensures Shape(r') && Injective(r') && Fresh(r') && Covers(r, r')
  {
  }

  /** One more published slot, holding a key that was absent from its chain, keeps keys unique. */
  lemma AddedUnique(r: Region, r': Region, h: nat, b: nat, i: nat, k: Word)
    requires Inv(r) && Shape(r') && r.main == r'.main && h < r.main && Find(r, h, k) == None
    requires forall g: nat, c: nat, j: nat, q: Word :: g < r.main && Pub(r', g, c, j, q) ==>
               Pub(r, g, c, j, q) || (g == h && c == b && j == i && q == k)
    ensures Unique(r')
  {
    forall c: nat, j: nat | Pub(r, h, c, j, k) ensures false {
      FindComplete(r, h, c, j, k);
    }
  }

  /** Publishing one freshly written slot. */
  lemma StoreNewBit(r: Region, b: nat, i: nat, k: Word, o: Word, h: nat, w: set<(Word, Word)>)
    requires Inv(r) && h < r.main && b < |r.buckets| && b <= r.main + r.alloc && i < SLOTS
    requires Reach(r, h, b) && i !in r.buckets[b].occ && r.buckets[b].entries[i] == Entry(k, o)
    requires Find(r, h, k) == None && (k, o) in w
    ensures Evolves(r, Apply(r, OrOcc(b, {i})), h, w)
    ensures Ent(Apply(r, OrOcc(b, {i})), h, k) == Some(o)
  {
    var r' := Apply(r, OrOcc(b, {i}));
    PublishNew(r, b, i, k, h);
    StorePublish(r, r', b, {i}, h, w);
    ReachSame(r, r', h, b);
    EntIs(r', h, b, i, k);
  }

  // ---------------------------------------------------------------- linking an overflow bucket

  /** The chain through tail `t` gains exactly one bucket, every other chain is unchanged. */
  lemma {:induction false} LinkReach(r: Region, t: nat, n: nat, r': Region, b: nat, c: nat)
    requires Inv(r) && t < |r.buckets| && 0 < n <= r.over && n <= r.alloc && t < r.main + n
    requires r.buckets[t].next == 0 && r.buckets[r.main + n].next == 0
    requires r' == Apply(r, SetHdr(t, r.buckets[t].occ, n)) && Shape(r') && b < |r.buckets|
    ensures Reach(r', b, c) <==> Reach(r, b, c) || (Reach(r, b, t) && c == r.main + n)
    decreases |r.buckets| - b
  {
    if b == t {
      assert Reach(r', r.main + n, c) <==> c == r.main + n;
    } else if r.buckets[b].next != 0 {
      LinkReach(r, t, n, r', r.main + r.buckets[b].next, c);
    }
  }

  /** Attaching overflow bucket `n`, which shows at most the new pair in slot 0, to the tail of `h`. */
  lemma StoreLink(r: Region, t: nat, n: nat, k: Word, o: Word, h: nat, w: set<(Word, Word)>)
    requires Inv(r) && h < r.main && t == Tail(r, h) && 0 < n <= r.over && n <= r.alloc && t < r.main + n
    requires Unlinked(r, n) && r.buckets[r.main + n].next == 0
    requires r.buckets[r.main + n].occ <= {0}
    requires r.buckets[r.main + n].entries[0] == Entry(k, o) && Find(r, h, k) == None && (k, o) in w
    ensures Evolves(r, Apply(r, SetHdr(t, r.buckets[t].occ, n)), h, w)
  {
    var r' := Apply(r, SetHdr(t, r.buckets[t].occ, n));
    LinkShape(r, t, n, r');
    LinkPub(r, t, n, k, o, h, r');
    LinkInv(r, t, n, k, o, h, r');
    forall g: nat, q: Word | g < r.main ensures EntKept(r, r', g, q, h, w) {
      LinkEnt(r, n, k, o, h, r', g, q, w);
    }
  }

  /** A bucket linked with its slot 0 published shows the new pair at once. */
  lemma LinkShows(r: Region, t: nat, n: nat, k: Word, o: Word, h: nat)
    requires Inv(r) && h < r.main && t == Tail(r, h) && 0 < n <= r.over && n <= r.alloc && t < r.main + n
    requires r.buckets[r.main + n] == Bucket({0}, 0, r.buckets[r.main + n].entries)
    requires r.buckets[r.main + n].entries[0] == Entry(k, o)
    requires Inv(Apply(r, SetHdr(t, r.buckets[t].occ, n)))
    ensures Ent(Apply(r, SetHdr(t, r.buckets[t].occ, n)), h, k) == Some(o)
  {
    var r' := Apply(r, SetHdr(t, r.buckets[t].occ, n));
    LinkReach(r, t, n, r', h, r.main + n);
    EntIs(r', h, r.main + n, 0, k);
  }

  lemma LinkShape(r: Region, t: nat, n: nat, r': Region)
    requires Inv(r) && t < |r.buckets| && 0 < n <= r.over && n <= r.alloc && t < r.main + n
    requires r' == Apply(r, SetHdr(t, r.buckets[t].occ, n))
    ensures Shape(r')
  {
  }

  lemma LinkPub(r: Region, t: nat, n: nat, k: Word, o: Word, h: nat, r': Region)
    requires Inv(r) && h < r.main && t == Tail(r, h) && 0 < n <= r.over && n <= r.alloc && t < r.main + n
    requires r.buckets[r.main + n].next == 0 && r' == Apply(r, SetHdr(t, r.buckets[t].occ, n))
    requires r.buckets[r.main + n].occ <= {0} && r.buckets[r.main + n].entries[0] == Entry(k, o)
    requires Shape(r')
    ensures forall g: nat, c: nat, j: nat, q: Word :: g < r.main && Pub(r', g, c, j, q) ==>
              Pub(r, g, c, j, q) || (g == h && c == r.main + n && j == 0 && q == k)
  {
    forall g: nat, c: nat, j: nat, q: Word | g < r.main && Pub(r', g, c, j, q)
      ensures Pub(r, g, c, j, q) || (g == h && c == r.main + n && j == 0 && q == k)
    {
      LinkReach(r, t, n, r', g, c);
      if !Reach(r, g, c) {
        ChainsDisjoint(r, g, h, t);
      }
    }
  }

  lemma LinkInv(r: Region, t: nat, n: nat, k: Word, o: Word, h: nat, r': Region)
    requires Inv(r) && h < r.main && t == Tail(r, h) && 0 < n <= r.over && n <= r.alloc && t < r.main + n
    requires r' == Apply(r, SetHdr(t, r.buckets[t].occ, n)) && Shape(r') && Unlinked(r, n)
    requires Find(r, h, k) == None
    requires forall g: nat, c: nat, j: nat, q: Word :: g < r.main && Pub(r', g, c, j, q) ==>
               Pub(r, g, c, j, q) || (g == h && c == r.main + n && j == 0 && q == k)
    ensures Inv(r') && Grows(r, r')
  {
    ReachBound(r, h, t);
    AddedUnique(r, r', h, r.main + n, 0, k);
    assert Fresh(r') by {
      if r.main + r.alloc < t {
        var p := Pred(r, h, t);
      }
    }
  }

  lemma LinkEnt(r: Region, n: nat, k: Word, o: Word, h: nat, r': Region, g: nat, q: Word, w: set<(Word, Word)>)
    requires Inv(r) && Inv(r') && Grows(r, r') && h < r.main && g < r.main && 0 < n <= r.over && (k, o) in w
    requires r'.buckets[r.main + n].entries[0] == Entry(k, o)
    requires forall b, i :: 0 <= b < |r.buckets| && 0 <= i < SLOTS ==> r'.buckets[b].entries[i] == r.buckets[b].entries[i]
    requires forall g: nat, c: nat, j: nat, q: Word :: g < r.main && Pub(r', g, c, j, q) ==>
               Pub(r, g, c, j, q) || (g == h && c == r.main + n && j == 0 && q == k)
    ensures EntKept(r, r', g, q, h, w)
  {
    match Find(r', g, q)
    case Some(l) =>
      if Pub(r, g, l.b, l.i, q) {
        EntIs(r, g, l.b, l.i, q);
      }
    case None =>
      if Find(r, g, q).Some? {
        var l := Find(r, g, q).value;
        GrowsPub(r, r', g, l.b, l.i, q);
        FindComplete(r', g, l.b, l.i, q);
      }
  }
}

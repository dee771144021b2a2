/** The CCEH directory over its segments, and the update that a segment split makes. */
module CcehDirectory {
  import opened Powers
  import opened Options
  import opened CcehSegment
  import opened CcehExact

  /** A segment: slots, local depth and pattern. */
  datatype Seg = Seg(slots: seq<Pair>, localDepth: nat, pattern: nat)

  /** Segments stand in `segs`; directory entries are positions in it. */
  datatype Table = Table(segs: seq<Seg>, dir: seq<nat>, depth: nat)

  const HashBits: nat := 64

  /** Right shift. */
  function Shr(x: nat, n: nat): (r: nat)
    decreases n
  {
    if n == 0 then x else Shr(x / 2, n - 1)
  }

  /** The `d` leading bits of a 64-bit hash. */
  function Top(h: nat, d: nat): (x: nat)
    requires d <= HashBits
  {
    Shr(h, HashBits - d)
  }

  /** The bit behind the first `d`. */
  function NextBit(d: nat): (bit: nat -> bool)
    requires d < HashBits
  {
    (h: nat) => Top(h, d + 1) % 2 == 1
  }

  /** `dir->_[key_hash >> (64 - depth)]`. */
  function SegOf(t: Table, h: nat): (g: nat)
    requires t.depth <= HashBits
  {
    if Top(h, t.depth) < |t.dir| then t.dir[Top(h, t.depth)] else 0
  }

  function Get(t: Table, hash: Hash, key: nat, ok: nat -> bool): (r: Option<nat>)
    requires t.depth <= HashBits && SegOf(t, hash(key)) < |t.segs| && |t.segs[SegOf(t, hash(key))].slots| == NumSlot
  {
    GetFrom(t.segs[SegOf(t, hash(key))].slots, key, ok, Home(hash(key)), 0)
  }

  // ---------------------------------------------------------------- invariant

  ghost predicate SegShape(t: Table, g: nat) {
    g < |t.segs| && |t.segs[g].slots| == NumSlot && 1 <= t.segs[g].localDepth <= t.depth
  }

  /** Directory entry `y` has the leading bits that segment `g` serves. */
  ghost predicate Serves(t: Table, g: nat, y: nat)
    requires SegShape(t, g)
  {
    Shr(y, t.depth - t.segs[g].localDepth) == t.segs[g].pattern
  }

  /** Each entry's segment has the entry's leading bits as pattern, and all entries with those bits share it. */
  ghost predicate Inv(t: Table) {
    && 1 <= t.depth <= HashBits && |t.dir| == Pow2(t.depth)
    && (forall x :: 0 <= x < |t.dir| ==> SegShape(t, t.dir[x]) && Serves(t, t.dir[x], x))
    && (forall x, y :: 0 <= x < |t.dir| && 0 <= y < |t.dir| && Serves(t, t.dir[x], y) ==> t.dir[y] == t.dir[x])
  }

  /** What inserting and splitting keep: every pair sits in the window of its home. */
  ghost predicate AllWindowed(t: Table, hash: Hash) {
    forall g :: 0 <= g < |t.segs| ==> |t.segs[g].slots| == NumSlot && Windowed(t.segs[g].slots, hash)
  }

  ghost predicate Is64(hash: Hash) { forall k: nat :: hash(k) < Two64 }

  // ---------------------------------------------------------------- split and directory update

  /** `Segment::Split` and the two patterns set after it, for the segment that serves hash `h`. */
  function Halves(seg: Seg, hash: Hash, h: nat): (r: (Seg, Seg))
    requires |seg.slots| == NumSlot && seg.localDepth < HashBits
  {
    var p := 2 * Top(h, seg.localDepth);
    (Seg(seg.slots, seg.localDepth + 1, p),
     Seg(Moved(seg.slots, hash, NextBit(seg.localDepth)), seg.localDepth + 1, p + 1))
  }

  /** `y` is in the second half of the chunk of `2^k` entries around `x`. */
  predicate SecondHalf(x: nat, k: nat, y: nat)
    requires k > 0
  {
    Shr(y, k - 1) == 2 * Shr(x, k) + 1
  }

  /** The directory with the second half of a chunk pointing at `s1`. */
  function Rewritten(dir: seq<nat>, x: nat, k: nat, s1: nat): (r: seq<nat>)
    requires k > 0
  {
    seq(|dir|, y requires 0 <= y < |dir| => if SecondHalf(x, k, y) then s1 else dir[y])
  }

  lemma RewrittenIs(dir: seq<nat>, x: nat, k: nat, s1: nat)
    requires k > 0
    ensures var r := Rewritten(dir, x, k, s1);
            |r| == |dir| && forall y :: 0 <= y < |dir| ==> r[y] == if SecondHalf(x, k, y) then s1 else dir[y]
  {
  }

  /** The doubled directory. */
  function Doubled(dir: seq<nat>, x: nat, s1: nat): (r: seq<nat>)
  {
    seq(2 * |dir|, z requires 0 <= z < 2 * |dir| => if z == 2 * x + 1 then s1 else dir[z / 2])
  }

  lemma DoubledIs(dir: seq<nat>, x: nat, s1: nat)
    ensures var r := Doubled(dir, x, s1);
            |r| == 2 * |dir| && forall z :: 0 <= z < |r| ==> r[z] == if z == 2 * x + 1 then s1 else dir[z / 2]
  {
  }

  /** Splits the segment that serves hash `h`. */
  function Split(t: Table, hash: Hash, h: nat): (t': Table)
    requires Inv(t) && t.depth < HashBits && h < Two64
  {
    var x := Top(h, t.depth);
    TopInRange(h, t.depth);
    var g := t.dir[x];
    var (s0, s1) := Halves(t.segs[g], hash, h);
    var segs := t.segs[g := s0] + [s1];
    var ld := t.segs[g].localDepth;
    if ld < t.depth then Table(segs, Rewritten(t.dir, x, t.depth - ld, |t.segs|), t.depth)
    else Table(segs, Doubled(t.dir, x, |t.segs|), t.depth + 1)
  }

  // ---------------------------------------------------------------- leading bits

  lemma {:induction false} ShrShr(x: nat, a: nat, b: nat)
    ensures Shr(Shr(x, a), b) == Shr(x, a + b)
    decreases a
  {
    if a > 0 {
      ShrShr(x / 2, a - 1, b);
    }
  }

  lemma ShrHalf(x: nat, n: nat)
    ensures Shr(x, n + 1) == Shr(x, n) / 2
  {
    ShrShr(x, n, 1);
    assert Shr(Shr(x, n), 1) == Shr(Shr(x, n) / 2, 0);
  }

  lemma {:induction false} ShrBound(x: nat, n: nat, m: nat)
    requires x < Pow2(n + m)
    ensures Shr(x, n) < Pow2(m)
    decreases n
  {
    if n > 0 {
      ShrBound(x / 2, n - 1, m);
    }
  }

  /** Fewer leading bits are the leading bits of more. */
  lemma TopOfTop(h: nat, d: nat, e: nat)
    requires e <= d <= HashBits
    ensures Top(h, e) == Shr(Top(h, d), d - e)
  {
    ShrShr(h, HashBits - d, d - e);
  }

  lemma TopInRange(h: nat, d: nat)
    requires h < Two64 && d <= HashBits
    ensures Top(h, d) < Pow2(d)
  {
    Pow64();
    ShrBound(h, HashBits - d, d);
  }

  // ---------------------------------------------------------------- the split keeps the directory consistent

  /** What the split segment, its pattern and the hash that led to it have to do with each other. */
  lemma Target(t: Table, h: nat)
    requires Inv(t) && h < Two64
    ensures var x := Top(h, t.depth);
            && x < |t.dir| && SegShape(t, t.dir[x])
            && t.segs[t.dir[x]].pattern == Top(h, t.segs[t.dir[x]].localDepth)
            && t.segs[t.dir[x]].pattern == Shr(x, t.depth - t.segs[t.dir[x]].localDepth)
  {
    TopInRange(h, t.depth);
    var x := Top(h, t.depth);
    assert Serves(t, t.dir[x], x);
    TopOfTop(h, t.depth, t.segs[t.dir[x]].localDepth);
  }

  /** `t'` has the segments of `t` with the one at entry `x` split in two. */
  ghost predicate Parted(t: Table, t': Table, x: nat) {
    && x < |t.dir| && SegShape(t, t.dir[x]) && |t'.segs| == |t.segs| + 1
    && var g := t.dir[x];
       var ld, p := t.segs[g].localDepth, t.segs[g].pattern;
       && p == Shr(x, t.depth - ld)
       && (forall o :: 0 <= o < |t.segs| && o != g ==> t'.segs[o] == t.segs[o])
       && t'.segs[g] == Seg(t.segs[g].slots, ld + 1, 2 * p)
       && |t'.segs[|t.segs|].slots| == NumSlot && t'.segs[|t.segs|].localDepth == ld + 1
       && t'.segs[|t.segs|].pattern == 2 * p + 1
  }

  lemma SplitParts(t: Table, hash: Hash, h: nat)
    requires Inv(t) && t.depth < HashBits && h < Two64
    ensures var t', x := Split(t, hash, h), Top(h, t.depth);
            && Parted(t, t', x)
            && var g := t.dir[x];
               var k := t.depth - t.segs[g].localDepth;
               && t'.segs[|t.segs|].slots == Moved(t.segs[g].slots, hash, NextBit(t.segs[g].localDepth))
               && (k > 0 ==> t'.dir == Rewritten(t.dir, x, k, |t.segs|) && t'.depth == t.depth)
               && (k == 0 ==> t'.dir == Doubled(t.dir, x, |t.segs|) && t'.depth == t.depth + 1)
  {
    Target(t, h);
    hide Moved, NextBit;
  }

  lemma RewriteServes(t: Table, t': Table, x: nat, k: nat, z: nat)
    requires Inv(t) && Parted(t, t', x) && k == t.depth - t.segs[t.dir[x]].localDepth && k > 0
    requires t'.depth == t.depth && t'.dir == Rewritten(t.dir, x, k, |t.segs|) && z < |t.dir|
    ensures SegShape(t', t'.dir[z]) && Serves(t', t'.dir[z], z)
  {
    RewrittenIs(t.dir, x, k, |t.segs|);
    ShrHalf(z, k - 1);
    assert SegShape(t, t.dir[z]) && Serves(t, t.dir[z], z);
    hide Inv, Shr;
  }

  lemma RewriteShares(t: Table, t': Table, x: nat, k: nat, a: nat, y: nat)
    requires Inv(t) && Parted(t, t', x) && k == t.depth - t.segs[t.dir[x]].localDepth && k > 0
    requires t'.depth == t.depth && t'.dir == Rewritten(t.dir, x, k, |t.segs|) && a < |t.dir| && y < |t.dir|
    requires SegShape(t', t'.dir[a]) && Serves(t', t'.dir[a], y)
    ensures t'.dir[y] == t'.dir[a]
  {
    RewrittenIs(t.dir, x, k, |t.segs|);
    ShrHalf(y, k - 1);
    assert SegShape(t, t.dir[a]) && SegShape(t, t.dir[y]);
    assert Serves(t, t.dir[a], y) ==> t.dir[y] == t.dir[a];
    assert Serves(t, t.dir[x], y) ==> t.dir[y] == t.dir[x];
    hide Inv, Shr;
  }

  lemma RewriteInv(t: Table, t': Table, x: nat, k: nat)
    requires Inv(t) && Parted(t, t', x) && k == t.depth - t.segs[t.dir[x]].localDepth && k > 0
    requires t'.depth == t.depth && t'.dir == Rewritten(t.dir, x, k, |t.segs|)
    ensures Inv(t')
  {
    RewrittenIs(t.dir, x, k, |t.segs|);
    forall z | 0 <= z < |t'.dir| ensures SegShape(t', t'.dir[z]) && Serves(t', t'.dir[z], z) {
      RewriteServes(t, t', x, k, z);
    }
    hide Parted, SegShape, Serves, Rewritten;
    forall a, y | 0 <= a < |t'.dir| && 0 <= y < |t'.dir| && Serves(t', t'.dir[a], y) ensures t'.dir[y] == t'.dir[a] {
      RewriteShares(t, t', x, k, a, y);
    }
  }

  lemma DoubleServes(t: Table, t': Table, x: nat, z: nat)
    requires Inv(t) && Parted(t, t', x) && t.depth == t.segs[t.dir[x]].localDepth
    requires t'.depth == t.depth + 1 && t'.dir == Doubled(t.dir, x, |t.segs|) && z < |t'.dir|
    ensures SegShape(t', t'.dir[z]) && Serves(t', t'.dir[z], z)
  {
    DoubledIs(t.dir, x, |t.segs|);
    assert SegShape(t, t.dir[z / 2]) && Serves(t, t.dir[z / 2], z / 2);
    hide Inv;
  }

  lemma DoubleShares(t: Table, t': Table, x: nat, a: nat, y: nat)
    requires Inv(t) && Parted(t, t', x) && t.depth == t.segs[t.dir[x]].localDepth
    requires t'.depth == t.depth + 1 && t'.dir == Doubled(t.dir, x, |t.segs|) && a < |t'.dir| && y < |t'.dir|
    requires SegShape(t', t'.dir[a]) && Serves(t', t'.dir[a], y)
    ensures t'.dir[y] == t'.dir[a]
  {
    DoubledIs(t.dir, x, |t.segs|);
    var b, c := a / 2, y / 2;
    assert SegShape(t, t.dir[b]) && Serves(t, t.dir[b], b);
    assert Serves(t, t.dir[b], c) ==> t.dir[c] == t.dir[b];
    hide Inv;
  }

  lemma DoubleInv(t: Table, t': Table, x: nat)
    requires Inv(t) && t.depth < HashBits && Parted(t, t', x) && t.depth == t.segs[t.dir[x]].localDepth
    requires t'.depth == t.depth + 1 && t'.dir == Doubled(t.dir, x, |t.segs|)
    ensures Inv(t')
  {
    DoubledIs(t.dir, x, |t.segs|);
    forall z | 0 <= z < |t'.dir| ensures SegShape(t', t'.dir[z]) && Serves(t', t'.dir[z], z) {
      DoubleServes(t, t', x, z);
    }
    assert |t'.dir| == Pow2(t'.depth);
    hide Parted, SegShape, Serves, Doubled;
    forall a, y | 0 <= a < |t'.dir| && 0 <= y < |t'.dir| && Serves(t', t'.dir[a], y) ensures t'.dir[y] == t'.dir[a] {
      DoubleShares(t, t', x, a, y);
    }
  }

  /** Every directory entry keeps its index, shifted by depth minus local depth, as its segment's pattern. */
  lemma SplitInv(t: Table, hash: Hash, h: nat)
    requires Inv(t) && t.depth < HashBits && h < Two64
    ensures Inv(Split(t, hash, h))
  {
    SplitParts(t, hash, h);
    var t', x := Split(t, hash, h), Top(h, t.depth);
    hide Split;
    var k := t.depth - t.segs[t.dir[x]].localDepth;
    if k > 0 {
      RewriteInv(t, t', x, k);
    } else {
      DoubleInv(t, t', x);
    }
  }

  // ---------------------------------------------------------------- and every lookup

  /** The entries the split segment served, told by leading bits. */
  lemma ServedBefore(t: Table, h: nat, e: nat)
    requires Inv(t) && t.depth < HashBits && h < Two64 && e < Two64
    ensures var x, y := Top(h, t.depth), Top(e, t.depth);
            && x < |t.dir| && y < |t.dir| && SegShape(t, t.dir[x])
            && var ld := t.segs[t.dir[x]].localDepth;
               && (t.dir[y] == t.dir[x] <==> Top(e, ld) == t.segs[t.dir[x]].pattern)
               && Top(e, ld) == Top(e, ld + 1) / 2
  {
    Target(t, h);
    Target(t, e);
    var x, y := Top(h, t.depth), Top(e, t.depth);
    var ld := t.segs[t.dir[x]].localDepth;
    TopOfTop(e, t.depth, ld);
    ShrHalf(e, HashBits - ld - 1);
    assert Serves(t, t.dir[x], y) ==> t.dir[y] == t.dir[x];
    assert Serves(t, t.dir[y], y);
    hide Shr;
  }

  lemma ServedRewritten(dir: seq<nat>, depth: nat, ld: nat, x: nat, p: nat, e: nat, s1: nat)
    requires ld < depth <= HashBits && Top(e, depth) < |dir| && p == Shr(x, depth - ld)
    ensures var r, y := Rewritten(dir, x, depth - ld, s1), Top(e, depth);
            |r| == |dir| && r[y] == if Top(e, ld + 1) == 2 * p + 1 then s1 else dir[y]
  {
    RewrittenIs(dir, x, depth - ld, s1);
    InChunk(x, Top(e, depth), depth, ld, e, p);
    hide Shr, Rewritten;
  }

  lemma ServedDoubled(dir: seq<nat>, depth: nat, p: nat, e: nat, s1: nat)
    requires depth < HashBits && Top(e, depth) < |dir| && Top(e, depth) == Top(e, depth + 1) / 2
    ensures var r, z := Doubled(dir, p, s1), Top(e, depth + 1);
            z < |r| && r[z] == if z == 2 * p + 1 then s1 else dir[Top(e, depth)]
  {
    DoubledIs(dir, p, s1);
    hide Shr, Doubled;
  }

  /** Which segment serves a key after the split: the new one iff the old one did and the next bit is set. */
  lemma ServedBy(t: Table, hash: Hash, h: nat, e: nat)
    requires Inv(t) && t.depth < HashBits && h < Two64 && e < Two64
    ensures var g := SegOf(t, h);
            && SegOf(t, e) < |t.segs| && SegShape(t, g)
            && SegOf(Split(t, hash, h), e) ==
               if SegOf(t, e) == g && NextBit(t.segs[g].localDepth)(e) then |t.segs| else SegOf(t, e)
  {
    SplitParts(t, hash, h);
    ServedBefore(t, h, e);
    var t', x, y := Split(t, hash, h), Top(h, t.depth), Top(e, t.depth);
    var ld, p := t.segs[t.dir[x]].localDepth, t.segs[t.dir[x]].pattern;
    assert SegShape(t, t.dir[y]) && p == Shr(x, t.depth - ld);
    assert NextBit(ld)(e) <==> Top(e, ld + 1) % 2 == 1;
    hide Split, Inv, NextBit, Parted, Rewritten, Doubled;
    if ld < t.depth {
      hide Top;
      ServedRewritten(t.dir, t.depth, ld, x, p, e, |t.segs|);
    } else {
      assert x == p;
      hide Top, Shr;
      ServedDoubled(t.dir, t.depth, p, e, |t.segs|);
    }
  }

  /** An entry is in the second half of the split chunk iff its bits are those of the upper half. */
  lemma InChunk(x: nat, y: nat, depth: nat, ld: nat, e: nat, p: nat)
    requires ld < depth <= HashBits && y == Top(e, depth) && p == Shr(x, depth - ld)
    ensures SecondHalf(x, depth - ld, y) <==> Top(e, ld + 1) == 2 * p + 1
  {
    TopOfTop(e, depth, ld + 1);
  }

  /** Every lookup of the key answers in `t'` as in `t`, whatever values the caller's check accepts. */
  ghost predicate LookupKept(t: Table, t': Table, hash: Hash, key: nat) {
    && t.depth <= HashBits && t'.depth <= HashBits
    && SegOf(t, hash(key)) < |t.segs| && |t.segs[SegOf(t, hash(key))].slots| == NumSlot
    && SegOf(t', hash(key)) < |t'.segs| && |t'.segs[SegOf(t', hash(key))].slots| == NumSlot
    && forall ok: nat -> bool :: Get(t', hash, key, ok) == Get(t, hash, key, ok)
  }

  /** The hashes segment `g` serves. A split segment may still hold pairs it no longer serves. */
  function Served(t: Table, g: nat): (care: nat -> bool)
    requires t.depth <= HashBits
  {
    (e: nat) => SegOf(t, e) == g
  }

  /** The condition on a split, for the keys that the split segment serves. */
  ghost predicate SplitSafe(t: Table, hash: Hash, h: nat) {
    && t.depth <= HashBits && SegShape(t, SegOf(t, h)) && t.segs[SegOf(t, h)].localDepth < HashBits
    && Safe(t.segs[SegOf(t, h)].slots, hash, NextBit(t.segs[SegOf(t, h)].localDepth), Served(t, SegOf(t, h)))
  }

  /** A split changes lookups only of keys that move from the split segment, and there as the copy does. */
  lemma KeptIff(t: Table, hash: Hash, h: nat, key: nat)
    requires Inv(t) && Is64(hash) && t.depth < HashBits && h < Two64 && key != Invalid
    ensures var g := SegOf(t, h);
            && SegShape(t, g)
            && var s, bit := t.segs[g].slots, NextBit(t.segs[g].localDepth);
               LookupKept(t, Split(t, hash, h), hash, key) <==>
               (Concerned(hash, bit, Served(t, g), key) ==> SameAnswers(s, Moved(s, hash, bit), hash, key))
  {
    SplitParts(t, hash, h);
    ServedBy(t, hash, h, hash(key));
    ServedBefore(t, h, hash(key));
    var t', g := Split(t, hash, h), SegOf(t, h);
    var s, bit := t.segs[g].slots, NextBit(t.segs[g].localDepth);
    assert SegShape(t, SegOf(t, hash(key)));
    hide Split, Moved, GetFrom, Inv, Shr, NextBit, Top;
    if SegOf(t, hash(key)) == g && bit(hash(key)) {
      assert SegOf(t', hash(key)) == |t.segs| && t'.segs[|t.segs|].slots == Moved(s, hash, bit);
      if SameAnswers(s, Moved(s, hash, bit), hash, key) {
        forall ok: nat -> bool ensures Get(t', hash, key, ok) == Get(t, hash, key, ok) {
        }
      } else {
        var ok: nat -> bool :| GetFrom(Moved(s, hash, bit), key, ok, Home(hash(key)), 0) != GetFrom(s, key, ok, Home(hash(key)), 0);
        assert Get(t', hash, key, ok) != Get(t, hash, key, ok);
      }
    }
  }

  /** Exactly when a split and its directory update, by rewriting a chunk or by doubling, change the answer to no
      lookup of any key, in a segment that may have wrapped. */
  lemma SplitKeepsIff(t: Table, hash: Hash, h: nat)
    requires Inv(t) && Is64(hash) && t.depth < HashBits && h < Two64
    requires SegShape(t, SegOf(t, h))
    requires Windowed(t.segs[SegOf(t, h)].slots, hash)
    ensures (forall key: nat :: key != Invalid ==> LookupKept(t, Split(t, hash, h), hash, key)) <==> SplitSafe(t, hash, h)
  {
    var g, t' := SegOf(t, h), Split(t, hash, h);
    var s, bit, care := t.segs[g].slots, NextBit(t.segs[g].localDepth), Served(t, g);
    hide Split, Moved, Inv, Shr, NextBit, Served, LookupKept, SameAnswers, Safe, Windowed, SegOf;
    SplitExact(s, hash, bit, care);
    forall key: nat | key != Invalid
      ensures LookupKept(t, t', hash, key) <==> (Concerned(hash, bit, care, key) ==> SameAnswers(s, Moved(s, hash, bit), hash, key))
    {
      KeptIff(t, hash, h, key);
    }
  }

  /** In particular where no pair of the split segment has wrapped, repeated fingerprints included. */
  lemma SplitPreservesGet(t: Table, hash: Hash, h: nat, key: nat)
    requires Inv(t) && Is64(hash) && t.depth < HashBits && h < Two64 && key != Invalid
    requires SegShape(t, SegOf(t, h))
    requires Windowed(t.segs[SegOf(t, h)].slots, hash) && Unwrapped(t.segs[SegOf(t, h)].slots, hash)
    ensures LookupKept(t, Split(t, hash, h), hash, key)
  {
    var g := SegOf(t, h);
    KeptIff(t, hash, h, key);
    SplitKeepsGet(t.segs[g].slots, hash, NextBit(t.segs[g].localDepth), Served(t, g));
    hide Split, Moved, Inv, Shr, NextBit, Served, LookupKept, SameAnswers, Safe, Windowed, Unwrapped, SegOf;
  }

  /** Splitting keeps every pair in its window, whatever it drops. */
  lemma SplitWindows(t: Table, hash: Hash, h: nat)
    requires Inv(t) && AllWindowed(t, hash) && t.depth < HashBits && h < Two64
    ensures AllWindowed(Split(t, hash, h), hash)
  {
    SplitParts(t, hash, h);
    var t', g := Split(t, hash, h), t.dir[Top(h, t.depth)];
    hide Split, Moved, NextBit, Windowed, Inv, Shr;
    MovedTidy(t.segs[g].slots, hash, NextBit(t.segs[g].localDepth));
  }
}

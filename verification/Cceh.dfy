/** The CCEH object: its loops, proved against the segment and directory model. */
module Cceh {
  import opened Powers
  import opened Options
  import opened CcehSegment
  import D = CcehDirectory

  // ---------------------------------------------------------------- chunks

  lemma {:induction false} FarApart(q: nat, s: nat, b: nat)
    requires q < s
    ensures q * b + b <= s * b
    decreases s
  {
    assert s * b == (s - 1) * b + b;
    if q + 1 < s {
      FarApart(q, s - 1, b);
    }
  }

  lemma Regroup(p: nat, b: nat)
    ensures p * (2 * b) == 2 * (p * b) && (2 * p) * b == 2 * (p * b) && (2 * p + 1) * b == 2 * (p * b) + b
  {
  }

  lemma {:induction false} ShrBounds(y: nat, n: nat)
    ensures D.Shr(y, n) * Pow2(n) <= y < D.Shr(y, n) * Pow2(n) + Pow2(n)
    decreases n
  {
    if n == 0 {
      assert D.Shr(y, 0) == y && Pow2(0) == 1;
    } else {
      ShrBounds(y / 2, n - 1);
      var q, b := D.Shr(y / 2, n - 1), Pow2(n - 1);
      assert D.Shr(y, n) == q && Pow2(n) == 2 * b;
      hide D.Shr, Pow2;
      Regroup(q, b);
    }
  }

  lemma ShrIs(y: nat, n: nat, q: nat)
    ensures D.Shr(y, n) == q <==> q * Pow2(n) <= y < q * Pow2(n) + Pow2(n)
  {
    ShrBounds(y, n);
    var s, b := D.Shr(y, n), Pow2(n);
    hide D.Shr, Pow2;
    if q < s {
      FarApart(q, s, b);
    } else if s < q {
      FarApart(s, q, b);
    }
  }

  lemma DivParts(x: nat, c: nat)
    requires c > 0
    ensures x - x % c == (x / c) * c && 0 <= x % c < c
  {
  }

  lemma StartOf(x: nat, c: nat, s: nat)
    requires c > 0 && s * c <= x < s * c + c
    ensures x - x % c == s * c
  {
    DivParts(x, c);
    var q: nat := x / c;
    if q < s {
      FarApart(q, s, c);
    } else if s < q {
      FarApart(s, q, c);
    }
  }

  /** Where the source takes the chunk of `x` to start. */
  function ChunkBase(x: nat, c: nat): (first: int)
    requires c > 0
  {
    x - x % c
  }

  /** Where it does start. */
  ghost function Start(x: nat, k: nat): (first: nat) { D.Shr(x, k) * Pow2(k) }

  lemma ChunkStart(x: nat, k: nat)
    ensures ChunkBase(x, Pow2(k)) == Start(x, k)
  {
    ShrBounds(x, k);
    StartOf(x, Pow2(k), D.Shr(x, k));
  }

  lemma SecondHalfIs(x: nat, k: nat, y: nat)
    requires k > 0
    ensures D.SecondHalf(x, k, y) <==> Start(x, k) + Pow2(k - 1) <= y < Start(x, k) + Pow2(k)
  {
    var b, p := Pow2(k - 1), D.Shr(x, k);
    assert Pow2(k) == 2 * b;
    ShrIs(y, k - 1, 2 * p + 1);
    hide D.Shr, Pow2;
    Regroup(p, b);
  }

  lemma ChunkFits(x: nat, k: nat, depth: nat)
    requires 1 <= k <= depth && x < Pow2(depth)
    ensures Start(x, k) + Pow2(k) <= Pow2(depth)
  {
    PowAdd(depth - k, k);
    D.ShrBound(x, k, depth - k);
    var p, n, c := D.Shr(x, k), Pow2(depth - k), Pow2(k);
    hide D.Shr, Pow2;
    FarApart(p, n, c);
  }

  // ---------------------------------------------------------------- segments

  /** `Insert4split`. */
  method Insert4Split(a: array<Pair>, p: Pair, loc: nat)
    requires a.Length == NumSlot && loc < NumSlot
    modifies a
    ensures a[..] == PutFrom(old(a[..]), p, loc, 0)
  {
    var i := 0;
    while i < Window
      invariant i <= Window && a[..] == old(a[..])
      invariant PutFrom(a[..], p, loc, i) == PutFrom(old(a[..]), p, loc, 0)
    {
      var slot := At(loc, i);
      if a[slot].key == Invalid {
        a[slot] := p;
        return;
      }
      i := i + 1;
    }
  }

  /** The copying loop of `Split`. */
  method CopyHalf(s: seq<Pair>, hash: Hash, bit: nat -> bool) returns (r: seq<Pair>)
    requires |s| == NumSlot
    ensures r == Moved(s, hash, bit)
  {
    var a := new Pair[NumSlot](_ => Pair(Invalid, Invalid));
    assert a[..] == EmptySlots();
    var i := 0;
    while i < NumSlot
      invariant i <= NumSlot
      invariant CopyFrom(s, a[..], hash, bit, i) == CopyFrom(s, EmptySlots(), hash, bit, 0)
    {
      var h := hash(s[i].key);
      CopyUnfolds(s, a[..], hash, bit, i);
      hide CopyFrom, PutFrom;
      if bit(h) {
        Insert4Split(a, s[i], Home(h));
      }
      i := i + 1;
    }
    CopyUnfolds(s, a[..], hash, bit, i);
    r := a[..];
  }

  /** `Get` within a segment. */
  method GetInSegment(s: seq<Pair>, key: nat, ok: nat -> bool, loc: nat) returns (r: Option<nat>)
    requires |s| == NumSlot && loc < NumSlot
    ensures r == GetFrom(s, key, ok, loc, 0)
  {
    var i := 0;
    while i < Window
      invariant i <= Window
      invariant GetFrom(s, key, ok, loc, i) == GetFrom(s, key, ok, loc, 0)
    {
      var slot := At(loc, i);
      if s[slot].key == key && ok(s[slot].value) {
        return Some(s[slot].value);
      }
      i := i + 1;
    }
    r := None;
  }

  // ---------------------------------------------------------------- directory

  /** The directory update without doubling. */
  method RewriteChunk(dir: array<nat>, x: nat, depth: nat, newLocalDepth: nat, s1: nat)
    requires 1 <= newLocalDepth <= depth && dir.Length == Pow2(depth) && x < dir.Length
    modifies dir
    ensures dir[..] == D.Rewritten(old(dir[..]), x, depth - newLocalDepth + 1, s1)
  {
    hide Pow2, D.Shr, D.SecondHalf, ChunkBase;
    ghost var k := depth - newLocalDepth + 1;
    if depth - newLocalDepth == 0 {
      ChunkHalves(x, k, depth, 2);
      RewriteOne(dir, x, s1);
    } else {
      var chunk := Pow2(depth - (newLocalDepth - 1));
      ChunkHalves(x, k, depth, chunk);
      var mid := ChunkBase(x, chunk) + chunk / 2;
      RewriteHalf(dir, mid, chunk / 2, s1);
    }
    D.RewrittenIs(old(dir[..]), x, k, s1);
    assert dir[..] == D.Rewritten(old(dir[..]), x, k, s1);
  }

  /** The chunk of `x` lies within the directory, and its second half is where the source computes it. */
  lemma ChunkHalves(x: nat, k: nat, depth: nat, c: nat)
    requires 1 <= k <= depth && x < Pow2(depth) && (c == Pow2(k) || (k == 1 && c == 2))
    ensures c > 0 && c == 2 * (c / 2) && 0 <= ChunkBase(x, c) <= ChunkBase(x, c) + c <= Pow2(depth)
    ensures forall y: nat :: D.SecondHalf(x, k, y) <==> ChunkBase(x, c) + c / 2 <= y < ChunkBase(x, c) + c
  {
    hide ChunkBase, Start, Pow2, D.Shr, D.SecondHalf;
    PowHalf(k);
    assert c / 2 == Pow2(k - 1);
    ChunkStart(x, k);
    ChunkFits(x, k, depth);
    forall y: nat ensures D.SecondHalf(x, k, y) <==> Start(x, k) + c / 2 <= y < Start(x, k) + c {
      SecondHalfIs(x, k, y);
    }
  }

  lemma PowHalf(k: nat)
    requires k > 0
    ensures Pow2(k) == 2 * Pow2(k - 1) && (k == 1 ==> Pow2(k) == 2)
  {
  }

  /** A chunk of two entries. */
  method RewriteOne(dir: array<nat>, x: nat, s1: nat)
    requires x < dir.Length && ChunkBase(x, 2) + 2 <= dir.Length
    modifies dir
    ensures forall y :: 0 <= y < dir.Length ==> dir[y] == if y == ChunkBase(x, 2) + 1 then s1 else old(dir[y])
  {
    if x % 2 == 0 {
      dir[x + 1] := s1;
    } else {
      dir[x] := s1;
    }
  }

  /** The loop over the second half of a chunk. */
  method RewriteHalf(dir: array<nat>, mid: nat, half: nat, s1: nat)
    requires mid + half <= dir.Length
    modifies dir
    ensures forall y :: 0 <= y < dir.Length ==> dir[y] == if mid <= y < mid + half then s1 else old(dir[y])
  {
    var i := 0;
    while i < half
      invariant i <= half
      invariant forall y :: 0 <= y < dir.Length ==> dir[y] == if mid <= y < mid + i then s1 else old(dir[y])
    {
      dir[mid + i] := s1;
      i := i + 1;
    }
  }

  /** Directory doubling. */
  method DoubleDirectory(dir: array<nat>, x: nat, s0: nat, s1: nat) returns (r: array<nat>)
    requires x < dir.Length && dir[x] == s0
    ensures fresh(r) && r[..] == D.Doubled(dir[..], x, s1)
  {
    r := new nat[2 * dir.Length];
    var i := 0;
    while i < dir.Length
      invariant i <= dir.Length
      invariant forall z :: 0 <= z < 2 * i ==> r[z] == if z == 2 * x + 1 then s1 else dir[z / 2]
    {
      if i == x {
        r[2 * i] := s0;
        r[2 * i + 1] := s1;
      } else {
        r[2 * i] := dir[i];
        r[2 * i + 1] := dir[i];
      }
      i := i + 1;
    }
    D.DoubledIs(dir[..], x, s1);
    assert r[..] == D.Doubled(dir[..], x, s1);
  }

  // ---------------------------------------------------------------- the index

  class Cceh {
    const hash: Hash
    var segs: seq<D.Seg>
    var dir: array<nat>
    var depth: nat

    ghost function View(): (t: D.Table)
      reads this, dir
    {
      D.Table(segs, dir[..], depth)
    }

    ghost predicate Valid()
      reads this, dir
    {
      D.Inv(View()) && D.Is64(hash)
    }

    constructor (logCap: nat, keyHash: Hash)
      requires 1 <= logCap <= D.HashBits && D.Is64(keyHash)
      ensures Valid() && hash == keyHash && depth == logCap && fresh(dir)
      ensures D.AllWindowed(View(), hash)
    {
      hash, depth := keyHash, logCap;
      var n := Pow2(logCap);
      dir := new nat[n](i => i);
      segs := seq(n, i requires 0 <= i < n => D.Seg(EmptySlots(), logCap, i));
      new;
      assert View() == Fresh(logCap);
      FreshInv(logCap, hash);
    }

    /** The answer to a lookup. */
    method Get(key: nat, ok: nat -> bool) returns (r: Option<nat>)
      requires Valid()
      ensures D.SegOf(View(), hash(key)) < |segs| && |segs[D.SegOf(View(), hash(key))].slots| == NumSlot
      ensures r == D.Get(View(), hash, key, ok)
    {
      var h := hash(key);
      D.Target(View(), h);
      var segNum := D.Top(h, depth);
      r := GetInSegment(segs[dir[segNum]].slots, key, ok, Home(h));
    }

    /** The split that an insert of hash `h` makes when its window is full, directory update included. */
    method Split(h: nat)
      requires Valid() && depth < D.HashBits && h < Two64
      modifies this, dir
      ensures Valid() && View() == D.Split(old(View()), hash, h)
      ensures dir == old(dir) || fresh(dir)
    {
      ghost var t := View();
      D.SplitInv(t, hash, h);
      EntryOf(t, h);
      hide D.Inv, D.Split, D.Halves, D.Rewritten, D.Doubled, D.Top, D.Is64, Moved, EmptySlots, Pow2;
      SplitEntry(D.Top(h, depth), h);
      SplitIs(t, hash, h, segs, dir[..], depth);
    }

    /** Splits the segment of directory entry `x`. */
    method SplitEntry(x: nat, h: nat)
      requires dir.Length == Pow2(depth) && x < dir.Length && dir[x] < |segs| && depth < D.HashBits
      requires |segs[dir[x]].slots| == NumSlot && 1 <= segs[dir[x]].localDepth <= depth
      modifies this, dir
      ensures dir == old(dir) || fresh(dir)
      ensures var g := old(dir[x]);
              segs == old(segs)[g := D.Halves(old(segs)[g], hash, h).0] + [D.Halves(old(segs)[g], hash, h).1]
      ensures var ld := old(segs[dir[x]].localDepth);
              && (ld < old(depth) ==>
                    depth == old(depth) && dir[..] == D.Rewritten(old(dir[..]), x, depth - ld, old(|segs|)))
              && (ld == old(depth) ==> dir[..] == D.Doubled(old(dir[..]), x, old(|segs|)) && depth == old(depth) + 1)
    {
      hide D.Halves, D.Rewritten, D.Doubled, Moved, Pow2;
      var ld, s1 := segs[dir[x]].localDepth, |segs|;
      ReplaceSegment(dir[x], h);
      UpdateDirectory(x, ld + 1, s1);
    }

    /** The split segment is replaced by its lower half, and the upper half is added. */
    method ReplaceSegment(g: nat, h: nat)
      requires g < |segs| && |segs[g].slots| == NumSlot && segs[g].localDepth < D.HashBits
      modifies this`segs
      ensures segs == old(segs)[g := D.Halves(old(segs)[g], hash, h).0] + [D.Halves(old(segs)[g], hash, h).1]
    {
      hide D.Halves;
      var low, high := SplitSegment(segs[g], hash, h);
      segs := segs[g := low] + [high];
    }

    /** The directory's critical section: a chunk is rewritten, or the directory doubles. */
    method UpdateDirectory(x: nat, newLocalDepth: nat, s1: nat)
      requires 1 <= newLocalDepth <= depth + 1 && dir.Length == Pow2(depth) && x < dir.Length
      modifies this`dir, this`depth, dir
      ensures dir == old(dir) || fresh(dir)
      ensures newLocalDepth - 1 < old(depth) ==>
                depth == old(depth) && dir[..] == D.Rewritten(old(dir[..]), x, depth - newLocalDepth + 1, s1)
      ensures newLocalDepth - 1 == old(depth) ==> dir[..] == D.Doubled(old(dir[..]), x, s1) && depth == old(depth) + 1
    {
      if newLocalDepth - 1 < depth {
        RewriteChunk(dir, x, depth, newLocalDepth, s1);
      } else {
        dir := DoubleDirectory(dir, x, dir[x], s1);
        depth := depth + 1;
      }
    }
  }

  /** The entry a hash leads to, and its segment. */
  lemma EntryOf(t: D.Table, h: nat)
    requires D.Inv(t) && h < Two64
    ensures var x := D.Top(h, t.depth);
            && x < |t.dir| == Pow2(t.depth) && t.dir[x] < |t.segs|
            && |t.segs[t.dir[x]].slots| == NumSlot && 1 <= t.segs[t.dir[x]].localDepth <= t.depth
  {
    D.Target(t, h);
  }

  /** A split, from its parts. */
  lemma SplitIs(t: D.Table, hash: Hash, h: nat, segs: seq<D.Seg>, dir: seq<nat>, depth: nat)
    requires D.Inv(t) && t.depth < D.HashBits && h < Two64
    requires var x := D.Top(h, t.depth);
             && x < |t.dir| && t.dir[x] < |t.segs|
             && var g := t.dir[x];
                var ld := t.segs[g].localDepth;
                && |t.segs[g].slots| == NumSlot && ld <= t.depth
                && segs == t.segs[g := D.Halves(t.segs[g], hash, h).0] + [D.Halves(t.segs[g], hash, h).1]
                && (ld < t.depth ==> dir == D.Rewritten(t.dir, x, t.depth - ld, |t.segs|) && depth == t.depth)
                && (ld == t.depth ==> dir == D.Doubled(t.dir, x, |t.segs|) && depth == t.depth + 1)
    ensures D.Table(segs, dir, depth) == D.Split(t, hash, h)
  {
    D.Target(t, h);
    hide Moved, EmptySlots, D.Halves, D.NextBit, D.Shr, D.Rewritten, D.Doubled, Pow2, D.Inv;
  }

  /** `Segment::Split`, and the patterns the caller gives the halves. */
  method SplitSegment(seg: D.Seg, hash: Hash, h: nat) returns (s0: D.Seg, s1: D.Seg)
    requires |seg.slots| == NumSlot && seg.localDepth < D.HashBits
    ensures (s0, s1) == D.Halves(seg, hash, h)
  {
    hide Moved, D.NextBit, D.Shr;
    var ld := seg.localDepth;
    var moved := CopyHalf(seg.slots, hash, D.NextBit(ld));
    s0 := D.Seg(seg.slots, ld + 1, 2 * D.Top(h, ld));
    s1 := D.Seg(moved, ld + 1, 2 * D.Top(h, ld) + 1);
  }

  /** The index as constructed: one empty segment for each directory entry. */
  ghost function Fresh(d: nat): (t: D.Table) {
    var n := Pow2(d);
    D.Table(seq(n, i requires 0 <= i < n => D.Seg(EmptySlots(), d, i)), seq(n, i requires 0 <= i < n => i), d)
  }

  lemma FreshInv(d: nat, hash: Hash)
    requires 1 <= d <= D.HashBits
    ensures D.Inv(Fresh(d)) && D.AllWindowed(Fresh(d), hash)
  {
    var t := Fresh(d);
    assert Windowed(EmptySlots(), hash);
    hide EmptySlots;
    assert forall x :: 0 <= x < |t.dir| ==> t.dir[x] == x && t.segs[x] == D.Seg(EmptySlots(), d, x);
  }
}

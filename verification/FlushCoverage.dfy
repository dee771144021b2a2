/** Which cache lines the persist loops write back, and which stores of the cold tier and the checkpoint that
    covers. */
module FlushCoverage {

  const Line: nat := 64

  function LineOf(x: nat): (l: nat) { x / 64 }

  /** Steps of the loop: the length in lines, rounded up. */
  function Steps(len: nat): (n: nat) { (len + 63) / 64 }

  /** The persist loops, called on `[addr, addr + len)`, write line `l` back. */
  predicate Reached(addr: nat, len: nat, l: nat) { LineOf(addr) <= l < LineOf(addr) + Steps(len) }

  /** A persist of `[addr, addr + len)` reaches the line of every byte in `[from, from + n)`. */
  ghost predicate Covers(addr: nat, len: nat, from: nat, n: nat) {
    forall x: nat :: from <= x < from + n ==> Reached(addr, len, LineOf(x))
  }

  /** The clwb loop of `pmem_persist` and `pmem_flush_range`, which starts at `addr` itself and not at the start
      of its line. */
  method FlushRange(addr: nat, len: nat) returns (lines: set<nat>)
    ensures forall l: nat :: l in lines <==> Reached(addr, len, l)
  {
    lines := {};
    var p := addr;
    ghost var n := 0;
    while p < addr + len
      invariant p == addr + 64 * n && n <= Steps(len)
      invariant forall l: nat :: l in lines <==> LineOf(addr) <= l < LineOf(addr) + n
    {
      assert LineOf(p) == LineOf(addr) + n;
      lines := lines + {LineOf(p)};
      p := p + Line;
      n := n + 1;
    }
  }

  /** The loop covers its range iff the range, moved to the start of a line, needs no more lines than its length
      does. */
  lemma CoversIff(addr: nat, len: nat)
    ensures Covers(addr, len, addr, len) <==> len == 0 || addr % 64 + len <= 64 * Steps(len)
  {
    if len > 0 && addr % 64 + len > 64 * Steps(len) {
      assert !Reached(addr, len, LineOf(addr + len - 1));
    }
  }

  // ---------------------------------------------------------------- checkpoint file

  /** Both record slots and the valid pointer of a page-aligned checkpoint file are covered. */
  lemma CheckpointCovered(page: nat)
    ensures var base := 4096 * page;
            Covers(base + 64, 64, base + 64, 64) && Covers(base + 192, 64, base + 192, 64) && Covers(base, 8, base, 8)
  {
    CoversIff(4096 * page + 64, 64);
    CoversIff(4096 * page + 192, 64);
    CoversIff(4096 * page, 8);
  }

  // ---------------------------------------------------------------- cold tier

  /** Address of bucket `b` of region `r`, with `n` buckets in each region and the file mapped at a page. */
  function BucketAddr(page: nat, r: nat, n: nat, b: nat): (a: nat) {
    4096 * page + 4096 + r * (16 + n * 128) + 16 + b * 128
  }

  function EntryAddr(page: nat, r: nat, n: nat, b: nat, i: nat): (a: nat) { BucketAddr(page, r, n, b) + 8 + 16 * i }

  /** The bucket type asks for 128-byte alignment; the 16-byte region header shifts every region by another 16. */
  lemma BucketShift(page: nat, r: nat, n: nat, b: nat)
    ensures exists k :: BucketAddr(page, r, n, b) == 64 * k + 16 * (r + 1)
  {
    assert r * (16 + n * 128) == 16 * r + 128 * (r * n);
    assert BucketAddr(page, r, n, b) == 64 * (64 * page + 64 + 2 * (r * n) + 2 * b) + 16 * (r + 1);
  }

  /** An aligned word never straddles two lines. */
  lemma WordCovered(q: nat, addr: nat)
    requires addr == 8 * q
    ensures Covers(addr, 8, addr, 8)
  {
    assert addr % 64 == 8 * (q % 8);
    CoversIff(addr, 8);
  }

  /** Bucket headers are always covered, and so are single key and offset words. */
  lemma HeaderCovered(page: nat, r: nat, n: nat, b: nat, i: nat)
    ensures var h, e := BucketAddr(page, r, n, b), EntryAddr(page, r, n, b, i);
            Covers(h, 8, h, 8) && Covers(e, 8, e, 8) && Covers(e + 8, 8, e + 8, 8)
  {
    BucketShift(page, r, n, b);
    var k :| BucketAddr(page, r, n, b) == 64 * k + 16 * (r + 1);
    assert EntryAddr(page, r, n, b, i) == 64 * k + 16 * (r + 1) + 8 + 16 * i;
    hide BucketAddr, EntryAddr;
    hide Covers;
    WordCovered(8 * k + 2 * (r + 1), BucketAddr(page, r, n, b));
    WordCovered(8 * k + 2 * (r + 1) + 1 + 2 * i, EntryAddr(page, r, n, b, i));
    WordCovered(8 * k + 2 * (r + 1) + 2 + 2 * i, EntryAddr(page, r, n, b, i) + 8);
  }

  /** The flush of a whole entry covers it iff region and slot number do not add up to 2 modulo 4; otherwise the
      line of its offset word is missed. */
  lemma EntryCoveredIff(page: nat, r: nat, n: nat, b: nat, i: nat)
    ensures var e := EntryAddr(page, r, n, b, i);
            && (Covers(e, 16, e, 16) <==> (r + i) % 4 != 2)
            && Covers(e, 16, e, 8)
            && ((r + i) % 4 == 2 ==> forall x: nat :: e + 8 <= x < e + 16 ==> !Reached(e, 16, LineOf(x)))
  {
    BucketShift(page, r, n, b);
    var k :| BucketAddr(page, r, n, b) == 64 * k + 16 * (r + 1);
    var e := EntryAddr(page, r, n, b, i);
    assert e == 64 * k + 16 * (r + 1) + 8 + 16 * i;
    hide BucketAddr, EntryAddr, Covers, Reached, LineOf;
    EntryShift(k, r + i, e);
    EntryLines(e, (r + i + 1) % 4);
    NextQuarter(r + i);
  }

  lemma NextQuarter(m: nat)
    ensures (m + 1) % 4 == 3 <==> m % 4 == 2
  {
  }

  /** An entry that starts in quarter `t` of a line, after the first word. */
  lemma EntryLines(e: nat, t: nat)
    requires t < 4 && e % 64 == 8 + 16 * t
    ensures Covers(e, 16, e, 16) <==> t != 3
    ensures Covers(e, 16, e, 8)
    ensures t == 3 ==> forall x: nat :: e + 8 <= x < e + 16 ==> !Reached(e, 16, LineOf(x))
  {
    CoversIff(e, 16);
  }

  lemma EntryShift(k: nat, m: nat, e: nat)
    requires e == 64 * k + 16 * (m + 1) + 8
    ensures e % 64 == 8 + 16 * ((m + 1) % 4)
  {
    var q, t := (m + 1) / 4, (m + 1) % 4;
    assert e == 64 * (k + q) + 16 * t + 8;
  }
}

/** A split that loses a key: where a window has wrapped, `Insert4split` can find its window full and drop
    a pair. */
module CcehDrop {
  import opened Powers
  import opened Options
  import opened CcehSegment
  import D = CcehDirectory
  import C = Cceh

  const LastHome: nat := 1020

  /** The home of the pair in slot `i`: the window at the end of the segment runs over its end, into slots that
      the window at the start then has to avoid. */
  function CrowdHome(i: nat): (h: nat) { if 12 <= i < 16 then 0 else LastHome }

  /** Slots 1020..1023 and 0..11 are the full window of home 1020, slots 12..15 belong to home 0, all pairs move
      in the split, the rest is empty, and the pair in slot 1020 has a key of its own. */
  ghost predicate Crowded(s: seq<Pair>, hash: Hash, bit: nat -> bool) {
    && |s| == NumSlot
    && (forall i :: 16 <= i < LastHome ==> s[i].key == Invalid)
    && (forall i :: 0 <= i < NumSlot && (i < 16 || i >= LastHome) ==>
          s[i].key != Invalid && bit(hash(s[i].key)) && Home(hash(s[i].key)) == CrowdHome(i))
    && (forall i :: 0 <= i < NumSlot && i != LastHome ==> s[i].key != s[LastHome].key)
  }

  /** Slot `m` of the new segment is taken once the first `i` pairs have been copied. */
  predicate Taken(i: nat, m: nat) { if m >= LastHome then m - LastHome < i else m + 4 < i }

  ghost predicate Stage(s: seq<Pair>, new_: seq<Pair>, i: nat)
    requires |s| == NumSlot
  {
    && |new_| == NumSlot
    && (forall m :: 0 <= m < NumSlot ==> (new_[m].key != Invalid <==> Taken(if i < 16 then i else 16, m)))
    && (forall m :: 0 <= m < NumSlot ==> new_[m].key != s[LastHome].key)
  }

  lemma {:induction false} RoomAt(s: seq<Pair>, loc: nat, i: nat, n: nat)
    requires |s| == NumSlot && loc < NumSlot && i <= n < Window && s[At(loc, n)].key == Invalid
    requires forall m :: i <= m < n ==> s[At(loc, m)].key != Invalid
    ensures FirstRoom(s, loc, i) == n
    decreases n - i
  {
    if i < n {
      RoomAt(s, loc, i + 1, n);
    }
  }

  /** The copy of pair `i` finds its first free slot behind those of the pairs before it. */
  lemma StageRoom(s: seq<Pair>, new_: seq<Pair>, i: nat)
    requires |s| == NumSlot && i < 16 && Stage(s, new_, i)
    ensures FirstRoom(new_, CrowdHome(i), 0) < Window
    ensures At(CrowdHome(i), FirstRoom(new_, CrowdHome(i), 0)) == At(LastHome, i)
  {
    hide FirstRoom;
    var loc := CrowdHome(i);
    var n := if i < 12 then i else i - 4;
    assert At(loc, n) == At(LastHome, i);
    forall m | 0 <= m < n ensures new_[At(loc, m)].key != Invalid {
      assert Taken(i, At(loc, m));
    }
    assert !Taken(i, At(loc, n));
    RoomAt(new_, loc, 0, n);
  }

  lemma StageEarly(s: seq<Pair>, hash: Hash, bit: nat -> bool, new_: seq<Pair>, i: nat)
    requires Crowded(s, hash, bit) && i < 16 && Stage(s, new_, i)
    ensures Stage(s, CopyOne(s[i], new_, hash, bit), i + 1)
  {
    hide CopyOne, FirstRoom, HasRoom;
    CopyOneIs(s[i], new_, hash, bit);
    StageRoom(s, new_, i);
    RoomIff(new_, CrowdHome(i));
  }

  lemma StageLate(s: seq<Pair>, hash: Hash, bit: nat -> bool, new_: seq<Pair>, i: nat)
    requires Crowded(s, hash, bit) && 16 <= i < NumSlot && Stage(s, new_, i)
    ensures Stage(s, CopyOne(s[i], new_, hash, bit), i + 1)
  {
    CopyOneIs(s[i], new_, hash, bit);
    hide CopyOne, FirstRoom;
    if i >= LastHome {
      forall m | 0 <= m < Window ensures new_[At(LastHome, m)].key != Invalid {
        assert Taken(16, At(LastHome, m));
      }
    }
  }

  lemma {:induction false} Stages(s: seq<Pair>, hash: Hash, bit: nat -> bool, new_: seq<Pair>, i: nat)
    requires Crowded(s, hash, bit) && i <= NumSlot && Stage(s, new_, i)
    ensures Stage(s, CopyFrom(s, new_, hash, bit, i), NumSlot)
    decreases NumSlot - i
  {
    assert |s| == |new_| == NumSlot;
    hide CopyFrom, CopyOne, Stage, Crowded;
    CopyUnfolds(s, new_, hash, bit, i);
    if i < NumSlot {
      if i < 16 {
        StageEarly(s, hash, bit, new_, i);
      } else {
        StageLate(s, hash, bit, new_, i);
      }
      Stages(s, hash, bit, CopyOne(s[i], new_, hash, bit), i + 1);
    }
  }

  /** A crowded segment loses the pair in slot 1020 when it splits: it was found before and is not afterwards. */
  lemma SplitDrops(s: seq<Pair>, hash: Hash, bit: nat -> bool, ok: nat -> bool)
    requires Crowded(s, hash, bit) && ok(s[LastHome].value)
    ensures var key, r := s[LastHome].key, Moved(s, hash, bit);
            && GetFrom(s, key, ok, Home(hash(key)), 0) == Some(s[LastHome].value)
            && GetFrom(r, key, ok, Home(hash(key)), 0) == None
            && !Unwrapped(s, hash)
  {
    var key := s[LastHome].key;
    assert Stage(s, EmptySlots(), 0);
    Stages(s, hash, bit, EmptySlots(), 0);
    var r := Moved(s, hash, bit);
    hide CopyFrom;
    GetNone(r, key, ok, LastHome, 0);
    assert At(LastHome, 0) == LastHome;
    assert s[0].key != Invalid && Home(hash(s[0].key)) > 0;
  }

  // ---------------------------------------------------------------- such a segment

  /** Fingerprints with first bits 01 that differ in their middle bits. */
  function Key(i: nat): (k: nat) { 0x4000_0000_0000_0000 + 256 * (i + 1) + (if 12 <= i < 16 then 0 else 255) }

  function Example(): (s: seq<Pair>)
    ensures |s| == NumSlot
  {
    seq(NumSlot, i requires 0 <= i < NumSlot => if i < 16 || i >= LastHome then Pair(Key(i), i) else Pair(Invalid, Invalid))
  }

  lemma Pow62()
    ensures Pow2(62) == 0x4000_0000_0000_0000
  {
    assert Pow2(8) == 0x100;
    assert Pow2(16) == 0x1_0000;
    assert Pow2(24) == 0x100_0000;
    assert Pow2(31) == 0x8000_0000;
    PowAdd(31, 31);
  }

  lemma KeyBit(i: nat)
    requires i < NumSlot
    ensures D.NextBit(1)(Key(i)) && Home(Key(i)) == CrowdHome(i) && Key(i) != Invalid
  {
    hide D.Shr, Pow2;
    Pow62();
    C.ShrIs(Key(i), 62, 1);
    assert D.Top(Key(i), 2) == 1;
  }

  /** With fingerprints as stored keys, a segment of local depth 1 can be crowded. */
  lemma CrowdedExists()
    ensures Crowded(Example(), (k: nat) => k, D.NextBit(1))
  {
    forall i | 0 <= i < NumSlot
      ensures D.NextBit(1)(Key(i)) && Home(Key(i)) == CrowdHome(i) && Key(i) != Invalid
      ensures i != LastHome ==> Key(i) != Key(LastHome)
    {
      KeyBit(i);
    }
    hide D.NextBit;
  }

  // ---------------------------------------------------------------- how it comes about

  /** The order in which 20 insertions fill the example: the window at the end runs over into slots 0..11. */
  function SlotNo(n: nat): (slot: nat)
    requires n < 20
    ensures slot < NumSlot && (slot < 16 || slot >= LastHome)
  {
    if n < 4 then LastHome + n else n - 4
  }

  function NthPair(n: nat): (p: Pair)
    requires n < 20
  {
    Pair(Key(SlotNo(n)), SlotNo(n))
  }

  /** An empty segment after the first `n` insertions. */
  function Inserted(hash: Hash, mine: nat -> bool, ok: nat -> bool, n: nat): (s: seq<Pair>)
    requires n <= 20
    ensures |s| == NumSlot
    decreases n
  {
    if n == 0 then EmptySlots()
    else
      var p := NthPair(n - 1);
      InsertFrom(Inserted(hash, mine, ok, n - 1), hash, mine, ok, p, Home(hash(p.key)), Invalid, 0)
  }

  /** Slot `i` is filled by one of the first `n` insertions. */
  predicate FilledBy(n: nat, i: nat) { if i >= LastHome then i - LastHome < n else i < 16 && i + 4 < n }

  ghost predicate Filling(s: seq<Pair>, n: nat) {
    |s| == NumSlot && forall i :: 0 <= i < NumSlot ==> s[i] == if FilledBy(n, i) then Pair(Key(i), i) else Pair(Invalid, Invalid)
  }

  /** Where every pair belongs to the segment and has another key, inserting takes the first free slot. */
  lemma {:induction false} InsertIsPut(s: seq<Pair>, hash: Hash, mine: nat -> bool, ok: nat -> bool, p: Pair, loc: nat, i: nat)
    requires |s| == NumSlot && loc < NumSlot && i <= Window
    requires forall m :: 0 <= m < NumSlot && s[m].key != Invalid ==> mine(hash(s[m].key)) && s[m].key != p.key
    requires FirstRoom(s, loc, i) < Window
    ensures InsertFrom(s, hash, mine, ok, p, loc, Invalid, i) == s[At(loc, FirstRoom(s, loc, i)) := p]
    decreases Window - i
  {
    if s[At(loc, i)].key != Invalid {
      InsertIsPut(s, hash, mine, ok, p, loc, i + 1);
    }
  }

  /** Where the next insertion finds its first free slot. */
  lemma NextRoom(s: seq<Pair>, n: nat)
    requires n < 20 && Filling(s, n)
    ensures var loc := Home(Key(SlotNo(n)));
            FirstRoom(s, loc, 0) < Window && At(loc, FirstRoom(s, loc, 0)) == SlotNo(n)
  {
    hide FirstRoom, D.NextBit;
    var j := if n < 16 then n else n - 4;
    KeyBit(SlotNo(n));
    var loc := if n < 16 then LastHome else 0;
    forall m | 0 <= m < j ensures s[At(loc, m)].key != Invalid {
      KeyBit(At(loc, m));
    }
    RoomAt(s, loc, 0, j);
  }

  lemma FillNext(s: seq<Pair>, mine: nat -> bool, ok: nat -> bool, n: nat)
    requires n < 20 && Filling(s, n) && forall i: nat :: i < NumSlot ==> mine(Key(i))
    ensures Filling(InsertFrom(s, (k: nat) => k, mine, ok, NthPair(n), Home(Key(SlotNo(n))), Invalid, 0), n + 1)
  {
    hide FirstRoom, InsertFrom, Home;
    NextRoom(s, n);
    InsertIsPut(s, (k: nat) => k, mine, ok, NthPair(n), Home(Key(SlotNo(n))), 0);
  }

  /** The example is what inserting its 20 keys into an empty segment leaves. */
  lemma {:induction false} ExampleArises(mine: nat -> bool, ok: nat -> bool, n: nat)
    requires n <= 20 && forall i: nat :: i < NumSlot ==> mine(Key(i))
    ensures Filling(Inserted((k: nat) => k, mine, ok, n), n)
    ensures n == 20 ==> Inserted((k: nat) => k, mine, ok, n) == Example()
    decreases n
  {
    hide InsertFrom;
    if n > 0 {
      ExampleArises(mine, ok, n - 1);
      FillNext(Inserted((k: nat) => k, mine, ok, n - 1), mine, ok, n - 1);
    }
  }

  /** The pattern check of a segment of local depth 1 with pattern 0. */
  function LowHalf(): (mine: nat -> bool) { (e: nat) => D.Top(e, 1) == 0 }

  /** Twenty insertions into an empty segment, and its split then loses the first key inserted. */
  lemma InsertedThenLost(ok: nat -> bool)
    requires ok(LastHome)
    ensures var id := (k: nat) => k;
            var s := Inserted(id, LowHalf(), ok, 20);
            && GetFrom(s, Key(LastHome), ok, Home(Key(LastHome)), 0) == Some(LastHome)
            && GetFrom(Moved(s, id, D.NextBit(1)), Key(LastHome), ok, Home(Key(LastHome)), 0) == None
  {
    var id := (k: nat) => k;
    forall i: nat | i < NumSlot ensures LowHalf()(Key(i)) {
      hide D.Shr, Pow2;
      Pow62();
      C.ShrIs(Key(i), 62, 1);
      D.ShrHalf(Key(i), 62);
    }
    hide Inserted, GetFrom, Moved, D.NextBit, LowHalf, Home;
    ExampleArises(LowHalf(), ok, 20);
    CrowdedExists();
    SplitDrops(Example(), id, D.NextBit(1), ok);
  }
}

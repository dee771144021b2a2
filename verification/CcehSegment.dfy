/** One CCEH segment: linear probing in a window of 16 slots, and its split. */
module CcehSegment {
  import opened Options

  datatype Pair = Pair(key: nat, value: nat)

  const NumSlot: nat := 1024
  const Window: nat := 16

  /** The key of an empty slot. */
  const Invalid: nat := 0xFFFF_FFFF_FFFF_FFFF

  /** Hash of a stored key: the key itself where fingerprints are stored. */
  type Hash = nat -> nat

  /** `(hash & 255) * 4`. */
  function Home(h: nat): (loc: nat)
    ensures loc <= NumSlot - 4
  {
    (h % 256) * 4
  }

  /** `(loc + i) % 1024`. */
  function At(loc: nat, i: nat): (slot: nat)
    requires loc < NumSlot && i < Window
    ensures slot < NumSlot && slot == (loc + i) % NumSlot
  {
    if loc + i < NumSlot then loc + i else loc + i - NumSlot
  }

  // ---------------------------------------------------------------- operations

  /** `Insert4split` from probe `i` on. */
  function PutFrom(s: seq<Pair>, p: Pair, loc: nat, i: nat): (s': seq<Pair>)
    requires |s| == NumSlot && loc < NumSlot && i <= Window
    ensures |s'| == NumSlot
    decreases Window - i
  {
    if i == Window then s
    else if s[At(loc, i)].key == Invalid then s[At(loc, i) := p]
    else PutFrom(s, p, loc, i + 1)
  }

  /** The loop of `Split` from slot `i` on: pairs whose next hash bit is set are copied. */
  function CopyFrom(s: seq<Pair>, new_: seq<Pair>, hash: Hash, bit: nat -> bool, i: nat): (r: seq<Pair>)
    requires |s| == |new_| == NumSlot && i <= NumSlot
    ensures |r| == NumSlot
    decreases NumSlot - i
  {
    if i == NumSlot then new_
    else CopyFrom(s, CopyOne(s[i], new_, hash, bit), hash, bit, i + 1)
  }

  function CopyOne(p: Pair, new_: seq<Pair>, hash: Hash, bit: nat -> bool): (r: seq<Pair>)
    requires |new_| == NumSlot
    ensures |r| == NumSlot
  {
    if bit(hash(p.key)) then PutFrom(new_, p, Home(hash(p.key)), 0) else new_
  }

  /** `Get` within a segment, from probe `i` on; `ok` is the caller's check of the stored value. */
  function GetFrom(s: seq<Pair>, key: nat, ok: nat -> bool, loc: nat, i: nat): (r: Option<nat>)
    requires |s| == NumSlot && loc < NumSlot && i <= Window
    decreases Window - i
  {
    if i == Window then None
    else if s[At(loc, i)].key == key && ok(s[At(loc, i)].value) then Some(s[At(loc, i)].value)
    else GetFrom(s, key, ok, loc, i + 1)
  }

  /** The value of an emptied slot. */
  const Tombstone: nat := 0xFFFF_FFFF_FFFF_FFFF

  /** `Segment::Insert` from probe `i` on, for a value that is no tombstone. A pair whose hash does not fit the
      segment's pattern (`mine`) is emptied on the way; `ok` is the caller's check of a stored value. `lock` is the
      key a slot must have to be claimed: empty, except right after a slot with this key that failed the check,
      where the source leaves the key of that slot in the variable. */
  function InsertFrom(s: seq<Pair>, hash: Hash, mine: nat -> bool, ok: nat -> bool, p: Pair, loc: nat, lock: nat, i: nat)
    : (s': seq<Pair>)
    requires |s| == NumSlot && loc < NumSlot && i <= Window
    ensures |s'| == NumSlot
    decreases Window - i
  {
    if i == Window then s
    else
      var slot := At(loc, i);
      var stale := s[slot].key != Invalid && !mine(hash(s[slot].key));
      var s1 := if stale then s[slot := Pair(Invalid, Tombstone)] else s;
      var k := s1[slot].key;
      if k == lock || (k == p.key && ok(s1[slot].value)) then s1[slot := p]
      else InsertFrom(s1, hash, mine, ok, p, loc, if k == p.key then k else Invalid, i + 1)
  }

  // ---------------------------------------------------------------- what a segment stores

  /** Position of `slot` in the window that starts at `loc`; 16 or more if it is not in it. */
  function Pos(loc: nat, slot: nat): (n: nat)
    requires loc < NumSlot && slot < NumSlot
    ensures n < NumSlot && (n < Window ==> At(loc, n) == slot)
    ensures forall m :: 0 <= m < Window && At(loc, m) == slot ==> m == n
  {
    if slot >= loc then slot - loc else slot + NumSlot - loc
  }

  /** Every stored pair sits in the window of its home, which may run over the end of the segment. Inserting
      never does anything else. */
  ghost predicate Windowed(s: seq<Pair>, hash: Hash)
    requires |s| == NumSlot
  {
    forall i :: 0 <= i < NumSlot && s[i].key != Invalid ==> Pos(Home(hash(s[i].key)), i) < Window
  }

  /** Inserting keeps every pair in the window of its home. */
  lemma {:induction false} InsertWindowed(s: seq<Pair>, hash: Hash, mine: nat -> bool, ok: nat -> bool, p: Pair,
                                          lock: nat, i: nat)
    requires |s| == NumSlot && Windowed(s, hash) && i <= Window
    ensures Windowed(InsertFrom(s, hash, mine, ok, p, Home(hash(p.key)), lock, i), hash)
    decreases Window - i
  {
    if i < Window {
      var loc := Home(hash(p.key));
      var slot := At(loc, i);
      assert Pos(loc, slot) == i;
      var stale := s[slot].key != Invalid && !mine(hash(s[slot].key));
      var s1 := if stale then s[slot := Pair(Invalid, Tombstone)] else s;
      var k := s1[slot].key;
      InsertWindowed(s1, hash, mine, ok, p, if k == p.key then k else Invalid, i + 1);
    }
  }

  /** No pair has wrapped: none sits in a slot before its home. */
  ghost predicate Unwrapped(s: seq<Pair>, hash: Hash)
    requires |s| == NumSlot
  {
    forall i :: 0 <= i < NumSlot && s[i].key != Invalid ==> Home(hash(s[i].key)) <= i
  }

  /** Probing left no gap: the slots between the home of a pair and the pair are taken. */
  ghost predicate Packed(s: seq<Pair>, hash: Hash)
    requires |s| == NumSlot
  {
    forall i, n :: 0 <= i < NumSlot && s[i].key != Invalid && 0 <= n < Window && n < Pos(Home(hash(s[i].key)), i) ==>
      s[At(Home(hash(s[i].key)), n)].key != Invalid
  }

  /** The values stored under `key`, in slot order. */
  function Values(s: seq<Pair>, key: nat): (vs: seq<nat>)
    decreases |s|
  {
    if s == [] then [] else (if s[0].key == key then [s[0].value] else []) + Values(s[1..], key)
  }

  function FirstOk(vs: seq<nat>, ok: nat -> bool): (r: Option<nat>)
    decreases |vs|
  {
    if vs == [] then None else if ok(vs[0]) then Some(vs[0]) else FirstOk(vs[1..], ok)
  }

  lemma {:induction false} ValuesConcat(s: seq<Pair>, t: seq<Pair>, key: nat)
    ensures Values(s + t, key) == Values(s, key) + Values(t, key)
    decreases |s|
  {
    if s == [] {
      assert s + t == t && [] + Values(t, key) == Values(t, key);
    } else {
      ValuesConcat(s[1..], t, key);
      var first := if s[0].key == key then [s[0].value] else [];
      assert (s + t)[0] == s[0] && (s + t)[1..] == s[1..] + t;
      assert first + (Values(s[1..], key) + Values(t, key)) == first + Values(s[1..], key) + Values(t, key);
    }
  }

  lemma {:induction false} NoValues(s: seq<Pair>, key: nat)
    requires forall i :: 0 <= i < |s| ==> s[i].key != key
    ensures Values(s, key) == []
    decreases |s|
  {
    if s != [] {
      NoValues(s[1..], key);
    }
  }

  /** Storing into a slot behind every other pair of the key appends its value; other keys do not notice a store
      into a slot that is not theirs. */
  lemma ValuesUpdate(s: seq<Pair>, j: nat, p: Pair, key: nat)
    requires j < |s| && s[j].key != key && forall i :: j <= i < |s| ==> s[i].key != key || p.key != key
    ensures Values(s[j := p], key) == if p.key == key then Values(s, key) + [p.value] else Values(s, key)
  {
    var a, c := s[..j], s[j + 1..];
    assert s == a + [s[j]] + c && s[j := p] == a + [p] + c;
    ValuesConcat(a + [s[j]], c, key);
    ValuesConcat(a, [s[j]], key);
    ValuesConcat(a + [p], c, key);
    ValuesConcat(a, [p], key);
    NoValues([s[j]], key);
    if p.key == key {
      NoValues(c, key);
      assert [p][1..] == [];
      assert Values([p], key) == [p.value];
    } else {
      NoValues([p], key);
    }
  }

  lemma FirstUnfolds(s: seq<Pair>, key: nat, ok: nat -> bool)
    requires s != []
    ensures FirstOk(Values(s, key), ok) ==
            if s[0].key == key && ok(s[0].value) then Some(s[0].value) else FirstOk(Values(s[1..], key), ok)
  {
    var vs := Values(s[1..], key);
    if s[0].key == key {
      assert ([s[0].value] + vs)[1..] == vs;
    } else {
      assert [] + vs == vs;
    }
  }

  // ---------------------------------------------------------------- reading

  /** The window that starts at `loc`, in probe order. */
  function WindowOf(s: seq<Pair>, loc: nat): (w: seq<Pair>)
    requires |s| == NumSlot && loc < NumSlot
    ensures |w| == Window && forall n :: 0 <= n < Window ==> w[n] == s[At(loc, n)]
  {
    seq(Window, n requires 0 <= n < Window => s[At(loc, n)])
  }

  lemma {:induction false} GetScans(s: seq<Pair>, key: nat, ok: nat -> bool, loc: nat, i: nat)
    requires |s| == NumSlot && loc < NumSlot && i <= Window
    ensures GetFrom(s, key, ok, loc, i) == FirstOk(Values(WindowOf(s, loc)[i..], key), ok)
    decreases Window - i
  {
    var w := WindowOf(s, loc);
    if i < Window {
      GetScans(s, key, ok, loc, i + 1);
      FirstUnfolds(w[i..], key, ok);
      assert w[i..][1..] == w[i + 1..];
    } else {
      assert w[i..] == [];
    }
  }

  /** `Get` is the first acceptable value of the key in probe order. */
  lemma GetIsFirst(s: seq<Pair>, key: nat, ok: nat -> bool, loc: nat)
    requires |s| == NumSlot && loc < NumSlot
    ensures GetFrom(s, key, ok, loc, 0) == FirstOk(Values(WindowOf(s, loc), key), ok)
  {
    hide GetFrom, FirstOk, Values;
    GetScans(s, key, ok, loc, 0);
    assert WindowOf(s, loc)[0..] == WindowOf(s, loc);
  }

  /** Probe order of a key: first what sits from its home on, then what has wrapped. */
  lemma ProbeOrder(s: seq<Pair>, hash: Hash, key: nat)
    requires |s| == NumSlot && Windowed(s, hash) && key != Invalid
    ensures var loc := Home(hash(key));
            Values(WindowOf(s, loc), key) == Values(s[loc..], key) + Values(s[..loc], key)
  {
    hide Values;
    var loc := Home(hash(key));
    var w := WindowOf(s, loc);
    if loc + Window <= NumSlot {
      assert s[loc..] == w + s[loc + Window..];
      ValuesConcat(w, s[loc + Window..], key);
      NoValues(s[loc + Window..], key);
      NoValues(s[..loc], key);
    } else {
      var m := loc + Window - NumSlot;
      assert w == s[loc..] + s[..m];
      assert s[..loc] == s[..m] + s[m..loc];
      ValuesConcat(s[loc..], s[..m], key);
      ValuesConcat(s[..m], s[m..loc], key);
      NoValues(s[m..loc], key);
    }
  }

  // ---------------------------------------------------------------- one insertion

  /** The first free position of a window from `i` on, 16 if there is none. */
  function FirstRoom(s: seq<Pair>, loc: nat, i: nat): (n: nat)
    requires |s| == NumSlot && loc < NumSlot && i <= Window
    ensures i <= n <= Window && (n < Window ==> s[At(loc, n)].key == Invalid)
    ensures forall m :: i <= m < n ==> s[At(loc, m)].key != Invalid
    decreases Window - i
  {
    if i == Window || s[At(loc, i)].key == Invalid then i else FirstRoom(s, loc, i + 1)
  }

  /** The window has a free slot; `Insert4split` stores nothing if it has none. */
  predicate HasRoom(s: seq<Pair>, loc: nat)
    requires |s| == NumSlot && loc < NumSlot
  {
    exists n :: 0 <= n < Window && s[At(loc, n)].key == Invalid
  }

  lemma RoomIff(s: seq<Pair>, loc: nat)
    requires |s| == NumSlot && loc < NumSlot
    ensures HasRoom(s, loc) <==> FirstRoom(s, loc, 0) < Window
  {
    var r := FirstRoom(s, loc, 0);
    hide FirstRoom;
    if r < Window {
      assert s[At(loc, r)].key == Invalid;
    }
  }

  lemma {:induction false} PutIs(s: seq<Pair>, p: Pair, loc: nat, i: nat)
    requires |s| == NumSlot && loc < NumSlot && i <= Window
    ensures var n := FirstRoom(s, loc, i);
            PutFrom(s, p, loc, i) == if n < Window then s[At(loc, n) := p] else s
    decreases Window - i
  {
    if i < Window && s[At(loc, i)].key != Invalid {
      PutIs(s, p, loc, i + 1);
    }
  }

  /** A pair with room lands in the first free slot of its window: everything stays in its window, no gap appears,
      and the pair comes behind all earlier ones of its key. */
  lemma LandKeeps(s: seq<Pair>, hash: Hash, p: Pair)
    requires |s| == NumSlot && Windowed(s, hash) && Packed(s, hash) && p.key != Invalid
    requires FirstRoom(s, Home(hash(p.key)), 0) < Window
    ensures var loc := Home(hash(p.key));
            var n := FirstRoom(s, loc, 0);
            var s' := s[At(loc, n) := p];
            && Windowed(s', hash) && Packed(s', hash)
            && (forall m :: n <= m < Window ==> s[At(loc, m)].key != p.key)
  {
    hide FirstRoom;
    var loc := Home(hash(p.key));
    var n := FirstRoom(s, loc, 0);
    forall m | n <= m < Window ensures s[At(loc, m)].key != p.key {
      assert Pos(loc, At(loc, m)) == m;
    }
  }

  lemma LandValues(s: seq<Pair>, hash: Hash, p: Pair, key: nat)
    requires |s| == NumSlot && Windowed(s, hash) && Packed(s, hash) && p.key != Invalid && key != Invalid
    requires FirstRoom(s, Home(hash(p.key)), 0) < Window
    ensures var loc := Home(hash(p.key));
            var s' := s[At(loc, FirstRoom(s, loc, 0)) := p];
            Values(WindowOf(s', Home(hash(key))), key) ==
            Values(WindowOf(s, Home(hash(key))), key) + (if p.key == key then [p.value] else [])
  {
    LandKeeps(s, hash, p);
    hide FirstRoom, Values, Windowed, Packed;
    var loc, h := Home(hash(p.key)), Home(hash(key));
    var n := FirstRoom(s, loc, 0);
    var s' := s[At(loc, n) := p];
    var w, w', m := WindowOf(s, h), WindowOf(s', h), Pos(h, At(loc, n));
    if m < Window {
      assert w' == w[m := p];
      ValuesUpdate(w, m, p, key);
    } else {
      assert w' == w;
    }
  }

  /** Two segments that store the same pairs in the same slots; empty slots may differ in their values. */
  ghost predicate SamePairs(s: seq<Pair>, t: seq<Pair>) {
    |s| == |t| && forall m :: 0 <= m < |s| ==> t[m].key == s[m].key && (s[m].key != Invalid ==> t[m] == s[m])
  }

  lemma {:induction false} SameValues(s: seq<Pair>, t: seq<Pair>, key: nat)
    requires SamePairs(s, t) && key != Invalid
    ensures Values(s, key) == Values(t, key)
    decreases |s|
  {
    if s != [] {
      SameValues(s[1..], t[1..], key);
    }
  }

  // ---------------------------------------------------------------- the copy

  /** The pair moves: the next bit of its hash is set. */
  predicate Moves(p: Pair, hash: Hash, bit: nat -> bool) { p.key != Invalid && bit(hash(p.key)) }

  /** What copying one pair does: it lands, or every slot keeps its pair. */
  lemma CopyOneIs(p: Pair, new_: seq<Pair>, hash: Hash, bit: nat -> bool)
    requires |new_| == NumSlot
    ensures var loc, r := Home(hash(p.key)), CopyOne(p, new_, hash, bit);
            if Moves(p, hash, bit) && HasRoom(new_, loc)
            then FirstRoom(new_, loc, 0) < Window && r == new_[At(loc, FirstRoom(new_, loc, 0)) := p]
            else SamePairs(new_, r)
  {
    hide PutFrom, FirstRoom, HasRoom;
    PutIs(new_, p, Home(hash(p.key)), 0);
    RoomIff(new_, Home(hash(p.key)));
  }

  /** At every moved pair whose hash is in `care`, the window in the copy built so far has room. */
  ghost predicate Fits(s: seq<Pair>, new_: seq<Pair>, hash: Hash, bit: nat -> bool, care: nat -> bool, i: nat)
    requires |s| == |new_| == NumSlot && i <= NumSlot
    decreases NumSlot - i
  {
    i < NumSlot ==>
      (Moves(s[i], hash, bit) && care(hash(s[i].key)) ==> HasRoom(new_, Home(hash(s[i].key))))
      && Fits(s, CopyOne(s[i], new_, hash, bit), hash, bit, care, i + 1)
  }

  /** The state of the copy before slot `i`. */
  ghost predicate Tidy(new_: seq<Pair>, hash: Hash)
    requires |new_| == NumSlot
  {
    Windowed(new_, hash) && Packed(new_, hash)
  }

  lemma CopyTidy(p: Pair, new_: seq<Pair>, hash: Hash, bit: nat -> bool)
    requires |new_| == NumSlot && Tidy(new_, hash)
    ensures Tidy(CopyOne(p, new_, hash, bit), hash)
  {
    CopyOneIs(p, new_, hash, bit);
    hide CopyOne, FirstRoom;
    if Moves(p, hash, bit) && HasRoom(new_, Home(hash(p.key))) {
      LandKeeps(new_, hash, p);
    }
  }

  /** Unless it is dropped, a moved pair is appended to the values of its key in probe order. */
  lemma CopyValues(p: Pair, new_: seq<Pair>, hash: Hash, bit: nat -> bool, key: nat)
    requires |new_| == NumSlot && Tidy(new_, hash) && key != Invalid && bit(hash(key))
    requires p.key == key ==> HasRoom(new_, Home(hash(key)))
    ensures var r, loc := CopyOne(p, new_, hash, bit), Home(hash(key));
            Values(WindowOf(r, loc), key) == Values(WindowOf(new_, loc), key) + (if p.key == key then [p.value] else [])
  {
    CopyOneIs(p, new_, hash, bit);
    var r, loc := CopyOne(p, new_, hash, bit), Home(hash(key));
    hide CopyOne, FirstRoom, Values;
    if Moves(p, hash, bit) && HasRoom(new_, Home(hash(p.key))) {
      LandValues(new_, hash, p, key);
    } else {
      SameValues(WindowOf(new_, loc), WindowOf(r, loc), key);
    }
  }

  lemma ValuesNext(s: seq<Pair>, i: nat, key: nat)
    requires i < |s|
    ensures Values(s[i..], key) == (if s[i].key == key then [s[i].value] else []) + Values(s[i + 1..], key)
  {
    assert s[i..][1..] == s[i + 1..];
  }

  /** As long as no pair of the key is dropped, the copy holds its values in slot order. */
  lemma {:induction false} CopyKeeps(s: seq<Pair>, new_: seq<Pair>, hash: Hash, bit: nat -> bool, care: nat -> bool,
                                     i: nat, key: nat)
    requires |s| == |new_| == NumSlot && i <= NumSlot && Tidy(new_, hash) && Fits(s, new_, hash, bit, care, i)
    requires key != Invalid && bit(hash(key)) && care(hash(key))
    ensures Values(WindowOf(CopyFrom(s, new_, hash, bit, i), Home(hash(key))), key)
         == Values(WindowOf(new_, Home(hash(key))), key) + Values(s[i..], key)
    decreases NumSlot - i
  {
    hide CopyFrom, CopyOne, Tidy, HasRoom, Values;
    CopyUnfolds(s, new_, hash, bit, i);
    if i < NumSlot {
      CopyTidy(s[i], new_, hash, bit);
      CopyValues(s[i], new_, hash, bit, key);
      ValuesNext(s, i, key);
      CopyKeeps(s, CopyOne(s[i], new_, hash, bit), hash, bit, care, i + 1, key);
    } else {
      NoValues(s[i..], key);
    }
  }

  lemma CopyUnfolds(s: seq<Pair>, n: seq<Pair>, hash: Hash, bit: nat -> bool, i: nat)
    requires |s| == |n| == NumSlot && i <= NumSlot
    ensures CopyFrom(s, n, hash, bit, i) ==
            if i == NumSlot then n else CopyFrom(s, CopyOne(s[i], n, hash, bit), hash, bit, i + 1)
  {
    hide CopyOne;
  }

  function EmptySlots(): (s: seq<Pair>)
    ensures |s| == NumSlot
  {
    seq(NumSlot, _ => Pair(Invalid, Invalid))
  }

  /** The new segment a split makes. */
  function Moved(s: seq<Pair>, hash: Hash, bit: nat -> bool): (r: seq<Pair>)
    requires |s| == NumSlot
    ensures |r| == NumSlot
  {
    CopyFrom(s, EmptySlots(), hash, bit, 0)
  }

  lemma EmptyTidy(hash: Hash)
    ensures Tidy(EmptySlots(), hash)
    ensures forall key: nat :: key != Invalid ==> Values(WindowOf(EmptySlots(), Home(hash(key))), key) == []
  {
    forall key: nat | key != Invalid ensures Values(WindowOf(EmptySlots(), Home(hash(key))), key) == [] {
      NoValues(WindowOf(EmptySlots(), Home(hash(key))), key);
    }
  }

  lemma {:induction false} CopyAllTidy(s: seq<Pair>, new_: seq<Pair>, hash: Hash, bit: nat -> bool, i: nat)
    requires |s| == |new_| == NumSlot && i <= NumSlot && Tidy(new_, hash)
    ensures Tidy(CopyFrom(s, new_, hash, bit, i), hash)
    decreases NumSlot - i
  {
    hide CopyFrom, CopyOne, Tidy;
    CopyUnfolds(s, new_, hash, bit, i);
    if i < NumSlot {
      CopyTidy(s[i], new_, hash, bit);
      CopyAllTidy(s, CopyOne(s[i], new_, hash, bit), hash, bit, i + 1);
    }
  }

  /** Every split, dropping or not, leaves the new segment's pairs in their windows. */
  lemma MovedTidy(s: seq<Pair>, hash: Hash, bit: nat -> bool)
    requires |s| == NumSlot
    ensures Tidy(Moved(s, hash, bit), hash)
  {
    EmptyTidy(hash);
    CopyAllTidy(s, EmptySlots(), hash, bit, 0);
    hide CopyFrom;
  }

  /** Without a drop, the new segment has a key's values in slot order, where the old one is probed from the home
      on and then from slot 0. */
  lemma MovedValues(s: seq<Pair>, hash: Hash, bit: nat -> bool, care: nat -> bool, key: nat)
    requires |s| == NumSlot && Fits(s, EmptySlots(), hash, bit, care, 0)
    requires key != Invalid && bit(hash(key)) && care(hash(key))
    ensures Values(WindowOf(Moved(s, hash, bit), Home(hash(key))), key) == Values(s, key)
  {
    hide CopyFrom, Values, Fits;
    EmptyTidy(hash);
    CopyKeeps(s, EmptySlots(), hash, bit, care, 0, key);
    assert s[0..] == s && [] + Values(s, key) == Values(s, key);
  }

  // ---------------------------------------------------------------- where the pairs come from

  /** The copy holds only pairs it has passed. */
  ghost predicate Drawn(s: seq<Pair>, new_: seq<Pair>, i: nat)
    requires i <= |s|
  {
    forall m :: 0 <= m < |new_| && new_[m].key != Invalid ==> new_[m] in s[..i]
  }

  lemma DrawnNext(s: seq<Pair>, new_: seq<Pair>, hash: Hash, bit: nat -> bool, i: nat)
    requires |s| == |new_| == NumSlot && i < NumSlot && Drawn(s, new_, i)
    ensures Drawn(s, CopyOne(s[i], new_, hash, bit), i + 1)
  {
    CopyOneIs(s[i], new_, hash, bit);
    hide CopyOne, HasRoom, FirstRoom;
    assert s[..i + 1] == s[..i] + [s[i]];
  }

  lemma {:induction false} CopyDrawn(s: seq<Pair>, new_: seq<Pair>, hash: Hash, bit: nat -> bool, i: nat)
    requires |s| == |new_| == NumSlot && i <= NumSlot && Drawn(s, new_, i)
    ensures Drawn(s, CopyFrom(s, new_, hash, bit, i), NumSlot)
    decreases NumSlot - i
  {
    hide CopyFrom, CopyOne, Drawn;
    CopyUnfolds(s, new_, hash, bit, i);
    if i < NumSlot {
      DrawnNext(s, new_, hash, bit, i);
      CopyDrawn(s, CopyOne(s[i], new_, hash, bit), hash, bit, i + 1);
    }
  }

  /** The new segment holds pairs of the old one only. */
  lemma MovedDrawn(s: seq<Pair>, hash: Hash, bit: nat -> bool)
    requires |s| == NumSlot
    ensures forall m :: 0 <= m < NumSlot && Moved(s, hash, bit)[m].key != Invalid ==> Moved(s, hash, bit)[m] in s
  {
    CopyDrawn(s, EmptySlots(), hash, bit, 0);
    hide CopyFrom;
    assert s[..NumSlot] == s;
  }

  lemma {:induction false} GetNone(s: seq<Pair>, key: nat, ok: nat -> bool, loc: nat, i: nat)
    requires |s| == NumSlot && loc < NumSlot && i <= Window
    requires forall m :: 0 <= m < NumSlot ==> !(s[m].key == key && ok(s[m].value))
    ensures GetFrom(s, key, ok, loc, i) == None
    decreases Window - i
  {
    if i < Window {
      GetNone(s, key, ok, loc, i + 1);
    }
  }

  /** A lookup that accepts one value only finds it if the pair is in the window. */
  lemma {:induction false} GetOnly(s: seq<Pair>, key: nat, v: nat, loc: nat, i: nat, n: nat)
    requires |s| == NumSlot && loc < NumSlot && i <= n < Window && s[At(loc, n)] == Pair(key, v)
    ensures GetFrom(s, key, (x: nat) => x == v, loc, i) == Some(v)
    decreases n - i
  {
    if i < n {
      GetOnly(s, key, v, loc, i + 1, n);
    }
  }

  // ---------------------------------------------------------------- unwrapped segments drop nothing

  lemma LowNext(s: seq<Pair>, new_: seq<Pair>, hash: Hash, bit: nat -> bool, i: nat)
    requires |s| == |new_| == NumSlot && i < NumSlot && Windowed(s, hash) && Unwrapped(s, hash)
    requires forall j :: i <= j < NumSlot ==> new_[j].key == Invalid
    ensures Moves(s[i], hash, bit) ==> HasRoom(new_, Home(hash(s[i].key)))
    ensures forall j :: i + 1 <= j < NumSlot ==> CopyOne(s[i], new_, hash, bit)[j].key == Invalid
  {
    CopyOneIs(s[i], new_, hash, bit);
    hide CopyOne, FirstRoom;
    if Moves(s[i], hash, bit) {
      var loc := Home(hash(s[i].key));
      assert new_[At(loc, Pos(loc, i))].key == Invalid;
      assert FirstRoom(new_, loc, 0) <= Pos(loc, i);
    }
  }

  lemma {:induction false} UnwrappedFits(s: seq<Pair>, new_: seq<Pair>, hash: Hash, bit: nat -> bool, care: nat -> bool, i: nat)
    requires |s| == |new_| == NumSlot && i <= NumSlot && Windowed(s, hash) && Unwrapped(s, hash)
    requires forall j :: i <= j < NumSlot ==> new_[j].key == Invalid
    ensures Fits(s, new_, hash, bit, care, i)
    decreases NumSlot - i
  {
    hide CopyOne, HasRoom, Windowed, Unwrapped;
    if i < NumSlot {
      LowNext(s, new_, hash, bit, i);
      UnwrappedFits(s, CopyOne(s[i], new_, hash, bit), hash, bit, care, i + 1);
    }
  }
}

/** What `Segment::Insert` does when the fingerprint of the key is already there for another key. */
module CcehInsert {
  import opened Options
  import opened CcehSegment

  /** One insertion: the pair, its home, the segment's pattern check and the caller's check of a stored value. */
  datatype Job = Job(hash: Hash, mine: nat -> bool, ok: nat -> bool, p: Pair, loc: nat)

  /** The key belongs to the segment, and the caller's check accepts the key's own value. */
  ghost predicate Proper(w: Job) {
    w.p.key != Invalid && w.loc < NumSlot && w.mine(w.hash(w.p.key)) && w.ok(w.p.value)
  }

  function Insert(s: seq<Pair>, w: Job): (r: seq<Pair>)
    requires |s| == NumSlot && w.loc < NumSlot
    ensures |r| == NumSlot
  {
    InsertFrom(s, w.hash, w.mine, w.ok, w.p, w.loc, Invalid, 0)
  }

  // ---------------------------------------------------------------- the walk, read off the segment

  predicate Stale(s: seq<Pair>, w: Job, n: nat)
    requires |s| == NumSlot && w.loc < NumSlot && n < Window
  {
    s[At(w.loc, n)].key != Invalid && !w.mine(w.hash(s[At(w.loc, n)].key))
  }

  /** The key at position `n` of the window once a stale pair there has been emptied. */
  function KeyAt(s: seq<Pair>, w: Job, n: nat): (k: nat)
    requires |s| == NumSlot && w.loc < NumSlot && n < Window
  {
    if Stale(s, w, n) then Invalid else s[At(w.loc, n)].key
  }

  /** Position `n` holds the fingerprint of the key, with a value the check refuses. */
  predicate Fails(s: seq<Pair>, w: Job, n: nat)
    requires |s| == NumSlot && w.loc < NumSlot && n < Window
  {
    KeyAt(s, w, n) == w.p.key && !w.ok(s[At(w.loc, n)].value)
  }

  /** The key the compare-and-swap at position `n` expects: empty, or the fingerprint right behind a failed check. */
  function LockAt(s: seq<Pair>, w: Job, n: nat): (k: nat)
    requires |s| == NumSlot && w.loc < NumSlot && n <= Window
  {
    if n > 0 && Fails(s, w, n - 1) then w.p.key else Invalid
  }

  /** The walk stores at position `n` if it gets there. */
  predicate Stops(s: seq<Pair>, w: Job, n: nat)
    requires |s| == NumSlot && w.loc < NumSlot && n < Window
  {
    KeyAt(s, w, n) == LockAt(s, w, n) || (KeyAt(s, w, n) == w.p.key && w.ok(s[At(w.loc, n)].value))
  }

  predicate Reached(s: seq<Pair>, w: Job, n: nat)
    requires |s| == NumSlot && w.loc < NumSlot && n <= Window
  {
    forall m :: 0 <= m < n ==> !Stops(s, w, m)
  }

  /** What position `n` holds afterwards. */
  function Outcome(s: seq<Pair>, w: Job, n: nat): (q: Pair)
    requires |s| == NumSlot && w.loc < NumSlot && n < Window
  {
    if !Reached(s, w, n) then s[At(w.loc, n)]
    else if Stops(s, w, n) then w.p
    else if Stale(s, w, n) then Pair(Invalid, Tombstone)
    else s[At(w.loc, n)]
  }

  ghost predicate Walked(s: seq<Pair>, w: Job, t: seq<Pair>, i: nat)
    requires |s| == NumSlot && w.loc < NumSlot && i <= Window
  {
    && |t| == NumSlot
    && (forall n :: 0 <= n < i ==> t[At(w.loc, n)] == Outcome(s, w, n))
    && (forall n :: i <= n < Window ==> t[At(w.loc, n)] == s[At(w.loc, n)])
    && (forall j :: 0 <= j < NumSlot && Pos(w.loc, j) >= Window ==> t[j] == s[j])
  }

  lemma WalkNext(s: seq<Pair>, w: Job, t: seq<Pair>, i: nat, q: Pair)
    requires |s| == NumSlot && w.loc < NumSlot && i < Window && Walked(s, w, t, i) && q == Outcome(s, w, i)
    ensures Walked(s, w, t[At(w.loc, i) := q], i + 1)
  {
    forall n | 0 <= n < Window && n != i ensures At(w.loc, n) != At(w.loc, i) {
    }
  }

  lemma WalkEnds(s: seq<Pair>, w: Job, t: seq<Pair>, i: nat)
    requires |s| == NumSlot && w.loc < NumSlot && i <= Window && Walked(s, w, t, i)
    requires i == Window || !Reached(s, w, i)
    ensures Walked(s, w, t, Window)
  {
  }

  /** Where the walk of `Insert` stores, empties and passes. */
  lemma {:induction false} InsertWalks(s: seq<Pair>, w: Job, t: seq<Pair>, i: nat)
    requires |s| == NumSlot && Proper(w) && i <= Window && Walked(s, w, t, i) && Reached(s, w, i)
    ensures Walked(s, w, InsertFrom(t, w.hash, w.mine, w.ok, w.p, w.loc, LockAt(s, w, i), i), Window)
    decreases Window - i
  {
    if i < Window {
      var slot := At(w.loc, i);
      assert t[slot] == s[slot];
      var t1 := if Stale(s, w, i) then t[slot := Pair(Invalid, Tombstone)] else t;
      if Stops(s, w, i) {
        assert t1[slot := w.p] == t[slot := w.p];
        WalkNext(s, w, t, i, w.p);
        assert !Reached(s, w, i + 1);
        hide Walked, InsertFrom;
        WalkEnds(s, w, t[slot := w.p], i + 1);
      } else {
        assert t1 == t[slot := Outcome(s, w, i)];
        WalkNext(s, w, t, i, Outcome(s, w, i));
        hide Walked;
        InsertWalks(s, w, t1, i + 1);
      }
    }
  }

  lemma InsertIs(s: seq<Pair>, w: Job)
    requires |s| == NumSlot && Proper(w)
    ensures Walked(s, w, Insert(s, w), Window)
  {
    InsertWalks(s, w, s, 0);
    hide InsertFrom;
  }

  // ---------------------------------------------------------------- unchecked overwrites and skipped slots

  /** The walk meets two neighbouring positions that both fail the check, before any position it stores at. */
  ghost predicate DoubleFail(s: seq<Pair>, w: Job)
    requires |s| == NumSlot && w.loc < NumSlot
  {
    exists n :: 1 <= n < Window && Fails(s, w, n - 1) && Fails(s, w, n) && Reached(s, w, n)
  }

  /** A pair of another key, with the same fingerprint and a value the check refuses, is changed. */
  ghost predicate Overwrites(s: seq<Pair>, w: Job)
    requires |s| == NumSlot && w.loc < NumSlot
  {
    exists j :: 0 <= j < NumSlot && s[j].key == w.p.key && !w.ok(s[j].value) && Insert(s, w)[j] != s[j]
  }

  /** Exactly when an insertion overwrites a pair that fails the check. */
  lemma OverwritesIff(s: seq<Pair>, w: Job)
    requires |s| == NumSlot && Proper(w)
    ensures Overwrites(s, w) <==> DoubleFail(s, w)
  {
    if DoubleFail(s, w) {
      DoubleOverwrites(s, w);
    }
    if Overwrites(s, w) {
      OverwriteIsDouble(s, w);
    }
  }

  lemma DoubleOverwrites(s: seq<Pair>, w: Job)
    requires |s| == NumSlot && Proper(w) && DoubleFail(s, w)
    ensures Overwrites(s, w)
  {
    InsertIs(s, w);
    hide Insert;
    var n :| 1 <= n < Window && Fails(s, w, n - 1) && Fails(s, w, n) && Reached(s, w, n);
    assert Insert(s, w)[At(w.loc, n)] == w.p;
  }

  lemma OverwriteIsDouble(s: seq<Pair>, w: Job)
    requires |s| == NumSlot && Proper(w) && Overwrites(s, w)
    ensures DoubleFail(s, w)
  {
    InsertIs(s, w);
    hide Insert;
    var j :| 0 <= j < NumSlot && s[j].key == w.p.key && !w.ok(s[j].value) && Insert(s, w)[j] != s[j];
    var n := Pos(w.loc, j);
    assert n < Window && Insert(s, w)[j] == Outcome(s, w, n) && Fails(s, w, n);
    assert Fails(s, w, n - 1);
  }

  /** Exactly when an insertion that gets to a free position of its window passes it over. */
  lemma SkipsIff(s: seq<Pair>, w: Job, n: nat)
    requires |s| == NumSlot && Proper(w) && n < Window && Reached(s, w, n) && KeyAt(s, w, n) == Invalid
    ensures Insert(s, w)[At(w.loc, n)] != w.p <==> n > 0 && Fails(s, w, n - 1)
  {
    InsertIs(s, w);
    hide Insert;
  }

  // ---------------------------------------------------------------- lookups of other keys

  /** A lookup that accepts one value finds it iff the pair is in the window. */
  lemma {:induction false} GetValue(s: seq<Pair>, key: nat, v: nat, loc: nat, i: nat)
    requires |s| == NumSlot && loc < NumSlot && i <= Window
    ensures GetFrom(s, key, (x: nat) => x == v, loc, i) ==
            if exists n :: i <= n < Window && s[At(loc, n)] == Pair(key, v) then Some(v) else None
    decreases Window - i
  {
    if i < Window {
      GetValue(s, key, v, loc, i + 1);
    }
  }

  /** Every lookup of a value the check refuses, that is, of another key with the fingerprint, answers as before. */
  ghost predicate OthersKept(s: seq<Pair>, w: Job)
    requires |s| == NumSlot && w.loc < NumSlot
  {
    forall v: nat :: !w.ok(v) ==> ValueKept(s, w, v)
  }

  ghost predicate ValueKept(s: seq<Pair>, w: Job, v: nat)
    requires |s| == NumSlot && w.loc < NumSlot
  {
    GetFrom(Insert(s, w), w.p.key, (x: nat) => x == v, w.loc, 0) == GetFrom(s, w.p.key, (x: nat) => x == v, w.loc, 0)
  }

  /** Position `n` is the second of two such neighbours, and its pair is nowhere else in the window. */
  ghost predicate LosesPair(s: seq<Pair>, w: Job, n: nat)
    requires |s| == NumSlot && w.loc < NumSlot
  {
    && 1 <= n < Window && Fails(s, w, n - 1) && Fails(s, w, n) && Reached(s, w, n)
    && forall m :: 0 <= m < Window && s[At(w.loc, m)] == s[At(w.loc, n)] ==> m == n
  }

  /** Exactly when an insertion keeps the other keys of its fingerprint findable. */
  lemma OthersKeptIff(s: seq<Pair>, w: Job)
    requires |s| == NumSlot && Proper(w)
    ensures OthersKept(s, w) <==> !exists n :: LosesPair(s, w, n)
  {
    if n :| LosesPair(s, w, n) {
      LosesAt(s, w, n);
    } else {
      forall v: nat | !w.ok(v) ensures ValueKept(s, w, v) {
        KeepsValue(s, w, v);
      }
    }
  }

  lemma LosesAt(s: seq<Pair>, w: Job, n: nat)
    requires |s| == NumSlot && Proper(w) && LosesPair(s, w, n)
    ensures var v := s[At(w.loc, n)].value;
            && !w.ok(v) && GetFrom(s, w.p.key, (x: nat) => x == v, w.loc, 0) == Some(v)
            && GetFrom(Insert(s, w), w.p.key, (x: nat) => x == v, w.loc, 0) == None && !ValueKept(s, w, v)
  {
    InsertIs(s, w);
    var v, r := s[At(w.loc, n)].value, Insert(s, w);
    hide Insert, GetFrom;
    GetValue(s, w.p.key, v, w.loc, 0);
    GetValue(r, w.p.key, v, w.loc, 0);
    assert s[At(w.loc, n)] == Pair(w.p.key, v);
    assert Stops(s, w, n) && r[At(w.loc, n)] == w.p;
    forall m | 0 <= m < Window ensures r[At(w.loc, m)] != Pair(w.p.key, v) {
      assert r[At(w.loc, m)] == Outcome(s, w, m);
    }
  }

  /** The walk changes at most one pair that fails the check, so a lost value was stored once. */
  lemma KeepsValue(s: seq<Pair>, w: Job, v: nat)
    requires |s| == NumSlot && Proper(w) && !w.ok(v) && !exists n :: LosesPair(s, w, n)
    ensures ValueKept(s, w, v)
  {
    InsertIs(s, w);
    var r, q := Insert(s, w), Pair(w.p.key, v);
    hide Insert, GetFrom;
    GetValue(s, w.p.key, v, w.loc, 0);
    GetValue(r, w.p.key, v, w.loc, 0);
    forall m | 0 <= m < Window && r[At(w.loc, m)] == q ensures s[At(w.loc, m)] == q {
      assert r[At(w.loc, m)] == Outcome(s, w, m);
    }
    if n :| 0 <= n < Window && s[At(w.loc, n)] == q {
      StillThere(s, w, q, n);
    }
  }

  lemma StillThere(s: seq<Pair>, w: Job, q: Pair, n: nat)
    requires |s| == NumSlot && Proper(w) && n < Window && !exists n :: LosesPair(s, w, n)
    requires s[At(w.loc, n)] == q && q.key == w.p.key && !w.ok(q.value)
    ensures exists m :: 0 <= m < Window && Insert(s, w)[At(w.loc, m)] == q
  {
    InsertIs(s, w);
    hide Insert;
    assert Fails(s, w, n);
    if Insert(s, w)[At(w.loc, n)] != q {
      assert Insert(s, w)[At(w.loc, n)] == Outcome(s, w, n);
      assert Reached(s, w, n) && Stops(s, w, n) && Fails(s, w, n - 1);
      assert !LosesPair(s, w, n);
      var m :| 0 <= m < Window && m != n && s[At(w.loc, m)] == q;
      assert Fails(s, w, m) && Insert(s, w)[At(w.loc, m)] == Outcome(s, w, m);
      assert m < n ==> !Stops(s, w, m);
      assert m > n ==> !Reached(s, w, m);
      assert Insert(s, w)[At(w.loc, m)] == q;
    }
  }

  // ---------------------------------------------------------------- three keys with one fingerprint

  /** The insertion of a key with fingerprint `key` and value `v`; the check accepts the key's own value only. */
  function Of(hash: Hash, key: nat, v: nat): (w: Job) {
    Job(hash, (h: nat) => true, (x: nat) => x == v, Pair(key, v), Home(hash(key)))
  }

  /** An empty segment after two keys with one fingerprint have been inserted: the second passes over the free slot
      behind the first. */
  lemma TwoInserted(hash: Hash, key: nat, a: nat, b: nat)
    requires key != Invalid && a != b
    ensures var loc := Home(hash(key));
            Insert(Insert(EmptySlots(), Of(hash, key, a)), Of(hash, key, b)) ==
            EmptySlots()[loc := Pair(key, a)][loc + 2 := Pair(key, b)]
  {
    var loc := Home(hash(key));
    var e, wa, wb := EmptySlots(), Of(hash, key, a), Of(hash, key, b);
    InsertIs(e, wa);
    var s1 := Insert(e, wa);
    InsertIs(s1, wb);
    var s2 := Insert(s1, wb);
    hide Insert;
    assert Stops(e, wa, 0);
    assert forall n :: 1 <= n < Window ==> !Reached(e, wa, n);
    assert s1 == e[loc := Pair(key, a)] by { Spread(e, wa, s1, 0); }
    assert At(loc, 0) == loc && At(loc, 1) == loc + 1 && At(loc, 2) == loc + 2;
    assert Fails(s1, wb, 0) && !Stops(s1, wb, 0) && !Stops(s1, wb, 1) && Stops(s1, wb, 2) && Reached(s1, wb, 2);
    assert s2 == s1[loc + 2 := Pair(key, b)] by { Spread(s1, wb, s2, 2); }
  }

  /** An insertion that empties nothing on its way to position `n` changes that slot only. */
  lemma Spread(s: seq<Pair>, w: Job, r: seq<Pair>, n: nat)
    requires |s| == NumSlot && Proper(w) && n < Window && Walked(s, w, r, Window)
    requires Reached(s, w, n) && Stops(s, w, n) && forall m :: 0 <= m < n ==> !Stale(s, w, m)
    ensures r == s[At(w.loc, n) := w.p]
  {
    forall j | 0 <= j < NumSlot ensures r[j] == s[At(w.loc, n) := w.p][j] {
      var m := Pos(w.loc, j);
      if m < Window {
        assert r[j] == Outcome(s, w, m);
        assert m > n ==> !Reached(s, w, m);
      }
    }
  }

  /** The segment after its split: the split puts the two pairs side by side. */
  lemma TwoMoved(hash: Hash, bit: nat -> bool, key: nat, a: nat, b: nat)
    requires key != Invalid && a != b && bit(hash(key))
    ensures var loc := Home(hash(key));
            var r := Moved(EmptySlots()[loc := Pair(key, a)][loc + 2 := Pair(key, b)], hash, bit);
            && r[loc] == Pair(key, a) && r[loc + 1] == Pair(key, b)
            && (forall j :: 0 <= j < NumSlot && r[j].key != Invalid ==> r[j] == Pair(key, a) || r[j] == Pair(key, b))
            && (forall j :: 0 <= j < NumSlot && r[j].key != Invalid ==> j == loc || j == loc + 1)
  {
    var loc := Home(hash(key));
    var s := EmptySlots()[loc := Pair(key, a)][loc + 2 := Pair(key, b)];
    var r := Moved(s, hash, bit);
    hide Moved, Fits, EmptySlots, Values, WindowOf, Tidy;
    TwoMovedValues(s, hash, bit, key, a, b);
    MovedTidy(s, hash, bit);
    MovedDrawn(s, hash, bit);
    OnlyTwo(s, loc, key, a, b);
    TwoPacked(r, hash, key, a, b);
  }

  lemma OnlyTwo(s: seq<Pair>, loc: nat, key: nat, a: nat, b: nat)
    requires loc + 2 < NumSlot && s == EmptySlots()[loc := Pair(key, a)][loc + 2 := Pair(key, b)]
    ensures forall q :: q in s && q.key != Invalid ==> q == Pair(key, a) || q == Pair(key, b)
  {
  }

  lemma TwoMovedValues(s: seq<Pair>, hash: Hash, bit: nat -> bool, key: nat, a: nat, b: nat)
    requires key != Invalid && bit(hash(key))
    requires s == EmptySlots()[Home(hash(key)) := Pair(key, a)][Home(hash(key)) + 2 := Pair(key, b)]
    ensures Values(WindowOf(Moved(s, hash, bit), Home(hash(key))), key) == [a, b]
  {
    var all := (h: nat) => true;
    assert Windowed(s, hash) && Unwrapped(s, hash);
    hide Fits, Moved, Values, WindowOf;
    UnwrappedFits(s, EmptySlots(), hash, bit, all, 0);
    MovedValues(s, hash, bit, all, key);
    TwoValues(s, Home(hash(key)), key, a, b);
  }

  lemma TwoValues(s: seq<Pair>, loc: nat, key: nat, a: nat, b: nat)
    requires loc + 2 < NumSlot && key != Invalid && s == EmptySlots()[loc := Pair(key, a)][loc + 2 := Pair(key, b)]
    ensures Values(s, key) == [a, b]
  {
    var e := EmptySlots();
    hide Values;
    NoValues(e, key);
    ValuesUpdate(e, loc, Pair(key, a), key);
    ValuesUpdate(e[loc := Pair(key, a)], loc + 2, Pair(key, b), key);
    assert [] + [a] == [a] && [a] + [b] == [a, b];
  }

  /** Two pairs of one key and nothing else, without gaps: they are the first two of their window. */
  lemma TwoPacked(r: seq<Pair>, hash: Hash, key: nat, a: nat, b: nat)
    requires |r| == NumSlot && key != Invalid && Tidy(r, hash)
    requires forall j :: 0 <= j < NumSlot && r[j].key != Invalid ==> r[j].key == key
    requires Values(WindowOf(r, Home(hash(key))), key) == [a, b]
    ensures var loc := Home(hash(key));
            && r[loc] == Pair(key, a) && r[loc + 1] == Pair(key, b)
            && (forall j :: 0 <= j < NumSlot && r[j].key != Invalid ==> j == loc || j == loc + 1)
  {
    var loc := Home(hash(key));
    var w := WindowOf(r, loc);
    assert At(loc, 0) == loc && At(loc, 1) == loc + 1 && At(loc, 2) == loc + 2;
    GapEnds(r, hash, key, 0);
    assert w[0].key == key;
    ValuesNext(w, 0, key);
    assert w[0..] == w;
    GapEnds(r, hash, key, 1);
    assert |Values(w, key)| == 1 + |Values(w[1..], key)|;
    assert w[1].key == key;
    ValuesNext(w, 1, key);
    var rest := Values(w[2..], key);
    assert [a, b] == [w[0].value] + ([w[1].value] + rest);
    assert [a, b][0] == w[0].value && [a, b][1] == w[1].value && |rest| == 0;
    if w[2].key == key {
      ValuesNext(w, 2, key);
    }
    assert r[At(loc, 2)].key == Invalid;
    forall j | 0 <= j < NumSlot && r[j].key != Invalid ensures j == loc || j == loc + 1 {
      assert Pos(loc, j) <= 2;
    }
  }

  /** Behind an empty position of the window there is nothing. */
  lemma GapEnds(r: seq<Pair>, hash: Hash, key: nat, n: nat)
    requires |r| == NumSlot && key != Invalid && Tidy(r, hash) && n < Window
    requires forall j :: 0 <= j < NumSlot && r[j].key != Invalid ==> r[j].key == key
    ensures var w := WindowOf(r, Home(hash(key)));
            w[n].key != key ==> Values(w[n..], key) == []
  {
    var loc := Home(hash(key));
    var w := WindowOf(r, loc);
    if w[n].key != key {
      forall m | n <= m < Window ensures w[m].key != key {
        assert Pos(loc, At(loc, m)) == m;
      }
      NoValues(w[n..], key);
    }
  }

  /** Two keys with one fingerprint are inserted, the segment splits, and a third key with the fingerprint is
      inserted: the second key, found before, is lost. */
  lemma ThirdLosesSecond(hash: Hash, bit: nat -> bool, key: nat, a: nat, b: nat, c: nat)
    requires key != Invalid && a != b && b != c && a != c && bit(hash(key))
    ensures var loc := Home(hash(key));
            var s := Moved(Insert(Insert(EmptySlots(), Of(hash, key, a)), Of(hash, key, b)), hash, bit);
            && GetFrom(s, key, (x: nat) => x == b, loc, 0) == Some(b)
            && GetFrom(Insert(s, Of(hash, key, c)), key, (x: nat) => x == b, loc, 0) == None
  {
    var loc, w := Home(hash(key)), Of(hash, key, c);
    TwoInserted(hash, key, a, b);
    TwoMoved(hash, bit, key, a, b);
    var s := Moved(Insert(Insert(EmptySlots(), Of(hash, key, a)), Of(hash, key, b)), hash, bit);
    hide Insert, Moved, GetFrom;
    assert At(loc, 0) == loc && At(loc, 1) == loc + 1;
    assert Fails(s, w, 0) && Fails(s, w, 1) && !Stops(s, w, 0) && Reached(s, w, 1);
    LosesAt(s, w, 1);
  }
}

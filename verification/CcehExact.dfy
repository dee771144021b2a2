/** Exactly when the split of a CCEH segment keeps every lookup. */
module CcehExact {
  import opened Options
  import opened CcehSegment

  /** Every lookup of the key answers alike, whatever values the caller's check accepts. */
  ghost predicate SameAnswers(s: seq<Pair>, t: seq<Pair>, hash: Hash, key: nat)
    requires |s| == |t| == NumSlot
  {
    forall ok: nat -> bool ::
      GetFrom(t, key, ok, Home(hash(key)), 0) == GetFrom(s, key, ok, Home(hash(key)), 0)
  }

  /** The key moves, and the caller cares. */
  predicate Concerned(hash: Hash, bit: nat -> bool, care: nat -> bool, key: nat) {
    key != Invalid && bit(hash(key)) && care(hash(key))
  }

  // ---------------------------------------------------------------- the first acceptable value

  lemma {:induction false} FirstAppend(a: seq<nat>, b: seq<nat>, ok: nat -> bool)
    ensures FirstOk(a + b, ok) == if FirstOk(a, ok).Some? then FirstOk(a, ok) else FirstOk(b, ok)
    decreases |a|
  {
    if a == [] {
      assert a + b == b;
    } else {
      assert (a + b)[0] == a[0] && (a + b)[1..] == a[1..] + b;
      FirstAppend(a[1..], b, ok);
    }
  }

  lemma {:induction false} FirstHas(a: seq<nat>, v: nat, ok: nat -> bool)
    requires v in a && ok(v)
    ensures FirstOk(a, ok).Some?
    decreases |a|
  {
    if !ok(a[0]) {
      FirstHas(a[1..], v, ok);
    }
  }

  /** A value seen before makes no difference. */
  lemma FirstSkip(a: seq<nat>, v: nat, b: seq<nat>, ok: nat -> bool)
    requires v in a
    ensures FirstOk(a + ([v] + b), ok) == FirstOk(a + b, ok)
  {
    FirstAppend(a, [v] + b, ok);
    FirstAppend(a, b, ok);
    FirstAppend([v], b, ok);
    assert [v][1..] == [];
    if ok(v) {
      FirstHas(a, v, ok);
    }
  }

  /** The values in the order in which they first occur. */
  function Firsts(vs: seq<nat>): (fs: seq<nat>)
    decreases |vs|
  {
    if vs == [] then []
    else
      var init, x := vs[..|vs| - 1], vs[|vs| - 1];
      if x in init then Firsts(init) else Firsts(init) + [x]
  }

  lemma {:induction false} FirstsFacts(vs: seq<nat>)
    ensures forall x :: x in Firsts(vs) <==> x in vs
    ensures forall i, j :: 0 <= i < j < |Firsts(vs)| ==> Firsts(vs)[i] != Firsts(vs)[j]
    decreases |vs|
  {
    if vs != [] {
      var init, x := vs[..|vs| - 1], vs[|vs| - 1];
      FirstsFacts(init);
      assert vs == init + [x];
    }
  }

  lemma {:induction false} FirstsOk(vs: seq<nat>, ok: nat -> bool)
    ensures FirstOk(Firsts(vs), ok) == FirstOk(vs, ok)
    decreases |vs|
  {
    if vs != [] {
      var init, x := vs[..|vs| - 1], vs[|vs| - 1];
      FirstsOk(init, ok);
      assert vs == init + [x];
      FirstAppend(init, [x], ok);
      FirstAppend(Firsts(init), [x], ok);
      assert [x][1..] == [];
      if x in init && ok(x) {
        FirstHas(init, x, ok);
      }
    }
  }

  predicate Prefix(a: seq<nat>, b: seq<nat>) { |a| <= |b| && b[..|a|] == a }

  /** One of the two begins like the other, up to repetitions. */
  predicate Comparable(a: seq<nat>, b: seq<nat>) { Prefix(Firsts(a), Firsts(b)) || Prefix(Firsts(b), Firsts(a)) }

  lemma PrefixFirst(a: seq<nat>, b: seq<nat>, ok: nat -> bool)
    requires Prefix(Firsts(a), Firsts(b))
    ensures FirstOk(a + b, ok) == FirstOk(b, ok) && FirstOk(b + a, ok) == FirstOk(b, ok)
  {
    hide Firsts, FirstOk;
    var f, g := Firsts(a), Firsts(b);
    FirstsOk(a, ok);
    FirstsOk(b, ok);
    FirstAppend(f, g[|f|..], ok);
    assert g == f + g[|f|..];
    FirstAppend(a, b, ok);
    FirstAppend(b, a, ok);
  }

  lemma {:induction false} FirstAt(f: seq<nat>, ok: nat -> bool, i: nat)
    requires i < |f| && ok(f[i]) && forall m :: 0 <= m < i ==> !ok(f[m])
    ensures FirstOk(f, ok) == Some(f[i])
    decreases i
  {
    if i > 0 {
      FirstAt(f[1..], ok, i - 1);
    }
  }

  /** The first position where two sequences differ. */
  lemma {:induction false} FirstDifference(f: seq<nat>, g: seq<nat>, i: nat) returns (d: nat)
    requires i <= |f| && i <= |g| && f[..i] == g[..i] && !Prefix(f, g) && !Prefix(g, f)
    ensures i <= d < |f| && d < |g| && f[..d] == g[..d] && f[d] != g[d]
    decreases |f| - i
  {
    assert f[..|f|] == f && g[..|g|] == g;
    assert i < |f| && i < |g|;
    if f[i] != g[i] {
      d := i;
    } else {
      assert f[..i + 1] == f[..i] + [f[i]] && g[..i + 1] == g[..i] + [g[i]];
      d := FirstDifference(f, g, i + 1);
    }
  }

  /** Two orders of appending agree on every first acceptable value iff the parts are comparable. */
  lemma OrdersDiffer(a: seq<nat>, b: seq<nat>) returns (ok: nat -> bool)
    requires !Comparable(a, b)
    ensures FirstOk(a + b, ok) != FirstOk(b + a, ok)
  {
    var f, g := Firsts(a), Firsts(b);
    var d := FirstDifference(f, g, 0);
    FirstsFacts(a);
    FirstsFacts(b);
    hide Firsts;
    ok := (x: nat) => x == f[d] || x == g[d];
    forall m | 0 <= m < d ensures f[m] == g[m] {
      assert f[m] == f[..d][m] && g[m] == g[..d][m];
    }
    FirstAt(f, ok, d);
    FirstAt(g, ok, d);
    FirstsOk(a, ok);
    FirstsOk(b, ok);
    FirstAppend(a, b, ok);
    FirstAppend(b, a, ok);
  }

  // ---------------------------------------------------------------- drops that nobody notices

  /** The pair is in the window. */
  ghost predicate Held(new_: seq<Pair>, loc: nat, p: Pair)
    requires |new_| == NumSlot && loc < NumSlot
  {
    exists n :: 0 <= n < Window && new_[At(loc, n)] == p
  }

  /** At every moved pair whose hash is in `care`, the window in the copy built so far has room or holds an equal
      pair. */
  ghost predicate Spares(s: seq<Pair>, new_: seq<Pair>, hash: Hash, bit: nat -> bool, care: nat -> bool, i: nat)
    requires |s| == |new_| == NumSlot && i <= NumSlot
    decreases NumSlot - i
  {
    i < NumSlot ==>
      (Moves(s[i], hash, bit) && care(hash(s[i].key)) ==>
         HasRoom(new_, Home(hash(s[i].key))) || Held(new_, Home(hash(s[i].key)), s[i]))
      && Spares(s, CopyOne(s[i], new_, hash, bit), hash, bit, care, i + 1)
  }

  lemma {:induction false} FitsSpares(s: seq<Pair>, new_: seq<Pair>, hash: Hash, bit: nat -> bool, care: nat -> bool, i: nat)
    requires |s| == |new_| == NumSlot && i <= NumSlot && Fits(s, new_, hash, bit, care, i)
    ensures Spares(s, new_, hash, bit, care, i)
    decreases NumSlot - i
  {
    hide CopyOne, HasRoom;
    if i < NumSlot {
      FitsSpares(s, CopyOne(s[i], new_, hash, bit), hash, bit, care, i + 1);
    }
  }

  lemma {:induction false} ValueIn(s: seq<Pair>, n: nat)
    requires n < |s|
    ensures s[n].value in Values(s, s[n].key)
    decreases |s|
  {
    if n > 0 {
      ValueIn(s[1..], n - 1);
    }
  }

  lemma HeldValue(new_: seq<Pair>, loc: nat, p: Pair)
    requires |new_| == NumSlot && loc < NumSlot && Held(new_, loc, p)
    ensures p.value in Values(WindowOf(new_, loc), p.key)
  {
    var n :| 0 <= n < Window && new_[At(loc, n)] == p;
    ValueIn(WindowOf(new_, loc), n);
  }

  /** A pair whose window is full leaves the values of its key alone, and an equal one is among them. */
  lemma DropValues(p: Pair, new_: seq<Pair>, hash: Hash, bit: nat -> bool)
    requires |new_| == NumSlot && p.key != Invalid
    requires !HasRoom(new_, Home(hash(p.key))) && Held(new_, Home(hash(p.key)), p)
    ensures var r, loc := CopyOne(p, new_, hash, bit), Home(hash(p.key));
            && Values(WindowOf(r, loc), p.key) == Values(WindowOf(new_, loc), p.key)
            && p.value in Values(WindowOf(new_, loc), p.key)
  {
    CopyOneIs(p, new_, hash, bit);
    var r, loc := CopyOne(p, new_, hash, bit), Home(hash(p.key));
    HeldValue(new_, loc, p);
    hide CopyOne, FirstRoom, Values, HasRoom, Held;
    SameValues(WindowOf(new_, loc), WindowOf(r, loc), p.key);
  }

  /** One pair of the key: it is appended to the key's values in the copy, or they have its value already. */
  lemma CopyAnswer(p: Pair, new_: seq<Pair>, hash: Hash, bit: nat -> bool, key: nat, rest: seq<nat>, ok: nat -> bool)
    requires |new_| == NumSlot && Tidy(new_, hash) && key != Invalid && bit(hash(key))
    requires p.key == key ==> HasRoom(new_, Home(hash(key))) || Held(new_, Home(hash(key)), p)
    ensures var r, loc := CopyOne(p, new_, hash, bit), Home(hash(key));
            FirstOk(Values(WindowOf(r, loc), key) + rest, ok) ==
            FirstOk(Values(WindowOf(new_, loc), key) + ((if p.key == key then [p.value] else []) + rest), ok)
  {
    hide CopyOne, FirstRoom, Values, FirstOk, HasRoom, Held, Tidy, WindowOf;
    var v := Values(WindowOf(new_, Home(hash(key))), key);
    if p.key == key && !HasRoom(new_, Home(hash(key))) {
      DropValues(p, new_, hash, bit);
      FirstSkip(v, p.value, rest, ok);
    } else {
      CopyValues(p, new_, hash, bit, key);
      var x := if p.key == key then [p.value] else [];
      assert (v + x) + rest == v + (x + rest);
    }
  }

  lemma {:induction false} CopyAnswers(s: seq<Pair>, new_: seq<Pair>, hash: Hash, bit: nat -> bool, care: nat -> bool, i: nat,
                                       key: nat, ok: nat -> bool)
    requires |s| == |new_| == NumSlot && i <= NumSlot && Tidy(new_, hash) && Spares(s, new_, hash, bit, care, i)
    requires Concerned(hash, bit, care, key)
    ensures FirstOk(Values(WindowOf(CopyFrom(s, new_, hash, bit, i), Home(hash(key))), key), ok)
         == FirstOk(Values(WindowOf(new_, Home(hash(key))), key) + Values(s[i..], key), ok)
    decreases NumSlot - i
  {
    hide CopyFrom, CopyOne, Tidy, HasRoom, Values, FirstOk;
    CopyUnfolds(s, new_, hash, bit, i);
    var v := Values(WindowOf(new_, Home(hash(key))), key);
    if i < NumSlot {
      CopyTidy(s[i], new_, hash, bit);
      CopyAnswer(s[i], new_, hash, bit, key, Values(s[i + 1..], key), ok);
      ValuesNext(s, i, key);
      CopyAnswers(s, CopyOne(s[i], new_, hash, bit), hash, bit, care, i + 1, key, ok);
    } else {
      NoValues(s[i..], key);
      assert v + [] == v;
    }
  }

  lemma MovedAnswers(s: seq<Pair>, hash: Hash, bit: nat -> bool, care: nat -> bool, key: nat, ok: nat -> bool)
    requires |s| == NumSlot && Spares(s, EmptySlots(), hash, bit, care, 0) && Concerned(hash, bit, care, key)
    ensures GetFrom(Moved(s, hash, bit), key, ok, Home(hash(key)), 0) == FirstOk(Values(s, key), ok)
  {
    hide CopyFrom, Values, Spares, FirstOk, GetFrom;
    EmptyTidy(hash);
    CopyAnswers(s, EmptySlots(), hash, bit, care, 0, key, ok);
    assert s[0..] == s && [] + Values(s, key) == Values(s, key);
    GetIsFirst(Moved(s, hash, bit), key, ok, Home(hash(key)));
  }

  // ---------------------------------------------------------------- drops that lose a lookup

  ghost predicate Absent(new_: seq<Pair>, p: Pair) { forall m :: 0 <= m < |new_| ==> new_[m] != p }

  /** Once its window is full, a pair that is not in the copy never gets there. */
  lemma AbsentNext(q: Pair, new_: seq<Pair>, hash: Hash, bit: nat -> bool, p: Pair)
    requires |new_| == NumSlot && p.key != Invalid && Absent(new_, p) && !HasRoom(new_, Home(hash(p.key)))
    ensures Absent(CopyOne(q, new_, hash, bit), p) && !HasRoom(CopyOne(q, new_, hash, bit), Home(hash(p.key)))
  {
    CopyOneIs(q, new_, hash, bit);
    hide CopyOne, FirstRoom;
  }

  lemma {:induction false} AbsentKept(s: seq<Pair>, new_: seq<Pair>, hash: Hash, bit: nat -> bool, i: nat, p: Pair)
    requires |s| == |new_| == NumSlot && i <= NumSlot && p.key != Invalid && Absent(new_, p)
    requires !HasRoom(new_, Home(hash(p.key)))
    ensures Absent(CopyFrom(s, new_, hash, bit, i), p)
    decreases NumSlot - i
  {
    hide CopyFrom, CopyOne, HasRoom, Absent;
    CopyUnfolds(s, new_, hash, bit, i);
    if i < NumSlot {
      AbsentNext(s[i], new_, hash, bit, p);
      AbsentKept(s, CopyOne(s[i], new_, hash, bit), hash, bit, i + 1, p);
    }
  }

  lemma HeldIfPresent(new_: seq<Pair>, hash: Hash, p: Pair)
    requires |new_| == NumSlot && Tidy(new_, hash) && p.key != Invalid && !Absent(new_, p)
    ensures Held(new_, Home(hash(p.key)), p)
  {
    var m :| 0 <= m < |new_| && new_[m] == p;
    var loc := Home(hash(p.key));
    assert new_[At(loc, Pos(loc, m))] == p;
  }

  /** Otherwise some moved pair is missing in the end. */
  lemma {:induction false} DropsOne(s: seq<Pair>, new_: seq<Pair>, hash: Hash, bit: nat -> bool, care: nat -> bool, i: nat)
    returns (q: nat)
    requires |s| == |new_| == NumSlot && i <= NumSlot && Tidy(new_, hash) && !Spares(s, new_, hash, bit, care, i)
    ensures q < NumSlot && Moves(s[q], hash, bit) && care(hash(s[q].key))
    ensures Absent(CopyFrom(s, new_, hash, bit, i), s[q])
    decreases NumSlot - i
  {
    hide CopyFrom, CopyOne, HasRoom, FirstRoom;
    if Moves(s[i], hash, bit) && care(hash(s[i].key)) && !HasRoom(new_, Home(hash(s[i].key)))
       && !Held(new_, Home(hash(s[i].key)), s[i])
    {
      q := i;
      if !Absent(new_, s[i]) {
        HeldIfPresent(new_, hash, s[i]);
      }
      hide Tidy, Spares;
      AbsentKept(s, new_, hash, bit, i, s[i]);
    } else {
      CopyTidy(s[i], new_, hash, bit);
      CopyUnfolds(s, new_, hash, bit, i);
      hide Tidy;
      q := DropsOne(s, CopyOne(s[i], new_, hash, bit), hash, bit, care, i + 1);
    }
  }

  /** A pair dropped for good is a lookup lost. */
  lemma DropChanges(s: seq<Pair>, hash: Hash, bit: nat -> bool, care: nat -> bool) returns (key: nat)
    requires |s| == NumSlot && Windowed(s, hash) && !Spares(s, EmptySlots(), hash, bit, care, 0)
    ensures Concerned(hash, bit, care, key) && !SameAnswers(s, Moved(s, hash, bit), hash, key)
  {
    hide CopyFrom, Spares, GetFrom, Tidy;
    EmptyTidy(hash);
    var q := DropsOne(s, EmptySlots(), hash, bit, care, 0);
    var r := Moved(s, hash, bit);
    key := s[q].key;
    var v, loc := s[q].value, Home(hash(key));
    var only := (x: nat) => x == v;
    GetOnly(s, key, v, loc, 0, Pos(loc, q));
    GetNone(r, key, only, loc, 0);
    assert GetFrom(r, key, only, loc, 0) != GetFrom(s, key, only, loc, 0);
  }

  // ---------------------------------------------------------------- exactly when a split keeps lookups

  /** The key's values that have wrapped past the end and those from its home on, which the split puts the other way
      round, are not comparable. */
  ghost predicate Straddles(s: seq<Pair>, hash: Hash, key: nat)
    requires |s| == NumSlot
  {
    !Comparable(Values(s[..Home(hash(key))], key), Values(s[Home(hash(key))..], key))
  }

  /** The condition: no pair the caller cares about is dropped for good, and no such key straddles the end. */
  ghost predicate Safe(s: seq<Pair>, hash: Hash, bit: nat -> bool, care: nat -> bool)
    requires |s| == NumSlot
  {
    && Spares(s, EmptySlots(), hash, bit, care, 0)
    && forall key: nat :: Concerned(hash, bit, care, key) ==> !Straddles(s, hash, key)
  }

  /** Without a drop for good, the old segment answers with its two parts in one order and the new one in the other. */
  lemma TwoOrders(s: seq<Pair>, hash: Hash, bit: nat -> bool, care: nat -> bool, key: nat, ok: nat -> bool)
    requires |s| == NumSlot && Windowed(s, hash) && Spares(s, EmptySlots(), hash, bit, care, 0)
    requires Concerned(hash, bit, care, key)
    ensures var loc := Home(hash(key));
            var a, b := Values(s[..loc], key), Values(s[loc..], key);
            && GetFrom(Moved(s, hash, bit), key, ok, loc, 0) == FirstOk(a + b, ok)
            && GetFrom(s, key, ok, loc, 0) == FirstOk(b + a, ok)
  {
    hide Values, Spares, GetFrom, FirstOk, Moved, Windowed;
    var loc := Home(hash(key));
    MovedAnswers(s, hash, bit, care, key, ok);
    ProbeOrder(s, hash, key);
    GetIsFirst(s, key, ok, loc);
    assert s == s[..loc] + s[loc..];
    ValuesConcat(s[..loc], s[loc..], key);
  }

  lemma SafeKeeps(s: seq<Pair>, hash: Hash, bit: nat -> bool, care: nat -> bool, key: nat)
    requires |s| == NumSlot && Windowed(s, hash) && Safe(s, hash, bit, care) && Concerned(hash, bit, care, key)
    ensures SameAnswers(s, Moved(s, hash, bit), hash, key)
  {
    var loc := Home(hash(key));
    var a, b := Values(s[..loc], key), Values(s[loc..], key);
    assert Comparable(a, b) by { assert !Straddles(s, hash, key); }
    hide Values, Spares, GetFrom, FirstOk, Moved, Windowed, Firsts;
    forall ok: nat -> bool ensures GetFrom(Moved(s, hash, bit), key, ok, loc, 0) == GetFrom(s, key, ok, loc, 0) {
      TwoOrders(s, hash, bit, care, key, ok);
      if Prefix(Firsts(a), Firsts(b)) {
        PrefixFirst(a, b, ok);
      } else {
        PrefixFirst(b, a, ok);
      }
    }
  }

  lemma StraddlingChanges(s: seq<Pair>, hash: Hash, bit: nat -> bool, care: nat -> bool, key: nat)
    requires |s| == NumSlot && Windowed(s, hash) && Spares(s, EmptySlots(), hash, bit, care, 0)
    requires Concerned(hash, bit, care, key) && Straddles(s, hash, key)
    ensures !SameAnswers(s, Moved(s, hash, bit), hash, key)
  {
    var loc := Home(hash(key));
    hide Values, Spares, GetFrom, FirstOk, Moved, Windowed, Comparable;
    var ok := OrdersDiffer(Values(s[..loc], key), Values(s[loc..], key));
    TwoOrders(s, hash, bit, care, key, ok);
    assert GetFrom(Moved(s, hash, bit), key, ok, loc, 0) != GetFrom(s, key, ok, loc, 0);
  }

  /** Exactly when a split keeps every lookup it concerns. */
  lemma SplitExact(s: seq<Pair>, hash: Hash, bit: nat -> bool, care: nat -> bool)
    requires |s| == NumSlot && Windowed(s, hash)
    ensures (forall key: nat :: Concerned(hash, bit, care, key) ==> SameAnswers(s, Moved(s, hash, bit), hash, key))
            <==> Safe(s, hash, bit, care)
  {
    hide SameAnswers, Moved, Spares, Windowed, Straddles, Concerned;
    if Safe(s, hash, bit, care) {
      forall key: nat | Concerned(hash, bit, care, key) ensures SameAnswers(s, Moved(s, hash, bit), hash, key) {
        SafeKeeps(s, hash, bit, care, key);
      }
    } else if Spares(s, EmptySlots(), hash, bit, care, 0) {
      var key: nat :| Concerned(hash, bit, care, key) && Straddles(s, hash, key);
      StraddlingChanges(s, hash, bit, care, key);
    } else {
      var key := DropChanges(s, hash, bit, care);
    }
  }

  /** Where no pair has wrapped, every moved pair lands at or before its old slot, so none is dropped, and every
      lookup keeps its answer, repeated fingerprints included. */
  lemma SplitKeepsGet(s: seq<Pair>, hash: Hash, bit: nat -> bool, care: nat -> bool)
    requires |s| == NumSlot && Windowed(s, hash) && Unwrapped(s, hash)
    ensures Safe(s, hash, bit, care)
    ensures forall key: nat :: Concerned(hash, bit, care, key) ==> SameAnswers(s, Moved(s, hash, bit), hash, key)
  {
    UnwrappedFits(s, EmptySlots(), hash, bit, care, 0);
    FitsSpares(s, EmptySlots(), hash, bit, care, 0);
    forall key: nat | Concerned(hash, bit, care, key) ensures !Straddles(s, hash, key) {
      NoValues(s[..Home(hash(key))], key);
      assert Firsts([]) == [];
    }
    hide Fits, Spares, SameAnswers, Moved, Windowed, Unwrapped, Straddles;
    forall key: nat | Concerned(hash, bit, care, key) ensures SameAnswers(s, Moved(s, hash, bit), hash, key) {
      SafeKeeps(s, hash, bit, care, key);
    }
  }
}

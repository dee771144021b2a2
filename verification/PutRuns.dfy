/** What a `put` that returns has done: alone, and among any other clients. */
module PutRuns {
  import opened Options
  import opened PutEngine

  // ---------------------------------------------------------------- alone

  /** `n` steps of client `c` alone lead from `s` to `s'`. */
  ghost predicate Alone(s: State, c: nat, n: nat, s': State)
    decreases n
  {
    if n == 0 then s' == s else Shape(s) && c < |s.clients| && Alone(Advance(s, c), c, n - 1, s')
  }

  lemma {:induction false} AloneThen(s: State, c: nat, n: nat, t: State, m: nat, u: State)
    requires Alone(s, c, n, t) && Alone(t, c, m, u)
    ensures Alone(s, c, n + m, u)
    decreases n
  {
    if n > 0 {
      AloneThen(Advance(s, c), c, n - 1, t, m, u);
    }
  }

  lemma AloneOne(s: State, c: nat)
    requires Shape(s) && c < |s.clients|
    ensures Alone(s, c, 1, Advance(s, c))
  {
    hide Advance;
    assert Alone(Advance(s, c), c, 0, Advance(s, c));
  }

  /** `f` is the first free slot of page `p`. */
  predicate FirstSlot(s: State, p: nat, f: nat) {
    && p < |s.pages| && f < |s.pages[p].free| && s.pages[p].free[f] && forall i :: 0 <= i < f ==> !s.pages[p].free[i]
  }

  lemma FirstSlotIs(s: State, p: nat, f: nat)
    requires FirstSlot(s, p, f)
    ensures FirstFree(s.pages[p].free, 0) == f
  {
  }

  /** `rec` is stored and live at `o`, the index says so, the record indexed before is free, and nothing else differs:
      no other record, no lock, no client. */
  ghost predicate PutDone(s: State, s': State, o: Off, rec: Rec)
    requires Shape(s) && Shape(s')
  {
    && s'.clients == s.clients && s'.index == s.index[rec.key := o] && s'.orphans == s.orphans
    && s'.puts == s.puts + {rec} && |s'.pages| == |s.pages|
    && (forall q :: 0 <= q < |s.pages| ==> s'.pages[q].holder == s.pages[q].holder)
    && (forall x :: Exists(s', x) <==> Exists(s, x))
    && Live(s', o) && At(s', o) == rec
    && (forall x :: x != o ==> (Live(s', x) <==> Live(s, x) && !(rec.key in s.index && s.index[rec.key] == x)))
    && (forall x :: x != o && Exists(s, x) ==> At(s', x) == At(s, x))
  }

  /** Page `p` with `rec` in slot `f`. */
  function Filled(pg: Page, f: nat, rec: Rec, h: Option<nat>): (pg': Page)
    requires f < |pg.free| && f < |pg.data|
  {
    Page(pg.free[f := false], pg.data[f := rec], h)
  }

  /** From the lock to publication. */
  lemma Publishes(s: State, c: nat, p: nat, f: nat, rec: Rec)
    requires Shape(s) && c < |s.clients| && s.clients[c] == Idle && FirstSlot(s, p, f) && s.pages[p].holder == None
    ensures Alone(Begin(s, c, p, rec), c, 3, Published(s, c, p, f, rec))
  {
    var s1 := Begin(s, c, p, rec);
    var s2 := s1.(clients := s.clients[c := Writing(p, f, rec)]);
    var pg := s.pages[p];
    var s3 := s1.(pages := s.pages[p := Page(pg.free, pg.data[f := rec], Some(c))],
                  clients := s.clients[c := Written(p, f, rec)]);
    FirstSlotIs(s1, p, f);
    assert Advance(s1, c) == s2;
    assert s1.pages[p := Page(pg.free, pg.data[f := rec], Some(c))] == s3.pages;
    assert Advance(s2, c) == s3;
    assert s3.pages[p := Filled(pg, f, rec, Some(c))] == Published(s, c, p, f, rec).pages;
    assert Advance(s3, c) == Published(s, c, p, f, rec);
    hide Advance, FirstFree;
    AloneOne(s1, c);
    AloneOne(s2, c);
    AloneOne(s3, c);
    hide Alone;
    AloneThen(s1, c, 1, s2, 1, s3);
    AloneThen(s1, c, 2, s3, 1, Published(s, c, p, f, rec));
  }

  function Published(s: State, c: nat, p: nat, f: nat, rec: Rec): (s': State)
    requires Shape(s) && c < |s.clients| && p < |s.pages| && f < |s.pages[p].free|
    ensures Shape(s')
  {
    s.(pages := s.pages[p := Filled(s.pages[p], f, rec, Some(c))], clients := s.clients[c := Visible(p, f, rec)],
       puts := s.puts + {rec})
  }

  /** From publication to the return, for a key that was not indexed. */
  lemma ReturnsNew(s: State, c: nat, p: nat, f: nat, rec: Rec) returns (s': State)
    requires Inv(s) && c < |s.clients| && s.clients[c] == Idle && FirstSlot(s, p, f) && s.pages[p].holder == None
    requires rec.key !in s.index
    ensures Alone(Published(s, c, p, f, rec), c, 2, s') && Shape(s') && PutDone(s, s', Off(p, f), rec)
  {
    InvShape(s);
    hide Inv, Alone;
    var s1 := Published(s, c, p, f, rec);
    var s2 := s1.(index := s.index[rec.key := Off(p, f)], clients := s.clients[c := Ending(p, rec)]);
    assert Advance(s1, c) == s2;
    s' := s2.(pages := s.pages[p := Filled(s.pages[p], f, rec, None)], clients := s.clients);
    assert s.clients[c := Ending(p, rec)][c := Idle] == s.clients;
    assert s1.pages[p := Filled(s.pages[p], f, rec, None)] == s'.pages;
    assert Advance(s2, c) == s';
    hide Advance;
    AloneOne(s1, c);
    AloneOne(s2, c);
    AloneThen(s1, c, 1, s2, 1, s');
    assert PutDone(s, s', Off(p, f), rec);
  }

  /** The page of the superseded record, free of it. */
  function Dropped(pages: seq<Page>, o: Off): (pages': seq<Page>)
    requires o.page < |pages| && o.slot < |pages[o.page].free|
  {
    pages[o.page := pages[o.page].(free := pages[o.page].free[o.slot := true])]
  }

  function Held(pages: seq<Page>, q: nat, h: Option<nat>): (pages': seq<Page>)
    requires q < |pages|
  {
    pages[q := pages[q].(holder := h)]
  }

  /** From publication to the free, with both pages locked. */
  lemma Frees(s: State, c: nat, p: nat, f: nat, rec: Rec, o: Off, s4: State)
    requires Shape(s) && c < |s.clients| && p < |s.pages| && f < |s.pages[p].free|
    requires rec.key in s.index && s.index[rec.key] == o && Exists(s, o) && (o.page == p || s.pages[o.page].holder == None)
    requires var s1 := Published(s, c, p, f, rec);
             s4 == s1.(index := s.index[rec.key := Off(p, f)], pages := Dropped(Held(s1.pages, o.page, Some(c)), o),
                       clients := s.clients[c := Freed(p, rec, o.page)])
    ensures Alone(Published(s, c, p, f, rec), c, 3, s4)
  {
    var s1 := Published(s, c, p, f, rec);
    var s2 := s1.(index := s.index[rec.key := Off(p, f)], clients := s.clients[c := Swapped(p, rec, o)]);
    var s3 := s2.(pages := Held(s1.pages, o.page, Some(c)), clients := s.clients[c := Freeing(p, rec, o)]);
    assert s1.clients[c := s2.clients[c]] == s2.clients && s2.clients[c := s3.clients[c]] == s3.clients;
    assert s3.clients[c := s4.clients[c]] == s4.clients;
    assert Advance(s1, c) == s2;
    assert o.page == p ==> s1.pages[p := s1.pages[p]] == s1.pages;
    assert Advance(s2, c) == s3;
    assert Advance(s3, c) == s4;
    hide Advance;
    AloneOne(s1, c);
    AloneOne(s2, c);
    AloneOne(s3, c);
    hide Alone;
    AloneThen(s1, c, 1, s2, 1, s3);
    AloneThen(s1, c, 2, s3, 1, s4);
  }

  /** From the free to the return. */
  lemma Leaves(s4: State, c: nat, p: nat, rec: Rec, q: nat, s': State)
    requires Shape(s4) && c < |s4.clients| && s4.clients[c] == Freed(p, rec, q) && p < |s4.pages| && q < |s4.pages|
    requires s' == s4.(pages := Held(Held(s4.pages, q, None), p, None), clients := s4.clients[c := Idle])
    ensures Alone(s4, c, 2, s')
  {
    var s5 := s4.(pages := if q == p then s4.pages else Held(s4.pages, q, None), clients := s4.clients[c := Ending(p, rec)]);
    assert Advance(s4, c) == s5;
    assert s5.clients[c := Idle] == s'.clients;
    assert Held(s5.pages, p, None) == s'.pages;
    assert Advance(s5, c) == s';
    hide Advance;
    AloneOne(s4, c);
    AloneOne(s5, c);
    hide Alone;
    AloneThen(s4, c, 1, s5, 1, s');
  }

  lemma ReturnsOld(s: State, c: nat, p: nat, f: nat, rec: Rec) returns (s': State)
    requires Inv(s) && c < |s.clients| && s.clients[c] == Idle && FirstSlot(s, p, f) && s.pages[p].holder == None
    requires rec.key in s.index && (s.index[rec.key].page < |s.pages| ==> s.pages[s.index[rec.key].page].holder == None)
    ensures Alone(Published(s, c, p, f, rec), c, 5, s') && Shape(s') && PutDone(s, s', Off(p, f), rec)
  {
    var o := s.index[rec.key];
    IndexAll(s);
    assert Live(s, o) && !Live(s, Off(p, f));
    hide Inv, Alone;
    var s1 := Published(s, c, p, f, rec);
    var s4 := s1.(index := s.index[rec.key := Off(p, f)], pages := Dropped(Held(s1.pages, o.page, Some(c)), o),
                  clients := s.clients[c := Freed(p, rec, o.page)]);
    Frees(s, c, p, f, rec, o, s4);
    s' := s4.(pages := Held(Held(s4.pages, o.page, None), p, None), clients := s.clients);
    assert s4.clients[c := Idle] == s.clients;
    Leaves(s4, c, p, rec, o.page, s');
    AloneThen(s1, c, 3, s4, 2, s');
    OldDone(s, c, p, f, rec, o, s');
  }

  lemma OldDone(s: State, c: nat, p: nat, f: nat, rec: Rec, o: Off, s': State)
    requires Shape(s) && c < |s.clients| && FirstSlot(s, p, f) && s.pages[p].holder == None
    requires rec.key in s.index && s.index[rec.key] == o && Live(s, o) && s.pages[o.page].holder == None
    requires var s1 := Published(s, c, p, f, rec);
             s' == s1.(index := s.index[rec.key := Off(p, f)], clients := s.clients,
                       pages := Held(Held(Dropped(Held(s1.pages, o.page, Some(c)), o), o.page, None), p, None))
    ensures Shape(s') && PutDone(s, s', Off(p, f), rec)
  {
    forall q | 0 <= q < |s.pages| ensures PageDone(s, s', q, p, f, rec, o) {
    }
    hide Held, Dropped, Filled;
    assert forall x: Off :: x.page < |s.pages| ==> PageDone(s, s', x.page, p, f, rec, o);
    assert forall x :: Exists(s', x) <==> Exists(s, x);
  }

  /** Page `q` before and after, with slot `f` of page `p` filled and slot `o` freed. */
  ghost predicate PageDone(s: State, s': State, q: nat, p: nat, f: nat, rec: Rec, o: Off)
    requires Shape(s) && q < |s.pages|
  {
    && |s'.pages| == |s.pages| && s'.pages[q].holder == s.pages[q].holder
    && |s'.pages[q].free| == |s'.pages[q].data| == |s.pages[q].free|
    && forall i: nat :: i < |s.pages[q].free| ==>
         && s'.pages[q].free[i] == (if Off(q, i) == Off(p, f) then false else s.pages[q].free[i] || Off(q, i) == o)
         && s'.pages[q].data[i] == (if Off(q, i) == Off(p, f) then rec else s.pages[q].data[i])
  }

  /** A put left alone on an unlocked page with a free slot returns after at most eight steps: its record is stored in the
      first free slot, published and indexed, the record indexed before is freed, and all locks are as before. */
  lemma PutAlone(s: State, c: nat, p: nat, f: nat, rec: Rec)
    requires Inv(s) && c < |s.clients| && s.clients[c] == Idle && FirstSlot(s, p, f) && s.pages[p].holder == None
    requires rec.key in s.index && s.index[rec.key].page < |s.pages| ==> s.pages[s.index[rec.key].page].holder == None
    ensures exists n: nat, s': State ::
              n <= 8 && Alone(Begin(s, c, p, rec), c, n, s') && Shape(s') && PutDone(s, s', Off(p, f), rec)
  {
    Publishes(s, c, p, f, rec);
    var s1 := Published(s, c, p, f, rec);
    var n := if rec.key in s.index then 5 else 2;
    var s': State;
    if rec.key in s.index {
      s' := ReturnsOld(s, c, p, f, rec);
    } else {
      s' := ReturnsNew(s, c, p, f, rec);
    }
    hide Alone, PutDone, Inv;
    AloneThen(Begin(s, c, p, rec), c, 3, s1, n, s');
  }

  /** On a full page it gives the lock back and has stored nothing. */
  lemma FullPage(s: State, c: nat, p: nat, rec: Rec)
    requires Shape(s) && c < |s.clients| && s.clients[c] == Idle && p < |s.pages| && s.pages[p].holder == None
    requires forall i :: 0 <= i < |s.pages[p].free| ==> !s.pages[p].free[i]
    ensures Alone(Begin(s, c, p, rec), c, 1, s.(puts := s.puts + {rec}))
  {
    var s1 := Begin(s, c, p, rec);
    AloneOne(s1, c);
    assert s1.pages[p := s1.pages[p].(holder := None)] == s.pages;
    assert s1.clients[c := Idle] == s.clients;
  }

  // ---------------------------------------------------------------- locks are given back

  /** A locked page is locked by a client whose put is at a point where it holds that page. */
  ghost predicate LocksOwned(s: State) {
    forall p: nat :: p < |s.pages| && s.pages[p].holder.Some? ==> Owned(s, p, s.pages[p].holder.value)
  }

  ghost predicate Owned(s: State, p: nat, c: nat) { c < |s.clients| && HoldsPage(s.clients[c], p) }

  /** A page stays locked by whoever had it, or is locked by `c`, where `c` needs it, or by nobody. */
  ghost predicate LockMoves(s: State, s': State, c: nat, p: nat) {
    && p < |s.pages| && p < |s'.pages| && c < |s'.clients|
    && (s'.pages[p].holder == s.pages[p].holder || s'.pages[p].holder == None || s'.pages[p].holder == Some(c))
    && (s'.pages[p].holder == Some(c) ==> HoldsPage(s'.clients[c], p))
  }

  lemma StoreMoves(s: State, c: nat, p: nat)
    requires Shape(s) && c < |s.clients| && p < |s.pages|
    requires s.clients[c].Writing? || s.clients[c].Written? || s.clients[c].Visible? || s.clients[c].Freeing?
    requires s.pages[p].holder == Some(c) ==> HoldsPage(s.clients[c], p)
    ensures LockMoves(s, Advance(s, c), c, p)
  {
  }

  lemma HolderAfter(s: State, c: nat, p: nat)
    requires Shape(s) && c < |s.clients| && p < |s.pages|
    requires s.pages[p].holder == Some(c) ==> HoldsPage(s.clients[c], p)
    ensures LockMoves(s, Advance(s, c), c, p)
  {
    hide FirstFree;
    if s.clients[c].Writing? || s.clients[c].Written? || s.clients[c].Visible? || s.clients[c].Freeing? {
      hide Advance, LockMoves;
      StoreMoves(s, c, p);
    }
  }

  lemma AdvanceOwned(s: State, c: nat)
    requires Shape(s) && c < |s.clients| && LocksOwned(s)
    ensures LocksOwned(Advance(s, c))
  {
    var s' := Advance(s, c);
    OthersStay(s, c);
    hide Advance, HoldsPage;
    forall p: nat | p < |s'.pages| && s'.pages[p].holder.Some? ensures Owned(s', p, s'.pages[p].holder.value) {
      assert s.pages[p].holder.Some? ==> Owned(s, p, s.pages[p].holder.value);
      HolderAfter(s, c, p);
    }
  }

  lemma OthersStay(s: State, c: nat)
    requires Shape(s) && c < |s.clients|
    ensures var s' := Advance(s, c);
            && |s'.pages| == |s.pages| && |s'.clients| == |s.clients|
            && forall d :: 0 <= d < |s.clients| && d != c ==> s'.clients[d] == s.clients[d]
  {
    hide FirstFree;
  }

  lemma StepOwned(s: State, act: Act)
    requires Inv(s) && LocksOwned(s)
    ensures LocksOwned(Step(s, act))
  {
    hide Advance, Inv, Recovers;
    InvShape(s);
    var s' := Step(s, act);
    if act.Go? && act.c < |s.clients| {
      AdvanceOwned(s, act.c);
    } else {
      forall p: nat | p < |s'.pages| && s'.pages[p].holder.Some? ensures Owned(s', p, s'.pages[p].holder.value) {
        if s'.pages[p].holder == s.pages[p].holder {
          assert Owned(s, p, s.pages[p].holder.value);
        }
      }
    }
  }

  // ---------------------------------------------------------------- among others

  ghost predicate Runs(run: seq<State>, acts: seq<Act>) {
    && |run| == |acts| + 1
    && forall j :: 0 <= j < |acts| ==> Shape(run[j]) && run[j + 1] == Step(run[j], acts[j])
  }

  lemma {:induction false} RunInv(run: seq<State>, acts: seq<Act>, j: nat)
    requires Runs(run, acts) && Inv(run[0]) && j < |run|
    ensures Inv(run[j])
  {
    hide Step, Inv;
    if j > 0 {
      RunInv(run, acts, j - 1);
      StepInv(run[j - 1], acts[j - 1]);
    }
  }

  lemma {:induction false} RunOwned(run: seq<State>, acts: seq<Act>, j: nat)
    requires Runs(run, acts) && Inv(run[0]) && LocksOwned(run[0]) && j < |run|
    ensures LocksOwned(run[j])
  {
    hide Step, Inv;
    if j > 0 {
      RunInv(run, acts, j - 1);
      RunOwned(run, acts, j - 1);
      StepOwned(run[j - 1], acts[j - 1]);
    }
  }

  /** Step `i` begins client `c`'s put of `rec` on page `p`, where `f` is the first free slot. */
  ghost predicate Begins(run: seq<State>, acts: seq<Act>, i: nat, c: nat, p: nat, f: nat, rec: Rec) {
    && i < |acts| && |run| == |acts| + 1 && acts[i] == Put(c, p, rec) && c < |run[i].clients|
    && run[i].clients[c] == Idle && FirstSlot(run[i], p, f) && run[i].pages[p].holder == None
  }

  /** Between steps `i` and `j` client `c` is inside its put, and the process is not killed. */
  ghost predicate Inside(run: seq<State>, acts: seq<Act>, i: nat, j: nat, c: nat) {
    && i < j < |run| == |acts| + 1
    && (forall x :: i <= x < j ==> !acts[x].Restart?)
    && (forall x :: i < x < j ==> c < |run[x].clients| && run[x].clients[c] != Idle)
  }

  /** Step `m` of client `c` makes slot `o` live, with the whole record in it. */
  ghost predicate MakesLive(run: seq<State>, acts: seq<Act>, m: nat, c: nat, o: Off, rec: Rec) {
    && m < |acts| && |run| == |acts| + 1 && acts[m] == Go(c) && Shape(run[m]) && Shape(run[m + 1])
    && !Live(run[m], o) && Live(run[m + 1], o) && At(run[m + 1], o) == rec
  }

  /** Step `q` of client `c` points the index entry of the key at slot `o`, which holds the record. */
  ghost predicate Indexes(run: seq<State>, acts: seq<Act>, q: nat, c: nat, o: Off, rec: Rec) {
    && q < |acts| && |run| == |acts| + 1 && acts[q] == Go(c) && Shape(run[q])
    && Live(run[q], o) && At(run[q], o) == rec && run[q + 1].index == run[q].index[rec.key := o]
  }

  /** Step `z` of client `c` frees slot `o`. */
  ghost predicate FreesSlot(run: seq<State>, acts: seq<Act>, z: nat, c: nat, o: Off) {
    && z < |acts| && |run| == |acts| + 1 && acts[z] == Go(c) && Shape(run[z]) && Shape(run[z + 1])
    && Live(run[z], o) && !Live(run[z + 1], o)
  }

  /** The record has been published, at some step after `i`. */
  ghost predicate WasPublished(run: seq<State>, acts: seq<Act>, i: nat, x: nat, c: nat, o: Off, rec: Rec) {
    exists m: nat :: i < m < x && MakesLive(run, acts, m, c, o, rec)
  }

  /** And indexed after that, at step `q`. */
  ghost predicate WasIndexed(run: seq<State>, acts: seq<Act>, i: nat, x: nat, q: nat, c: nat, o: Off, rec: Rec) {
    q < x && Indexes(run, acts, q, c, o, rec) && WasPublished(run, acts, i, q, c, o, rec)
  }

  /** And the record indexed before, if any, has been freed after that. */
  ghost predicate Settled(run: seq<State>, acts: seq<Act>, i: nat, x: nat, c: nat, o: Off, rec: Rec) {
    exists q: nat :: WasIndexed(run, acts, i, x, q, c, o, rec) && OldFreed(run, acts, x, q, c, rec.key)
  }

  ghost predicate OldFreed(run: seq<State>, acts: seq<Act>, x: nat, q: nat, c: nat, k: nat) {
    q < |run| && (k in run[q].index ==> exists z: nat :: q < z < x && FreesSlot(run, acts, z, c, run[q].index[k]))
  }

  /** How far a put has come by step `x`, told by where its client stands. */
  ghost predicate Phase(run: seq<State>, acts: seq<Act>, i: nat, x: nat, c: nat, p: nat, f: nat, rec: Rec)
    requires x < |run| && c < |run[x].clients|
  {
    var o := Off(p, f);
    match run[x].clients[c]
    case Idle => Settled(run, acts, i, x, c, o, rec)
    case Locked(p', rec') => p' == p && rec' == rec && FirstSlot(run[x], p, f)
    case Writing(p', slot, rec') => Off(p', slot) == o && rec' == rec
    case Written(p', slot, rec') => Off(p', slot) == o && rec' == rec
    case Visible(p', slot, rec') => Off(p', slot) == o && rec' == rec && WasPublished(run, acts, i, x, c, o, rec)
    case Swapped(_, rec', old_) => rec' == rec && Owing(run, acts, i, x, c, o, rec, old_)
    case Freeing(_, rec', old_) => rec' == rec && Owing(run, acts, i, x, c, o, rec, old_)
    case Freed(_, rec', _) => rec' == rec && Settled(run, acts, i, x, c, o, rec)
    case Ending(_, rec') => rec' == rec && Settled(run, acts, i, x, c, o, rec)
  }

  /** Indexed, with the record indexed before still to be freed. */
  ghost predicate Owing(run: seq<State>, acts: seq<Act>, i: nat, x: nat, c: nat, o: Off, rec: Rec, old_: Off) {
    exists q: nat :: WasIndexed(run, acts, i, x, q, c, o, rec) && rec.key in run[q].index && run[q].index[rec.key] == old_
  }

  lemma AdvanceBitmap(s: State, d: nat, p: nat)
    requires Shape(s) && d < |s.clients| && p < |s.pages| && !HoldsPage(s.clients[d], p)
    ensures p < |Advance(s, d).pages| && Advance(s, d).pages[p].free == s.pages[p].free
  {
    hide FirstFree;
  }

  /** Nobody else touches the bitmap of a page a client holds. */
  lemma BitmapKept(s: State, act: Act, c: nat, p: nat)
    requires Inv(s) && Shape(s) && c < |s.clients| && p < |s.pages| && HoldsPage(s.clients[c], p)
    requires !act.Restart? && act != Go(c)
    ensures p < |Step(s, act).pages| && Step(s, act).pages[p].free == s.pages[p].free
  {
    if act.Go? && act.c < |s.clients| {
      assert ClientInv(s, c) && ClientInv(s, act.c);
      assert !HoldsPage(s.clients[act.c], p);
      hide Advance, Inv;
      AdvanceBitmap(s, act.c, p);
    } else {
      hide Inv, Advance;
    }
  }

  /** A client inside a put is moved by its own steps alone. */
  lemma ClientKept(s: State, act: Act, c: nat)
    requires Shape(s) && c < |s.clients| && s.clients[c] != Idle && !act.Restart? && act != Go(c)
    ensures c < |Step(s, act).clients| && Step(s, act).clients[c] == s.clients[c]
  {
  }

  lemma PhaseWaits(run: seq<State>, acts: seq<Act>, i: nat, x: nat, c: nat, p: nat, f: nat, rec: Rec)
    requires Runs(run, acts) && i < x < |acts| && Inv(run[x]) && c < |run[x].clients| && run[x].clients[c] != Idle
    requires !acts[x].Restart? && acts[x] != Go(c) && Phase(run, acts, i, x, c, p, f, rec)
    ensures c < |run[x + 1].clients| && Phase(run, acts, i, x + 1, c, p, f, rec)
  {
    var s, s' := run[x], run[x + 1];
    assert s' == Step(s, acts[x]);
    ClientKept(s, acts[x], c);
    if s.clients[c].Locked? {
      assert HoldsPage(s.clients[c], p);
      BitmapKept(s, acts[x], c, p);
    }
    hide Step, Inv, Runs;
    LaterStill(run, acts, i, x, c, Off(p, f), rec);
  }

  /** What has happened stays so. */
  lemma LaterStill(run: seq<State>, acts: seq<Act>, i: nat, x: nat, c: nat, o: Off, rec: Rec)
    ensures WasPublished(run, acts, i, x, c, o, rec) ==> WasPublished(run, acts, i, x + 1, c, o, rec)
    ensures Settled(run, acts, i, x, c, o, rec) ==> Settled(run, acts, i, x + 1, c, o, rec)
    ensures forall old_ :: Owing(run, acts, i, x, c, o, rec, old_) ==> Owing(run, acts, i, x + 1, c, o, rec, old_)
  {
    if Settled(run, acts, i, x, c, o, rec) {
      var q: nat :| WasIndexed(run, acts, i, x, q, c, o, rec) && OldFreed(run, acts, x, q, c, rec.key);
      assert WasIndexed(run, acts, i, x + 1, q, c, o, rec) && OldFreed(run, acts, x + 1, q, c, rec.key);
    }
    forall old_ | Owing(run, acts, i, x, c, o, rec, old_) ensures Owing(run, acts, i, x + 1, c, o, rec, old_) {
      var q: nat :| WasIndexed(run, acts, i, x, q, c, o, rec) && rec.key in run[q].index && run[q].index[rec.key] == old_;
      assert WasIndexed(run, acts, i, x + 1, q, c, o, rec);
    }
  }

  lemma PublishMoves(run: seq<State>, acts: seq<Act>, i: nat, x: nat, c: nat, o: Off, rec: Rec)
    requires Runs(run, acts) && i < x < |acts| && Inv(run[x]) && c < |run[x].clients| && acts[x] == Go(c)
    requires run[x].clients[c] == Written(o.page, o.slot, rec)
    ensures c < |run[x + 1].clients| && run[x + 1].clients[c] == Visible(o.page, o.slot, rec)
    ensures WasPublished(run, acts, i, x + 1, c, o, rec)
  {
    assert run[x + 1] == Advance(run[x], c);
    PublishFacts(run[x], c);
    assert ClientInv(run[x], c);
    hide Inv, Runs;
    assert MakesLive(run, acts, x, c, o, rec);
  }

  lemma IndexMoves(run: seq<State>, acts: seq<Act>, i: nat, x: nat, c: nat, o: Off, rec: Rec)
    requires Runs(run, acts) && i < x < |acts| && Inv(run[x]) && c < |run[x].clients| && acts[x] == Go(c)
    requires run[x].clients[c] == Visible(o.page, o.slot, rec) && WasPublished(run, acts, i, x, c, o, rec)
    ensures c < |run[x + 1].clients|
    ensures if rec.key in run[x].index then
              run[x + 1].clients[c] == Swapped(o.page, rec, run[x].index[rec.key])
              && Owing(run, acts, i, x + 1, c, o, rec, run[x].index[rec.key])
            else run[x + 1].clients[c] == Ending(o.page, rec) && Settled(run, acts, i, x + 1, c, o, rec)
  {
    assert run[x + 1] == Advance(run[x], c);
    assert ClientInv(run[x], c);
    hide Inv, Runs, WasPublished;
    assert Indexes(run, acts, x, c, o, rec);
    assert WasIndexed(run, acts, i, x + 1, x, c, o, rec);
    if rec.key !in run[x].index {
      assert OldFreed(run, acts, x + 1, x, c, rec.key);
    }
  }

  lemma FreeMoves(run: seq<State>, acts: seq<Act>, i: nat, x: nat, c: nat, o: Off, p: nat, rec: Rec, old_: Off)
    requires Runs(run, acts) && i < x < |acts| && Inv(run[x]) && c < |run[x].clients| && acts[x] == Go(c)
    requires run[x].clients[c] == Freeing(p, rec, old_) && Owing(run, acts, i, x, c, o, rec, old_)
    ensures c < |run[x + 1].clients| && run[x + 1].clients[c] == Freed(p, rec, old_.page)
    ensures Settled(run, acts, i, x + 1, c, o, rec)
  {
    assert run[x + 1] == Advance(run[x], c);
    FreeFacts(run[x], c);
    hide Inv, Runs, WasPublished, Indexes;
    assert FreesSlot(run, acts, x, c, old_);
    var q: nat :| WasIndexed(run, acts, i, x, q, c, o, rec) && rec.key in run[q].index && run[q].index[rec.key] == old_;
    assert WasIndexed(run, acts, i, x + 1, q, c, o, rec) && OldFreed(run, acts, x + 1, q, c, rec.key);
  }

  lemma PhaseMoves(run: seq<State>, acts: seq<Act>, i: nat, x: nat, c: nat, p: nat, f: nat, rec: Rec)
    requires Runs(run, acts) && i < x < |acts| && Inv(run[x]) && c < |run[x].clients| && run[x].clients[c] != Idle
    requires acts[x] == Go(c) && Phase(run, acts, i, x, c, p, f, rec)
    ensures c < |run[x + 1].clients| && Phase(run, acts, i, x + 1, c, p, f, rec)
  {
    hide Advance, Inv, WasPublished, Settled, Owing;
    var s, o := run[x], Off(p, f);
    assert run[x + 1] == Advance(s, c);
    LaterStill(run, acts, i, x, c, o, rec);
    match s.clients[c]
    case Written(_, _, _) => PublishMoves(run, acts, i, x, c, o, rec);
    case Visible(_, _, _) => IndexMoves(run, acts, i, x, c, o, rec);
    case Freeing(p', _, old_) => FreeMoves(run, acts, i, x, c, o, p', rec, old_);
    case Locked(_, _) =>
      FirstSlotIs(s, p, f);
      QuietMoves(s, c);
    case _ => QuietMoves(s, c);
  }

  /** The steps of a client that neither publish nor index nor free. */
  lemma QuietMoves(s: State, c: nat)
    requires Shape(s) && c < |s.clients| && !s.clients[c].Written? && !s.clients[c].Visible? && !s.clients[c].Freeing?
    ensures c < |Advance(s, c).clients|
    ensures var x, x' := s.clients[c], Advance(s, c).clients[c];
            match x
            case Locked(p, rec) =>
              p < |s.pages| && FirstFree(s.pages[p].free, 0) < |s.pages[p].free| ==>
                x' == Writing(p, FirstFree(s.pages[p].free, 0), rec)
            case Writing(p, slot, rec) => x' == x || x' == Written(p, slot, rec)
            case Swapped(p, rec, o) => x' == x || x' == Freeing(p, rec, o)
            case Freed(p, rec, _) => x' == Ending(p, rec)
            case _ => x' == Idle
  {
    hide FirstFree;
  }

  lemma {:induction false} PhaseAt(run: seq<State>, acts: seq<Act>, i: nat, x: nat, c: nat, p: nat, f: nat, rec: Rec)
    requires Runs(run, acts) && Inv(run[0]) && Begins(run, acts, i, c, p, f, rec) && Inside(run, acts, i, x, c)
    ensures c < |run[x].clients| && Phase(run, acts, i, x, c, p, f, rec)
    decreases x
  {
    if x == i + 1 {
      assert run[i + 1] == Step(run[i], acts[i]);
    } else {
      hide Step, Inv, Phase;
      PhaseAt(run, acts, i, x - 1, c, p, f, rec);
      RunInv(run, acts, x - 1);
      if acts[x - 1] == Go(c) {
        PhaseMoves(run, acts, i, x - 1, c, p, f, rec);
      } else {
        PhaseWaits(run, acts, i, x - 1, c, p, f, rec);
      }
    }
  }

  /** Among any other clients: a put that began on a page with a free slot and has returned published its own record in
      that page's first free slot, then indexed it, then freed the record indexed before, and holds no lock. */
  lemma PutReturned(run: seq<State>, acts: seq<Act>, i: nat, j: nat, c: nat, p: nat, f: nat, rec: Rec)
    requires Runs(run, acts) && Inv(run[0]) && LocksOwned(run[0])
    requires Begins(run, acts, i, c, p, f, rec) && Inside(run, acts, i, j, c)
    requires c < |run[j].clients| && run[j].clients[c] == Idle
    ensures Settled(run, acts, i, j, c, Off(p, f), rec)
    ensures forall q :: 0 <= q < |run[j].pages| ==> run[j].pages[q].holder != Some(c)
  {
    PhaseAt(run, acts, i, j, c, p, f, rec);
    RunOwned(run, acts, j);
    forall q: nat | q < |run[j].pages| ensures run[j].pages[q].holder != Some(c) {
      assert run[j].pages[q].holder.Some? ==> Owned(run[j], q, run[j].pages[q].holder.value);
    }
  }
}

/** Out-of-place `put` on fixed-size pages: any number of clients interleaved store by store, and what a
    kill at any moment leaves for the recovery scan. */
module PutEngine {
  import opened Options

  datatype Rec = Rec(key: nat, val: nat)

  /** Slot address: page and slot number. */
  datatype Off = Off(page: nat, slot: nat)

  /** A used page: free bitmap, slots, and the client holding the page lock. */
  datatype Page = Page(free: seq<bool>, data: seq<Rec>, holder: Option<nat>)

  /** Where a client stands in `put(rec)`. It holds the lock of `page` from `Locked` on. */
  datatype Client =
    | Idle
    | Locked(page: nat, rec: Rec)
    | Writing(page: nat, slot: nat, rec: Rec)
    | Written(page: nat, slot: nat, rec: Rec)
    | Visible(page: nat, slot: nat, rec: Rec)
    | Swapped(page: nat, rec: Rec, old_: Off)
    | Freeing(page: nat, rec: Rec, old_: Off)
    | Freed(page: nat, rec: Rec, other: nat)
    | Ending(page: nat, rec: Rec)

  /** Pages, the volatile index, the clients, and, for the proofs, every record ever passed to `put` and the live
      slots that a recovery passed over because it indexed another record of their key. */
  datatype State = State(pages: seq<Page>, index: map<nat, Off>, clients: seq<Client>, puts: set<Rec>, orphans: iset<Off>)

  predicate Shape(s: State) {
    forall p :: 0 <= p < |s.pages| ==> |s.pages[p].free| == |s.pages[p].data|
  }

  predicate Exists(s: State, o: Off)
    requires Shape(s)
  {
    o.page < |s.pages| && o.slot < |s.pages[o.page].free|
  }

  /** What the recovery scan visits: slots of used pages whose free bit is clear. */
  predicate Live(s: State, o: Off)
    requires Shape(s)
  {
    Exists(s, o) && !s.pages[o.page].free[o.slot]
  }

  function At(s: State, o: Off): (r: Rec)
    requires Shape(s) && Exists(s, o)
  {
    s.pages[o.page].data[o.slot]
  }

  /** `_Find_first` on the free bitmap. */
  function FirstFree(free: seq<bool>, i: nat): (j: nat)
    requires i <= |free|
    ensures i <= j <= |free| && (j < |free| ==> free[j]) && forall m :: i <= m < j ==> !free[m]
    decreases |free| - i
  {
    if i == |free| || free[i] then i else FirstFree(free, i + 1)
  }

  function Become(s: State, c: nat, x: Client): (s': State)
    requires c < |s.clients|
  {
    s.(clients := s.clients[c := x])
  }

  function SetPage(s: State, p: nat, pg: Page): (s': State)
    requires p < |s.pages|
  {
    s.(pages := s.pages[p := pg])
  }

  /** A client starts `put(rec)` on the page it currently fills, once the page lock is free. */
  function Begin(s: State, c: nat, p: nat, rec: Rec): (s': State)
    requires c < |s.clients|
  {
    if s.clients[c].Idle? && p < |s.pages| && s.pages[p].holder.None? then
      Become(SetPage(s, p, s.pages[p].(holder := Some(c))), c, Locked(p, rec)).(puts := s.puts + {rec})
    else s
  }

  /** The record is copied in pieces: until the copy is complete the slot may hold anything. */
  function Tear(s: State, c: nat, junk: Rec): (s': State)
    requires Shape(s) && c < |s.clients|
  {
    var x := s.clients[c];
    if x.Writing? && Exists(s, Off(x.page, x.slot)) then
      SetPage(s, x.page, s.pages[x.page].(data := s.pages[x.page].data[x.slot := junk]))
    else s
  }

  /** The next store of client `c`. */
  function Advance(s: State, c: nat): (s': State)
    requires Shape(s) && c < |s.clients|
  {
    match s.clients[c]
    case Idle => s
    case Locked(p, rec) =>
      if p >= |s.pages| then s
      else
        var slot := FirstFree(s.pages[p].free, 0);
        if slot == |s.pages[p].free| then Become(Unlock(s, p), c, Idle) else Become(s, c, Writing(p, slot, rec))
    case Writing(p, slot, rec) =>
      if !Exists(s, Off(p, slot)) then s
      else Become(SetPage(s, p, s.pages[p].(data := s.pages[p].data[slot := rec])), c, Written(p, slot, rec))
    case Written(p, slot, rec) =>
      if !Exists(s, Off(p, slot)) then s
      else Become(SetPage(s, p, s.pages[p].(free := s.pages[p].free[slot := false])), c, Visible(p, slot, rec))
    case Visible(p, slot, rec) =>
      var s1 := s.(index := s.index[rec.key := Off(p, slot)]);
      if rec.key in s.index then Become(s1, c, Swapped(p, rec, s.index[rec.key])) else Become(s1, c, Ending(p, rec))
    case Swapped(p, rec, o) =>
      if o.page == p then Become(s, c, Freeing(p, rec, o))
      else if o.page < |s.pages| && s.pages[o.page].holder.None? then
        Become(SetPage(s, o.page, s.pages[o.page].(holder := Some(c))), c, Freeing(p, rec, o))
      else s
    case Freeing(p, rec, o) =>
      if !Exists(s, o) then s
      else
        Become(SetPage(s, o.page, s.pages[o.page].(free := s.pages[o.page].free[o.slot := true])), c,
               Freed(p, rec, o.page))
    case Freed(p, rec, q) => Become(if q == p then s else Unlock(s, q), c, Ending(p, rec))
    case Ending(p, rec) => Become(Unlock(s, p), c, Idle)
  }

  function Unlock(s: State, p: nat): (s': State) {
    if p < |s.pages| then SetPage(s, p, s.pages[p].(holder := None)) else s
  }

  /** The order of the recovery scan. */
  predicate Before(a: Off, b: Off) { a.page < b.page || (a.page == b.page && a.slot < b.slot) }

  /** No later record of the same key is scanned by the same thread. */
  ghost predicate LastOfKey(s: State, thread: nat -> nat, o: Off)
    requires Shape(s) && Exists(s, o)
  {
    forall y :: Live(s, y) && At(s, y).key == At(s, o).key && thread(y.page) == thread(o.page) ==> !Before(o, y)
  }

  /** What recovery may put into the index. Each thread inserts the live records of its pages in scan order, the
      threads interleave, and the last insertion of a key stays: for each key that has a live record, one that is
      the last of its key in its thread. */
  ghost predicate Recovers(s: State, thread: nat -> nat, m: map<nat, Off>)
    requires Shape(s)
  {
    && (forall k :: k in m ==> Live(s, m[k]) && At(s, m[k]).key == k && LastOfKey(s, thread, m[k]))
    && (forall o :: Live(s, o) ==> At(s, o).key in m)
  }

  /** Kill and reopen: the clients are gone, stale page locks are repaired, and the index is rebuilt from the live
      records. Recovery frees nothing. */
  ghost function Restarted(s: State, m: map<nat, Off>): (s': State)
    requires Shape(s)
  {
    State(seq(|s.pages|, p requires 0 <= p < |s.pages| => s.pages[p].(holder := None)), m, [], s.puts,
          iset o: Off | Live(s, o) && !(At(s, o).key in m && m[At(s, o).key] == o))
  }

  datatype Act = Put(c: nat, page: nat, rec: Rec) | Torn(c: nat, junk: Rec) | Go(c: nat) | Join
               | Restart(thread: nat -> nat, m: map<nat, Off>)

  ghost function Step(s: State, act: Act): (s': State)
    requires Shape(s)
  {
    match act
    case Put(c, p, rec) => if c < |s.clients| then Begin(s, c, p, rec) else s
    case Torn(c, junk) => if c < |s.clients| then Tear(s, c, junk) else s
    case Go(c) => if c < |s.clients| then Advance(s, c) else s
    case Join => s.(clients := s.clients + [Idle])
    case Restart(thread, m) => if Recovers(s, thread, m) then Restarted(s, m) else s
  }

  // ---------------------------------------------------------------- invariant

  /** Pages a client holds. */
  predicate HoldsPage(x: Client, p: nat) {
    (!x.Idle? && x.page == p) || (x.Freeing? && x.old_.page == p) || (x.Freed? && x.other == p)
  }

  /** The slot a client has claimed and not yet handed to the index. */
  predicate Claims(x: Client, o: Off) {
    (x.Writing? || x.Written? || x.Visible?) && x.page == o.page && x.slot == o.slot
  }

  /** The superseded slot a client still has to free. */
  predicate Owes(x: Client, o: Off) { (x.Swapped? || x.Freeing?) && x.old_ == o }

  ghost predicate ClientInv(s: State, c: nat)
    requires Shape(s) && c < |s.clients|
  {
    var x := s.clients[c];
    && (!x.Idle? ==> x.page < |s.pages| && x.rec in s.puts)
    && (forall p :: 0 <= p < |s.pages| && HoldsPage(x, p) ==> s.pages[p].holder == Some(c))
    && (x.Writing? || x.Written? ==> Exists(s, Off(x.page, x.slot)) && !Live(s, Off(x.page, x.slot)))
    && (x.Written? ==> At(s, Off(x.page, x.slot)) == x.rec)
    && (x.Visible? ==> Live(s, Off(x.page, x.slot)) && At(s, Off(x.page, x.slot)) == x.rec)
    && (x.Swapped? || x.Freeing? ==> Live(s, x.old_) && At(s, x.old_).key == x.rec.key && x.rec.key in s.index)
    && (x.Freed? ==> x.other < |s.pages|)
  }

  /** A live slot is in exactly one role: the index's entry for its key, a client's new record before the
      index swap, or a client's superseded record before it is freed. */
  ghost predicate Indexed(s: State, o: Off)
    requires Shape(s) && Exists(s, o)
  {
    At(s, o).key in s.index && s.index[At(s, o).key] == o
  }

  ghost predicate NewOf(s: State, c: nat, o: Off) { c < |s.clients| && s.clients[c].Visible? && Claims(s.clients[c], o) }

  ghost predicate OldOf(s: State, c: nat, o: Off) { c < |s.clients| && Owes(s.clients[c], o) }

  ghost predicate Accounted(s: State, o: Off)
    requires Shape(s) && Exists(s, o)
  {
    Indexed(s, o) || (exists c: nat :: NewOf(s, c, o)) || (exists c: nat :: OldOf(s, c, o)) || o in s.orphans
  }

  /** The index points at live records of its keys, every live record is a complete one in a known role, and
      the roles do not overlap. */
  ghost predicate RoleInv(s: State)
    requires Shape(s)
  {
    && (forall k :: k in s.index ==> Live(s, s.index[k]) && At(s, s.index[k]).key == k)
    && (forall o :: Live(s, o) ==> At(s, o) in s.puts && Accounted(s, o))
    && (forall c: nat, o: Off :: NewOf(s, c, o) && Exists(s, o) ==> !Indexed(s, o))
    && (forall c: nat, o: Off :: OldOf(s, c, o) && Exists(s, o) ==> !Indexed(s, o))
    && (forall c: nat, d: nat, o: Off :: NewOf(s, c, o) ==> !OldOf(s, d, o))
    && (forall c: nat, d: nat, o: Off :: c != d && OldOf(s, c, o) ==> !OldOf(s, d, o))
  }

  /** Orphans are live records of indexed keys, in no other role. */
  ghost predicate OrphanInv(s: State)
    requires Shape(s)
  {
    && (forall o :: o in s.orphans ==> Live(s, o) && At(s, o).key in s.index && !Indexed(s, o))
    && (forall c: nat, o: Off :: NewOf(s, c, o) ==> o !in s.orphans)
    && (forall c: nat, o: Off :: OldOf(s, c, o) ==> o !in s.orphans)
  }

  ghost predicate Core(s: State) {
    && Shape(s)
    && (forall c :: 0 <= c < |s.clients| ==> ClientInv(s, c))
    && RoleInv(s)
  }

  ghost predicate Inv(s: State) { Core(s) && OrphanInv(s) }

  // ---------------------------------------------------------------- steps that only move locks

  /** Same slots, same index, and client `c` keeps the roles it had. */
  ghost predicate SameRoles(s: State, s': State, c: nat) {
    && Shape(s) && Shape(s') && |s'.pages| == |s.pages| && s'.index == s.index && s.puts <= s'.puts
    && s'.orphans == s.orphans
    && (forall p :: 0 <= p < |s.pages| ==> s'.pages[p].free == s.pages[p].free && s'.pages[p].data == s.pages[p].data)
    && c < |s.clients| && |s'.clients| == |s.clients|
    && (forall d :: 0 <= d < |s.clients| && d != c ==> s'.clients[d] == s.clients[d])
    && (forall o :: NewOf(s', c, o) == NewOf(s, c, o))
    && (forall o :: OldOf(s', c, o) == OldOf(s, c, o))
  }

  lemma RolesKept(s: State, s': State, c: nat)
    requires SameRoles(s, s', c) && RoleInv(s)
    ensures RoleInv(s')
  {
    forall d: nat, o: Off ensures NewOf(s', d, o) == NewOf(s, d, o) && OldOf(s', d, o) == OldOf(s, d, o) {
      if d != c && d < |s.clients| {
        assert s'.clients[d] == s.clients[d];
      }
    }
    forall o | Live(s', o) ensures At(s', o) in s'.puts && Accounted(s', o) {
      assert Live(s, o) && Accounted(s, o);
    }
  }

  /** The locks of everyone but `c` are untouched. */
  ghost predicate LocksKept(s: State, s': State, c: nat)
    requires |s'.pages| == |s.pages|
  {
    forall p :: 0 <= p < |s.pages| ==>
      s'.pages[p].holder == s.pages[p].holder
      || ((s.pages[p].holder == None || s.pages[p].holder == Some(c))
          && (s'.pages[p].holder == None || s'.pages[p].holder == Some(c)))
  }

  lemma OthersKept(s: State, s': State, c: nat, d: nat)
    requires SameRoles(s, s', c) && LocksKept(s, s', c) && d < |s.clients| && d != c && ClientInv(s, d)
    ensures ClientInv(s', d)
  {
    assert s'.clients[d] == s.clients[d];
    forall p | 0 <= p < |s'.pages| && HoldsPage(s'.clients[d], p) ensures s'.pages[p].holder == Some(d) {
      assert s.pages[p].holder == Some(d);
    }
  }

  lemma LockStep(s: State, s': State, c: nat)
    requires Inv(s) && SameRoles(s, s', c) && LocksKept(s, s', c) && ClientInv(s', c)
    ensures Core(s')
  {
    RolesKept(s, s', c);
    forall d | 0 <= d < |s'.clients| ensures ClientInv(s', d) {
      if d != c {
        OthersKept(s, s', c, d);
      }
    }
  }

  lemma BeginInv(s: State, c: nat, p: nat, rec: Rec)
    requires Inv(s) && c < |s.clients|
    ensures Core(Begin(s, c, p, rec))
  {
    var s' := Begin(s, c, p, rec);
    if s' != s {
      LockStep(s, s', c);
    }
  }

  lemma ChooseInv(s: State, c: nat)
    requires Inv(s) && c < |s.clients| && s.clients[c].Locked?
    ensures Core(Advance(s, c))
  {
    hide RoleInv;
    assert ClientInv(s, c);
    LockStep(s, Advance(s, c), c);
  }

  lemma LockOldInv(s: State, c: nat)
    requires Inv(s) && c < |s.clients| && s.clients[c].Swapped?
    ensures Core(Advance(s, c))
  {
    hide RoleInv;
    assert ClientInv(s, c);
    if Advance(s, c) != s {
      LockStep(s, Advance(s, c), c);
    }
  }

  lemma EndInv(s: State, c: nat)
    requires Inv(s) && c < |s.clients| && (s.clients[c].Freed? || s.clients[c].Ending?)
    ensures Core(Advance(s, c))
  {
    hide RoleInv;
    assert ClientInv(s, c);
    LockStep(s, Advance(s, c), c);
  }

  // ---------------------------------------------------------------- steps that store

  /** Storing into a slot that is not live, by the client that has claimed it. */
  ghost predicate DeadStore(s: State, s': State, c: nat, o: Off, r: Rec) {
    && Shape(s) && Exists(s, o) && !Live(s, o)
    && c < |s.clients| && |s'.clients| == |s.clients| && s'.index == s.index && s'.puts == s.puts
    && s'.orphans == s.orphans
    && s'.pages == s.pages[o.page := s.pages[o.page].(data := s.pages[o.page].data[o.slot := r])]
    && (forall d :: 0 <= d < |s.clients| && d != c ==> s'.clients[d] == s.clients[d])
    && !s'.clients[c].Visible? && !s'.clients[c].Swapped? && !s'.clients[c].Freeing?
    && !s.clients[c].Visible? && !s.clients[c].Swapped? && !s.clients[c].Freeing?
  }

  lemma DeadStoreRoles(s: State, s': State, c: nat, o: Off, r: Rec)
    requires DeadStore(s, s', c, o, r) && RoleInv(s)
    ensures Shape(s') && RoleInv(s')
    ensures forall x :: Live(s', x) <==> Live(s, x)
    ensures forall x :: Live(s, x) ==> At(s', x) == At(s, x)
  {
    forall d: nat, x: Off ensures NewOf(s', d, x) == NewOf(s, d, x) && OldOf(s', d, x) == OldOf(s, d, x) {
      if d != c && d < |s.clients| {
        assert s'.clients[d] == s.clients[d];
      }
    }
    assert forall x :: Exists(s', x) <==> Exists(s, x);
    assert forall x :: Exists(s, x) && x != o ==> At(s', x) == At(s, x);
    forall x | Live(s', x) ensures At(s', x) in s'.puts && Accounted(s', x) {
      assert Live(s, x) && Accounted(s, x);
    }
    assert forall x :: Exists(s', x) && Indexed(s', x) ==> Live(s, x) && Indexed(s, x);
  }

  lemma DeadStoreOthers(s: State, s': State, c: nat, o: Off, r: Rec, d: nat)
    requires DeadStore(s, s', c, o, r) && Shape(s') && d < |s.clients| && d != c && ClientInv(s, d)
    requires s.pages[o.page].holder == Some(c)
    ensures ClientInv(s', d)
  {
    assert s'.clients[d] == s.clients[d];
    assert forall x :: Exists(s', x) <==> Exists(s, x);
    assert forall x :: Exists(s, x) && x != o ==> At(s', x) == At(s, x);
    assert forall p :: 0 <= p < |s.pages| ==> s'.pages[p].holder == s.pages[p].holder;
    var x := s.clients[d];
    assert x.Written? ==> HoldsPage(x, x.page);
  }

  lemma WriteInv(s: State, s': State, c: nat, o: Off, r: Rec)
    requires Inv(s) && DeadStore(s, s', c, o, r) && s.pages[o.page].holder == Some(c)
    requires Shape(s') ==> ClientInv(s', c)
    ensures Core(s')
  {
    DeadStoreRoles(s, s', c, o, r);
    forall d | 0 <= d < |s'.clients| ensures ClientInv(s', d) {
      if d != c {
        DeadStoreOthers(s, s', c, o, r, d);
      }
    }
  }

  lemma TearInv(s: State, c: nat, junk: Rec)
    requires Inv(s) && c < |s.clients|
    ensures Core(Tear(s, c, junk))
  {
    var s' := Tear(s, c, junk);
    var x := s.clients[c];
    assert ClientInv(s, c);
    if x.Writing? {
      assert HoldsPage(x, x.page);
      WriteInv(s, s', c, Off(x.page, x.slot), junk);
    }
  }

  lemma CopyInv(s: State, c: nat)
    requires Inv(s) && c < |s.clients| && s.clients[c].Writing?
    ensures Core(Advance(s, c))
  {
    var x := s.clients[c];
    assert ClientInv(s, c);
    assert HoldsPage(x, x.page);
    WriteInv(s, Advance(s, c), c, Off(x.page, x.slot), x.rec);
  }

  /** Two clients cannot claim one slot: each would hold the page lock. */
  lemma ClaimHolds(s: State, c: nat, d: nat, o: Off)
    requires Shape(s) && c < |s.clients| && d < |s.clients| && c != d && ClientInv(s, c) && ClientInv(s, d)
    requires Claims(s.clients[c], o)
    ensures !Claims(s.clients[d], o)
  {
    assert HoldsPage(s.clients[c], o.page);
    if Claims(s.clients[d], o) {
      assert HoldsPage(s.clients[d], o.page);
    }
  }

  /** Clearing the free bit makes exactly the new, complete record visible. */
  lemma PublishRoles(s: State, c: nat)
    requires Inv(s) && c < |s.clients| && s.clients[c].Written?
    ensures Shape(Advance(s, c)) && RoleInv(Advance(s, c))
  {
    var s', x := Advance(s, c), s.clients[c];
    var o := Off(x.page, x.slot);
    assert ClientInv(s, c);
    PublishFacts(s, c);
    PublishParties(s, c);
    assert s'.index == s.index && s'.puts == s.puts && s'.orphans == s.orphans;
    forall d: nat | d < |s.clients| ensures !OldOf(s, d, o) {
      assert ClientInv(s, d);
    }
    hide Advance, ClientInv;
    forall y | Live(s', y) ensures At(s', y) in s'.puts && Accounted(s', y) {
      if y == o {
        assert NewOf(s', c, o);
      } else {
        assert Live(s, y) && Accounted(s, y);
      }
    }
  }

  lemma PublishParties(s: State, c: nat)
    requires Inv(s) && c < |s.clients| && s.clients[c].Written?
    ensures var s', o := Advance(s, c), Off(s.clients[c].page, s.clients[c].slot);
            && (forall d: nat, y: Off :: OldOf(s', d, y) <==> OldOf(s, d, y))
            && (forall d: nat, y: Off :: NewOf(s', d, y) <==> NewOf(s, d, y) || (d == c && y == o))
  {
    assert ClientInv(s, c);
    var s' := Advance(s, c);
    assert forall d :: 0 <= d < |s.clients| && d != c ==> s'.clients[d] == s.clients[d];
    hide Inv;
  }

  lemma PublishInv(s: State, c: nat)
    requires Inv(s) && c < |s.clients| && s.clients[c].Written?
    ensures Core(Advance(s, c))
  {
    var s', x := Advance(s, c), s.clients[c];
    var o := Off(x.page, x.slot);
    PublishRoles(s, c);
    PublishFacts(s, c);
    hide RoleInv;
    assert ClientInv(s, c);
    forall d | 0 <= d < |s'.clients| ensures ClientInv(s', d) {
      assert ClientInv(s, d);
      if d != c {
        assert s'.clients[d] == s.clients[d];
        ClaimHolds(s, c, d, o);
      }
    }
  }

  lemma PublishFacts(s: State, c: nat)
    requires Inv(s) && c < |s.clients| && s.clients[c].Written?
    ensures var s', o := Advance(s, c), Off(s.clients[c].page, s.clients[c].slot);
            && Shape(s') && Exists(s, o) && !Live(s, o)
            && (forall x :: Exists(s', x) <==> Exists(s, x))
            && (forall x :: Exists(s, x) ==> At(s', x) == At(s, x))
            && (forall x :: Live(s', x) <==> Live(s, x) || x == o)
            && (forall p :: 0 <= p < |s.pages| ==> s'.pages[p].holder == s.pages[p].holder)
  {
    assert ClientInv(s, c);
  }

  /** Which slots the index points at after the swap. */
  lemma SwapIndexed(s: State, c: nat)
    requires Inv(s) && c < |s.clients| && s.clients[c].Visible?
    ensures var s', x := Advance(s, c), s.clients[c];
            && Shape(s') && s'.pages == s.pages && s'.puts == s.puts && s'.orphans == s.orphans
            && (forall k :: k in s'.index ==> Live(s', s'.index[k]) && At(s', s'.index[k]).key == k)
            && (forall y :: Exists(s, y) ==>
                  (Indexed(s', y) <==> y == Off(x.page, x.slot) || (Indexed(s, y) && At(s, y).key != x.rec.key)))
  {
    assert ClientInv(s, c);
  }

  /** The index swap: the new record takes over its key, the old one is left to this client to free. */
  lemma SwapRoles(s: State, c: nat)
    requires Inv(s) && c < |s.clients| && s.clients[c].Visible?
    ensures Shape(Advance(s, c)) && RoleInv(Advance(s, c))
  {
    hide Advance, ClientInv, Accounted;
    var s', o := Advance(s, c), Off(s.clients[c].page, s.clients[c].slot);
    assert NewOf(s, c, o);
    OnlyClaimer(s, c);
    SwapIndexed(s, c);
    SwapParties(s, c);
    SwapAccounted(s, c);
    assert RoleInv(s);
    hide Inv, NewOf, OldOf;
    assert forall d: nat, y: Off :: NewOf(s', d, y) && Exists(s', y) ==> !Indexed(s', y);
    assert forall d: nat, y: Off :: OldOf(s', d, y) && Exists(s', y) ==> !Indexed(s', y);
  }

  lemma SwapAccounted(s: State, c: nat)
    requires Inv(s) && c < |s.clients| && s.clients[c].Visible?
    ensures var s' := Advance(s, c);
            Shape(s') && forall y :: Live(s', y) ==> At(s', y) in s'.puts && Accounted(s', y)
  {
    var s' := Advance(s, c);
    SwapIndexed(s, c);
    hide Advance;
    forall y | Live(s', y) ensures At(s', y) in s'.puts && Accounted(s', y) {
      assert Live(s, y) && Accounted(s, y);
      SwapAccounts(s, c, y);
    }
  }

  lemma OnlyClaimer(s: State, c: nat)
    requires Inv(s) && c < |s.clients| && s.clients[c].Visible?
    ensures var o := Off(s.clients[c].page, s.clients[c].slot);
            forall d: nat :: d != c ==> !NewOf(s, d, o)
  {
    var o := Off(s.clients[c].page, s.clients[c].slot);
    assert ClientInv(s, c);
    forall d: nat | d != c && d < |s.clients| ensures !NewOf(s, d, o) {
      assert ClientInv(s, d);
      ClaimHolds(s, c, d, o);
    }
  }

  lemma SwapParties(s: State, c: nat)
    requires Inv(s) && c < |s.clients| && s.clients[c].Visible?
    ensures var s', x := Advance(s, c), s.clients[c];
            && (forall d: nat, y: Off :: NewOf(s', d, y) <==> NewOf(s, d, y) && d != c)
            && (forall d: nat, y: Off :: OldOf(s', d, y) <==>
                  OldOf(s, d, y) || (d == c && x.rec.key in s.index && y == s.index[x.rec.key]))
  {
    var s' := Advance(s, c);
    forall d: nat | d < |s.clients| && d != c ensures s'.clients[d] == s.clients[d] {
    }
  }

  lemma SwapAccounts(s: State, c: nat, y: Off)
    requires Inv(s) && c < |s.clients| && s.clients[c].Visible? && Live(s, y) && Accounted(s, y)
    ensures Shape(Advance(s, c)) && Exists(Advance(s, c), y) && Accounted(Advance(s, c), y)
  {
    var s', x := Advance(s, c), s.clients[c];
    SwapParties(s, c);
    assert s'.pages == s.pages;
    if Indexed(s, y) {
      if At(s, y).key == x.rec.key {
        assert OldOf(s', c, y);
      }
    } else if d: nat :| NewOf(s, d, y) {
      if d == c {
        assert Indexed(s', y) by { assert ClientInv(s, c); }
      } else {
        assert NewOf(s', d, y);
      }
    } else if d: nat :| OldOf(s, d, y) {
      assert OldOf(s', d, y);
    }
  }

  lemma SwapClient(s: State, c: nat, d: nat)
    requires Shape(s) && c < |s.clients| && s.clients[c].Visible? && d < |s.clients| && ClientInv(s, c) && ClientInv(s, d)
    requires var k := s.clients[c].rec.key; k in s.index ==> Live(s, s.index[k]) && At(s, s.index[k]).key == k
    ensures Shape(Advance(s, c)) && ClientInv(Advance(s, c), d)
  {
    assert Advance(s, c).pages == s.pages;
  }

  lemma SwapInv(s: State, c: nat)
    requires Inv(s) && c < |s.clients| && s.clients[c].Visible?
    ensures Core(Advance(s, c))
  {
    SwapRoles(s, c);
    hide RoleInv;
    assert ClientInv(s, c);
    assert |Advance(s, c).clients| == |s.clients|;
    forall d | 0 <= d < |s.clients| ensures ClientInv(Advance(s, c), d) {
      IndexLive(s, s.clients[c].rec.key);
      SwapClient(s, c, d);
    }
  }

  lemma IndexLive(s: State, k: nat)
    requires Inv(s)
    ensures k in s.index ==> Live(s, s.index[k]) && At(s, s.index[k]).key == k
  {
  }

  /** Freeing the superseded record removes exactly it. */
  lemma FreeRoles(s: State, c: nat)
    requires Inv(s) && c < |s.clients| && s.clients[c].Freeing?
    ensures Shape(Advance(s, c)) && RoleInv(Advance(s, c))
  {
    var s' := Advance(s, c);
    assert ClientInv(s, c);
    assert OldOf(s, c, s.clients[c].old_);
    FreeFacts(s, c);
    FreeParties(s, c);
    assert s'.index == s.index && s'.puts == s.puts && s'.orphans == s.orphans;
    hide Advance, ClientInv;
    forall y | Live(s', y) ensures At(s', y) in s'.puts && Accounted(s', y) {
      assert Live(s, y) && Accounted(s, y);
    }
  }

  lemma FreeParties(s: State, c: nat)
    requires Inv(s) && c < |s.clients| && s.clients[c].Freeing?
    ensures var s' := Advance(s, c);
            && (forall d: nat, y: Off :: NewOf(s', d, y) <==> NewOf(s, d, y))
            && (forall d: nat, y: Off :: OldOf(s', d, y) <==> OldOf(s, d, y) && d != c)
  {
    assert ClientInv(s, c);
    var s' := Advance(s, c);
    assert forall d :: 0 <= d < |s.clients| && d != c ==> s'.clients[d] == s.clients[d];
    hide Inv;
  }

  lemma FreeInv(s: State, c: nat)
    requires Inv(s) && c < |s.clients| && s.clients[c].Freeing?
    ensures Core(Advance(s, c))
  {
    var s', o := Advance(s, c), s.clients[c].old_;
    assert ClientInv(s, c);
    assert OldOf(s, c, o);
    forall d | 0 <= d < |s.clients| && d != c ensures !OldOf(s, d, o) && !NewOf(s, d, o) {
    }
    FreeRoles(s, c);
    FreeFacts(s, c);
    hide RoleInv;
    forall d | 0 <= d < |s'.clients| ensures ClientInv(s', d) {
      assert ClientInv(s, d);
      if d != c {
        assert s'.clients[d] == s.clients[d];
        assert !OldOf(s, d, o) && !NewOf(s, d, o);
      }
    }
  }

  lemma FreeFacts(s: State, c: nat)
    requires Inv(s) && c < |s.clients| && s.clients[c].Freeing?
    ensures var s', o := Advance(s, c), s.clients[c].old_;
            && Shape(s') && Live(s, o)
            && (forall x :: Exists(s', x) <==> Exists(s, x))
            && (forall x :: Exists(s, x) ==> At(s', x) == At(s, x))
            && (forall x :: Live(s', x) <==> Live(s, x) && x != o)
            && (forall p :: 0 <= p < |s.pages| ==> s'.pages[p].holder == s.pages[p].holder)
  {
    assert ClientInv(s, c);
  }

  lemma StepInv(s: State, act: Act)
    requires Inv(s)
    ensures Inv(Step(s, act))
  {
    match act
    case Put(c, p, rec) => if c < |s.clients| { BeginInv(s, c, p, rec); } OrphanStep(s, act);
    case Torn(c, junk) => if c < |s.clients| { TearInv(s, c, junk); } OrphanStep(s, act);
    case Go(c) => if c < |s.clients| { GoInv(s, c); } OrphanStep(s, act);
    case Join => JoinInv(s); OrphanStep(s, act);
    case Restart(thread, m) => if Recovers(s, thread, m) { RestartInv(s, thread, m); }
  }

  /** A client takes on a new record only in a slot that was free, and a superseded one only from the index. */
  lemma PartiesAfter(s: State, act: Act, c: nat, o: Off)
    requires Inv(s) && !act.Restart?
    ensures NewOf(Step(s, act), c, o) ==> NewOf(s, c, o) || (Exists(s, o) && !Live(s, o))
    ensures OldOf(Step(s, act), c, o) ==> OldOf(s, c, o) || (Exists(s, o) && Indexed(s, o))
  {
    if act == Go(c) && c < |s.clients| {
      GoParties(s, c, o);
    } else {
      hide Inv, FirstFree;
      assert c < |s.clients| ==> Step(s, act).clients[c] == s.clients[c] || Step(s, act).clients[c].Locked?;
    }
  }

  lemma GoParties(s: State, c: nat, o: Off)
    requires Inv(s) && c < |s.clients|
    ensures NewOf(Advance(s, c), c, o) ==> NewOf(s, c, o) || (Exists(s, o) && !Live(s, o))
    ensures OldOf(Advance(s, c), c, o) ==> OldOf(s, c, o) || (Exists(s, o) && Indexed(s, o))
  {
    assert ClientInv(s, c);
    IndexAll(s);
    hide Inv, FirstFree;
  }

  lemma IndexAll(s: State)
    requires Inv(s)
    ensures forall k :: k in s.index ==> Live(s, s.index[k]) && At(s, s.index[k]).key == k
  {
  }

  /** Nothing a put does touches an orphan. */
  lemma OrphanUntouched(s: State, act: Act, o: Off)
    requires Inv(s) && o in s.orphans
    ensures !Touches(s, act, o)
  {
    assert Live(s, o);
    if Touches(s, act, o) {
      assert ClientInv(s, act.c);
      if s.clients[act.c].Freeing? {
        assert OldOf(s, act.c, o);
      }
    }
  }

  lemma OrphanAfter(s: State, act: Act, o: Off)
    requires Inv(s) && !act.Restart? && Shape(Step(s, act)) && o in s.orphans
    ensures var s' := Step(s, act);
            && Live(s', o) && At(s', o).key in s'.index && !Indexed(s', o)
            && forall c: nat :: !NewOf(s', c, o) && !OldOf(s', c, o)
  {
    var s' := Step(s, act);
    StepTouches(s, act);
    OrphanUntouched(s, act, o);
    assert Live(s, o) && At(s, o).key in s.index && !Indexed(s, o);
    IndexAfter(s, act, At(s, o).key);
    if SwapsKey(s, act, At(s, o).key) {
      assert NewOf(s, act.c, Off(s.clients[act.c].page, s.clients[act.c].slot));
    }
    hide Step, RoleInv;
    forall c: nat ensures !NewOf(s', c, o) && !OldOf(s', c, o) {
      PartiesAfter(s, act, c, o);
    }
  }

  lemma OrphanStep(s: State, act: Act)
    requires Inv(s) && !act.Restart? && Shape(Step(s, act))
    ensures OrphanInv(Step(s, act))
  {
    var s' := Step(s, act);
    assert s'.orphans == s.orphans;
    hide Step, Inv;
    forall o | o in s'.orphans
      ensures Live(s', o) && At(s', o).key in s'.index && !Indexed(s', o)
      ensures forall c: nat :: !NewOf(s', c, o) && !OldOf(s', c, o)
    {
      OrphanAfter(s, act, o);
    }
  }

  lemma GoInv(s: State, c: nat)
    requires Inv(s) && c < |s.clients|
    ensures Core(Advance(s, c))
  {
    match s.clients[c]
    case Idle =>
    case Locked(_, _) => ChooseInv(s, c);
    case Writing(_, _, _) => CopyInv(s, c);
    case Written(_, _, _) => PublishInv(s, c);
    case Visible(_, _, _) => SwapInv(s, c);
    case Swapped(_, _, _) => LockOldInv(s, c);
    case Freeing(_, _, _) => FreeInv(s, c);
    case Freed(_, _, _) => EndInv(s, c);
    case Ending(_, _) => EndInv(s, c);
  }

  lemma JoinInv(s: State)
    requires Inv(s)
    ensures Core(s.(clients := s.clients + [Idle]))
  {
    var s' := s.(clients := s.clients + [Idle]);
    forall d: nat, o: Off ensures NewOf(s', d, o) == NewOf(s, d, o) && OldOf(s', d, o) == OldOf(s, d, o) {
    }
    forall d | 0 <= d < |s'.clients| ensures ClientInv(s', d) {
      if d < |s.clients| {
        assert ClientInv(s, d);
      }
    }
    forall o | Live(s', o) ensures At(s', o) in s'.puts && Accounted(s', o) {
      assert Live(s, o) && Accounted(s, o);
    }
  }

  lemma RestartKeeps(s: State, m: map<nat, Off>)
    requires Shape(s)
    ensures Shape(Restarted(s, m)) && Restarted(s, m).index == m && Restarted(s, m).puts == s.puts
    ensures forall o :: Exists(Restarted(s, m), o) <==> Exists(s, o)
    ensures forall o :: Live(Restarted(s, m), o) <==> Live(s, o)
    ensures forall o :: Exists(s, o) ==> At(Restarted(s, m), o) == At(s, o)
  {
  }

  /** Recovery indexes one live record of each key and leaves the others behind as orphans. */
  lemma RestartInv(s: State, thread: nat -> nat, m: map<nat, Off>)
    requires Inv(s) && Recovers(s, thread, m)
    ensures Inv(Restarted(s, m)) && s.index.Keys <= m.Keys
  {
    var s' := Restarted(s, m);
    RestartKeeps(s, m);
    IndexAll(s);
    assert forall c: nat, o: Off :: !NewOf(s', c, o) && !OldOf(s', c, o);
    assert forall o :: Live(s', o) ==> At(s', o) in s'.puts;
    hide RoleInv, OrphanInv, ClientInv;
    RestartRoles(s', m);
  }

  lemma RestartRoles(s': State, m: map<nat, Off>)
    requires Shape(s') && s'.clients == [] && s'.index == m
    requires forall k :: k in m ==> Live(s', m[k]) && At(s', m[k]).key == k
    requires forall o :: Live(s', o) ==> At(s', o) in s'.puts && At(s', o).key in m
    requires forall o :: o in s'.orphans <==> Live(s', o) && m[At(s', o).key] != o
    ensures RoleInv(s') && OrphanInv(s')
  {
    forall o | Live(s', o) ensures Accounted(s', o) {
      assert o in s'.orphans || Indexed(s', o);
    }
  }

  // ---------------------------------------------------------------- main results

  ghost function Exec(s: State, acts: seq<Act>): (s': State)
    requires Shape(s)
    decreases |acts|
  {
    if acts == [] then s
    else if Shape(Step(s, acts[0])) then Exec(Step(s, acts[0]), acts[1..])
    else s
  }

  lemma {:induction false} ExecInv(s: State, acts: seq<Act>)
    requires Inv(s)
    ensures Shape(Exec(s, acts)) && Inv(Exec(s, acts))
    ensures s.index.Keys <= Exec(s, acts).index.Keys
    ensures forall r :: r in Exec(s, acts).puts ==> r in s.puts || WasPut(acts, r)
    decreases |acts|
  {
    if acts != [] {
      StepInv(s, acts[0]);
      var t := Step(s, acts[0]);
      StepHistory(s, acts[0]);
      ExecInv(t, acts[1..]);
      forall r | r in Exec(s, acts).puts ensures r in s.puts || WasPut(acts, r) {
        if WasPut(acts[1..], r) {
          var i :| 0 <= i < |acts| - 1 && acts[1..][i].Put? && acts[1..][i].rec == r;
          assert acts[i + 1].Put?;
        } else if r !in s.puts {
          assert acts[0].Put? && acts[0].rec == r;
        }
      }
    }
  }

  lemma StepHistory(s: State, act: Act)
    requires Inv(s)
    ensures s.index.Keys <= Step(s, act).index.Keys
    ensures forall r :: r in Step(s, act).puts ==> r in s.puts || (act.Put? && act.rec == r)
  {
    InvShape(s);
    hide Inv, Recovers, Restarted, FirstFree;
    match act
    case Restart(thread, m) =>
      if Recovers(s, thread, m) {
        RestartInv(s, thread, m);
        RestartKeeps(s, m);
      }
    case Go(c) => if c < |s.clients| { GoHistory(s, c); }
    case _ => hide Advance;
  }

  lemma GoHistory(s: State, c: nat)
    requires Shape(s) && c < |s.clients|
    ensures s.index.Keys <= Advance(s, c).index.Keys && Advance(s, c).puts == s.puts
  {
    hide FirstFree;
  }

  lemma InvShape(s: State)
    requires Inv(s)
    ensures Shape(s)
  {
  }

  /** A store at rest: nobody is writing, and the live records are exactly the indexed ones. */
  ghost predicate AtRest(s: State) {
    && Shape(s) && s.clients == [] && s.orphans == iset{}
    && (forall k :: k in s.index ==> Live(s, s.index[k]) && At(s, s.index[k]).key == k)
    && (forall o :: Live(s, o) ==> Indexed(s, o) && At(s, o) in s.puts)
  }

  /** Client `c` is inside a `put` of key `k`. */
  ghost predicate Putting(s: State, c: nat, k: nat) { c < |s.clients| && !s.clients[c].Idle? && s.clients[c].rec.key == k }

  /** A live record outside the index belongs to an unfinished put of its key: the record being put, before
      the index swap, or the one it replaced, until it is freed. */
  ghost predicate Leftover(s: State, c: nat, o: Off)
    requires Shape(s) && Exists(s, o)
  {
    Putting(s, c, At(s, o).key)
    && ((s.clients[c].Visible? && At(s, o) == s.clients[c].rec) || Owes(s.clients[c], o))
  }

  ghost predicate WasPut(acts: seq<Act>, r: Rec) { exists i :: 0 <= i < |acts| && acts[i].Put? && acts[i].rec == r }

  /** Whatever a kill interrupts, the recovery scan finds a live record for every key that was ever there,
      and only complete records, through any number of kills and recoveries; and each live record is the current one
      of its key, the new or the superseded record of a put of that key that has not returned, or an orphan that an
      earlier recovery passed over. */
  lemma KillLosesNothing(s: State, acts: seq<Act>)
    requires AtRest(s)
    ensures var t := Exec(s, acts);
            && Shape(t) && s.index.Keys <= t.index.Keys
            && (forall k :: k in t.index ==> Live(t, t.index[k]) && At(t, t.index[k]).key == k)
            && (forall o :: Live(t, o) ==> At(t, o) in s.puts || WasPut(acts, At(t, o)))
            && (forall o :: Live(t, o) && !Indexed(t, o) ==> o in t.orphans || exists c: nat :: Leftover(t, c, o))
  {
    RestInv(s);
    ExecInv(s, acts);
    var t := Exec(s, acts);
    forall o | Live(t, o) && !Indexed(t, o) && o !in t.orphans ensures exists c: nat :: Leftover(t, c, o) {
      OutsideIndex(t, o);
    }
  }

  lemma RestInv(s: State)
    requires AtRest(s)
    ensures Inv(s)
  {
    forall o | Live(s, o) ensures Accounted(s, o) {
    }
  }

  lemma OutsideIndex(t: State, o: Off)
    requires Inv(t) && Live(t, o) && !Indexed(t, o) && o !in t.orphans
    ensures exists c: nat :: Leftover(t, c, o)
  {
    assert Accounted(t, o);
    if c: nat :| NewOf(t, c, o) {
      assert ClientInv(t, c);
      assert Leftover(t, c, o);
    } else {
      var c: nat :| OldOf(t, c, o);
      assert ClientInv(t, c);
      assert Leftover(t, c, o);
    }
  }

  /** A key nobody is putting has exactly one live record, the indexed one, besides orphans. */
  lemma QuietKeyUnique(s: State, o: Off)
    requires Inv(s) && Live(s, o) && o !in s.orphans && forall c: nat :: !Putting(s, c, At(s, o).key)
    ensures At(s, o).key in s.index && s.index[At(s, o).key] == o
  {
    assert Accounted(s, o);
    if c: nat :| NewOf(s, c, o) {
      assert ClientInv(s, c);
      assert Putting(s, c, At(s, o).key);
    } else if c: nat :| OldOf(s, c, o) {
      assert ClientInv(s, c);
      assert Putting(s, c, At(s, o).key);
    }
  }

  /** The step is the index swap of a put of key `k`. */
  predicate SwapsKey(s: State, act: Act, k: nat) {
    act.Go? && act.c < |s.clients| && s.clients[act.c].Visible? && s.clients[act.c].rec.key == k
  }

  /** The slot the step stores into, if any. */
  ghost predicate Touches(s: State, act: Act, o: Off) {
    (act.Torn? || act.Go?) && act.c < |s.clients|
    && (var x := s.clients[act.c];
        if act.Torn? then x.Writing? && Claims(x, o)
        else ((x.Writing? || x.Written?) && Claims(x, o)) || (x.Freeing? && x.old_ == o))
  }

  lemma TornTouches(s: State, c: nat, junk: Rec)
    requires Inv(s) && c < |s.clients|
    ensures var s' := Tear(s, c, junk);
            && Shape(s') && s'.index == s.index
            && (forall o :: Live(s', o) <==> Live(s, o))
            && (forall o :: Live(s, o) ==> At(s', o) == At(s, o))
  {
    assert ClientInv(s, c);
    hide RoleInv;
  }

  lemma CopyTouches(s: State, c: nat)
    requires Inv(s) && c < |s.clients| && s.clients[c].Writing?
    ensures var s' := Advance(s, c);
            && Shape(s') && s'.index == s.index
            && (forall o :: Live(s', o) <==> Live(s, o))
            && (forall o :: Live(s, o) ==> At(s', o) == At(s, o))
  {
    assert ClientInv(s, c);
    hide RoleInv;
  }

  /** Apart from the slot a step stores into, every live record stays as it was and none appears. */
  lemma StepTouches(s: State, act: Act)
    requires Inv(s)
    ensures var s' := Step(s, act);
            && Shape(s')
            && (forall o :: !Touches(s, act, o) ==> (Live(s', o) <==> Live(s, o)))
            && (forall o :: !Touches(s, act, o) && Live(s, o) ==> At(s', o) == At(s, o))
  {
    match act
    case Put(_, _, _) =>
    case Join =>
    case Restart(thread, m) => if Recovers(s, thread, m) { RestartKeeps(s, m); }
    case Torn(c, junk) => if c < |s.clients| { TornTouches(s, c, junk); }
    case Go(c) =>
      if c < |s.clients| {
        match s.clients[c]
        case Writing(_, _, _) => CopyTouches(s, c);
        case Written(p, slot, _) => PublishFacts(s, c); assert Touches(s, act, Off(p, slot));
        case Freeing(_, _, o) => FreeFacts(s, c); assert Touches(s, act, o);
        case _ => LocksOnly(s, c);
      }
  }

  lemma LocksOnly(s: State, c: nat)
    requires Shape(s) && c < |s.clients| && !s.clients[c].Writing? && !s.clients[c].Written? && !s.clients[c].Freeing?
    ensures var s' := Advance(s, c);
            && Shape(s')
            && (forall o :: Live(s', o) <==> Live(s, o))
            && (forall o :: Live(s, o) ==> At(s', o) == At(s, o))
  {
  }

  /** The index changes only at a swap, and only for the key swapped. */
  lemma IndexAfter(s: State, act: Act, k: nat)
    requires Inv(s) && !act.Restart?
    ensures !SwapsKey(s, act, k) ==>
              (k in Step(s, act).index <==> k in s.index) && (k in s.index ==> Step(s, act).index[k] == s.index[k])
    ensures SwapsKey(s, act, k) ==>
              k in Step(s, act).index && Step(s, act).index[k] == Off(s.clients[act.c].page, s.clients[act.c].slot)
  {
    hide Inv;
  }

  lemma TouchedNotIndexed(s: State, act: Act, o: Off)
    requires Inv(s) && Touches(s, act, o)
    ensures forall k :: k in s.index ==> s.index[k] != o
  {
    assert ClientInv(s, act.c);
    var x := s.clients[act.c];
    if x.Freeing? {
      assert OldOf(s, act.c, o) && Exists(s, o);
    } else {
      assert !Live(s, o);
    }
  }

  /** Within one process the value of a key changes only at the index swap of a put of that key, and then to the
      value put; a recovery picks one of the key's live records. */
  lemma ValueChangesAtSwap(s: State, act: Act, k: nat)
    requires Inv(s) && k in Step(s, act).index
    ensures Shape(Step(s, act)) && Live(Step(s, act), Step(s, act).index[k])
    ensures SwapsKey(s, act, k) ==> At(Step(s, act), Step(s, act).index[k]) == s.clients[act.c].rec
    ensures act.Restart? ==>
              Live(s, Step(s, act).index[k]) && At(Step(s, act), Step(s, act).index[k]) == At(s, Step(s, act).index[k])
    ensures !SwapsKey(s, act, k) && !act.Restart? ==>
              k in s.index && Step(s, act).index[k] == s.index[k] && Live(s, s.index[k])
              && At(Step(s, act), s.index[k]) == At(s, s.index[k])
  {
    StepInv(s, act);
    StepTouches(s, act);
    IndexAll(Step(s, act));
    var o := Step(s, act).index[k];
    if !act.Restart? {
      IndexAfter(s, act, k);
    }
    if act.Restart? {
      assert !Touches(s, act, o);
    } else if SwapsKey(s, act, k) {
      assert ClientInv(s, act.c);
      assert !Touches(s, act, o) && Live(s, o);
    } else if Touches(s, act, o) {
      TouchedNotIndexed(s, act, o);
    } else {
      assert Live(s, o);
    }
  }

  /** A put of one key changes no live record of another key, and makes none. */
  lemma OtherKeysUntouched(s: State, c: nat, act: Act, o: Off)
    requires Inv(s) && c < |s.clients| && !s.clients[c].Idle? && (act == Go(c) || (act.Torn? && act.c == c))
    ensures Shape(Step(s, act))
    ensures Live(s, o) && At(s, o).key != s.clients[c].rec.key ==> Live(Step(s, act), o) && At(Step(s, act), o) == At(s, o)
    ensures Live(Step(s, act), o) && At(Step(s, act), o).key != s.clients[c].rec.key ==>
              Live(s, o) && At(Step(s, act), o) == At(s, o)
  {
    StepTouches(s, act);
    if Touches(s, act, o) {
      TouchedKey(s, c, act, o);
    }
  }

  lemma TouchedKey(s: State, c: nat, act: Act, o: Off)
    requires Inv(s) && c < |s.clients| && (act == Go(c) || (act.Torn? && act.c == c)) && Touches(s, act, o)
    ensures Shape(Step(s, act))
    ensures Live(s, o) ==> At(s, o).key == s.clients[c].rec.key
    ensures Live(Step(s, act), o) ==> At(Step(s, act), o).key == s.clients[c].rec.key
  {
    assert ClientInv(s, c);
    match s.clients[c]
    case Writing(_, _, _) => if act.Torn? { TornTouches(s, c, act.junk); } else { CopyTouches(s, c); }
    case Written(_, _, _) => PublishFacts(s, c);
    case Freeing(_, _, _) => FreeFacts(s, c);
  }

  // ---------------------------------------------------------------- the recovery scan

  /** `hiom_visit_records` over pages `lo..hi-1`, clamped to the pages there are. */
  method VisitRecords(s: State, lo: nat, hi: nat) returns (vs: seq<(Rec, Off)>)
    requires Shape(s)
    ensures forall i :: 0 <= i < |vs| ==>
              Live(s, vs[i].1) && lo <= vs[i].1.page < hi && vs[i].0 == At(s, vs[i].1)
    ensures forall o :: Live(s, o) && lo <= o.page < hi ==> exists i :: 0 <= i < |vs| && vs[i].1 == o
    ensures forall i, j :: 0 <= i < j < |vs| ==> Before(vs[i].1, vs[j].1)
  {
    vs := [];
    var end := if hi > |s.pages| then |s.pages| else hi;
    var p := lo;
    while p < end
      invariant lo <= p && (lo <= end ==> p <= end)
      invariant forall i :: 0 <= i < |vs| ==>
                  Live(s, vs[i].1) && lo <= vs[i].1.page < p && vs[i].1.page < hi && vs[i].0 == At(s, vs[i].1)
      invariant forall o :: Live(s, o) && lo <= o.page < p ==> Visited(vs, o)
      invariant forall i, j :: 0 <= i < j < |vs| ==> Before(vs[i].1, vs[j].1)
    {
      vs := VisitPage(s, p, vs, lo, hi);
      p := p + 1;
    }
    forall o | Live(s, o) && lo <= o.page < hi ensures exists i :: 0 <= i < |vs| && vs[i].1 == o {
      assert Visited(vs, o);
    }
  }

  ghost predicate Visited(vs: seq<(Rec, Off)>, o: Off) { exists i :: 0 <= i < |vs| && vs[i].1 == o }

  method VisitPage(s: State, p: nat, before: seq<(Rec, Off)>, ghost lo: nat, ghost hi: nat) returns (vs: seq<(Rec, Off)>)
    requires Shape(s) && lo <= p < |s.pages| && p < hi
    requires forall i :: 0 <= i < |before| ==>
               Live(s, before[i].1) && lo <= before[i].1.page < p && before[i].1.page < hi
               && before[i].0 == At(s, before[i].1)
    requires forall o :: Live(s, o) && lo <= o.page < p ==> Visited(before, o)
    requires forall i, j :: 0 <= i < j < |before| ==> Before(before[i].1, before[j].1)
    ensures forall i :: 0 <= i < |vs| ==>
              Live(s, vs[i].1) && lo <= vs[i].1.page < p + 1 && vs[i].1.page < hi && vs[i].0 == At(s, vs[i].1)
    ensures forall o :: Live(s, o) && lo <= o.page < p + 1 ==> Visited(vs, o)
    ensures forall i, j :: 0 <= i < j < |vs| ==> Before(vs[i].1, vs[j].1)
  {
    vs := before;
    var sn := 0;
    while sn < |s.pages[p].free|
      invariant sn <= |s.pages[p].free|
      invariant forall i :: 0 <= i < |vs| ==>
                  Live(s, vs[i].1) && lo <= vs[i].1.page <= p && vs[i].0 == At(s, vs[i].1)
                  && (vs[i].1.page == p ==> vs[i].1.slot < sn)
      invariant forall o :: Live(s, o) && lo <= o.page < p ==> Visited(vs, o)
      invariant forall k :: 0 <= k < sn && !s.pages[p].free[k] ==> Visited(vs, Off(p, k))
      invariant forall i, j :: 0 <= i < j < |vs| ==> Before(vs[i].1, vs[j].1)
    {
      if !s.pages[p].free[sn] {
        ghost var prev := vs;
        vs := vs + [(s.pages[p].data[sn], Off(p, sn))];
        forall o | Visited(prev, o) ensures Visited(vs, o) {
          var i :| 0 <= i < |prev| && prev[i].1 == o;
          assert vs[i].1 == o;
        }
        assert vs[|prev|].1 == Off(p, sn);
      }
      sn := sn + 1;
    }
    forall o | Live(s, o) && o.page == p ensures Visited(vs, o) {
      assert o == Off(p, o.slot);
    }
  }
}

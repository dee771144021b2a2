/** Kills and recoveries of the page engine: which record of a key a recovery may bring back, and when an older one
    can return. */
module PutRecovery {
  import opened Options
  import opened PutEngine

  // ---------------------------------------------------------------- what recovery brings back

  ghost function LiveSlots(s: State): (l: set<Off>)
    requires Shape(s)
    ensures forall o :: o in l <==> Live(s, o)
  {
    set p: nat, i: nat | p < |s.pages| && i < |s.pages[p].free| && !s.pages[p].free[i] :: Off(p, i)
  }

  /** The last record in scan order for each key of the slots in `l`. */
  lemma {:induction false} Pick(s: State, l: set<Off>) returns (m: map<nat, Off>)
    requires Shape(s) && forall o :: o in l ==> Live(s, o)
    ensures forall k :: k in m ==> m[k] in l && Live(s, m[k]) && At(s, m[k]).key == k
    ensures forall o :: o in l ==> Live(s, o) && At(s, o).key in m && !Before(m[At(s, o).key], o)
    decreases |l|
  {
    if l == {} {
      m := map[];
    } else {
      var o :| o in l;
      m := Pick(s, l - {o});
      var k := At(s, o).key;
      if k !in m || Before(m[k], o) {
        m := m[k := o];
      }
    }
  }

  /** Any live record that is the last of its key in its thread may be the one recovery indexes. */
  lemma MayRecover(s: State, thread: nat -> nat, o: Off) returns (m: map<nat, Off>)
    requires Shape(s) && Live(s, o) && LastOfKey(s, thread, o)
    ensures Recovers(s, thread, m) && m[At(s, o).key] == o
  {
    m := Pick(s, LiveSlots(s));
    forall k | k in m ensures LastOfKey(s, thread, m[k]) {
    }
    m := m[At(s, o).key := o];
  }

  /** Every recovery gives the key the record it has now. */
  ghost predicate RecoversCurrent(s: State, thread: nat -> nat, k: nat)
    requires Shape(s) && k in s.index
  {
    forall m :: Recovers(s, thread, m) && k in m ==> m[k] == s.index[k]
  }

  ghost predicate HasOrphan(s: State, k: nat)
    requires Inv(s)
  {
    exists o :: o in s.orphans && At(s, o).key == k
  }

  /** An orphan of the key that no later record of the key, scanned by the same thread, overrides. */
  ghost predicate HasExposedOrphan(s: State, thread: nat -> nat, k: nat)
    requires Inv(s)
  {
    exists o :: o in s.orphans && At(s, o).key == k && LastOfKey(s, thread, o)
  }

  /** Exactly when a kill cannot take a key nobody is putting back to an older value: iff every orphan of the key is
      overridden by a later record in its own thread. */
  lemma QuietKeyRecovers(s: State, thread: nat -> nat, k: nat)
    requires Inv(s) && k in s.index && forall c: nat :: !Putting(s, c, k)
    ensures RecoversCurrent(s, thread, k) <==> !HasExposedOrphan(s, thread, k)
  {
    if HasExposedOrphan(s, thread, k) {
      var o :| o in s.orphans && At(s, o).key == k && LastOfKey(s, thread, o);
      var m := MayRecover(s, thread, o);
      assert Recovers(s, thread, m) && m[k] == o && !Indexed(s, o);
    } else {
      forall m | Recovers(s, thread, m) && k in m ensures m[k] == s.index[k] {
        assert m[k] !in s.orphans;
        QuietKeyUnique(s, m[k]);
      }
    }
  }

  /** A put of the key is between its publication and its free: the key has a second live record. */
  ghost predicate Unsettled(s: State, k: nat)
    requires Shape(s)
  {
    exists c: nat, o: Off :: Live(s, o) && At(s, o).key == k && !Indexed(s, o) && Leftover(s, c, o)
  }

  /** Exactly when a recovery leaves a key with an orphan, whichever record it takes: iff the key had one already or
      the kill fell between publication and free of a put of that key. */
  lemma OrphansArise(s: State, thread: nat -> nat, m: map<nat, Off>, k: nat)
    requires Inv(s) && Recovers(s, thread, m) && k in s.index
    ensures Inv(Restarted(s, m))
    ensures HasOrphan(Restarted(s, m), k) <==> HasOrphan(s, k) || Unsettled(s, k)
  {
    RestartInv(s, thread, m);
    OrphansOf(s, thread, m, k);
    hide Restarted, Inv;
    if HasSecond(s, k) {
      SecondIs(s, k);
    } else if HasOrphan(s, k) || Unsettled(s, k) {
      SecondOf(s, k);
    }
  }

  /** A live record of the key outside the index. */
  ghost predicate HasSecond(s: State, k: nat)
    requires Shape(s)
  {
    exists o :: Live(s, o) && At(s, o).key == k && !Indexed(s, o)
  }

  lemma SecondIs(s: State, k: nat)
    requires Inv(s) && HasSecond(s, k)
    ensures HasOrphan(s, k) || Unsettled(s, k)
  {
    var o :| Live(s, o) && At(s, o).key == k && !Indexed(s, o);
    if o !in s.orphans {
      OutsideIndex(s, o);
    }
  }

  lemma SecondOf(s: State, k: nat)
    requires Inv(s) && (HasOrphan(s, k) || Unsettled(s, k))
    ensures HasSecond(s, k)
  {
    if HasOrphan(s, k) {
      var o :| o in s.orphans && At(s, o).key == k;
      assert Live(s, o) && !Indexed(s, o);
    }
  }

  /** Whichever record recovery takes, the other is passed over. */
  lemma OrphansOf(s: State, thread: nat -> nat, m: map<nat, Off>, k: nat)
    requires Inv(s) && Recovers(s, thread, m) && k in s.index
    requires Inv(Restarted(s, m))
    ensures HasOrphan(Restarted(s, m), k) <==> HasSecond(s, k)
  {
    var s' := Restarted(s, m);
    RestartKeeps(s, m);
    IndexAll(s);
    assert forall o :: o in s'.orphans <==> Live(s, o) && m[At(s, o).key] != o;
    hide Restarted, Inv;
    if HasSecond(s, k) {
      var o :| Live(s, o) && At(s, o).key == k && !Indexed(s, o);
      var other := if m[k] == o then s.index[k] else o;
      assert other in s'.orphans && At(s', other).key == k;
    }
    if HasOrphan(s', k) {
      var o :| o in s'.orphans && At(s', o).key == k;
      var second := if Indexed(s, o) then m[k] else o;
      assert Live(s, second) && At(s, second).key == k && !Indexed(s, second);
    }
  }

  // ---------------------------------------------------------------- an old value comes back

  ghost predicate Reaches(s: State, s': State) {
    Shape(s) && exists acts :: Exec(s, acts) == s'
  }

  lemma {:induction false} ExecSnoc(s: State, acts: seq<Act>, act: Act)
    requires Inv(s)
    ensures Shape(Exec(s, acts)) && Exec(s, acts + [act]) == Step(Exec(s, acts), act)
    decreases |acts|
  {
    InvShape(s);
    hide Step, Inv;
    if acts == [] {
      StepInv(s, act);
      assert [act][1..] == [] && [] + [act] == [act];
      InvShape(Step(s, act));
    } else {
      StepInv(s, acts[0]);
      InvShape(Step(s, acts[0]));
      assert (acts + [act])[1..] == acts[1..] + [act];
      ExecSnoc(Step(s, acts[0]), acts[1..], act);
    }
  }

  lemma ReachStep(s0: State, s: State, act: Act, s': State)
    requires Inv(s0) && Reaches(s0, s) && Shape(s) && s' == Step(s, act)
    ensures Reaches(s0, s')
  {
    hide Inv, Step;
    var acts :| Exec(s0, acts) == s;
    ExecSnoc(s0, acts, act);
    assert Exec(s0, acts + [act]) == s';
  }

  /** The only client puts `r` into the one slot of a fresh page `p`, as far as its publication. */
  lemma Publishes(s0: State, s: State, p: nat, r: Rec)
    requires Inv(s0) && Reaches(s0, s) && Shape(s) && s.clients == [] && p < |s.pages| && s.pages[p] == Page([true], [r], None)
    ensures Reaches(s0, Published(s, p, r))
  {
    var s1 := s.(clients := [Idle]);
    var s2 := s.(pages := s.pages[p := Page([true], [r], Some(0))], clients := [Locked(p, r)], puts := s.puts + {r});
    var s3 := s2.(clients := [Writing(p, 0, r)]);
    var s4 := s2.(clients := [Written(p, 0, r)]);
    hide Inv, Reaches;
    assert Step(s, Join) == s1;
    assert Step(s1, Put(0, p, r)) == s2;
    assert Step(s2, Go(0)) == s3;
    assert [r][0 := r] == [r] && s3.pages[p := s3.pages[p]] == s3.pages;
    assert Step(s3, Go(0)) == s4;
    assert [true][0 := false] == [false];
    assert s4.pages[p := Page([false], [r], Some(0))] == s.pages[p := Page([false], [r], Some(0))];
    assert Step(s4, Go(0)) == Published(s, p, r);
    hide Step;
    ReachStep(s0, s, Join, s1);
    ReachStep(s0, s1, Put(0, p, r), s2);
    ReachStep(s0, s2, Go(0), s3);
    ReachStep(s0, s3, Go(0), s4);
    ReachStep(s0, s4, Go(0), Published(s, p, r));
  }

  function Published(s: State, p: nat, r: Rec): (s': State)
    requires p < |s.pages|
  {
    s.(pages := s.pages[p := Page([false], [r], Some(0))], clients := [Visible(p, 0, r)], puts := s.puts + {r})
  }

  /** The client updates the index, frees the record it replaced, on page `q`, and returns. */
  function Finished(s: State, p: nat, q: nat, r: Rec): (s': State)
    requires p < |s.pages| && q < |s.pages|
  {
    s.(pages := s.pages[q := s.pages[q].(free := [true])][p := Page([false], [r], None)], index := s.index[r.key := Off(p, 0)],
       clients := [Idle])
  }

  lemma Finishes(s0: State, s: State, p: nat, q: nat, r: Rec)
    requires Inv(s0) && Reaches(s0, s) && Shape(s) && p < |s.pages| && q < |s.pages| && p != q
    requires s.clients == [Visible(p, 0, r)] && s.pages[p] == Page([false], [r], Some(0))
    requires s.pages[q].free == [false] && s.pages[q].holder == None && r.key in s.index && s.index[r.key] == Off(q, 0)
    ensures Reaches(s0, Finished(s, p, q, r))
  {
    var s1 := s.(index := s.index[r.key := Off(p, 0)], clients := [Freeing(p, r, Off(q, 0))],
                 pages := s.pages[q := s.pages[q].(holder := Some(0))]);
    Locks(s0, s, s1, p, q, r);
    hide Inv, Reaches;
    var freed := s.pages[q := s.pages[q].(free := [true], holder := Some(0))];
    var s2 := s1.(pages := freed, clients := [Freed(p, r, q)]);
    assert [false][0 := true] == [true] && s1.pages[q := freed[q]] == freed;
    assert Step(s1, Go(0)) == s2;
    ReachStep(s0, s1, Go(0), s2);
    hide Step;
    Leaves(s0, s2, p, q, r);
    var u := s2.pages[q := s2.pages[q].(holder := None)];
    assert u[p := u[p].(holder := None)] == Finished(s, p, q, r).pages;
  }

  lemma Locks(s0: State, s: State, s1: State, p: nat, q: nat, r: Rec)
    requires Inv(s0) && Reaches(s0, s) && Shape(s) && p < |s.pages| && q < |s.pages| && p != q
    requires s.clients == [Visible(p, 0, r)] && s.pages[q].holder == None
    requires r.key in s.index && s.index[r.key] == Off(q, 0)
    requires s1 == s.(index := s.index[r.key := Off(p, 0)], clients := [Freeing(p, r, Off(q, 0))],
                      pages := s.pages[q := s.pages[q].(holder := Some(0))])
    ensures Reaches(s0, s1)
  {
    var m := s.(index := s.index[r.key := Off(p, 0)], clients := [Swapped(p, r, Off(q, 0))]);
    hide Inv, Reaches;
    assert Step(s, Go(0)) == m;
    assert Step(m, Go(0)) == s1;
    hide Step;
    ReachStep(s0, s, Go(0), m);
    ReachStep(s0, m, Go(0), s1);
  }

  lemma Leaves(s0: State, s: State, p: nat, q: nat, r: Rec)
    requires Inv(s0) && Reaches(s0, s) && Shape(s) && p < |s.pages| && q < |s.pages| && p != q
    requires s.clients == [Freed(p, r, q)]
    ensures var u := s.pages[q := s.pages[q].(holder := None)];
            Reaches(s0, s.(pages := u[p := u[p].(holder := None)], clients := [Idle]))
  {
    var u := s.pages[q := s.pages[q].(holder := None)];
    var m := s.(pages := u, clients := [Ending(p, r)]);
    var e := s.(pages := u[p := u[p].(holder := None)], clients := [Idle]);
    hide Inv, Reaches;
    assert Step(s, Go(0)) == m;
    assert Step(m, Go(0)) == e;
    hide Step;
    ReachStep(s0, s, Go(0), m);
    ReachStep(s0, m, Go(0), e);
  }

  // ---------------------------------------------------------------- a run on three pages

  /** One recovery thread for each page. */
  function EachPage(): (thread: nat -> nat) { (p: nat) => p }

  /** Page 0 has value 0 of key 7. Pages 1 and 2 belong to blocks that a client claims fresh, in the first and in the
      second process; their slots are for values 1 and 2. */
  function Three(): (s: State) {
    State([Page([false], [Rec(7, 0)], None), Page([true], [Rec(7, 1)], None), Page([true], [Rec(7, 2)], None)],
          map[7 := Off(0, 0)], [], {Rec(7, 0)}, iset{})
  }

  /** The second process: a kill before the index update, a recovery that took the new record, and the old one an
      orphan. */
  function Second(): (s: State) {
    State([Page([false], [Rec(7, 0)], None), Page([false], [Rec(7, 1)], None), Page([true], [Rec(7, 2)], None)],
          map[7 := Off(1, 0)], [], {Rec(7, 0), Rec(7, 1)}, iset{Off(0, 0)})
  }

  lemma SecondIsRecovered()
    ensures var s := Published(Three(), 1, Rec(7, 1));
            && Shape(s) && Recovers(s, EachPage(), map[7 := Off(1, 0)]) && Restarted(s, map[7 := Off(1, 0)]) == Second()
  {
    var s, m := Published(Three(), 1, Rec(7, 1)), map[7 := Off(1, 0)];
    assert forall o :: Live(s, o) <==> o == Off(0, 0) || o == Off(1, 0);
    assert Restarted(s, m).orphans == iset{Off(0, 0)};
    assert Restarted(s, m).pages == Second().pages;
  }

  /** From rest with value 0 of key 7, a run ends with nobody putting and value 2 current, and a kill there may be
      followed by a recovery of value 0. */
  ghost predicate Regresses(s0: State, s: State, m: map<nat, Off>) {
    && AtRest(s0) && 7 in s0.index && At(s0, s0.index[7]) == Rec(7, 0)
    && Reaches(s0, s) && Shape(s) && s.clients == [Idle] && 7 in s.index && Live(s, s.index[7])
    && At(s, s.index[7]) == Rec(7, 2) && Recovers(s, EachPage(), m) && 7 in m && At(s, m[7]) == Rec(7, 0)
  }

  /** A kill between publication and index update of one put, a later put of the same key that returns, each on a
      page fresh in its process, and another kill: the recovery may bring back the value from before both. */
  lemma OldValueReturns()
    ensures exists s0: State, s: State, m: map<nat, Off> :: Regresses(s0, s, m)
  {
    var s0 := Three();
    assert forall o :: Live(s0, o) <==> o == Off(0, 0);
    assert AtRest(s0);
    RestInv(s0);
    var s := ReturnedTwice(s0);
    assert Live(s, Off(0, 0)) && Live(s, Off(2, 0)) && forall o :: Live(s, o) ==> o == Off(0, 0) || o == Off(2, 0);
    var m := MayRecover(s, EachPage(), Off(0, 0));
    hide Reaches, AtRest, Recovers;
    assert Regresses(s0, s, m);
  }

  lemma ReturnedTwice(s0: State) returns (s: State)
    requires Inv(s0) && s0 == Three()
    ensures Reaches(s0, s)
    ensures s == State([Page([false], [Rec(7, 0)], None), Page([true], [Rec(7, 1)], None), Page([false], [Rec(7, 2)], None)],
                       map[7 := Off(2, 0)], [Idle], {Rec(7, 0), Rec(7, 1)} + {Rec(7, 2)}, iset{Off(0, 0)})
  {
    ReachSecond(s0);
    hide Inv, Reaches, Step;
    Publishes(s0, Second(), 2, Rec(7, 2));
    var t := Published(Second(), 2, Rec(7, 2));
    Finishes(s0, t, 2, 1, Rec(7, 2));
    s := Finished(t, 2, 1, Rec(7, 2));
    assert map[7 := Off(1, 0)][7 := Off(2, 0)] == map[7 := Off(2, 0)];
  }

  lemma ReachSecond(s0: State)
    requires Inv(s0) && s0 == Three()
    ensures Reaches(s0, Second())
  {
    ReachSelf(s0);
    SecondIsRecovered();
    hide Inv, Reaches;
    Publishes(s0, s0, 1, Rec(7, 1));
    var killed, m := Published(s0, 1, Rec(7, 1)), map[7 := Off(1, 0)];
    hide Recovers, Restarted;
    assert Step(killed, Restart(EachPage(), m)) == Second();
    hide Step;
    ReachStep(s0, killed, Restart(EachPage(), m), Second());
  }

  lemma ReachSelf(s: State)
    requires Inv(s)
    ensures Reaches(s, s)
  {
    assert Exec(s, []) == s;
  }
}

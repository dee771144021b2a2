/** Runs in which a repair clears the lock of a live thread: the side conditions of `LockIntent.RepairExact`
    cannot be dropped. */
module LockTraces {
  import opened Options
  import opened LockIntent

  ghost predicate Reaches(s: State, s': State) {
    exists run :: Run(run, {}) && run[0] == s && run[|run| - 1] == s'
  }

  lemma ReachRefl(s: State)
    ensures Reaches(s, s)
  {
    assert Run([s], {});
  }

  lemma ReachNext(s: State, s1: State, s2: State)
    requires Reaches(s, s1) && Next(s1, s2, {})
    ensures Reaches(s, s2)
  {
    var run :| Run(run, {}) && run[0] == s && run[|run| - 1] == s1;
    assert Run(run + [s2], {});
  }

  lemma ReachGo(s: State, s1: State, a: nat, act: Act)
    requires Reaches(s, s1) && Wf(s1) && a < |s1.agents|
    ensures Reaches(s, StepAgent(s1, a, act))
  {
    ReachNext(s, s1, StepAgent(s1, a, act));
  }

  ghost predicate Quiet(s: State) {
    Wf(s) && forall i :: 0 <= i < INTENTS ==> s.reg[i] == None
  }

  lemma {:induction false} ScanPass1(s: State, s1: State, a: nat, p: nat, i: nat)
    requires Reaches(s, s1) && Quiet(s1) && a < |s1.agents| && s1.agents[a] == Scan1(p, i) && i <= INTENTS
    ensures Reaches(s, Become(s1, a, Scan1(p, INTENTS)))
    decreases INTENTS - i
  {
    if i == INTENTS {
      assert s1.agents[a := Scan1(p, INTENTS)] == s1.agents;
    } else {
      var s2 := Become(s1, a, Scan1(p, i + 1));
      ReachGo(s, s1, a, Go);
      ScanPass1(s, s2, a, p, i + 1);
      assert s2.agents[a := Scan1(p, INTENTS)] == s1.agents[a := Scan1(p, INTENTS)];
    }
  }

  lemma {:induction false} ScanPass2(s: State, s1: State, a: nat, x: Agent)
    requires Reaches(s, s1) && Quiet(s1) && a < |s1.agents| && s1.agents[a] == x && x.Scan2? && x.i <= INTENTS
    ensures Reaches(s, Become(s1, a, At(x, INTENTS)))
    decreases INTENTS - x.i
  {
    if x.i == INTENTS {
      assert s1.agents[a := At(x, INTENTS)] == s1.agents;
    } else {
      var s2 := Become(s1, a, At(x, x.i + 1));
      ReachGo(s, s1, a, Go);
      ScanPass2(s, s2, a, At(x, x.i + 1));
      assert s2.agents[a := At(x, INTENTS)] == s1.agents[a := At(x, INTENTS)];
    }
  }

  /** A repairer of page 0 gets past its first scan. */
  lemma Repair1(s: State, s1: State, a: nat)
    requires Reaches(s, s1) && Quiet(s1) && a < |s1.agents| && s1.agents[a] == Idle
    requires |s1.pages| == 1 && s1.pages[0].word.locked
    ensures Reaches(s, Become(s1, a, Load2(0)))
  {
    var s2 := Become(s1, a, Scan1(0, 0));
    ReachGo(s, s1, a, StartRepair(0));
    ScanPass1(s, s2, a, 0, 0);
    var s3 := Become(s2, a, Scan1(0, INTENTS));
    ReachGo(s, s3, a, Go);
    assert s3.agents[a := Load2(0)] == s1.agents[a := Load2(0)];
  }

  ghost function Poised(pg: Page): Agent { Scan2(0, INTENTS, pg.word, pg.acq, pg.unl, pg.rep) }

  /** A repairer of page 0 gets past its second load and second scan. */
  lemma Repair2(s: State, s1: State, a: nat)
    requires Reaches(s, s1) && Quiet(s1) && a < |s1.agents| && s1.agents[a] == Load2(0)
    requires |s1.pages| == 1 && s1.pages[0].word.locked
    ensures Reaches(s, Become(s1, a, Poised(s1.pages[0])))
  {
    var pg := s1.pages[0];
    var x := Scan2(0, 0, pg.word, pg.acq, pg.unl, pg.rep);
    var s2 := Become(s1, a, x);
    ReachGo(s, s1, a, Go);
    ScanPass2(s, s2, a, x);
    assert s2.agents[a := Poised(pg)] == s1.agents[a := Poised(pg)];
  }

  /** The compare-and-swap of a poised repairer. */
  lemma Repair3(s: State, s1: State, a: nat, pg: Page)
    requires Reaches(s, s1) && Wf(s1) && a < |s1.agents| && s1.agents[a] == Poised(pg)
    requires |s1.pages| == 1 && s1.pages[0].word == pg.word
    ensures Reaches(s, State([s1.pages[0].(word := RepairWord(pg.word), rep := s1.pages[0].rep + 1)], s1.reg,
                             s1.agents[a := Idle]))
  {
    ReachGo(s, s1, a, Go);
  }

  function LockedPage(pg: Page): Page { pg.(word := LockWord(pg.word), acq := pg.acq + 1) }

  function UnlockedPage(pg: Page): Page { pg.(word := UnlockWord(pg.word), unl := pg.unl + 1) }

  /** An idle thread publishes its intent and takes the free page 0. */
  lemma Acquire(s: State, s1: State, a: nat)
    requires Reaches(s, s1) && Quiet(s1) && a < |s1.agents| && s1.agents[a] == Idle
    requires |s1.pages| == 1 && !s1.pages[0].word.locked
    ensures Reaches(s, State([LockedPage(s1.pages[0])], s1.reg[0 := Some(0)], s1.agents[a := Holding(0, 0)]))
  {
    var s2 := Become(s1, a, Publishing(0, 0));
    ReachGo(s, s1, a, StartLock(0));
    var s3 := State(s1.pages, s1.reg[0 := Some(0)], s1.agents[a := Published(0, 0)]);
    ReachGo(s, s2, a, Go);
    assert StepAgent(s2, a, Go) == s3;
    ReachGo(s, s3, a, Go);
    assert StepAgent(s3, a, Go) == State([LockedPage(s1.pages[0])], s1.reg[0 := Some(0)], s1.agents[a := Holding(0, 0)]);
  }

  /** The holder of page 0 unlocks and withdraws its intent. */
  lemma Release(s: State, s1: State, a: nat)
    requires Reaches(s, s1) && Wf(s1) && a < |s1.agents| && s1.agents[a] == Holding(0, 0) && |s1.pages| == 1
    ensures Reaches(s, State([UnlockedPage(s1.pages[0])], s1.reg[0 := None], s1.agents[a := Idle]))
  {
    var s2 := Become(s1, a, Unlocking(0, 0, s1.pages[0].word));
    ReachGo(s, s1, a, Go);
    var s3 := State([UnlockedPage(s1.pages[0])], s1.reg, s1.agents[a := Released(0, 0)]);
    ReachGo(s, s2, a, Go);
    assert StepAgent(s2, a, Go) == s3;
    ReachGo(s, s3, a, Go);
    assert StepAgent(s3, a, Go) == State([UnlockedPage(s1.pages[0])], s1.reg[0 := None], s1.agents[a := Idle]);
  }

  /** Page 0 locked by a dead process, an empty registry and three threads. */
  function Stale(): State { State([Page(Word(false, 0, true), 0, 0, 0)], seq(INTENTS, _ => None), []) }

  function Three(): State { Stale().(agents := [Idle, Idle, Idle]) }

  lemma ReachThree()
    ensures Start(Stale()) && Reaches(Stale(), Three())
  {
    var s1, s2 := Stale().(agents := [Idle]), Stale().(agents := [Idle, Idle]);
    ReachRefl(Stale());
    assert Spawn(Stale()) == s1 && Spawn(s1) == s2 && Spawn(s2) == Three();
    ReachNext(Stale(), Stale(), s1);
    ReachNext(Stale(), s1, s2);
    ReachNext(Stale(), s2, Three());
  }

  /** Repairer `a`'s next step will clear the lock of page 0 while live thread `b` holds it; since its
      second load there were `repairs` other repairs and `acquired` acquisitions. */
  ghost predicate ClearsLive(s: State, a: nat, b: nat, repairs: nat, acquired: nat) {
    && Wf(s) && a < |s.agents| && b < |s.agents| && |s.pages| == 1
    && AtCas(s.agents[a]) && CasHits(s, s.agents[a]) && Holds(s.agents[b], 0)
    && s.pages[0].rep == s.agents[a].rep0 + repairs && s.pages[0].acq == s.agents[a].acq0 + acquired
    && !StepAgent(s, a, Go).pages[0].word.locked && Holds(StepAgent(s, a, Go).agents[b], 0)
  }

  ghost predicate BadRun(run: seq<State>, a: nat, b: nat, repairs: nat, acquired: nat) {
    Run(run, {}) && Start(run[0]) && ClearsLive(run[|run| - 1], a, b, repairs, acquired)
  }

  /** Two repairers pass their checks on the same stale lock. The first clears it; a new holder locks to
      the identical word, because repair does not advance the version; the second clears the live lock. */
  lemma TwoRepairers()
    ensures exists run: seq<State> :: BadRun(run, 1, 2, 1, 1)
  {
    hide Reaches, Start, BadRun;
    var s0 := Stale();
    var e := s0.reg;
    var pg := s0.pages[0];
    ReachThree();
    Repair1(s0, Three(), 0);
    Repair2(s0, State([pg], e, [Load2(0), Idle, Idle]), 0);
    Repair1(s0, State([pg], e, [Poised(pg), Idle, Idle]), 1);
    Repair2(s0, State([pg], e, [Poised(pg), Load2(0), Idle]), 1);
    Repair3(s0, State([pg], e, [Poised(pg), Poised(pg), Idle]), 0, pg);
    var p1 := pg.(word := RepairWord(pg.word), rep := 1);
    Acquire(s0, State([p1], e, [Idle, Poised(pg), Idle]), 2);
    var s3 := State([LockedPage(p1)], e[0 := Some(0)], [Idle, Poised(pg), Holding(0, 0)]);
    Bad(s0, s3, 1, 2, 1, 1);
  }

  lemma Bad(s0: State, s: State, a: nat, b: nat, repairs: nat, acquired: nat)
    requires Start(s0) && Reaches(s0, s) && ClearsLive(s, a, b, repairs, acquired)
    ensures exists run: seq<State> :: BadRun(run, a, b, repairs, acquired)
  {
    var run :| Run(run, {}) && run[0] == s0 && run[|run| - 1] == s;
    assert BadRun(run, a, b, repairs, acquired);
  }

  ghost function Cycled(pg: Page, n: nat): Page
    requires WordOk(pg.word)
  {
    Page(Word(pg.word.client, Advance(pg.word.cycle, n), false), pg.acq + n, pg.unl + n, pg.rep)
  }

  /** `n` lock and unlock cycles by an idle thread on a free page 0. */
  lemma {:induction false} Cycles(s: State, s1: State, a: nat, n: nat)
    requires Reaches(s, s1) && Quiet(s1) && a < |s1.agents| && s1.agents[a] == Idle
    requires |s1.pages| == 1 && !s1.pages[0].word.locked && WordOk(s1.pages[0].word)
    ensures Reaches(s, State([Cycled(s1.pages[0], n)], s1.reg, s1.agents))
  {
    var pg := s1.pages[0];
    if n == 0 {
      assert s1 == State([Cycled(pg, 0)], s1.reg, s1.agents);
    } else {
      Cycles(s, s1, a, n - 1);
      var s2 := State([Cycled(pg, n - 1)], s1.reg, s1.agents);
      Acquire(s, s2, a);
      var s3 := State([LockedPage(Cycled(pg, n - 1))], s1.reg[0 := Some(0)], s1.agents[a := Holding(0, 0)]);
      Release(s, s3, a);
      assert s1.reg[0 := Some(0)][0 := None] == s1.reg;
      assert s1.agents[a := Holding(0, 0)][a := Idle] == s1.agents;
      assert UnlockedPage(LockedPage(Cycled(pg, n - 1))) == Cycled(pg, n);
    }
  }

  /** With no second repairer, 32 acquisitions between the second load and the compare-and-swap are enough:
      the five-bit cycle counter has wrapped, and the repair clears a live lock. */
  lemma CounterWrap()
    ensures exists run: seq<State> :: BadRun(run, 0, 1, 0, 32)
  {
    hide Reaches, Start, BadRun;
    var s0 := Stale();
    var e, pg := s0.reg, s0.pages[0];
    ReachThree();
    // Thread 0 passes its first load and scan; thread 2 repairs the stale lock; thread 1 takes the page.
    Repair1(s0, Three(), 0);
    Repair1(s0, State([pg], e, [Load2(0), Idle, Idle]), 2);
    Repair2(s0, State([pg], e, [Load2(0), Idle, Load2(0)]), 2);
    Repair3(s0, State([pg], e, [Load2(0), Idle, Poised(pg)]), 2, pg);
    var p1 := pg.(word := RepairWord(pg.word), rep := 1);
    Acquire(s0, State([p1], e, [Load2(0), Idle, Idle]), 1);
    var p2 := LockedPage(p1);
    // Thread 0 loads the locked word a second time, before thread 1 unlocks and withdraws its intent.
    var x := Scan2(0, 0, p2.word, p2.acq, p2.unl, p2.rep);
    var s2 := State([p2], e[0 := Some(0)], [Load2(0), Holding(0, 0), Idle]);
    ReachGo(s0, s2, 0, Go);
    var s3 := State([p2], e[0 := Some(0)], [x, Holding(0, 0), Idle]);
    assert StepAgent(s2, 0, Go) == s3;
    WrapRest(s0, s3, p2, x, e);
  }

  lemma WrapRest(s0: State, s3: State, p2: Page, x: Agent, e: seq<Option<nat>>)
    requires e == seq(INTENTS, _ => None) && p2 == Page(Word(false, 0, true), 1, 0, 1)
    requires x == Scan2(0, 0, p2.word, p2.acq, p2.unl, p2.rep)
    requires s3 == State([p2], e[0 := Some(0)], [x, Holding(0, 0), Idle]) && Reaches(s0, s3) && Start(s0)
    ensures exists run: seq<State> :: BadRun(run, 0, 1, 0, 32)
  {
    hide Reaches, Start, BadRun;
    Release(s0, s3, 1);
    var p3 := UnlockedPage(p2);
    assert e[0 := Some(0)][0 := None] == e;
    var s4 := State([p3], e, [x, Idle, Idle]);
    assert s3.agents[1 := Idle] == s4.agents;
    ScanPass2(s0, s4, 0, x);
    var y := At(x, INTENTS);
    var s5 := State([p3], e, [y, Idle, Idle]);
    assert s4.agents[0 := y] == s5.agents;
    Cycles(s0, s5, 1, 31);
    AdvanceIs(1, 31);
    var p4 := Cycled(p3, 31);
    var s6 := State([p4], e, [y, Idle, Idle]);
    Acquire(s0, s6, 1);
    var s7 := State([LockedPage(p4)], e[0 := Some(0)], [y, Holding(0, 0), Idle]);
    assert s6.agents[1 := Holding(0, 0)] == s7.agents;
    Bad(s0, s7, 0, 1, 0, 32);
  }
}

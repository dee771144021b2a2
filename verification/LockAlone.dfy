/** Page locks without interference: a thread that locks and unlocks, and one that repairs. */
module LockAlone {
  import opened Options
  import opened LockIntent

  /** `n` steps of thread `a` alone lead from `s` to `s'`. */
  ghost predicate Alone(s: State, a: nat, n: nat, s': State)
    decreases n
  {
    if n == 0 then s' == s else Wf(s) && a < |s.agents| && Alone(StepAgent(s, a, Go), a, n - 1, s')
  }

  ghost predicate Leads(s: State, a: nat, s': State) { exists n: nat :: Alone(s, a, n, s') }

  lemma {:induction false} AloneThen(s: State, a: nat, n: nat, t: State, m: nat, u: State)
    requires Alone(s, a, n, t) && Alone(t, a, m, u)
    ensures Alone(s, a, n + m, u)
    decreases n
  {
    hide StepAgent;
    if n > 0 {
      AloneThen(StepAgent(s, a, Go), a, n - 1, t, m, u);
    }
  }

  lemma LeadsThen(s: State, a: nat, t: State, u: State)
    requires Leads(s, a, t) && Leads(t, a, u)
    ensures Leads(s, a, u)
  {
    var n: nat :| Alone(s, a, n, t);
    var m: nat :| Alone(t, a, m, u);
    AloneThen(s, a, n, t, m, u);
  }

  lemma LeadsOne(s: State, a: nat, s': State)
    requires Wf(s) && a < |s.agents| && s' == StepAgent(s, a, Go)
    ensures Leads(s, a, s')
  {
    hide StepAgent;
    assert Alone(s', a, 0, s') && Alone(s, a, 1, s');
  }

  lemma LeadsNone(s: State, a: nat)
    ensures Leads(s, a, s)
  {
    assert Alone(s, a, 0, s);
  }

  lemma Twice(s: State, a: nat, x: Agent, y: Agent)
    requires a < |s.agents|
    ensures Become(Become(s, a, x), a, y) == Become(s, a, y)
    ensures s.agents[a] == x ==> Become(s, a, x) == s
  {
    assert s.agents[a := x][a := y] == s.agents[a := y];
  }

  // ---------------------------------------------------------------- repair

  /** Somebody has registered page `p` at slot `i` or later. */
  predicate RegisteredFrom(s: State, p: nat, i: nat) { exists j :: i <= j < |s.reg| && s.reg[j] == Some(p) }

  /** The first scan gives up at an intent for the page, and otherwise comes to the second load. */
  lemma {:induction false} Scan1Alone(s: State, a: nat, p: nat, i: nat)
    requires Wf(s) && a < |s.agents| && i <= INTENTS
    ensures Leads(Become(s, a, Scan1(p, i)), a, Become(s, a, if RegisteredFrom(s, p, i) then Idle else Load2(p)))
    decreases INTENTS - i
  {
    var x := Scan1(p, i);
    var s1, end := Become(s, a, x), Become(s, a, if RegisteredFrom(s, p, i) then Idle else Load2(p));
    hide Leads;
    if i < INTENTS && s.reg[i] != Some(p) {
      var s2 := Become(s, a, Scan1(p, i + 1));
      Twice(s, a, x, Scan1(p, i + 1));
      LeadsOne(s1, a, s2);
      assert RegisteredFrom(s, p, i) == RegisteredFrom(s, p, i + 1);
      Scan1Alone(s, a, p, i + 1);
      LeadsThen(s1, a, s2, end);
    } else {
      Twice(s, a, x, end.agents[a]);
      LeadsOne(s1, a, end);
    }
  }

  /** The second scan gives up at an intent for the page, and otherwise comes to the compare-and-swap. */
  lemma {:induction false} Scan2Alone(s: State, a: nat, x: Agent)
    requires Wf(s) && a < |s.agents| && x.Scan2? && x.i <= INTENTS
    ensures Leads(Become(s, a, x), a, Become(s, a, if RegisteredFrom(s, x.page, x.i) then Idle else At(x, INTENTS)))
    decreases INTENTS - x.i
  {
    var s1, end := Become(s, a, x), Become(s, a, if RegisteredFrom(s, x.page, x.i) then Idle else At(x, INTENTS));
    hide Leads;
    if x.i == INTENTS {
      LeadsNone(s1, a);
    } else if s.reg[x.i] == Some(x.page) {
      Twice(s, a, x, Idle);
      LeadsOne(s1, a, end);
    } else {
      var y := At(x, x.i + 1);
      Twice(s, a, x, y);
      LeadsOne(s1, a, Become(s, a, y));
      assert RegisteredFrom(s, x.page, x.i) == RegisteredFrom(s, x.page, x.i + 1);
      Scan2Alone(s, a, y);
      LeadsThen(s1, a, Become(s, a, y), end);
    }
  }

  /** What a repair of page `p` leaves: the lock bit cleared, unless somebody has registered the page. */
  function Repaired(s: State, p: nat): (s': State)
    requires p < |s.pages|
  {
    if RegisteredFrom(s, p, 0) then s
    else s.(pages := s.pages[p := s.pages[p].(word := s.pages[p].word.(locked := false), rep := s.pages[p].rep + 1)])
  }

  /** A repair that nothing interferes with clears the lock of a page iff no intent is registered for the page, and
      changes nothing else. */
  lemma RepairAlone(s: State, a: nat, p: nat)
    requires Wf(s) && a < |s.agents| && s.agents[a] == Idle && p < |s.pages| && s.pages[p].word.locked
    ensures Leads(StepAgent(s, a, StartRepair(p)), a, Repaired(s, p))
  {
    var s1 := Become(s, a, Scan1(p, 0));
    assert StepAgent(s, a, StartRepair(p)) == s1;
    Scan1Alone(s, a, p, 0);
    Twice(s, a, Idle, Idle);
    if !RegisteredFrom(s, p, 0) {
      SecondScan(s, a, p);
      hide *;
      LeadsThen(s1, a, Become(s, a, Load2(p)), Repaired(s, p));
    }
  }

  lemma SecondScan(s: State, a: nat, p: nat)
    requires Wf(s) && a < |s.agents| && s.agents[a] == Idle && p < |s.pages| && s.pages[p].word.locked
    requires !RegisteredFrom(s, p, 0)
    ensures Leads(Become(s, a, Load2(p)), a, Repaired(s, p))
  {
    var pg := s.pages[p];
    var x := Scan2(p, 0, pg.word, pg.acq, pg.unl, pg.rep);
    var s2, s3, s4 := Become(s, a, Load2(p)), Become(s, a, x), Become(s, a, At(x, INTENTS));
    hide Leads;
    Twice(s, a, Load2(p), x);
    LeadsOne(s2, a, s3);
    Scan2Alone(s, a, x);
    assert s4.agents[a := Idle] == s.agents;
    LeadsOne(s4, a, Repaired(s, p));
    LeadsThen(s2, a, s3, s4);
    LeadsThen(s2, a, s4, Repaired(s, p));
  }

  // ---------------------------------------------------------------- lock and unlock

  /** How far registry slot `f` is from slot `i`, upwards and round. */
  function Distance(i: nat, f: nat): (d: nat)
    requires i < INTENTS && f < INTENTS
  {
    if i <= f then f - i else f + INTENTS - i
  }

  /** The publishing loop finds a free slot of the registry. */
  lemma {:induction false} PublishAlone(s: State, a: nat, p: nat, i: nat, f: nat) returns (j: nat)
    requires Wf(s) && a < |s.agents| && i < INTENTS && f < INTENTS && s.reg[f] == None
    ensures j < INTENTS && s.reg[j] == None
    ensures Leads(Become(s, a, Publishing(p, i)), a, Become(SetReg(s, j, Some(p)), a, Published(p, j)))
    decreases Distance(i, f)
  {
    var s1 := Become(s, a, Publishing(p, i));
    hide Leads;
    if s.reg[i] == None {
      j := i;
      assert s1.agents[a := Published(p, i)] == s.agents[a := Published(p, i)];
      LeadsOne(s1, a, Become(SetReg(s, i, Some(p)), a, Published(p, i)));
    } else {
      var i' := (i + 1) % INTENTS;
      var s2 := Become(s, a, Publishing(p, i'));
      Twice(s, a, Publishing(p, i), Publishing(p, i'));
      LeadsOne(s1, a, s2);
      j := PublishAlone(s, a, p, i', f);
      LeadsThen(s1, a, s2, Become(SetReg(s, j, Some(p)), a, Published(p, j)));
    }
  }

  /** Page `p` unlocked again: the version a cycle further, one acquisition and one unlock more. */
  ghost predicate Cycled(s: State, s': State, p: nat) {
    && p < |s.pages| && s' == s.(pages := s'.pages) && |s'.pages| == |s.pages|
    && (forall q :: 0 <= q < |s.pages| && q != p ==> s'.pages[q] == s.pages[q])
    && var w, w' := s.pages[p].word, s'.pages[p].word;
       && w' == Word(w.client, if w.cycle + 1 == CYCLES then 0 else w.cycle + 1, false)
       && s'.pages[p] == Page(w', s.pages[p].acq + 1, s.pages[p].unl + 1, s.pages[p].rep)
  }

  /** A thread that nothing interferes with locks an unlocked page and unlocks it again: the version has advanced by one
      cycle, and nothing is left in the registry. */
  lemma LockAlone(s: State, a: nat, p: nat, f: nat) returns (s': State)
    requires Wf(s) && a < |s.agents| && s.agents[a] == Idle && p < |s.pages| && !s.pages[p].word.locked
    requires f < INTENTS && s.reg[f] == None
    ensures Leads(StepAgent(s, a, StartLock(p)), a, s') && Cycled(s, s', p)
  {
    var s1 := Become(s, a, Publishing(p, p % INTENTS));
    assert StepAgent(s, a, StartLock(p)) == s1;
    var j := PublishAlone(s, a, p, p % INTENTS, f);
    s' := HoldAlone(s, a, p, j);
    hide Leads;
    LeadsThen(s1, a, Become(SetReg(s, j, Some(p)), a, Published(p, j)), s');
  }

  lemma HoldAlone(s: State, a: nat, p: nat, j: nat) returns (s6: State)
    requires Wf(s) && a < |s.agents| && s.agents[a] == Idle && p < |s.pages| && !s.pages[p].word.locked
    requires j < INTENTS && s.reg[j] == None
    ensures Leads(Become(SetReg(s, j, Some(p)), a, Published(p, j)), a, s6) && Cycled(s, s6, p)
  {
    var pg := s.pages[p];
    var held := pg.(word := LockWord(pg.word), acq := pg.acq + 1);
    var after := held.(word := UnlockWord(held.word), unl := pg.unl + 1);
    var r := SetReg(s, j, Some(p));
    var s2 := Become(r, a, Published(p, j));
    var s3 := Become(SetPage(r, p, held), a, Holding(p, j));
    var s4 := Become(SetPage(r, p, held), a, Unlocking(p, j, held.word));
    var s5 := Become(SetPage(r, p, after), a, Released(p, j));
    s6 := s.(pages := s.pages[p := after]);
    assert s2.agents[a := Holding(p, j)] == s3.agents && s3.agents[a := s4.agents[a]] == s4.agents;
    assert s4.agents[a := Released(p, j)] == s5.agents && s5.agents[a := Idle] == s.agents;
    assert s4.pages[p := after] == s5.pages && r.reg[j := None] == s.reg;
    hide Leads;
    LeadsOne(s2, a, s3);
    LeadsOne(s3, a, s4);
    LeadsOne(s4, a, s5);
    LeadsOne(s5, a, s6);
    LeadsThen(s2, a, s3, s4);
    LeadsThen(s2, a, s4, s5);
    LeadsThen(s2, a, s5, s6);
  }
}

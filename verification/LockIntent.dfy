/** Page locks, the volatile lock-intent registry and the repair of locks left by a killed process,
    as a state machine over the individual atomic steps of any number of threads. */
module LockIntent {
  import opened Options

  const INTENTS: nat := 128

  /** The one-byte version lock: the CLIENT bit, a five-bit cycle counter and the lock bit (the six
      version bits are `2 * cycle + lock`; USED is always set on a page that is locked or read). */
  datatype Word = Word(client: bool, cycle: nat, locked: bool)

  const CYCLES: nat := 32

  predicate WordOk(w: Word) { w.cycle < CYCLES }

  /** `lock`: the unlocked word plus one. */
  function LockWord(w: Word): Word { w.(locked := true) }

  function NextCycle(c: nat): nat { if c + 1 == CYCLES then 0 else c + 1 }

  /** `unlock`: the version bits advance by one and wrap, the CLIENT bit is kept. On a word whose lock bit has
      been cleared meanwhile this sets the lock bit again. */
  function UnlockWord(w: Word): Word { if w.locked then w.(locked := false, cycle := NextCycle(w.cycle)) else w.(locked := true) }

  /** Repair clears the lock bit and nothing else. */
  function RepairWord(w: Word): Word { w.(locked := false) }

  function ByteOf(w: Word): (b: nat)
    requires WordOk(w)
    ensures b < 256
  {
    (if w.client then 128 else 0) + 64 + 2 * w.cycle + (if w.locked then 1 else 0)
  }

  /** The word operations are the source's byte arithmetic: plus one; plus one modulo 64 with USED and
      CLIENT put back; lock bit masked off. Equal bytes are equal words. */
  lemma ByteOps(w: Word, v: Word)
    requires WordOk(w) && WordOk(v)
    ensures w.locked <==> ByteOf(w) % 2 == 1
    ensures !w.locked ==> ByteOf(LockWord(w)) == ByteOf(w) + 1
    ensures ByteOf(UnlockWord(w)) == (ByteOf(w) + 1) % 64 + 64 + ByteOf(w) / 128 * 128
    ensures ByteOf(RepairWord(w)) == ByteOf(w) - ByteOf(w) % 2
    ensures ByteOf(w) == ByteOf(v) ==> w == v
  {
    var hi := if w.client then 2 else 0;
    if w.locked && w.cycle == CYCLES - 1 {
      assert ByteOf(w) + 1 == 64 * (hi + 2);
    } else if w.locked {
      assert ByteOf(w) + 1 == 64 * (hi + 1) + (2 * w.cycle + 2);
    }
  }

  /** A page's lock word and, for the proofs, its history: acquisitions, unlocks and repairs. */
  datatype Page = Page(word: Word, acq: nat, unl: nat, rep: nat)

  /** One activity of a thread. A thread that frees a slot on a second page is two of these. */
  datatype Agent =
    | Idle
    | Publishing(page: nat, i: nat)
    | Published(page: nat, slot: nat)
    | Holding(page: nat, slot: nat)
    | Unlocking(page: nat, slot: nat, seen: Word)
    | Released(page: nat, slot: nat)
    | Scan1(page: nat, i: nat)
    | Load2(page: nat)
    | Scan2(page: nat, i: nat, lv: Word, acq0: nat, unl0: nat, rep0: nat)

  datatype State = State(pages: seq<Page>, reg: seq<Option<nat>>, agents: seq<Agent>)

  predicate Wf(s: State) { |s.reg| == INTENTS }

  function Become(s: State, a: nat, x: Agent): (s': State)
    requires a < |s.agents|
  {
    s.(agents := s.agents[a := x])
  }

  function SetPage(s: State, p: nat, pg: Page): (s': State)
    requires p < |s.pages|
  {
    s.(pages := s.pages[p := pg])
  }

  function SetReg(s: State, i: nat, v: Option<nat>): (s': State)
    requires i < |s.reg|
  {
    s.(reg := s.reg[i := v])
  }

  /** What agent `a` does when it runs next. Where the source branches on shared memory this is
      determined; starting an activity and giving up waiting are the caller's choice. */
  datatype Act = StartLock(page: nat) | StartRepair(page: nat) | GiveUp | Go

  /** Is this a repairer whose next step is the compare-and-swap? */
  predicate AtCas(x: Agent) { x.Scan2? && x.i == INTENTS }

  /** The compare-and-swap would succeed. */
  predicate CasHits(s: State, x: Agent)
    requires AtCas(x)
  {
    x.page < |s.pages| && s.pages[x.page].word == x.lv
  }

  /** The second scan, at registry slot `i`. */
  function At(x: Agent, i: nat): (x': Agent)
    requires x.Scan2?
  {
    Scan2(x.page, i, x.lv, x.acq0, x.unl0, x.rep0)
  }

  function StepAgent(s: State, a: nat, act: Act): (s': State)
    requires Wf(s) && a < |s.agents|
  {
    var x := s.agents[a];
    match act
    case StartLock(p) =>
      if x.Idle? && p < |s.pages| then Become(s, a, Publishing(p, p % INTENTS)) else s
    case StartRepair(p) =>
      if x.Idle? && p < |s.pages| then
        (if s.pages[p].word.locked then Become(s, a, Scan1(p, 0)) else s)
      else s
    case GiveUp =>
      if x.Published? then Become(s, a, Released(x.page, x.slot)) else s
    case Go => StepGo(s, a, x)
  }

  function StepGo(s: State, a: nat, x: Agent): (s': State)
    requires Wf(s) && a < |s.agents|
  {
    match x
    case Idle => s
    case Publishing(p, i) =>
      if i >= INTENTS then s
      else if s.reg[i].None? then Become(SetReg(s, i, Some(p)), a, Published(p, i))
      else Become(s, a, Publishing(p, (i + 1) % INTENTS))
    case Published(p, slot) =>
      if p < |s.pages| && !s.pages[p].word.locked then
        var pg := s.pages[p];
        Become(SetPage(s, p, pg.(word := LockWord(pg.word), acq := pg.acq + 1)), a, Holding(p, slot))
      else s
    case Holding(p, slot) =>
      if p < |s.pages| then Become(s, a, Unlocking(p, slot, s.pages[p].word)) else s
    case Unlocking(p, slot, seen) =>
      if p < |s.pages| then
        var pg := s.pages[p];
        Become(SetPage(s, p, pg.(word := UnlockWord(seen), unl := pg.unl + 1)), a, Released(p, slot))
      else s
    case Released(p, slot) =>
      if slot < INTENTS then Become(SetReg(s, slot, None), a, Idle) else s
    case Scan1(p, i) =>
      if i >= INTENTS then Become(s, a, Load2(p))
      else if s.reg[i] == Some(p) then Become(s, a, Idle)
      else Become(s, a, Scan1(p, i + 1))
    case Load2(p) =>
      if p < |s.pages| && s.pages[p].word.locked then
        var pg := s.pages[p];
        Become(s, a, Scan2(p, 0, pg.word, pg.acq, pg.unl, pg.rep))
      else Become(s, a, Idle)
    case Scan2(p, i, lv, _, _, _) =>
      if i < INTENTS then
        (if s.reg[i] == Some(p) then Become(s, a, Idle) else Become(s, a, At(x, i + 1)))
      else if p < |s.pages| && s.pages[p].word == lv then
        var pg := s.pages[p];
        Become(SetPage(s, p, pg.(word := RepairWord(lv), rep := pg.rep + 1)), a, Idle)
      else Become(s, a, Idle)
  }

  /** A client setting or clearing its CLIENT bit in a page's word. */
  function Toggle(s: State, p: nat): (s': State)
    requires p < |s.pages|
  {
    var pg := s.pages[p];
    SetPage(s, p, pg.(word := pg.word.(client := !pg.word.client)))
  }

  /** The process is killed: threads and registry are gone, page words survive. */
  function Crash(s: State): (s': State) {
    State(s.pages, seq(INTENTS, _ => None), [])
  }

  /** Threads may appear at any time. */
  function Spawn(s: State): (s': State) { s.(agents := s.agents + [Idle]) }

  /** The side condition on a repair: nobody else repaired the page, and fewer than 32 acquisitions fell
      between its second load and its compare-and-swap. */
  predicate Disciplined(s: State, x: Agent)
    requires AtCas(x)
  {
    x.page < |s.pages| && s.pages[x.page].rep == x.rep0 && s.pages[x.page].acq < x.acq0 + 32
  }

  /** Any interleaving. Successful repairs of the pages in `strict` meet the side condition. */
  ghost predicate Next(s: State, s': State, strict: set<nat>) {
    && Wf(s)
    && (|| (exists a, act :: 0 <= a < |s.agents| && s' == StepAgent(s, a, act) && Allowed(s, s.agents[a], act, strict))
        || (exists p :: 0 <= p < |s.pages| && s' == Toggle(s, p))
        || s' == Crash(s)
        || s' == Spawn(s))
  }

  ghost predicate Allowed(s: State, x: Agent, act: Act, strict: set<nat>) {
    act == Go && AtCas(x) && CasHits(s, x) && x.page in strict ==> Disciplined(s, x)
  }

  // ---------------------------------------------------------------- invariant

  predicate Registered(x: Agent) { x.Published? || x.Holding? || x.Unlocking? || x.Released? }

  predicate Holds(x: Agent, p: nat) { (x.Holding? || x.Unlocking?) && x.page == p }

  /** What thread `a` may rely on, as far as page `p` is concerned. */
  ghost predicate SlotInv(s: State, a: nat, p: nat)
    requires Wf(s) && a < |s.agents|
  {
    var x := s.agents[a];
    && (Registered(x) ==> x.page < |s.pages| && x.slot < INTENTS && s.reg[x.slot] == Some(x.page))
    && (Holds(x, p) ==> s.pages[p].word.locked)
    && (x.Unlocking? ==> WordOk(x.seen))
    && (x.Unlocking? && x.page == p ==> x.seen.locked && x.seen.cycle == s.pages[p].word.cycle)
    && (x.Publishing? || x.Scan1? || x.Load2? || x.Scan2? ==> x.page < |s.pages|)
    && (x.Scan2? ==> WordOk(x.lv) && x.i <= INTENTS && (x.page == p ==> ScanInv(s, x)))
  }

  /** The cycle counter after `n` unlocks. */
  function Advance(c: nat, n: nat): (c': nat)
    requires c < CYCLES
    ensures c' < CYCLES
  {
    if n == 0 then c else NextCycle(Advance(c, n - 1))
  }

  /** Since its second load, and as long as nobody repaired the page, acquisitions and unlocks have
      alternated and the cycle counter has advanced once per unlock; and if there was no unlock, no live
      holder sits in a registry slot already scanned. */
  ghost predicate ScanInv(s: State, x: Agent)
    requires Wf(s) && x.Scan2?
  {
    && x.page < |s.pages| && x.lv.locked && WordOk(x.lv)
    && var pg := s.pages[x.page];
    && pg.rep >= x.rep0 && pg.acq >= x.acq0 && pg.unl >= x.unl0
    && (pg.rep == x.rep0 ==>
          && pg.unl - x.unl0 == pg.acq - x.acq0 + (if pg.word.locked then 0 else 1)
          && pg.word.cycle == Advance(x.lv.cycle, pg.unl - x.unl0)
          && (pg.unl == x.unl0 ==>
                forall b :: 0 <= b < |s.agents| && Holds(s.agents[b], x.page) ==> s.agents[b].slot >= x.i))
  }

  ghost predicate Inv(s: State, p: nat) {
    && Wf(s)
    && (forall q :: 0 <= q < |s.pages| ==> WordOk(s.pages[q].word))
    && (forall a :: 0 <= a < |s.agents| ==> SlotInv(s, a, p))
    && (forall a, b :: 0 <= a < b < |s.agents| && Registered(s.agents[a]) && Registered(s.agents[b]) ==>
          s.agents[a].slot != s.agents[b].slot)
    && (forall a, b :: 0 <= a < b < |s.agents| && Holds(s.agents[a], p) ==> !Holds(s.agents[b], p))
  }

  /** The counter returns to its value only after a multiple of 32 unlocks. */
  lemma {:induction false} AdvanceIs(c: nat, n: nat)
    requires c < CYCLES && n <= CYCLES
    ensures Advance(c, n) == if c + n < CYCLES then c + n else c + n - CYCLES
  {
    if n > 0 {
      AdvanceIs(c, n - 1);
    }
  }

  // ---------------------------------------------------------------- every step keeps the invariant

  /** Two agents differ in what they promise only by their own state. */
  ghost predicate Calm(s: State, s': State, a: nat) {
    && Wf(s) && Wf(s') && a < |s.agents| && |s'.agents| == |s.agents| && |s'.pages| == |s.pages|
    && (forall b :: 0 <= b < |s.agents| && b != a ==> s'.agents[b] == s.agents[b])
  }

  /** Steps that change neither pages nor registry: everyone else keeps its promise if the mover does not
      become a holder, or stays one in the same slot. */
  lemma AgentOnly(s: State, a: nat, x': Agent, p: nat)
    requires Inv(s, p) && a < |s.agents|
    requires SlotInv(Become(s, a, x'), a, p)
    requires Registered(x') ==> Registered(s.agents[a]) && x'.slot == s.agents[a].slot
    requires Holds(x', p) ==> Holds(s.agents[a], p)
    ensures Inv(Become(s, a, x'), p)
  {
    var s' := Become(s, a, x');
    forall b | 0 <= b < |s.agents| ensures SlotInv(s', b, p) {
      assert SlotInv(s, b, p);
    }
  }

  lemma StartInv(s: State, a: nat, act: Act, p: nat)
    requires Inv(s, p) && a < |s.agents| && !act.Go?
    ensures Inv(StepAgent(s, a, act), p)
  {
    var x := s.agents[a];
    assert SlotInv(s, a, p);
    var s' := StepAgent(s, a, act);
    if s' != s {
      AgentOnly(s, a, s'.agents[a], p);
    }
  }

  lemma ScanStepInv(s: State, a: nat, p: nat)
    requires Inv(s, p) && a < |s.agents|
    requires var x := s.agents[a]; x.Idle? || x.Holding? || x.Scan1? || x.Load2? || (x.Scan2? && !(AtCas(x) && CasHits(s, x)))
    ensures Inv(StepAgent(s, a, Go), p)
  {
    var x := s.agents[a];
    assert SlotInv(s, a, p);
    var s' := StepAgent(s, a, Go);
    if s' != s {
      assert s' == Become(s, a, s'.agents[a]);
      if x.Scan2? && x.i < INTENTS && s'.agents[a].Scan2? {
        forall b | 0 <= b < |s.agents| && Holds(s.agents[b], x.page) && s.agents[b].slot >= x.i
          ensures s.agents[b].slot >= x.i + 1
        {
          assert SlotInv(s, b, p);
        }
      }
      AgentOnly(s, a, s'.agents[a], p);
    }
  }

  lemma PublishInv(s: State, a: nat, p: nat)
    requires Inv(s, p) && a < |s.agents| && s.agents[a].Publishing?
    ensures Inv(StepAgent(s, a, Go), p)
  {
    var x := s.agents[a];
    assert SlotInv(s, a, p);
    var s' := StepAgent(s, a, Go);
    if x.i < INTENTS && s.reg[x.i].None? {
      forall b | 0 <= b < |s.agents| ensures SlotInv(s', b, p) && (b != a && Registered(s.agents[b]) ==> s.agents[b].slot != x.i) {
        assert SlotInv(s, b, p);
      }
    } else if s' != s {
      AgentOnly(s, a, s'.agents[a], p);
    }
  }

  lemma ClearInv(s: State, a: nat, p: nat)
    requires Inv(s, p) && a < |s.agents| && s.agents[a].Released?
    ensures Inv(StepAgent(s, a, Go), p)
  {
    var s' := StepAgent(s, a, Go);
    assert SlotInv(s, a, p);
    forall b | 0 <= b < |s.agents| ensures SlotInv(s', b, p) {
      assert SlotInv(s, b, p);
      if a < b {
        assert Registered(s.agents[b]) ==> s.agents[b].slot != s.agents[a].slot;
      }
    }
  }

  lemma LockInv(s: State, a: nat, p: nat)
    requires Inv(s, p) && a < |s.agents| && s.agents[a].Published?
    ensures Inv(StepAgent(s, a, Go), p)
  {
    var s' := StepAgent(s, a, Go);
    assert SlotInv(s, a, p);
    if s' != s {
      var q := s.agents[a].page;
      forall b | 0 <= b < |s.agents| ensures SlotInv(s', b, p) && (b != a && q == p ==> !Holds(s.agents[b], p)) {
        assert SlotInv(s, b, p);
      }
    }
  }

  lemma UnlockInv(s: State, a: nat, p: nat)
    requires Inv(s, p) && a < |s.agents| && s.agents[a].Unlocking?
    ensures Inv(StepAgent(s, a, Go), p)
  {
    var s' := StepAgent(s, a, Go);
    var x := s.agents[a];
    assert SlotInv(s, a, p);
    assert Holds(x, x.page);
    forall b | 0 <= b < |s.agents| ensures SlotInv(s', b, p) {
      assert SlotInv(s, b, p);
      assert b != a && x.page == p ==> !Holds(s.agents[b], p);
    }
  }

  /** A disciplined repair finds the page exactly as its second load left it, with no live holder. */
  lemma RepairFindsStale(s: State, a: nat, p: nat)
    requires Inv(s, p) && a < |s.agents| && AtCas(s.agents[a]) && CasHits(s, s.agents[a]) && Disciplined(s, s.agents[a])
    requires s.agents[a].page == p
    ensures s.pages[p].unl == s.agents[a].unl0 && s.pages[p].acq == s.agents[a].acq0
    ensures forall b :: 0 <= b < |s.agents| ==> !Holds(s.agents[b], p)
  {
    var x := s.agents[a];
    assert SlotInv(s, a, p);
    var pg := s.pages[p];
    AdvanceIs(x.lv.cycle, pg.unl - x.unl0);
    forall b | 0 <= b < |s.agents| ensures !Holds(s.agents[b], p) {
      assert SlotInv(s, b, p);
    }
  }

  lemma RepairInv(s: State, a: nat, p: nat)
    requires Inv(s, p) && a < |s.agents| && AtCas(s.agents[a]) && CasHits(s, s.agents[a])
    requires s.agents[a].page == p ==> Disciplined(s, s.agents[a])
    ensures Inv(StepAgent(s, a, Go), p)
  {
    var s' := StepAgent(s, a, Go);
    assert SlotInv(s, a, p);
    if s.agents[a].page == p {
      RepairFindsStale(s, a, p);
    }
    forall b | 0 <= b < |s.agents| ensures SlotInv(s', b, p) {
      assert SlotInv(s, b, p);
    }
  }

  lemma ToggleInv(s: State, q: nat, p: nat)
    requires Inv(s, p) && q < |s.pages|
    ensures Inv(Toggle(s, q), p)
  {
    var s' := Toggle(s, q);
    forall b | 0 <= b < |s.agents| ensures SlotInv(s', b, p) {
      assert SlotInv(s, b, p);
    }
  }

  lemma SpawnInv(s: State, p: nat)
    requires Inv(s, p)
    ensures Inv(Spawn(s), p)
  {
    forall b | 0 <= b < |s.agents| ensures SlotInv(Spawn(s), b, p) {
      assert SlotInv(s, b, p);
    }
  }

  lemma NextInv(s: State, s': State, strict: set<nat>, p: nat)
    requires Inv(s, p) && Next(s, s', strict) && p in strict
    ensures Inv(s', p)
  {
    if a, act :| 0 <= a < |s.agents| && s' == StepAgent(s, a, act) && Allowed(s, s.agents[a], act, strict) {
      var x := s.agents[a];
      if act != Go {
        StartInv(s, a, act, p);
      } else if x.Publishing? {
        PublishInv(s, a, p);
      } else if x.Published? {
        LockInv(s, a, p);
      } else if x.Unlocking? {
        UnlockInv(s, a, p);
      } else if x.Released? {
        ClearInv(s, a, p);
      } else if AtCas(x) && CasHits(s, x) {
        RepairInv(s, a, p);
      } else {
        ScanStepInv(s, a, p);
      }
    } else if q :| 0 <= q < |s.pages| && s' == Toggle(s, q) {
      ToggleInv(s, q, p);
    } else if s' == Spawn(s) {
      SpawnInv(s, p);
    }
  }

  // ---------------------------------------------------------------- whose lock it is

  /** A live thread holds the page. */
  ghost predicate Held(s: State, p: nat) { exists b :: 0 <= b < |s.agents| && Holds(s.agents[b], p) }

  /** For every repairer of a locked page: if somebody acquired the page since its second load, the lock is that
      of a live thread; and another repair implies such an acquisition. */
  ghost predicate HeldInv(s: State, p: nat) {
    forall a :: 0 <= a < |s.agents| && s.agents[a].Scan2? && s.agents[a].page == p && p < |s.pages| && s.pages[p].word.locked ==>
      && (s.pages[p].acq != s.agents[a].acq0 ==> Held(s, p))
      && (s.pages[p].rep != s.agents[a].rep0 ==> s.pages[p].acq != s.agents[a].acq0)
  }

  /** A holder stays one until it unlocks. */
  lemma HeldStays(s: State, s': State, a: nat, p: nat)
    requires Calm(s, s', a) && Held(s, p) && (Holds(s.agents[a], p) ==> Holds(s'.agents[a], p))
    ensures Held(s', p)
  {
    var b :| 0 <= b < |s.agents| && Holds(s.agents[b], p);
    assert Holds(s'.agents[b], p);
  }

  lemma StepHeld(s: State, a: nat, act: Act, p: nat)
    requires Inv(s, p) && HeldInv(s, p) && a < |s.agents|
    ensures HeldInv(StepAgent(s, a, act), p)
  {
    var s', x := StepAgent(s, a, act), s.agents[a];
    assert Calm(s, s', a);
    forall b | 0 <= b < |s.agents| && s.agents[b].Scan2? && s.agents[b].page == p
      ensures p < |s.pages| && s.pages[p].acq >= s.agents[b].acq0
    {
      assert SlotInv(s, b, p);
    }
    assert x.Unlocking? && x.page == p ==> x.seen.locked by { assert SlotInv(s, a, p); }
    hide Inv, SlotInv;
    if x.Published? && act.Go? && x.page == p && s' != s {
      assert Holds(s'.agents[a], p);
    } else if Held(s, p) && (Holds(x, p) ==> Holds(s'.agents[a], p)) {
      HeldStays(s, s', a, p);
    }
  }

  lemma NextHeld(s: State, s': State, strict: set<nat>, p: nat)
    requires Inv(s, p) && HeldInv(s, p) && Next(s, s', strict)
    ensures HeldInv(s', p)
  {
    hide Inv;
    if a, act :| 0 <= a < |s.agents| && s' == StepAgent(s, a, act) {
      StepHeld(s, a, act, p);
    } else if q :| 0 <= q < |s.pages| && s' == Toggle(s, q) {
      assert Held(s, p) ==> Held(s', p);
    } else if s' == Spawn(s) {
      if Held(s, p) {
        var b :| 0 <= b < |s.agents| && Holds(s.agents[b], p);
        assert Holds(s'.agents[b], p);
      }
    }
  }

  // ---------------------------------------------------------------- main results

  ghost predicate Run(run: seq<State>, strict: set<nat>) {
    |run| > 0 && forall j :: 0 <= j < |run| - 1 ==> Next(run[j], run[j + 1], strict)
  }

  /** A process starting on pages of any legal word, locked by a dead process or not. */
  ghost predicate Start(s: State) {
    && s.reg == seq(INTENTS, _ => None) && s.agents == []
    && forall p :: 0 <= p < |s.pages| ==> WordOk(s.pages[p].word)
  }

  lemma {:induction false} RunInv(run: seq<State>, strict: set<nat>, j: nat, p: nat)
    requires Run(run, strict) && Start(run[0]) && j < |run| && p in strict
    ensures Inv(run[j], p) && HeldInv(run[j], p)
  {
    if j > 0 {
      RunInv(run, strict, j - 1, p);
      NextInv(run[j - 1], run[j], strict, p);
      NextHeld(run[j - 1], run[j], strict, p);
    }
  }

  ghost predicate IntentFound(s: State, p: nat) {
    exists i :: 0 <= i < |s.reg| && s.reg[i] == Some(p)
  }

  /** Over every interleaving in which repairs of this page are disciplined, a page lock held by a live thread is
      registered for its whole hold, and two threads never hold the page. */
  lemma HeldIsRegistered(run: seq<State>, j: nat, a: nat, p: nat)
    requires Run(run, {p}) && Start(run[0]) && j < |run| && a < |run[j].agents| && Holds(run[j].agents[a], p)
    ensures IntentFound(run[j], p)
    ensures p < |run[j].pages| && run[j].pages[p].word.locked
    ensures forall b :: 0 <= b < |run[j].agents| && b != a ==> !Holds(run[j].agents[b], p)
  {
    RunInv(run, {p}, j, p);
    assert SlotInv(run[j], a, p);
    assert run[j].reg[run[j].agents[a].slot] == Some(p);
  }

  /** Exactly when a repair clears a live lock. As long as the earlier repairs of the page were disciplined, a
      compare-and-swap that hits finds a live holder iff it is not disciplined itself, that is, iff anybody at all
      acquired the page since its second load. */
  lemma RepairExact(run: seq<State>, j: nat, a: nat, p: nat)
    requires Run(run, {p}) && Start(run[0]) && j < |run| && a < |run[j].agents|
    requires AtCas(run[j].agents[a]) && CasHits(run[j], run[j].agents[a]) && run[j].agents[a].page == p
    ensures Held(run[j], p) <==> !Disciplined(run[j], run[j].agents[a])
    ensures Held(run[j], p) <==> run[j].pages[p].acq != run[j].agents[a].acq0
  {
    var s := run[j];
    RunInv(run, {p}, j, p);
    assert SlotInv(s, a, p);
    if Disciplined(s, s.agents[a]) {
      RepairFindsStale(s, a, p);
    }
  }

  // ---------------------------------------------------------------- registration needs no side condition

  /** Every thread between publishing and clearing an intent has it in a registry slot of its own. */
  ghost predicate RegInv(s: State) {
    && Wf(s)
    && (forall a :: 0 <= a < |s.agents| && Registered(s.agents[a]) ==>
          s.agents[a].slot < INTENTS && s.reg[s.agents[a].slot] == Some(s.agents[a].page))
    && (forall a, b :: 0 <= a < b < |s.agents| && Registered(s.agents[a]) && Registered(s.agents[b]) ==>
          s.agents[a].slot != s.agents[b].slot)
  }

  /** Steps that leave the registry alone and do not move an intent to another slot. */
  lemma KeepReg(s: State, s': State, a: nat)
    requires RegInv(s) && Calm(s, s', a) && s'.reg == s.reg
    requires Registered(s'.agents[a]) ==> Registered(s.agents[a]) && s'.agents[a].slot == s.agents[a].slot
                                          && s'.agents[a].page == s.agents[a].page
    ensures RegInv(s')
  {
  }

  lemma PublishReg(s: State, a: nat, p: nat, i: nat)
    requires RegInv(s) && a < |s.agents| && i < INTENTS && s.reg[i].None? && !Registered(s.agents[a])
    ensures RegInv(Become(SetReg(s, i, Some(p)), a, Published(p, i)))
  {
  }

  lemma ClearReg(s: State, a: nat)
    requires RegInv(s) && a < |s.agents| && s.agents[a].Released? && s.agents[a].slot < INTENTS
    ensures RegInv(Become(SetReg(s, s.agents[a].slot, None), a, Idle))
  {
    forall b | 0 <= b < |s.agents| && b != a && Registered(s.agents[b]) ensures s.agents[b].slot != s.agents[a].slot {
      if a < b {
        assert s.agents[a].slot != s.agents[b].slot;
      }
    }
  }

  lemma StepReg(s: State, a: nat, act: Act)
    requires RegInv(s) && a < |s.agents|
    ensures RegInv(StepAgent(s, a, act))
  {
    var s', x := StepAgent(s, a, act), s.agents[a];
    if act.Go? && x.Publishing? && x.i < INTENTS && s.reg[x.i].None? {
      PublishReg(s, a, x.page, x.i);
    } else if act.Go? && x.Released? && x.slot < INTENTS {
      ClearReg(s, a);
    } else {
      assert Calm(s, s', a);
      hide RegInv;
      KeepReg(s, s', a);
    }
  }

  lemma NextReg(s: State, s': State)
    requires RegInv(s) && Next(s, s', {})
    ensures RegInv(s')
  {
    if a, act :| 0 <= a < |s.agents| && s' == StepAgent(s, a, act) {
      StepReg(s, a, act);
    }
  }

  lemma {:induction false} RunReg(run: seq<State>, j: nat)
    requires Run(run, {}) && Start(run[0]) && j < |run|
    ensures RegInv(run[j])
  {
    if j > 0 {
      RunReg(run, j - 1);
      NextReg(run[j - 1], run[j]);
    }
  }

  /** Over every interleaving whatsoever, undisciplined repairs included, a thread that holds a page has its
      intent in the registry, from before the lock to after the unlock. */
  lemma AlwaysRegistered(run: seq<State>, j: nat, a: nat)
    requires Run(run, {}) && Start(run[0]) && j < |run| && a < |run[j].agents| && Registered(run[j].agents[a])
    ensures IntentFound(run[j], run[j].agents[a].page)
  {
    RunReg(run, j);
    assert run[j].reg[run[j].agents[a].slot] == Some(run[j].agents[a].page);
  }
}

/** `sieve_evict` and a pinning placement one instruction at a time, with other threads storing to the bucket in
    between. */
module HotRace {
  import opened Options
  import opened HotBucket

  /** The next instruction of the evicting thread. */
  datatype Pc =
    | AtState
    | AtVisited
    | AtClear
    | AtLoad
    | AtCas(expected: Slot)
    | AtHand(i: nat)
    | Done(idx: Option<nat>)

  /** The next instruction of a thread in `upsert_pinned`, from the compare-and-swap on the slot its probe chose:
      `expected` is the word the probe saw there, empty for a new entry. */
  datatype Pinner =
    | Away
    | Placing(i: nat, expected: Slot, word: Slot)
    | VisLoad(i: nat, isNew: bool)
    | VisStore(i: nat, isNew: bool)
    | OrBit(i: nat)
    | AndBit(i: nat)
    | Returned(i: nat)

  datatype Race = Race(b: Bucket, hand: nat, k: nat, pc: Pc, pin: Pinner)

  /** `Go` is the evictor and `Pin` the placement; the rest are single stores and read-modify-writes of any other
      threads: a slot word, a visited bit, a slot's state, the hand. */
  datatype Act =
    | Go
    | Pin
    | StartPin(i: nat, expected: Slot, word: Slot)
    | Write(i: nat, word: Slot)
    | Visit(i: nat, v: bool)
    | SetState(i: nat, s: SlotState)
    | SetHand(h: nat)

  predicate Shape(r: Race) {
    && WellFormed(r.b) && r.hand < SlotsPerBucket && r.k <= 2 * SlotsPerBucket
    && (r.pc.AtVisited? || r.pc.AtClear? || r.pc.AtLoad? || r.pc.AtCas? ==> r.k < 2 * SlotsPerBucket)
    && (r.pc.AtHand? ==> r.pc.i < SlotsPerBucket)
    && (!r.pin.Away? ==> r.pin.i < SlotsPerBucket)
  }

  /** The slot under examination. */
  function Here(r: Race): (i: nat)
    requires Shape(r) && r.k < 2 * SlotsPerBucket
    ensures i < SlotsPerBucket
  {
    At(r.hand, r.k)
  }

  // ---------------------------------------------------------------- instructions

  function Word(r: Race, i: nat, w: Slot): (r': Race)
    requires Shape(r) && i < SlotsPerBucket
    ensures Shape(r')
  {
    r.(b := r.b.(slots := r.b.slots[i := w]))
  }

  function Bit(r: Race, i: nat, v: bool): (r': Race)
    requires Shape(r) && i < SlotsPerBucket
    ensures Shape(r')
  {
    r.(b := r.b.(visited := r.b.visited[i := v]))
  }

  function State(r: Race, i: nat, s: SlotState): (r': Race)
    requires Shape(r) && i < SlotsPerBucket
    ensures Shape(r')
  {
    r.(b := r.b.(state := r.b.state[i := s]))
  }

  /** The evictor's next instruction. */
  function Next(r: Race): (r': Race)
    requires Shape(r)
    ensures Shape(r')
  {
    if r.pc.Done? then r
    else if r.pc.AtHand? then r.(b := r.b.(hand := (r.pc.i + 1) % SlotsPerBucket), pc := Done(Some(r.pc.i)))
    else if r.k == 2 * SlotsPerBucket then r.(pc := Done(None))
    else
      var i := Here(r);
      match r.pc
      case AtState => if r.b.state[i] == Unpinned then r.(pc := AtVisited) else r.(k := r.k + 1)
      case AtVisited => r.(pc := if r.b.visited[i] then AtClear else AtLoad)
      case AtClear => Bit(r, i, false).(k := r.k + 1, pc := AtState)
      case AtLoad => r.(pc := if r.b.slots[i] == Empty then AtHand(i) else AtCas(r.b.slots[i]))
      case AtCas(w) =>
        if r.b.slots[i] == w then Word(r, i, Empty).(pc := AtHand(i)) else r.(k := r.k + 1, pc := AtState)
  }

  /** The state a fetch-or of the pin bit leaves, and then a fetch-and of the flush bit. */
  function Ored(s: SlotState): (s': SlotState) { if s == Unpinned then Pinned else s }

  function Anded(s: SlotState): (s': SlotState) { if s == InFlush then Pinned else s }

  /** The placement's next instruction. A compare-and-swap that fails sends it back to its probe. The visited bit is
      set by an update and cleared by a new entry, and stored only if it differs. */
  function PinNext(r: Race): (r': Race)
    requires Shape(r)
    ensures Shape(r')
  {
    match r.pin
    case Away => r
    case Placing(i, expected, word) =>
      if r.b.slots[i] == expected then Word(r, i, word).(pin := VisLoad(i, expected == Empty)) else r.(pin := Away)
    case VisLoad(i, isNew) => r.(pin := if r.b.visited[i] == isNew then VisStore(i, isNew) else OrBit(i))
    case VisStore(i, isNew) => Bit(r, i, !isNew).(pin := OrBit(i))
    case OrBit(i) => State(r, i, Ored(r.b.state[i])).(pin := AndBit(i))
    case AndBit(i) => State(r, i, Anded(r.b.state[i])).(pin := Returned(i))
    case Returned(_) => r
  }

  function Step(r: Race, act: Act): (r': Race)
    requires Shape(r)
    ensures Shape(r')
  {
    match act
    case Go => Next(r)
    case Pin => PinNext(r)
    case StartPin(i, expected, word) =>
      if (r.pin.Away? || r.pin.Returned?) && i < SlotsPerBucket then r.(pin := Placing(i, expected, word)) else r
    case Write(i, word) => if i < SlotsPerBucket then Word(r, i, word) else r
    case Visit(i, v) => if i < SlotsPerBucket then Bit(r, i, v) else r
    case SetState(i, s) => if i < SlotsPerBucket then State(r, i, s) else r
    case SetHand(h) => if h < SlotsPerBucket then r.(b := r.b.(hand := h)) else r
  }

  // ---------------------------------------------------------------- alone

  function Solo(r: Race, n: nat): (r': Race)
    requires Shape(r)
    ensures Shape(r')
    decreases n
  {
    if n == 0 then r else Solo(Next(r), n - 1)
  }

  lemma {:induction false} SoloMore(r: Race, n: nat)
    requires Shape(r) && r.pc.Done?
    ensures Solo(r, n) == r
    decreases n
  {
    if n > 0 {
      SoloMore(r, n - 1);
    }
  }

  lemma {:induction false} SoloAdd(r: Race, m: nat, n: nat)
    requires Shape(r)
    ensures Solo(r, m + n) == Solo(Solo(r, m), n)
    decreases m
  {
    hide Next;
    if m > 0 {
      SoloAdd(Next(r), m - 1, n);
    }
  }

  lemma SoloFive(r: Race)
    requires Shape(r)
    ensures Solo(r, 1) == Next(r) && Solo(r, 3) == Next(Next(Next(r))) && Solo(r, 5) == Next(Next(Next(Next(Next(r)))))
  {
    hide Next;
    var r1 := Next(r);
    var r2 := Next(r1);
    var r3 := Next(r2);
    var r4 := Next(r3);
    assert Solo(r4, 1) == Next(r4) && Solo(r3, 2) == Next(r4) && Solo(r2, 1) == r3 && Solo(r1, 2) == r3;
  }

  /** An unpinned unvisited slot ends the sweep, with or without an entry in it. */
  lemma StopsHere(r: Race)
    requires Shape(r) && r.pc.AtState? && r.k < 2 * SlotsPerBucket
    requires r.b.state[Here(r)] == Unpinned && !r.b.visited[Here(r)]
    ensures Next(Next(Next(Next(Next(r))))) == r.(b := Stop(r.b, Here(r)), pc := Done(Some(Here(r))))
  {
    var i := Here(r);
    var r2 := Next(Next(r));
    assert r2 == r.(pc := AtLoad);
    if r.b.slots[i] == Empty {
      assert r.b.slots[i := Empty] == r.b.slots;
    }
  }

  /** A visited one loses its bit and is passed. */
  lemma PassesHere(r: Race)
    requires Shape(r) && r.pc.AtState? && r.k < 2 * SlotsPerBucket
    requires r.b.state[Here(r)] == Unpinned && r.b.visited[Here(r)]
    ensures Next(Next(Next(r))) == Bit(r, Here(r), false).(k := r.k + 1)
  {
  }

  /** A slot that is not unpinned is skipped, and after two rounds the sweep gives up. */
  lemma SkipsHere(r: Race)
    requires Shape(r) && r.pc.AtState?
    ensures r.k < 2 * SlotsPerBucket && r.b.state[Here(r)] != Unpinned ==> Next(r) == r.(k := r.k + 1)
    ensures r.k == 2 * SlotsPerBucket ==> Next(r) == r.(pc := Done(None))
  {
  }

  lemma SieveUnfolds(b: Bucket, k: nat)
    requires WellFormed(b) && k <= 2 * SlotsPerBucket
    ensures k == 2 * SlotsPerBucket ==> SieveFrom(b, k) == Sweep(None, b)
    ensures k < 2 * SlotsPerBucket ==>
              var i := At(b.hand, k);
              SieveFrom(b, k) == if b.state[i] != Unpinned then SieveFrom(b, k + 1)
                                 else if b.visited[i] then SieveFrom(b.(visited := b.visited[i := false]), k + 1)
                                 else Sweep(Some(i), Stop(b, i))
  {
  }

  /** Left alone, the instructions compute exactly the atomic sweep, within five of them per step. */
  lemma {:induction false} SoloIsSieve(b: Bucket, k: nat, n: nat, pin: Pinner)
    requires WellFormed(b) && k <= 2 * SlotsPerBucket && n >= 5 * (2 * SlotsPerBucket - k) + 1
    requires !pin.Away? ==> pin.i < SlotsPerBucket
    ensures var r := Solo(Race(b, b.hand, k, AtState, pin), n);
            r.pc == Done(SieveFrom(b, k).idx) && r.b == SieveFrom(b, k).b
    decreases 2 * SlotsPerBucket - k
  {
    var r := Race(b, b.hand, k, AtState, pin);
    hide Next, Solo, SieveFrom;
    SoloFive(r);
    SieveUnfolds(b, k);
    SkipsHere(r);
    SoloAdd(r, 1, n - 1);
    if k == 2 * SlotsPerBucket {
      SoloMore(Next(r), n - 1);
    } else {
      var i := At(b.hand, k);
      if b.state[i] != Unpinned {
        SoloIsSieve(b, k + 1, n - 1, pin);
      } else if b.visited[i] {
        PassesHere(r);
        SoloAdd(r, 3, n - 3);
        SoloIsSieve(b.(visited := b.visited[i := false]), k + 1, n - 3, pin);
      } else {
        StopsHere(r);
        SoloAdd(r, 5, n - 5);
        SoloMore(Solo(r, 5), n - 5);
      }
    }
  }

  // ---------------------------------------------------------------- runs

  ghost predicate Runs(run: seq<Race>, acts: seq<Act>) {
    && |run| == |acts| + 1 && (forall j :: 0 <= j < |run| ==> Shape(run[j]))
    && (forall j :: 0 <= j < |acts| ==> run[j + 1] == Step(run[j], acts[j]))
  }

  /** Without an instruction of its own the evictor stays where it is. */
  lemma {:induction false} EvictorStill(run: seq<Race>, acts: seq<Act>, a: nat, b: nat)
    requires Runs(run, acts) && a <= b < |run| && forall j :: a <= j < b ==> acts[j] != Go
    ensures run[b].pc == run[a].pc && run[b].k == run[a].k && run[b].hand == run[a].hand
    decreases b - a
  {
    if a < b {
      EvictorStill(run, acts, a, b - 1);
      assert run[b - 1 + 1] == Step(run[b - 1], acts[b - 1]);
    }
  }

  /** The sweep only moves on. */
  lemma {:induction false} SweepMovesOn(run: seq<Race>, acts: seq<Act>, a: nat, b: nat)
    requires Runs(run, acts) && a <= b < |run|
    ensures run[a].k <= run[b].k && run[b].hand == run[a].hand
    decreases b - a
  {
    if a < b {
      SweepMovesOn(run, acts, a, b - 1);
      assert run[b - 1 + 1] == Step(run[b - 1], acts[b - 1]);
    }
  }

  /** Steps `e1` to `e4` are four successive instructions of the evictor, the first its state load of a slot. */
  ghost predicate Examines(run: seq<Race>, acts: seq<Act>, e1: nat, e2: nat, e3: nat, e4: nat) {
    && Runs(run, acts) && e1 < e2 < e3 < e4 < |acts|
    && acts[e1] == Go && acts[e2] == Go && acts[e3] == Go && acts[e4] == Go
    && (forall j :: e1 < j < e4 && j != e2 && j != e3 ==> acts[j] != Go)
    && run[e1].pc.AtState? && run[e1].k < 2 * SlotsPerBucket
  }

  /** The evictor's next instruction is a compare-and-swap, at position `k` of its sweep, that clears slot `i`. */
  ghost predicate ClearsAt(r: Race, k: nat, i: nat)
    requires Shape(r) && i < SlotsPerBucket
  {
    r.pc.AtCas? && r.k == k && r.b.slots[i] == r.pc.expected
  }

  /** Exactly when an examination clears its slot, whatever other threads store meanwhile: the state load sees it
      unpinned, the visited load sees the bit clear, and the slot load sees an entry that is still there at the
      compare-and-swap. */
  lemma ClearsIff(run: seq<Race>, acts: seq<Act>, e1: nat, e2: nat, e3: nat, e4: nat)
    requires Examines(run, acts, e1, e2, e3, e4)
    ensures var i := Here(run[e1]);
            ClearsAt(run[e4], run[e1].k, i) <==>
            && run[e1].b.state[i] == Unpinned && !run[e2].b.visited[i]
            && run[e3].b.slots[i] != Empty && run[e4].b.slots[i] == run[e3].b.slots[i]
  {
    EvictorStill(run, acts, e1 + 1, e2);
    EvictorStill(run, acts, e2 + 1, e3);
    EvictorStill(run, acts, e3 + 1, e4);
    assert run[e1 + 1] == Step(run[e1], acts[e1]) && run[e2 + 1] == Step(run[e2], acts[e2]);
    assert run[e3 + 1] == Step(run[e3], acts[e3]);
  }

  // ---------------------------------------------------------------- a pinned entry under examination

  /** The step stores the word of slot `i`. */
  predicate StoresWord(r: Race, act: Act, i: nat)
    requires Shape(r)
  {
    || (act.Write? && act.i == i)
    || (act.Go? && r.pc.AtCas? && Here(r) == i && r.b.slots[i] == r.pc.expected)
    || (act.Pin? && r.pin.Placing? && r.pin.i == i && r.b.slots[i] == r.pin.expected)
  }

  /** The step stores the state of slot `i`. */
  predicate StoresState(r: Race, act: Act, i: nat)
    requires Shape(r)
  {
    (act.SetState? && act.i == i) || (act.Pin? && (r.pin.OrBit? || r.pin.AndBit?) && r.pin.i == i)
  }

  lemma {:induction false} WordStill(run: seq<Race>, acts: seq<Act>, a: nat, b: nat, i: nat)
    requires Runs(run, acts) && a <= b < |run| && i < SlotsPerBucket
    requires forall j :: a <= j < b ==> !StoresWord(run[j], acts[j], i)
    ensures run[b].b.slots[i] == run[a].b.slots[i]
    decreases b - a
  {
    if a < b {
      WordStill(run, acts, a, b - 1, i);
      assert run[b - 1 + 1] == Step(run[b - 1], acts[b - 1]);
    }
  }

  lemma {:induction false} StateStill(run: seq<Race>, acts: seq<Act>, a: nat, b: nat, i: nat)
    requires Runs(run, acts) && a <= b < |run| && i < SlotsPerBucket
    requires forall j :: a <= j < b ==> !StoresState(run[j], acts[j], i)
    ensures run[b].b.state[i] == run[a].b.state[i]
    decreases b - a
  {
    if a < b {
      StateStill(run, acts, a, b - 1, i);
      assert run[b - 1 + 1] == Step(run[b - 1], acts[b - 1]);
    }
  }

  /** Once pinned, a slot whose state only its own placement still stores stays pinned. */
  lemma {:induction false} PinnedStill(run: seq<Race>, acts: seq<Act>, a: nat, b: nat, i: nat)
    requires Runs(run, acts) && a <= b < |run| && i < SlotsPerBucket && run[a].b.state[i] == Pinned
    requires forall j :: a <= j < b && StoresState(run[j], acts[j], i) ==> acts[j] == Pin && run[j].pin == AndBit(i)
    ensures run[b].b.state[i] == Pinned
    decreases b - a
  {
    if a < b {
      PinnedStill(run, acts, a, b - 1, i);
      assert run[b - 1 + 1] == Step(run[b - 1], acts[b - 1]);
    }
  }

  function Min(a: nat, b: nat): (m: nat) { if a < b then a else b }

  function Max(a: nat, b: nat): (m: nat) { if a < b then b else a }

  /** A placement puts `word` into slot `i` with its compare-and-swap at step `p1` and stores the pin bit at step
      `p3`. From the first of its and the evictor's instructions to the last, nobody else stores the slot's word or
      state, and the slot is unpinned at the start. */
  ghost predicate Meets(run: seq<Race>, acts: seq<Act>, e1: nat, e4: nat, i: nat, p1: nat, p3: nat, expected: Slot, word: Slot) {
    && Runs(run, acts) && e1 < e4 < |acts| && p1 < p3 < |acts| && i < SlotsPerBucket
    && acts[p1] == Pin && run[p1].pin == Placing(i, expected, word) && run[p1].b.slots[i] == expected && word.fp != 0
    && acts[p3] == Pin && run[p3].pin == OrBit(i)
    && run[Min(e1, p1)].b.state[i] == Unpinned
    && (forall j :: Min(e1, p1) <= j <= Max(e4, p3) && StoresWord(run[j], acts[j], i) ==> j == p1 || j == e4)
    && (forall j :: Min(e1, p1) <= j <= Max(e4, p3) && StoresState(run[j], acts[j], i) ==>
          j == p3 || (j > p3 && acts[j] == Pin && run[j].pin == AndBit(i)))
  }

  /** Exactly when a pinned entry is lost to an eviction that examines its slot, by the order of their instructions:
      the evictor loads the state before the pin bit is stored and sees the visited bit clear, and its slot load
      follows the placing compare-and-swap, or saw the same word, with its own compare-and-swap after it. The slot
      then ends empty and pinned, though the placement returns a valid reference; otherwise it holds the entry. */
  lemma PinLostIff(run: seq<Race>, acts: seq<Act>, e1: nat, e2: nat, e3: nat, e4: nat, p1: nat, p3: nat,
                   expected: Slot, word: Slot)
    requires Examines(run, acts, e1, e2, e3, e4)
    requires Meets(run, acts, e1, e4, Here(run[e1]), p1, p3, expected, word)
    ensures var i, end := Here(run[e1]), run[Max(e4, p3) + 1];
            && (end.b.slots[i] == Empty <==>
                  e1 < p3 && !run[e2].b.visited[i] && p1 < e4 && (p1 < e3 || word == expected))
            && (end.b.slots[i] != Empty ==> end.b.slots[i] == word)
            && end.b.state[i] == Pinned
  {
    var i, hi := Here(run[e1]), Max(e4, p3) + 1;
    PinHolds(run, acts, e1, e4, i, p1, p3, expected, word);
    StateSeen(run, acts, e1, e4, i, p1, p3, expected, word);
    ClearsIff(run, acts, e1, e2, e3, e4);
    if p1 < e4 {
      WordsSeen(run, acts, e1, e3, e4, i, p1, p3, expected, word);
    }
    SamePosition(run, acts, e1, e2, e3, e4);
    EndWord(run, acts, e1, e4, i, p1, p3, expected, word);
  }

  /** Four instructions are too few to come round to the slot again. */
  lemma SamePosition(run: seq<Race>, acts: seq<Act>, e1: nat, e2: nat, e3: nat, e4: nat)
    requires Examines(run, acts, e1, e2, e3, e4)
    ensures run[e4].pc.AtCas? && Here(run[e4]) == Here(run[e1]) ==> run[e4].k == run[e1].k
  {
    SweepSlow(run, acts, e1, e2);
    SweepSlow(run, acts, e2, e3);
    SweepSlow(run, acts, e3, e4);
    SweepMovesOn(run, acts, e1, e4);
  }

  /** From one instruction to the next the sweep moves by at most one slot. */
  lemma SweepSlow(run: seq<Race>, acts: seq<Act>, a: nat, b: nat)
    requires Runs(run, acts) && a < b < |run| && forall j :: a < j < b ==> acts[j] != Go
    ensures run[b].k <= run[a].k + 1
  {
    assert run[a + 1] == Step(run[a], acts[a]);
    EvictorStill(run, acts, a + 1, b);
  }

  lemma PinHolds(run: seq<Race>, acts: seq<Act>, e1: nat, e4: nat, i: nat, p1: nat, p3: nat, expected: Slot, word: Slot)
    requires Meets(run, acts, e1, e4, i, p1, p3, expected, word)
    ensures run[Max(e4, p3) + 1].b.state[i] == Pinned
  {
    StateStill(run, acts, Min(e1, p1), p3, i);
    assert run[p3 + 1] == Step(run[p3], acts[p3]);
    PinnedStill(run, acts, p3 + 1, Max(e4, p3) + 1, i);
  }

  /** The state load sees the slot unpinned iff it precedes the pin store. */
  lemma StateSeen(run: seq<Race>, acts: seq<Act>, e1: nat, e4: nat, i: nat, p1: nat, p3: nat, expected: Slot, word: Slot)
    requires Meets(run, acts, e1, e4, i, p1, p3, expected, word) && acts[e1] == Go
    ensures run[e1].b.state[i] == Unpinned <==> e1 < p3
  {
    if e1 < p3 {
      StateStill(run, acts, Min(e1, p1), e1, i);
    } else {
      StateStill(run, acts, Min(e1, p1), p3, i);
      assert run[p3 + 1] == Step(run[p3], acts[p3]);
      PinnedStill(run, acts, p3 + 1, e1, i);
    }
  }

  /** Before the placing compare-and-swap the slot holds the word the probe saw, after it the entry. */
  lemma WordsSeen(run: seq<Race>, acts: seq<Act>, e1: nat, e3: nat, e4: nat, i: nat, p1: nat, p3: nat, expected: Slot, word: Slot)
    requires Meets(run, acts, e1, e4, i, p1, p3, expected, word) && e1 < e3 < e4 && p1 < e4 && acts[e3] == Go
    ensures run[e3].b.slots[i] == if p1 < e3 then word else expected
    ensures run[e4].b.slots[i] == word
  {
    assert run[p1 + 1] == Step(run[p1], acts[p1]);
    WordStill(run, acts, p1 + 1, e4, i);
    if p1 < e3 {
      WordStill(run, acts, p1 + 1, e3, i);
    } else {
      WordStill(run, acts, e3, p1, i);
    }
  }

  lemma EndWord(run: seq<Race>, acts: seq<Act>, e1: nat, e4: nat, i: nat, p1: nat, p3: nat, expected: Slot, word: Slot)
    requires Meets(run, acts, e1, e4, i, p1, p3, expected, word) && acts[e4] == Go
    requires run[e1].k < 2 * SlotsPerBucket && i == Here(run[e1])
    requires run[e4].pc.AtCas? && Here(run[e4]) == i ==> run[e4].k == run[e1].k
    ensures run[Max(e4, p3) + 1].b.slots[i] ==
            if p1 < e4 && ClearsAt(run[e4], run[e1].k, i) then Empty else word
  {
    var hi := Max(e4, p3) + 1;
    assert run[p1 + 1] == Step(run[p1], acts[p1]) && run[e4 + 1] == Step(run[e4], acts[e4]);
    SweepMovesOn(run, acts, e1, e4);
    if p1 < e4 {
      WordStill(run, acts, p1 + 1, e4, i);
      WordStill(run, acts, e4 + 1, hi, i);
    } else {
      WordStill(run, acts, p1 + 1, hi, i);
    }
  }

  // ---------------------------------------------------------------- instances

  function Exec(r: Race, acts: seq<Act>): (r': Race)
    requires Shape(r)
    ensures Shape(r')
    decreases |acts|
  {
    if acts == [] then r else Exec(Step(r, acts[0]), acts[1..])
  }

  lemma {:induction false} ExecAppend(r: Race, a: seq<Act>, b: seq<Act>)
    requires Shape(r)
    ensures Exec(r, a + b) == Exec(Exec(r, a), b)
    decreases |a|
  {
    hide Step;
    if a == [] {
      assert a + b == b;
    } else {
      assert (a + b)[0] == a[0] && (a + b)[1..] == a[1..] + b;
      ExecAppend(Step(r, a[0]), a[1..], b);
    }
  }

  lemma ExecThree(r: Race, a: Act, b: Act, c: Act)
    requires Shape(r)
    ensures Exec(r, [a, b, c]) == Step(Step(Step(r, a), b), c)
  {
    hide Step;
    assert [a, b, c][1..] == [b, c] && [b, c][1..] == [c] && [c][1..] == [];
    assert Exec(Step(Step(r, a), b), [c]) == Step(Step(Step(r, a), b), c);
  }

  /** An evictor about to examine the slot at the hand. */
  function Poised(b: Bucket): (r: Race) { Race(b, b.hand, 0, AtState, Away) }

  /** The slot at the hand may be evicted next. */
  predicate Exposed(b: Bucket) { WellFormed(b) && b.state[b.hand] == Unpinned && !b.visited[b.hand] }

  /** The entry a placement left in slot `i` is gone, the slot is pinned, and the placement has returned. */
  predicate PinWasted(r: Race, i: nat)
    requires Shape(r) && i < SlotsPerBucket
  {
    r.pin == Returned(i) && r.b.slots[i] == Empty && r.b.state[i] == Pinned
  }

  /** In every bucket: the evictor loads state and visited bit, `upsert_pinned` updates and pins the entry and
      returns, and the evictor loads and clears it. */
  lemma PinnedEntryEvicted(b: Bucket, off: nat)
    requires Exposed(b) && b.slots[b.hand].fp != 0
    ensures var w := Slot(b.slots[b.hand].fp, off);
            var acts := [Go, Go, StartPin(b.hand, b.slots[b.hand], w)] + [Pin, Pin, Pin] + [Pin, Pin, Go] + [Go, Go, Go];
            Shape(Poised(b)) && PinWasted(Exec(Poised(b), acts), b.hand)
  {
    var i, e := b.hand, b.slots[b.hand];
    var w := Slot(e.fp, off);
    var r0 := Poised(b);
    var a1, a2, a3, a4 := [Go, Go, StartPin(i, e, w)], [Pin, Pin, Pin], [Pin, Pin, Go], [Go, Go, Go];
    hide Exec;
    ExecAppend(r0, a1 + a2 + a3, a4);
    ExecAppend(r0, a1 + a2, a3);
    ExecAppend(r0, a1, a2);
    ExecThree(r0, Go, Go, StartPin(i, e, w));
    var r1 := r0.(pc := AtLoad, pin := Placing(i, e, w));
    assert Exec(r0, a1) == r1;
    hide Step;
    PinsUpdate(r1, i, e, w);
    PinsState(Bit(Word(r1, i, w), i, true).(pin := OrBit(i)), i);
    Clears(State(Bit(Word(r1, i, w), i, true), i, Pinned).(pin := Returned(i), pc := AtCas(w)), i);
  }

  lemma PinsUpdate(r: Race, i: nat, e: Slot, w: Slot)
    requires Shape(r) && r.pin == Placing(i, e, w) && i < SlotsPerBucket && r.b.slots[i] == e != Empty && !r.b.visited[i]
    ensures Exec(r, [Pin, Pin, Pin]) == Bit(Word(r, i, w), i, true).(pin := OrBit(i))
  {
    hide Exec;
    ExecThree(r, Pin, Pin, Pin);
  }

  lemma PinsState(r: Race, i: nat)
    requires Shape(r) && r.pin == OrBit(i) && r.b.state[i] == Unpinned && r.pc.AtLoad? && Here(r) == i && r.b.slots[i] != Empty
    ensures Exec(r, [Pin, Pin, Go]) == State(r, i, Pinned).(pin := Returned(i), pc := AtCas(r.b.slots[i]))
  {
    hide Exec;
    ExecThree(r, Pin, Pin, Go);
  }

  lemma Clears(r: Race, i: nat)
    requires Shape(r) && r.pc.AtCas? && Here(r) == i && r.b.slots[i] == r.pc.expected
    ensures var r' := Exec(r, [Go, Go, Go]);
            r'.b.slots == r.b.slots[i := Empty] && r'.b.state == r.b.state && r'.pin == r.pin
  {
    hide Exec;
    ExecThree(r, Go, Go, Go);
  }

  /** In every bucket: `upsert_pinned` places a new entry in the empty slot at the hand, an evictor examines and
      clears it, and the pin bits then land on an empty slot. */
  lemma PinAfterEviction(b: Bucket, w: Slot)
    requires Exposed(b) && b.slots[b.hand] == Empty && w.fp != 0
    ensures var acts := [StartPin(b.hand, Empty, w), Pin, Go] + [Go, Go, Go] + [Pin, Pin, Pin];
            Shape(Poised(b)) && PinWasted(Exec(Poised(b), acts), b.hand)
  {
    var i, r0 := b.hand, Poised(b);
    var a1, a2, a3 := [StartPin(i, Empty, w), Pin, Go], [Go, Go, Go], [Pin, Pin, Pin];
    ExecAppend(r0, a1 + a2, a3);
    ExecAppend(r0, a1, a2);
    ExecThree(r0, StartPin(i, Empty, w), Pin, Go);
    var r1 := Word(r0, i, w).(pin := VisLoad(i, true), pc := AtVisited);
    assert Exec(r0, a1) == r1;
    ExecThree(r1, Go, Go, Go);
    hide Exec;
    var r2 := Word(r1, i, Empty).(pc := AtHand(i));
    assert Exec(r1, a2) == r2;
    ExecThree(r2, Pin, Pin, Pin);
  }
}

/** Optimistic reads of a page slot under the version lock: `hiom_read_at_offset_status` interleaved,
    load by load, with writers of the page. */
module Seqlock {
  import opened LockIntent

  /** The slot's bytes as a sequence of machine words (key words, then value words). */
  type Record = seq<nat>

  /** What the reader notes at its first version load, for the proofs: the unlocks and the cleared live locks so
      far, the threads inside a section, and the record. */
  datatype Note = Note(unl: nat, hits: nat, inside: nat, rec: Record)

  datatype Reader =
    | Start
    | Loading
    | Copying(w1: Word, copy: seq<nat>, note: Note)
    | Checking(w1: Word, copy: seq<nat>, note: Note)
    | Ok(copy: seq<nat>, note: Note)
    | Transient
    | SlotFree

  /** One page with one slot and one reader. `writers` threads are inside a write section; the threads in `leaving`
      have loaded the word in `unlock` and not stored it yet. A lock without such a thread was left by a killed
      process. `unl` counts unlocks, and `hits` the repairs that cleared the lock of a live thread. */
  datatype Sys = Sys(word: Word, writers: nat, leaving: seq<Word>, unl: nat, hits: nat, free: bool, rec: Record, rd: Reader)

  datatype Act =
    | Acquire
    | WriteWord(i: nat, v: nat)
    | SetFree(b: bool)
    | LoadUnlock
    | StoreUnlock(i: nat)
    | Repair
    | Toggle
    | Read

  /** Threads that hold the lock, or held it until a repair cleared it. */
  function Inside(s: Sys): (n: nat) { s.writers + |s.leaving| }

  /** Any locked word may be repaired: the repair's checks are those of `LockIntent`, and they can let it hit a live
      lock. */
  function Step(s: Sys, act: Act): (s': Sys) {
    match act
    case Acquire => if s.word.locked then s else s.(word := LockWord(s.word), writers := s.writers + 1)
    case WriteWord(i, v) => if s.writers > 0 && i < |s.rec| then s.(rec := s.rec[i := v]) else s
    case SetFree(b) => if s.writers > 0 then s.(free := b) else s
    case LoadUnlock => if s.writers > 0 then s.(writers := s.writers - 1, leaving := s.leaving + [s.word]) else s
    case StoreUnlock(i) =>
      if i < |s.leaving| then
        s.(word := UnlockWord(s.leaving[i]), leaving := s.leaving[..i] + s.leaving[i + 1..], unl := s.unl + 1)
      else s
    case Repair =>
      if s.word.locked then s.(word := RepairWord(s.word), hits := if Inside(s) > 0 then s.hits + 1 else s.hits) else s
    case Toggle => s.(word := s.word.(client := !s.word.client))
    case Read => s.(rd := ReadStep(s, s.rd))
  }

  /** The reader's next load: free bit, version, the record word by word, version again. */
  function ReadStep(s: Sys, rd: Reader): (rd': Reader) {
    match rd
    case Start => if s.free then SlotFree else Loading
    case Loading => if s.word.locked then Transient else Copying(s.word, [], Note(s.unl, s.hits, Inside(s), s.rec))
    case Copying(w1, copy, note) =>
      if |copy| < |s.rec| then Copying(w1, copy + [s.rec[|copy|]], note) else Checking(w1, copy, note)
    case Checking(w1, copy, note) => if s.word == w1 then Ok(copy, note) else Transient
    case Ok(_, _) => rd
    case Transient => rd
    case SlotFree => rd
  }

  /** If nobody was inside at the first load and no live lock has been cleared since, at most one thread is inside,
      exactly when the word is locked; the cycle counter has advanced once per unlock; and with no unlock and nobody
      inside the record is untouched. */
  ghost predicate Window(s: Sys, w1: Word, copy: seq<nat>, note: Note) {
    && WordOk(w1) && !w1.locked && s.unl >= note.unl && s.hits >= note.hits && |copy| <= |s.rec| == |note.rec|
    && (s.hits == note.hits && note.inside == 0 ==>
          && Inside(s) <= 1 && (s.word.locked <==> Inside(s) == 1)
          && (forall i :: 0 <= i < |s.leaving| ==> s.leaving[i].locked && s.leaving[i].cycle == s.word.cycle)
          && s.word.cycle == Advance(w1.cycle, s.unl - note.unl)
          && (s.unl == note.unl && Inside(s) == 0 ==> s.rec == note.rec && copy == note.rec[..|copy|]))
  }

  ghost predicate Inv(s: Sys) {
    && WordOk(s.word) && (forall i :: 0 <= i < |s.leaving| ==> WordOk(s.leaving[i]))
    && match s.rd
       case Copying(w1, copy, note) => Window(s, w1, copy, note)
       case Checking(w1, copy, note) => Window(s, w1, copy, note) && |copy| == |note.rec|
       case _ => true
  }

  lemma StepInv(s: Sys, act: Act)
    requires Inv(s)
    ensures Inv(Step(s, act))
  {
    if s.rd.Copying? || s.rd.Checking? {
      if act.Read? {
        WindowRead(s);
      } else {
        WindowStep(s, act, s.rd.w1, s.rd.copy, s.rd.note);
      }
      hide Window;
    }
  }

  lemma WindowRead(s: Sys)
    requires s.rd.Copying? || s.rd.Checking?
    requires Window(s, s.rd.w1, s.rd.copy, s.rd.note) && (s.rd.Checking? ==> |s.rd.copy| == |s.rd.note.rec|)
    ensures var s' := Step(s, Read);
            && (s'.rd.Copying? || s'.rd.Checking? ==> Window(s', s'.rd.w1, s'.rd.copy, s'.rd.note))
            && (s'.rd.Checking? ==> |s'.rd.copy| == |s'.rd.note.rec|)
  {
    hide Advance;
  }

  lemma WindowStep(s: Sys, act: Act, w1: Word, copy: seq<nat>, note: Note)
    requires WordOk(s.word) && (forall i :: 0 <= i < |s.leaving| ==> WordOk(s.leaving[i]))
    requires Window(s, w1, copy, note) && !act.Read?
    ensures Window(Step(s, act), w1, copy, note)
  {
  }

  /** The final version check succeeds after fewer than 32 unlocks, with no live lock cleared before or since, only
      if there was no unlock at all: the copy is the record, unchanged since the first load. */
  lemma OkIsAtomic(s: Sys)
    requires Inv(s) && s.rd.Checking? && s.word == s.rd.w1 && s.unl < s.rd.note.unl + CYCLES
    requires s.hits == s.rd.note.hits && s.rd.note.inside == 0
    ensures s.rd.copy == s.rec == s.rd.note.rec && s.unl == s.rd.note.unl && Inside(s) == 0
  {
    AdvanceIs(s.rd.w1.cycle, s.unl - s.rd.note.unl);
    assert s.rd.note.rec[..|s.rd.copy|] == s.rd.note.rec;
  }

  // ---------------------------------------------------------------- whole runs

  ghost predicate Runs(run: seq<Sys>, acts: seq<Act>) {
    |run| == |acts| + 1 && forall j :: 0 <= j < |acts| ==> run[j + 1] == Step(run[j], acts[j])
  }

  lemma {:induction false} RunsInv(run: seq<Sys>, acts: seq<Act>, j: nat)
    requires Runs(run, acts) && Inv(run[0]) && j < |run|
    ensures Inv(run[j])
  {
    if j > 0 {
      RunsInv(run, acts, j - 1);
      StepInv(run[j - 1], acts[j - 1]);
    }
  }

  /** Any state of the page, with a read about to begin. */
  ghost predicate Fresh(s: Sys) {
    WordOk(s.word) && (forall i :: 0 <= i < |s.leaving| ==> WordOk(s.leaving[i])) && s.rd == Start
  }

  /** From step `a` to step `b` nobody was inside a write section and the record never changed. */
  ghost predicate Undisturbed(run: seq<Sys>, a: nat, b: nat)
    requires a <= b < |run|
  {
    forall j :: a <= j <= b ==> Inside(run[j]) == 0 && run[j].rec == run[a].rec
  }

  /** A thread leaves its section only through an unlock, and counters only grow. */
  lemma {:induction false} WriterStays(run: seq<Sys>, acts: seq<Act>, j: nat, b: nat)
    requires Runs(run, acts) && j <= b < |run|
    ensures run[j].unl <= run[b].unl && run[j].hits <= run[b].hits
    ensures Inside(run[j]) > 0 && run[b].unl == run[j].unl ==> Inside(run[b]) > 0
    decreases b - j
  {
    if j < b {
      WriterStays(run, acts, j, b - 1);
    }
  }

  /** Step `a` is the first version load of a read, step `b` the second, and the read answers `kOk`. */
  ghost predicate ReadsOk(run: seq<Sys>, acts: seq<Act>, a: nat, b: nat) {
    && Runs(run, acts) && a <= b < |acts|
    && run[a].rd.Loading? && acts[a] == Read && run[a + 1].rd.Copying?
    && run[b].rd.Checking? && acts[b] == Read && run[b + 1].rd.Ok?
    && forall j :: a < j <= b ==> run[j].rd.Copying? || run[j].rd.Checking?
  }

  // ---------------------------------------------------------------- the answer, from the loads alone

  /** The steps of the reader, in order: its first load is of the free bit, the second of the version, the following
      ones of the words of the record; then, after one step without a load, the version again. */
  function Reads(acts: seq<Act>): (js: seq<nat>)
    ensures forall i :: 0 <= i < |js| ==> js[i] < |acts| && acts[js[i]] == Read
    decreases |acts|
  {
    if acts == [] then []
    else
      var before := Reads(acts[..|acts| - 1]);
      if acts[|acts| - 1] == Read then before + [|acts| - 1] else before
  }

  /** The words of the record read at the first `n` of the steps `js`. */
  function Words(run: seq<Sys>, js: seq<nat>, n: nat): (ws: seq<nat>)
    requires n <= |js| && forall i :: 0 <= i < n ==> js[i] < |run| && i < |run[js[i]].rec|
    ensures |ws| == n
  {
    seq(n, i requires 0 <= i < n => run[js[i]].rec[i])
  }

  /** What the read has come to after its steps `js`, whatever else happened in between. */
  ghost predicate Answer(run: seq<Sys>, js: seq<nat>, rd: Reader)
    requires run != [] && (forall i :: 0 <= i < |js| ==> js[i] < |run|)
    requires forall i :: 0 <= i < |run| ==> |run[i].rec| == |run[0].rec|
  {
    var n := |run[0].rec|;
    if js == [] then rd == Start
    else if run[js[0]].free then rd == SlotFree
    else if |js| == 1 then rd == Loading
    else if run[js[1]].word.locked then rd == Transient
    else if |js| <= n + 2 then rd.Copying? && rd.w1 == run[js[1]].word && rd.copy == Words(run, js[2..], |js| - 2)
    else if |js| == n + 3 then rd.Checking? && rd.w1 == run[js[1]].word && rd.copy == Words(run, js[2..], n)
    else if run[js[n + 3]].word == run[js[1]].word then rd.Ok? && rd.copy == Words(run, js[2..], n)
    else rd == Transient
  }

  lemma {:induction false} SameLength(run: seq<Sys>, acts: seq<Act>, j: nat)
    requires Runs(run, acts) && j < |run|
    ensures |run[j].rec| == |run[0].rec|
  {
    if j > 0 {
      SameLength(run, acts, j - 1);
      assert run[j - 1 + 1] == Step(run[j - 1], acts[j - 1]);
    }
  }

  /** Over every run of the page, exactly what the read answers: `kSlotFree` iff the slot was free at its first load;
      else `kTransient` iff the page was locked at the first version load or the word differed at the second; else
      `kOk` with each word as it was when it was loaded. */
  lemma ReadAnswers(run: seq<Sys>, acts: seq<Act>)
    requires Runs(run, acts) && run[0].rd == Start
    ensures forall i :: 0 <= i < |run| ==> |run[i].rec| == |run[0].rec|
    ensures Answer(run, Reads(acts), run[|acts|].rd)
  {
    forall i | 0 <= i < |run| ensures |run[i].rec| == |run[0].rec| {
      SameLength(run, acts, i);
    }
    AnswerAt(run, acts, |acts|);
    assert acts[..|acts|] == acts;
  }

  lemma {:induction false} AnswerAt(run: seq<Sys>, acts: seq<Act>, j: nat)
    requires Runs(run, acts) && run[0].rd == Start && j <= |acts|
    requires forall i :: 0 <= i < |run| ==> |run[i].rec| == |run[0].rec|
    ensures Answer(run, Reads(acts[..j]), run[j].rd)
  {
    hide Answer, Inside;
    if j == 0 {
      AnswerNone(run);
    } else {
      var m := j - 1;
      AnswerAt(run, acts, m);
      assert acts[..j][..m] == acts[..m];
      assert run[m + 1] == Step(run[m], acts[m]);
      if acts[m] == Read {
        AnswerNext(run, Reads(acts[..m]), m);
      }
    }
  }

  lemma AnswerNone(run: seq<Sys>)
    requires run != [] && run[0].rd == Start && forall i :: 0 <= i < |run| ==> |run[i].rec| == |run[0].rec|
    ensures Answer(run, [], run[0].rd)
  {
  }

  lemma AnswerNext(run: seq<Sys>, js: seq<nat>, m: nat)
    requires m < |run| && (forall i :: 0 <= i < |js| ==> js[i] < |run|)
    requires forall i :: 0 <= i < |run| ==> |run[i].rec| == |run[0].rec|
    requires Answer(run, js, run[m].rd)
    ensures Answer(run, js + [m], ReadStep(run[m], run[m].rd))
  {
    hide Inside;
    var js', n := js + [m], |run[0].rec|;
    if |js| >= 2 {
      assert js'[2..] == js[2..] + [m];
      if |js| < n + 2 {
        assert Words(run, js'[2..], |js| - 1) == Words(run, js[2..], |js| - 2) + [run[m].rec[|js| - 2]];
      } else {
        assert Words(run, js'[2..], n) == Words(run, js[2..], n);
      }
    }
  }

  /** While nobody is inside, there is no unlock and no live lock to clear. */
  lemma {:induction false} NobodyInside(run: seq<Sys>, acts: seq<Act>, a: nat, b: nat)
    requires Runs(run, acts) && a <= b < |run| && forall j :: a <= j <= b ==> Inside(run[j]) == 0
    ensures run[b].unl == run[a].unl && run[b].hits == run[a].hits
    decreases b - a
  {
    if a < b {
      NobodyInside(run, acts, a, b - 1);
      assert run[b - 1 + 1] == Step(run[b - 1], acts[b - 1]);
    }
  }

  /** Exactly when a read that answers `kOk` copied key and value while no write section ran on the page: iff fewer
      than 32 lock/unlock cycles completed between its two version loads, no repair cleared a live lock between them,
      and no thread whose lock had been cleared earlier was inside at the first. */
  lemma ReadAtomic(run: seq<Sys>, acts: seq<Act>, a: nat, b: nat)
    requires ReadsOk(run, acts, a, b) && Fresh(run[0])
    ensures Undisturbed(run, a, b) <==>
            run[b].unl < run[a].unl + CYCLES && run[b].hits == run[a].hits && Inside(run[a]) == 0
    ensures Undisturbed(run, a, b) ==> run[b + 1].rd.copy == run[a].rec
  {
    RunsInv(run, acts, b);
    NoteKept(run, acts, a, b);
    WriterStays(run, acts, a, b);
    if Undisturbed(run, a, b) {
      NobodyInside(run, acts, a, b);
    }
    if run[b].unl < run[a].unl + CYCLES && run[b].hits == run[a].hits && Inside(run[a]) == 0 {
      OkIsAtomic(run[b]);
      forall j | a <= j <= b ensures Inside(run[j]) == 0 && run[j].rec == run[a].rec {
        WriterStays(run, acts, j, b);
        WriterStays(run, acts, a, j);
        if a < j {
          RunsInv(run, acts, j);
          NoteKept(run, acts, a, j);
        }
      }
    }
  }

  /** The reader's note of its first load does not change while it copies. */
  lemma {:induction false} NoteKept(run: seq<Sys>, acts: seq<Act>, a: nat, b: nat)
    requires Runs(run, acts) && a < b < |run| && run[a].rd.Loading? && acts[a] == Read && run[a + 1].rd.Copying?
    requires forall j :: a < j <= b ==> run[j].rd.Copying? || run[j].rd.Checking?
    ensures run[b].rd.note == Note(run[a].unl, run[a].hits, Inside(run[a]), run[a].rec) && !run[a].word.locked
    decreases b
  {
    if b > a + 1 {
      NoteKept(run, acts, a, b - 1);
    }
  }

  // ---------------------------------------------------------------- without cleared live locks

  /** Locks work: a thread inside is the only one, and the word is locked. */
  ghost predicate Locked(s: Sys) {
    && Inside(s) <= 1 && (Inside(s) == 1 ==> s.word.locked)
    && (forall i :: 0 <= i < |s.leaving| ==> s.leaving[i].locked)
  }

  lemma LockedStep(s: Sys, act: Act)
    requires Locked(s) && Step(s, act).hits == s.hits
    ensures Locked(Step(s, act))
  {
  }

  lemma {:induction false} LocksHold(run: seq<Sys>, acts: seq<Act>, j: nat)
    requires Runs(run, acts) && j < |run| && Locked(run[0]) && run[j].hits == run[0].hits
    ensures Locked(run[j])
  {
    hide Step, Locked, Inside;
    if j > 0 {
      var i := j - 1;
      assert run[i + 1] == Step(run[i], acts[i]);
      WriterStays(run, acts, 0, i);
      WriterStays(run, acts, i, j);
      LocksHold(run, acts, i);
      LockedStep(run[i], acts[i]);
    }
  }

  /** With no live lock ever cleared, as `LockIntent.RepairExact` says for disciplined repairs, only the 32 cycles
      remain. */
  lemma ReadAtomicUnbroken(run: seq<Sys>, acts: seq<Act>, a: nat, b: nat)
    requires ReadsOk(run, acts, a, b) && Fresh(run[0]) && Locked(run[0]) && run[b].hits == run[0].hits
    ensures Undisturbed(run, a, b) <==> run[b].unl < run[a].unl + CYCLES
    ensures Undisturbed(run, a, b) ==> run[b + 1].rd.copy == run[a].rec
  {
    WriterStays(run, acts, 0, a);
    WriterStays(run, acts, a, b);
    LocksHold(run, acts, a);
    ReadAtomic(run, acts, a, b);
  }

  // ---------------------------------------------------------------- the bound is tight

  function After(s: Sys, acts: seq<Act>): (s': Sys)
    decreases |acts|
  {
    if acts == [] then s else After(Step(s, acts[0]), acts[1..])
  }

  lemma {:induction false} AfterAppend(s: Sys, a: seq<Act>, b: seq<Act>)
    ensures After(s, a + b) == After(After(s, a), b)
    decreases |a|
  {
    if a == [] {
      assert a + b == b;
    } else {
      assert (a + b)[0] == a[0] && (a + b)[1..] == a[1..] + b;
      AfterAppend(Step(s, a[0]), a[1..], b);
    }
  }

  /** `n` empty lock/unlock cycles. */
  function Cycles(n: nat): (acts: seq<Act>) {
    if n == 0 then [] else Cycles(n - 1) + [Acquire, LoadUnlock, StoreUnlock(0)]
  }

  lemma OneCycle(s: Sys)
    requires WordOk(s.word) && !s.word.locked && Inside(s) == 0
    ensures After(s, [Acquire, LoadUnlock, StoreUnlock(0)]) ==
            s.(word := s.word.(cycle := NextCycle(s.word.cycle)), unl := s.unl + 1)
  {
    AfterThree(s, Acquire, LoadUnlock, StoreUnlock(0));
    assert s.leaving == [];
    var s2 := Step(Step(s, Acquire), LoadUnlock);
    assert s2.leaving[..0] + s2.leaving[1..] == [];
  }

  lemma {:induction false} CyclesAdvance(s: Sys, n: nat)
    requires WordOk(s.word) && !s.word.locked && Inside(s) == 0
    ensures After(s, Cycles(n)) == s.(word := s.word.(cycle := Advance(s.word.cycle, n)), unl := s.unl + n)
  {
    if n > 0 {
      CyclesAdvance(s, n - 1);
      AfterAppend(s, Cycles(n - 1), [Acquire, LoadUnlock, StoreUnlock(0)]);
      OneCycle(After(s, Cycles(n - 1)));
    }
  }

  /** An unlocked page with a record of two words, nobody inside, and a read about to begin. */
  function Quiet(): (s: Sys) { Sys(Word(false, 0, false), 0, [], 0, 0, false, [0, 0], Start) }

  /** The record changes from both words 0 to both words 1, and the read answers `kOk` with one of each. */
  ghost predicate Torn(s: Sys) { s.rd.Ok? && s.rd.copy == [0, 1] && s.rec == [1, 1] }

  /** Exactly 32 cycles let a torn read through, with no repair at all: the reader copies the first word, a writer
      rewrites both words and 32 cycles bring the version back, the reader copies the second word and answers
      `kOk` with a record the slot never held. */
  lemma TornRead()
    ensures exists acts: seq<Act> ::
              var s := After(Quiet(), acts);
              Torn(s) && s.unl == s.rd.note.unl + CYCLES && s.hits == 0
  {
    var w, note := Word(false, 0, false), Note(0, 0, 0, [0, 0]);
    var s1 := Quiet().(rd := Copying(w, [0], note));
    var s2 := s1.(word := Word(false, 1, false), unl := 1, rec := [1, 1]);
    var s3 := s2.(word := w, unl := 32);
    var s4 := s3.(rd := Ok([0, 1], note));
    var a1, a2, a3, a4 := TornParts(s1, s2, s3, s4);
    AfterAppend(Quiet(), a1, a2);
    AfterAppend(Quiet(), a1 + a2, a3);
    AfterAppend(Quiet(), a1 + a2 + a3, a4);
    assert After(Quiet(), a1 + a2 + a3 + a4) == s4;
  }

  lemma TornParts(s1: Sys, s2: Sys, s3: Sys, s4: Sys)
    returns (a1: seq<Act>, a2: seq<Act>, a3: seq<Act>, a4: seq<Act>)
    requires var w, note := Word(false, 0, false), Note(0, 0, 0, [0, 0]);
             && s1 == Quiet().(rd := Copying(w, [0], note))
             && s2 == s1.(word := Word(false, 1, false), unl := 1, rec := [1, 1])
             && s3 == s2.(word := w, unl := 32)
             && s4 == s3.(rd := Ok([0, 1], note))
    ensures After(Quiet(), a1) == s1 && After(s1, a2) == s2 && After(s2, a3) == s3 && After(s3, a4) == s4
  {
    hide After;
    FirstWord(Quiet());
    a1, a4 := [Read, Read, Read], [Read, Read, Read];
    a2 := RewriteAndLeave(s1);
    a3 := Cycles(31);
    CyclesAdvance(s2, 31);
    AdvanceIs(1, 31);
    hide Advance;
    SecondWord(s3);
  }

  /** The read from its start through the first word. */
  lemma FirstWord(s: Sys)
    requires s.rd == Start && !s.free && !s.word.locked && s.rec == [0, 0]
    ensures After(s, [Read, Read, Read]) == s.(rd := Copying(s.word, [0], Note(s.unl, s.hits, Inside(s), [0, 0])))
  {
    hide After;
    AfterThree(s, Read, Read, Read);
    assert [] + [s.rec[0]] == [0];
  }

  /** The read from the second word to its end. */
  lemma SecondWord(s: Sys)
    requires s.rd.Copying? && s.rd.copy == [0] && s.rd.w1 == s.word && s.rec == [1, 1]
    ensures After(s, [Read, Read, Read]) == s.(rd := Ok([0, 1], s.rd.note))
  {
    hide After;
    AfterThree(s, Read, Read, Read);
    assert [0] + [s.rec[1]] == [0, 1];
  }

  lemma RewriteBoth(s: Sys)
    requires s.writers > 0 && s.rec == [0, 0]
    ensures After(s, [WriteWord(0, 1), WriteWord(1, 1)]) == s.(rec := [1, 1])
  {
    hide After;
    AfterTwo(s, WriteWord(0, 1), WriteWord(1, 1));
    assert [0, 0][0 := 1][1 := 1] == [1, 1];
  }

  lemma RewriteAndLeave(s: Sys) returns (acts: seq<Act>)
    requires s.word == Word(false, 0, false) && Inside(s) == 0 && s.rec == [0, 0]
    ensures After(s, acts) == s.(word := Word(false, 1, false), unl := s.unl + 1, rec := [1, 1])
  {
    hide After;
    var s1 := Step(s, Acquire);
    var s2 := s1.(rec := [1, 1]);
    AfterOne(s, Acquire);
    RewriteBoth(s1);
    AfterTwo(s2, LoadUnlock, StoreUnlock(0));
    var s3 := Step(s2, LoadUnlock);
    assert s3.leaving == [s2.word] && s3.leaving[..0] + s3.leaving[1..] == [] && s.leaving == [];
    var a, b, c := [Acquire], [WriteWord(0, 1), WriteWord(1, 1)], [LoadUnlock, StoreUnlock(0)];
    AfterAppend(s, a, b);
    AfterAppend(s, a + b, c);
    acts := a + b + c;
  }

  /** A cleared live lock lets one through with no cycle at all: a writer locks, a repair clears its lock, and the
      reader copies one word before the writer's stores and one after them. */
  lemma TornByRepair()
    ensures exists acts: seq<Act> ::
              var s := After(Quiet(), acts);
              Torn(s) && s.unl == 0 && s.hits == 1 && Inside(s) == 1
  {
    hide After;
    var q := Quiet();
    var r0 := q.(writers := 1, hits := 1);
    var r1 := r0.(rd := Copying(q.word, [0], Note(0, 1, 1, [0, 0])));
    var r2 := r1.(rec := [1, 1]);
    AfterTwo(q, Acquire, Repair);
    FirstWord(r0);
    RewriteBoth(r1);
    SecondWord(r2);
    var a1, a2, a3 := [Acquire, Repair], [Read, Read, Read], [WriteWord(0, 1), WriteWord(1, 1)];
    AfterAppend(q, a1, a2);
    AfterAppend(q, a1 + a2, a3);
    AfterAppend(q, a1 + a2 + a3, a2);
    assert After(q, a1 + a2 + a3 + a2) == r2.(rd := Ok([0, 1], r2.rd.note));
  }

  lemma AfterOne(s: Sys, x: Act)
    ensures After(s, [x]) == Step(s, x)
  {
    assert [x][1..] == [];
  }

  lemma AfterTwo(s: Sys, x: Act, y: Act)
    ensures After(s, [x, y]) == Step(Step(s, x), y)
  {
    hide Step;
    AfterAppend(s, [x], [y]);
    AfterOne(s, x);
    AfterOne(Step(s, x), y);
    assert [x] + [y] == [x, y];
  }

  lemma AfterThree(s: Sys, x: Act, y: Act, z: Act)
    ensures After(s, [x, y, z]) == Step(Step(Step(s, x), y), z)
  {
    hide Step;
    AfterTwo(s, x, y);
    AfterAppend(s, [x, y], [z]);
    AfterOne(Step(Step(s, x), y), z);
    assert [x, y] + [z] == [x, y, z];
  }
}

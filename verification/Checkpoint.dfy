/** The A/B checkpoint file: two record slots and a valid pointer, written without a lock and read after a
    kill at any store. */
module Checkpoint {
  import opened Powers
  import opened Options
  import F = Fnv

  type byte = F.byte
  type u64 = F.u64

  /** The eight 64-bit fields of a record, in file order. */
  datatype Rec = Rec(magic: u64, seqNo: u64, flushedCount: u64, vpageFrontier: u64, coldSize: u64,
                     reserved0: u64, reserved1: u64, summaryHash: u64)

  const Magic: u64 := 0x484f4d5f43485054
  const RecordSize: nat := 64
  const HashOffset: nat := 56

  const SlotA: u64 := 0
  const SlotB: u64 := 1
  const ValidNone: u64 := 0xFFFF_FFFF_FFFF_FFFF

  // ---------------------------------------------------------------- bytes of a record

  /** The `n` low bytes of `x`, least significant first. */
  function Le(x: nat, n: nat): (s: seq<byte>)
    ensures |s| == n
    decreases n
  {
    if n == 0 then [] else [x % 256] + Le(x / 256, n - 1)
  }

  function Word(s: seq<byte>): (x: nat)
    decreases |s|
  {
    if s == [] then 0 else s[0] + 256 * Word(s[1..])
  }

  lemma {:induction false} WordInjective(s: seq<byte>, t: seq<byte>)
    requires |s| == |t| && Word(s) == Word(t)
    ensures s == t
    decreases |s|
  {
    if s != [] {
      assert s[0] == t[0] && Word(s[1..]) == Word(t[1..]);
      WordInjective(s[1..], t[1..]);
      assert s == [s[0]] + s[1..] && t == [t[0]] + t[1..];
    }
  }

  function Pow256(n: nat): (r: nat)
    ensures r > 0
  {
    if n == 0 then 1 else 256 * Pow256(n - 1)
  }

  lemma {:induction false} WordBound(s: seq<byte>)
    ensures Word(s) < Pow256(|s|)
    decreases |s|
  {
    if s != [] {
      WordBound(s[1..]);
    }
  }

  lemma {:induction false} WordOfLe(x: nat, n: nat)
    requires x < Pow256(n)
    ensures Word(Le(x, n)) == x
    decreases n
  {
    if n > 0 {
      WordOfLe(x / 256, n - 1);
      assert Le(x, n)[1..] == Le(x / 256, n - 1);
    }
  }

  lemma Pow8()
    ensures Pow256(8) == Two64
  {
    assert Pow256(4) == 0x1_0000_0000;
  }

  /** The 64-bit field at byte offset `8 * i`. */
  function Field(s: seq<byte>, i: nat): (x: u64)
    requires |s| == RecordSize && i < 8
  {
    WordBound(s[8 * i..8 * i + 8]);
    Pow8();
    Word(s[8 * i..8 * i + 8])
  }

  function Parse(s: seq<byte>): (r: Rec)
    requires |s| == RecordSize
  {
    Rec(Field(s, 0), Field(s, 1), Field(s, 2), Field(s, 3), Field(s, 4), Field(s, 5), Field(s, 6), Field(s, 7))
  }

  function Body(r: Rec): (s: seq<byte>)
    ensures |s| == HashOffset
  {
    Le(r.magic, 8) + Le(r.seqNo, 8) + Le(r.flushedCount, 8) + Le(r.vpageFrontier, 8) + Le(r.coldSize, 8)
    + Le(r.reserved0, 8) + Le(r.reserved1, 8)
  }

  function Bytes(r: Rec): (s: seq<byte>)
    ensures |s| == RecordSize
  {
    Body(r) + Le(r.summaryHash, 8)
  }

  lemma Fields(r: Rec)
    ensures var s := Bytes(r);
            && s[0..8] == Le(r.magic, 8) && s[8..16] == Le(r.seqNo, 8) && s[16..24] == Le(r.flushedCount, 8)
            && s[24..32] == Le(r.vpageFrontier, 8) && s[32..40] == Le(r.coldSize, 8) && s[40..48] == Le(r.reserved0, 8)
            && s[48..56] == Le(r.reserved1, 8) && s[56..64] == Le(r.summaryHash, 8)
  {
    hide Le;
  }

  lemma LeField(x: u64)
    ensures Word(Le(x, 8)) == x
  {
    Pow8();
    WordOfLe(x, 8);
  }

  /** What is stored is what is read back. */
  lemma ParseBytes(r: Rec)
    ensures Parse(Bytes(r)) == r
  {
    Fields(r);
    LeField(r.magic);
    LeField(r.seqNo);
    LeField(r.flushedCount);
    LeField(r.vpageFrontier);
    LeField(r.coldSize);
    LeField(r.reserved0);
    LeField(r.reserved1);
    LeField(r.summaryHash);
    hide Le, Word, Bytes;
  }

  lemma LeOfWord(s: seq<byte>)
    requires |s| == 8
    ensures Word(s) < Two64 && Le(Word(s), 8) == s
  {
    Pow8();
    WordBound(s);
    WordOfLe(Word(s), 8);
    WordInjective(Le(Word(s), 8), s);
  }

  lemma Pieces(s: seq<byte>)
    requires |s| == RecordSize
    ensures s[..HashOffset] == s[0..8] + s[8..16] + s[16..24] + s[24..32] + s[32..40] + s[40..48] + s[48..56]
    ensures s == s[..HashOffset] + s[56..64]
  {
  }

  /** What is read back, stored again, gives the same bytes: the layout has no gap. */
  lemma BytesParse(s: seq<byte>)
    requires |s| == RecordSize
    ensures Body(Parse(s)) == s[..HashOffset] && Bytes(Parse(s)) == s
  {
    hide Le, Word;
    LeOfWord(s[0..8]);
    LeOfWord(s[8..16]);
    LeOfWord(s[16..24]);
    LeOfWord(s[24..32]);
    LeOfWord(s[32..40]);
    LeOfWord(s[40..48]);
    LeOfWord(s[48..56]);
    LeOfWord(s[56..64]);
    Pieces(s);
  }

  /** `rec` as `write` stores it: magic and hash filled in. */
  function Sealed(r: Rec): (s: Rec) {
    var m := r.(magic := Magic);
    m.(summaryHash := F.Hash(F.OffsetBasis, Body(m)))
  }

  // ---------------------------------------------------------------- reading

  function ReadSlot(s: seq<byte>): (r: Option<Rec>)
    requires |s| == RecordSize
  {
    var rec := Parse(s);
    if rec.magic != Magic || rec.summaryHash != F.Hash(F.OffsetBasis, s[..HashOffset]) then None else Some(rec)
  }

  /** `read_slot` answers with a record iff the slot holds exactly its bytes, its magic number is right and its hash is
      that of the bytes in front of it. */
  lemma ReadSlotIff(s: seq<byte>, r: Rec)
    requires |s| == RecordSize
    ensures ReadSlot(s) == Some(r) <==>
            s == Bytes(r) && r.magic == Magic && r.summaryHash == F.Hash(F.OffsetBasis, Body(r))
  {
    BytesParse(s);
    ParseBytes(r);
    hide Parse, Bytes, Body, F.Hash;
  }

  datatype File = File(vp: u64, a: seq<byte>, b: seq<byte>)

  predicate WellFormed(f: File) { |f.a| == RecordSize && |f.b| == RecordSize }

  function Slot(f: File, which: u64): (s: seq<byte>) { if which == SlotA then f.a else f.b }

  function Other(which: u64): (o: u64) { if which == SlotA then SlotB else SlotA }

  function ReadValid(f: File): (r: Option<Rec>)
    requires WellFormed(f)
  {
    if f.vp != SlotA && f.vp != SlotB then None
    else
      var first := ReadSlot(Slot(f, f.vp));
      if first.Some? then first else ReadSlot(Slot(f, Other(f.vp)))
  }

  /** `s` carries the fields of `r`, under the magic number. */
  predicate Carries(s: Rec, r: Rec) {
    && s.magic == Magic && s.seqNo == r.seqNo && s.flushedCount == r.flushedCount && s.vpageFrontier == r.vpageFrontier
    && s.coldSize == r.coldSize && s.reserved0 == r.reserved0 && s.reserved1 == r.reserved1
  }

  lemma SealedReads(r: Rec)
    ensures ReadSlot(Bytes(Sealed(r))) == Some(Sealed(r))
  {
    ParseBytes(Sealed(r));
    assert Bytes(Sealed(r))[..HashOffset] == Body(Sealed(r));
    assert Body(Sealed(r)) == Body(r.(magic := Magic));
  }

  // ---------------------------------------------------------------- corruption

  /** `read_slot` refuses every record that differs in exactly one byte from one it accepts, whichever of the
      64 bytes that is. */
  lemma OneByteRejected(s: seq<byte>, i: nat, b: byte)
    requires |s| == RecordSize && ReadSlot(s).Some? && i < RecordSize && s[i] != b
    ensures ReadSlot(s[i := b]) == None
  {
    var t := s[i := b];
    if i < HashOffset {
      F.OneByteDiffers(F.OffsetBasis, s[..HashOffset], i, b);
      assert s[..HashOffset][i := b] == t[..HashOffset];
      assert t[56..64] == s[56..64];
    } else {
      assert t[..HashOffset] == s[..HashOffset];
      assert t[56..64][i - 56] != s[56..64][i - 56];
      if Word(t[56..64]) == Word(s[56..64]) {
        WordInjective(t[56..64], s[56..64]);
      }
    }
  }

  /** A one-byte fault in the active slot makes the reader return what the other slot holds. */
  lemma FaultFallsBack(f: File, i: nat, b: byte)
    requires WellFormed(f) && (f.vp == SlotA || f.vp == SlotB) && ReadSlot(Slot(f, f.vp)).Some?
    requires i < RecordSize && Slot(f, f.vp)[i] != b
    ensures var g := if f.vp == SlotA then f.(a := f.a[i := b]) else f.(b := f.b[i := b]);
            ReadValid(g) == ReadSlot(Slot(f, Other(f.vp)))
  {
    OneByteRejected(Slot(f, f.vp), i, b);
  }

  // ---------------------------------------------------------------- runs

  /** How far the current `write` has come. */
  datatype Writer = Resting | Filling(rec: Rec, target: u64) | Filled(rec: Rec, target: u64) | Flipped(rec: Rec)

  datatype System = System(file: File, writer: Writer)

  /** Stores of `write`, and kills. `Tear` is any intermediate state of the copy into the slot. */
  datatype Act = Start(rec: Rec) | Tear(junk: seq<byte>) | Fill | Flip | Return | Kill

  function PutSlot(f: File, which: u64, s: seq<byte>): (g: File) { if which == SlotA then f.(a := s) else f.(b := s) }

  /** The slot `write` fills: the one the valid pointer does not select, A when there is none yet. */
  function Target(vp: u64): (t: u64) { if vp == SlotA then SlotB else SlotA }

  function Step(s: System, act: Act): (s': System) {
    match act
    case Start(rec) => if s.writer.Resting? then s.(writer := Filling(Sealed(rec), Target(s.file.vp))) else s
    case Tear(junk) =>
      if s.writer.Filling? && |junk| == RecordSize then s.(file := PutSlot(s.file, s.writer.target, junk)) else s
    case Fill =>
      if s.writer.Filling? then
        System(PutSlot(s.file, s.writer.target, Bytes(s.writer.rec)), Filled(s.writer.rec, s.writer.target))
      else s
    case Flip =>
      if s.writer.Filled? then System(s.file.(vp := s.writer.target), Flipped(s.writer.rec)) else s
    case Return => if s.writer.Flipped? then s.(writer := Resting) else s
    case Kill => s.(writer := Resting)
  }

  function Exec(s: System, acts: seq<Act>): (s': System)
    decreases |acts|
  {
    if acts == [] then s else Step(Exec(s, acts[..|acts| - 1]), acts[|acts| - 1])
  }

  /** A freshly created file, whose slots are zero. */
  function Created(): (s: System) {
    System(File(ValidNone, seq(RecordSize, _ => 0), seq(RecordSize, _ => 0)), Resting)
  }

  /** The record of the last flip in a run from a created file; what a reader should see. */
  function LastFlipped(acts: seq<Act>): (r: Option<Rec>)
    decreases |acts|
  {
    if acts == [] then None
    else
      var before := acts[..|acts| - 1];
      if Flips(Exec(Created(), before), acts[|acts| - 1]) then Some(Exec(Created(), before).writer.rec)
      else LastFlipped(before)
  }

  /** The record of the last write that returned. */
  function LastReturned(acts: seq<Act>): (r: Option<Rec>)
    decreases |acts|
  {
    if acts == [] then None
    else
      var before := acts[..|acts| - 1];
      var s := Exec(Created(), before);
      if acts[|acts| - 1].Return? && s.writer.Flipped? then Some(s.writer.rec) else LastReturned(before)
  }

  predicate Flips(s: System, act: Act) { act.Flip? && s.writer.Filled? }

  predicate Good(s: System) {
    && WellFormed(s.file)
    && (s.file.vp == SlotA || s.file.vp == SlotB || s.file.vp == ValidNone)
    && (s.file.vp != ValidNone ==> ReadSlot(Slot(s.file, s.file.vp)).Some?)
    && (s.writer.Filling? || s.writer.Filled? ==>
          s.writer.target == Target(s.file.vp) && ReadSlot(Bytes(s.writer.rec)) == Some(s.writer.rec))
    && (s.writer.Filled? ==> Slot(s.file, s.writer.target) == Bytes(s.writer.rec))
    && (s.writer.Flipped? ==> ReadValid(s.file) == Some(s.writer.rec))
  }

  lemma StepKeeps(s: System, act: Act)
    requires Good(s)
    ensures Good(Step(s, act))
    ensures ReadValid(Step(s, act).file) == if Flips(s, act) then Some(s.writer.rec) else ReadValid(s.file)
  {
    hide Parse, Bytes, F.Hash, ReadSlot, Sealed;
    if act.Start? {
      SealedReads(act.rec);
    }
  }

  /** Over every run of writes, torn copies, kills and reopens, the reader sees exactly the record of the last
      flip; nothing is assumed of the hash. */
  lemma {:induction false} ReadsLastFlipped(acts: seq<Act>)
    ensures Good(Exec(Created(), acts))
    ensures ReadValid(Exec(Created(), acts).file) == LastFlipped(acts)
    decreases |acts|
  {
    if acts != [] {
      ReadsLastFlipped(acts[..|acts| - 1]);
      StepKeeps(Exec(Created(), acts[..|acts| - 1]), acts[|acts| - 1]);
    }
  }

  /** The system before step `i` of a run. */
  function Before(acts: seq<Act>, i: nat): (s: System)
    requires i <= |acts|
  {
    Exec(Created(), acts[..i])
  }

  lemma BeforeSnoc(acts: seq<Act>, act: Act)
    ensures forall i :: 0 <= i <= |acts| ==> Before(acts + [act], i) == Before(acts, i)
    ensures Before(acts, |acts|) == Exec(Created(), acts)
    ensures Before(acts + [act], |acts| + 1) == Exec(Created(), acts + [act]) == Step(Exec(Created(), acts), act)
  {
    var more := acts + [act];
    assert forall i :: 0 <= i <= |acts| ==> more[..i] == acts[..i];
    assert acts[..|acts|] == acts && more[..|more|] == more;
    hide Step;
  }

  /** The write that started at step `n` flips the pointer at step `m`: it is not killed in between. */
  ghost predicate WriteFlips(acts: seq<Act>, n: nat, m: nat) {
    && n < m < |acts| && acts[n].Start? && Before(acts, n).writer.Resting?
    && (forall i :: n < i <= m ==> !Before(acts, i).writer.Resting?)
    && Flips(Before(acts, m), acts[m])
  }

  ghost predicate NoFlipFrom(acts: seq<Act>, m: nat) {
    forall i :: m <= i < |acts| ==> !Flips(Before(acts, i), acts[i])
  }

  /** The write in progress with record `w` started at step `n`, and carries what was passed there. */
  ghost predicate Since(acts: seq<Act>, n: nat, w: Rec) {
    && n < |acts| && acts[n].Start? && Before(acts, n).writer.Resting?
    && (forall i :: n < i <= |acts| ==> !Before(acts, i).writer.Resting?)
    && Carries(w, acts[n].rec)
  }

  /** `r` was passed, field by field, to the last write that flipped the pointer; none has if there is no `r`. */
  ghost predicate Passed(acts: seq<Act>, r: Option<Rec>) {
    if r.None? then NoFlipFrom(acts, 0)
    else exists n: nat, m: nat :: WriteFlips(acts, n, m) && NoFlipFrom(acts, m + 1) && Carries(r.value, acts[n].rec)
  }

  lemma WriterAfter(s: System, act: Act)
    ensures var w, w' := s.writer, Step(s, act).writer;
            !w'.Resting? ==> if w.Resting? then act.Start? && Carries(w'.rec, act.rec) else w'.rec == w.rec
  {
    hide Body, Bytes, F.Hash;
  }

  lemma SinceSnoc(acts: seq<Act>, act: Act)
    requires var w := Exec(Created(), acts).writer; !w.Resting? ==> exists n :: Since(acts, n, w.rec)
    ensures var w := Exec(Created(), acts + [act]).writer; !w.Resting? ==> exists n :: Since(acts + [act], n, w.rec)
  {
    var w, w' := Exec(Created(), acts).writer, Exec(Created(), acts + [act]).writer;
    BeforeSnoc(acts, act);
    WriterAfter(Exec(Created(), acts), act);
    hide Exec, Before, Step, Carries;
    if w'.Resting? {
    } else if w.Resting? {
      assert Since(acts + [act], |acts|, w'.rec);
    } else {
      var n :| Since(acts, n, w.rec);
      assert Since(acts + [act], n, w'.rec);
    }
  }

  lemma PassedSnoc(acts: seq<Act>, act: Act)
    requires var w := Exec(Created(), acts).writer; !w.Resting? ==> exists n :: Since(acts, n, w.rec)
    requires Passed(acts, LastFlipped(acts))
    ensures Passed(acts + [act], LastFlipped(acts + [act]))
  {
    var s := Exec(Created(), acts);
    var more := acts + [act];
    BeforeSnoc(acts, act);
    FlippedSnoc(acts, act);
    hide Exec, Before, Step, Carries, LastFlipped;
    if Flips(s, act) {
      var n :| Since(acts, n, s.writer.rec);
      assert WriteFlips(more, n, |acts|) && NoFlipFrom(more, |acts| + 1);
    } else if LastFlipped(acts).Some? {
      var n: nat, m: nat :| WriteFlips(acts, n, m) && NoFlipFrom(acts, m + 1) && Carries(LastFlipped(acts).value, acts[n].rec);
      assert WriteFlips(more, n, m) && NoFlipFrom(more, m + 1) && more[n] == acts[n];
    } else {
      assert NoFlipFrom(more, 0);
    }
  }

  lemma {:induction false} PassedRun(acts: seq<Act>)
    ensures Passed(acts, LastFlipped(acts))
    ensures var w := Exec(Created(), acts).writer; !w.Resting? ==> exists n :: Since(acts, n, w.rec)
    decreases |acts|
  {
    if acts != [] {
      var before, act := acts[..|acts| - 1], acts[|acts| - 1];
      PassedRun(before);
      assert acts == before + [act];
      hide Exec, Passed, LastFlipped, Since;
      SinceSnoc(before, act);
      PassedSnoc(before, act);
    }
  }

  /** Over every run the reader sees, field by field, what was passed to the last write that flipped the pointer, and
      nothing as long as none has. */
  lemma ReadsWhatWasPassed(acts: seq<Act>)
    ensures Good(Exec(Created(), acts)) && Passed(acts, ReadValid(Exec(Created(), acts).file))
  {
    ReadsLastFlipped(acts);
    PassedRun(acts);
  }

  /** A kill between the flip of a write and its return. */
  predicate KilledAfterFlip(acts: seq<Act>) {
    exists n :: 0 <= n < |acts| && acts[n].Kill? && Exec(Created(), acts[..n]).writer.Flipped?
  }

  /** Unless a kill fell between a flip and its return, the reader sees the last completed record, or the one in
      progress once it has flipped. */
  lemma {:induction false} ReadsLastCompleted(acts: seq<Act>)
    requires !KilledAfterFlip(acts)
    ensures Good(Exec(Created(), acts))
    ensures var s := Exec(Created(), acts);
            ReadValid(s.file) == if s.writer.Flipped? then Some(s.writer.rec) else LastReturned(acts)
    decreases |acts|
  {
    ReadsLastFlipped(acts);
    if acts != [] {
      var before, act := acts[..|acts| - 1], acts[|acts| - 1];
      assert !KilledAfterFlip(before) by {
        forall n | 0 <= n < |before| && before[n].Kill? ensures !Exec(Created(), before[..n]).writer.Flipped? {
          assert before[..n] == acts[..n] && before[n] == acts[n];
        }
      }
      ReadsLastCompleted(before);
      var s := Exec(Created(), before);
      StepKeeps(s, act);
      assert act.Kill? ==> !s.writer.Flipped?;
      hide Good, ReadValid, KilledAfterFlip;
      ReturnedAfter(acts, ReadValid(s.file), ReadValid(Step(s, act).file));
    }
  }

  lemma ReturnedAfter(acts: seq<Act>, r: Option<Rec>, r': Option<Rec>)
    requires acts != []
    requires var s, act := Exec(Created(), acts[..|acts| - 1]), acts[|acts| - 1];
             && (act.Kill? ==> !s.writer.Flipped?)
             && r == (if s.writer.Flipped? then Some(s.writer.rec) else LastReturned(acts[..|acts| - 1]))
             && r' == (if Flips(s, act) then Some(s.writer.rec) else r)
    ensures var t := Exec(Created(), acts);
            r' == if t.writer.Flipped? then Some(t.writer.rec) else LastReturned(acts)
  {
    hide Sealed, Bytes;
    assert Exec(Created(), acts) == Step(Exec(Created(), acts[..|acts| - 1]), acts[|acts| - 1]);
  }

  // ---------------------------------------------------------------- sequence numbers

  /** The caller's sequence numbers never decrease. */
  predicate Monotone(acts: seq<Act>) {
    forall i, j :: 0 <= i < j < |acts| && acts[i].Start? && acts[j].Start? ==> acts[i].rec.seqNo <= acts[j].rec.seqNo
  }

  /** Every sequence number in the system was started, and the one being written is not older than the one shown. */
  ghost predicate SeqInv(acts: seq<Act>) {
    var r, w := LastFlipped(acts), Exec(Created(), acts).writer;
    && (r.Some? ==> Started(acts, r.value.seqNo))
    && (!w.Resting? ==> Started(acts, w.rec.seqNo) && (r.Some? ==> r.value.seqNo <= w.rec.seqNo))
  }

  ghost predicate Started(acts: seq<Act>, n: nat) {
    exists i :: 0 <= i < |acts| && acts[i].Start? && acts[i].rec.seqNo == n
  }

  lemma StartedMore(acts: seq<Act>, act: Act, n: nat)
    requires Started(acts, n)
    ensures Started(acts + [act], n)
    ensures act.Start? && Monotone(acts + [act]) ==> n <= act.rec.seqNo
  {
    var i :| 0 <= i < |acts| && acts[i].Start? && acts[i].rec.seqNo == n;
    var more := acts + [act];
    assert more[i] == acts[i] && more[|acts|] == act;
  }

  lemma {:induction false} SeqKept(acts: seq<Act>)
    requires Monotone(acts)
    ensures SeqInv(acts)
    decreases |acts|
  {
    if acts != [] {
      var before, act := acts[..|acts| - 1], acts[|acts| - 1];
      assert acts == before + [act];
      SeqKept(before);
      SeqStep(before, act);
    }
  }

  lemma FlippedSnoc(acts: seq<Act>, act: Act)
    ensures var s := Exec(Created(), acts);
            LastFlipped(acts + [act]) == if Flips(s, act) then Some(s.writer.rec) else LastFlipped(acts)
  {
    assert (acts + [act])[..|acts|] == acts;
  }

  lemma SeqStep(before: seq<Act>, act: Act)
    requires Monotone(before + [act]) && SeqInv(before)
    ensures SeqInv(before + [act])
  {
    var r, w := LastFlipped(before), Exec(Created(), before).writer;
    var acts := before + [act];
    ExecSnoc(Created(), before, act);
    FlippedSnoc(before, act);
    if r.Some? {
      StartedMore(before, act, r.value.seqNo);
    }
    if !w.Resting? {
      StartedMore(before, act, w.rec.seqNo);
    }
    if act.Start? && w.Resting? {
      assert acts[|before|] == act && Sealed(act.rec).seqNo == act.rec.seqNo;
    }
    hide Sealed, Bytes, Exec, LastFlipped, Monotone;
  }

  /** With sequence numbers that the caller never lowers, the one the reader sees never goes backward, whatever
      is torn, killed and reopened in between. */
  lemma {:induction false} SeqNeverBack(acts: seq<Act>, n: nat)
    requires Monotone(acts) && n <= |acts|
    ensures Good(Exec(Created(), acts[..n])) && Good(Exec(Created(), acts))
    ensures var r, r' := ReadValid(Exec(Created(), acts[..n]).file), ReadValid(Exec(Created(), acts).file);
            r.Some? ==> r'.Some? && r.value.seqNo <= r'.value.seqNo
    decreases |acts|
  {
    ReadsLastFlipped(acts[..n]);
    ReadsLastFlipped(acts);
    if n == |acts| {
      assert acts[..n] == acts;
    } else {
      var before, act := acts[..|acts| - 1], acts[|acts| - 1];
      assert before[..n] == acts[..n];
      SeqNeverBack(before, n);
      SeqKept(before);
      ReadsLastFlipped(before);
      hide Good, ReadValid, Monotone;
    }
  }

  // ---------------------------------------------------------------- the file in memory

  const FileSize: nat := 4096
  const SlotAOffset: nat := 64
  const SlotBOffset: nat := 192

  class CheckpointFile {
    var vp: u64
    const base: array<byte>

    ghost predicate Valid() reads this { base.Length == FileSize }

    ghost function View(): (f: File)
      requires Valid()
      reads this, base
      ensures WellFormed(f)
    {
      File(vp, base[SlotAOffset..SlotAOffset + RecordSize], base[SlotBOffset..SlotBOffset + RecordSize])
    }

    /** `create`: zeroed, no checkpoint yet. */
    constructor ()
      ensures Valid() && fresh(base) && View() == Created().file
    {
      base := new byte[FileSize](_ => 0);
      vp := ValidNone;
    }

    /** `read_slot`. */
    method ReadSlotAt(which: u64) returns (r: Option<Rec>)
      requires Valid()
      ensures r == ReadSlot(Slot(View(), which))
    {
      var off := if which == SlotA then SlotAOffset else SlotBOffset;
      var bytes := base[off..off + RecordSize];
      var h := F.ComputeHash(bytes, HashOffset);
      var rec := Parse(bytes);
      if rec.magic != Magic || rec.summaryHash != h {
        return None;
      }
      return Some(rec);
    }

    /** `read_valid`. */
    method ReadValidRecord() returns (r: Option<Rec>)
      requires Valid()
      ensures r == ReadValid(View())
    {
      if vp != SlotA && vp != SlotB {
        return None;
      }
      r := ReadSlotAt(vp);
      if r.None? {
        r := ReadSlotAt(Other(vp));
      }
    }

    /** `write`. Every byte stored on the way is a `Tear` of the machine above, so a kill between any two stores
        is one of its runs; `acts` is the run this call performs. */
    method Write(rec: Rec) returns (ghost acts: seq<Act>)
      requires Valid()
      modifies this, base
      ensures Valid()
      ensures System(View(), Resting) == Exec(System(old(View()), Resting), acts)
      ensures |acts| >= 4 && acts[0] == Start(rec) && acts[|acts| - 3..] == [Fill, Flip, Return]
      ensures forall i :: 1 <= i < |acts| - 3 ==> acts[i].Tear?
      ensures View() == PutSlot(old(View()), Target(old(View()).vp), Bytes(Sealed(rec))).(vp := Target(old(View()).vp))
      ensures vp == (if old(vp) == SlotA then SlotB else SlotA)
      ensures ReadValid(View()) == Some(Sealed(rec)) && Carries(ReadValid(View()).value, rec)
    {
      ghost var f := View();
      ghost var s0 := System(f, Resting);
      var sealed := Seal(rec);
      var target := Target(vp);
      assert vp == f.vp;
      ExecOne(s0, Start(rec));
      hide Exec, Bytes, Sealed, ReadValid, View;
      acts := CopyRecord(target, sealed, s0, [Start(rec)]);
      FlipPointer(target);
      Finish(s0, acts, PutSlot(f, target, Bytes(sealed)), sealed, target);
      Written(f, rec, target);
      acts := acts + [Fill, Flip, Return];
    }

    /** Magic and hash filled in. */
    method Seal(rec: Rec) returns (sealed: Rec)
      ensures sealed == Sealed(rec)
    {
      var m := rec.(magic := Magic);
      var h := F.ComputeHash(Bytes(m), HashOffset);
      assert Bytes(m)[..HashOffset] == Body(m);
      sealed := m.(summaryHash := h);
    }

    /** The `memcpy` into a slot, byte by byte. */
    method CopyRecord(target: u64, rec: Rec, ghost s0: System, ghost before: seq<Act>) returns (ghost acts: seq<Act>)
      requires Valid() && (target == SlotA || target == SlotB)
      requires Exec(s0, before) == System(View(), Filling(rec, target))
      modifies base
      ensures View() == PutSlot(old(View()), target, Bytes(rec))
      ensures Exec(s0, acts) == System(View(), Filling(rec, target))
      ensures |before| <= |acts| && acts[..|before|] == before && forall i :: |before| <= i < |acts| ==> acts[i].Tear?
    {
      hide Exec, Bytes, View;
      var bytes := Bytes(rec);
      acts := before;
      var i := 0;
      while i < RecordSize
        invariant i <= RecordSize
        invariant Slot(View(), target)[..i] == bytes[..i]
        invariant View() == PutSlot(old(View()), target, Slot(View(), target))
        invariant Exec(s0, acts) == System(View(), Filling(rec, target))
        invariant |before| <= |acts| && acts[..|before|] == before
        invariant forall j :: |before| <= j < |acts| ==> acts[j].Tear?
      {
        ghost var prior := View();
        StoreByte(target, i, bytes[i]);
        TearStep(s0, acts, prior, rec, target, Slot(View(), target));
        acts := acts + [Tear(Slot(View(), target))];
        i := i + 1;
      }
      assert Slot(View(), target) == bytes;
    }

    /** The atomic store of the valid pointer. */
    method FlipPointer(target: u64)
      requires Valid()
      modifies this`vp
      ensures vp == target && View() == old(View()).(vp := target)
    {
      vp := target;
    }

    method StoreByte(target: u64, i: nat, b: byte)
      requires Valid() && i < RecordSize && (target == SlotA || target == SlotB)
      modifies base
      ensures View() == PutSlot(old(View()), target, Slot(old(View()), target)[i := b])
    {
      base[(if target == SlotA then SlotAOffset else SlotBOffset) + i] := b;
    }
  }

  lemma TearStep(s0: System, acts: seq<Act>, f: File, rec: Rec, target: u64, junk: seq<byte>)
    requires Exec(s0, acts) == System(f, Filling(rec, target)) && |junk| == RecordSize
    ensures Exec(s0, acts + [Tear(junk)]) == System(PutSlot(f, target, junk), Filling(rec, target))
  {
    ExecSnoc(s0, acts, Tear(junk));
    hide Exec;
  }

  lemma ExecSnoc(s: System, acts: seq<Act>, act: Act)
    ensures Exec(s, acts + [act]) == Step(Exec(s, acts), act)
  {
    assert (acts + [act])[..|acts|] == acts;
  }

  lemma ExecOne(s: System, act: Act)
    ensures Exec(s, [act]) == Step(s, act)
  {
    assert [act][..0] == [];
  }

  /** From the complete copy to the return. */
  lemma Finish(s0: System, acts: seq<Act>, f: File, rec: Rec, target: u64)
    requires Exec(s0, acts) == System(f, Filling(rec, target)) && Slot(f, target) == Bytes(rec)
    requires target == SlotA || target == SlotB
    ensures Exec(s0, acts + [Fill, Flip, Return]) == System(f.(vp := target), Resting)
  {
    hide Exec, Bytes;
    ExecSnoc(s0, acts, Fill);
    var s1 := Step(Exec(s0, acts), Fill);
    assert s1 == System(f, Filled(rec, target));
    ExecSnoc(s0, acts + [Fill], Flip);
    ExecSnoc(s0, acts + [Fill] + [Flip], Return);
    assert acts + [Fill, Flip, Return] == acts + [Fill] + [Flip] + [Return];
  }

  lemma Written(f: File, rec: Rec, target: u64)
    requires WellFormed(f) && (target == SlotA || target == SlotB)
    ensures ReadValid(PutSlot(f, target, Bytes(Sealed(rec))).(vp := target)) == Some(Sealed(rec))
  {
    SealedReads(rec);
    hide Bytes, Sealed, ReadSlot;
  }
}

/** Block claiming with a high-water mark: `get_new_block`, the monotone raise of `num_used_blocks`, and
    record writes, over any interleaving of any number of clients, with kills and reopens. */
module BlockClaim {

  /** `current_block_page_`: the next block to hand out and a start page drawn at random. */
  datatype Cursor = Cursor(block: nat, page: nat)

  datatype Client =
    | NoBlock
    | Loaded(raw: Cursor)
    | Claimed(b: nat)
    | Raising(b: nat, prev: nat)
    | Owner(b: nat)

  /** `mark` is the durable `num_used_blocks`; `live` holds the blocks that contain a live record. */
  datatype State = State(mark: nat, cur: Cursor, clients: seq<Client>, live: set<nat>)

  /** One atomic step of client `c`; `rnd` is the random start page of the next block. */
  function Advance(s: State, c: nat, rnd: nat): (s': State)
    requires c < |s.clients|
  {
    match s.clients[c]
    case NoBlock => Become(s, c, Loaded(s.cur))
    case Loaded(raw) =>
      if s.cur == raw then Become(s.(cur := Cursor(raw.block + 1, rnd)), c, Claimed(raw.block))
      else Become(s, c, Loaded(s.cur))
    case Claimed(b) => Become(s, c, Raising(b, s.mark))
    case Raising(b, prev) =>
      if prev >= b + 1 then Become(s, c, Owner(b))
      else if s.mark == prev then Become(s.(mark := b + 1), c, Owner(b))
      else Become(s, c, Raising(b, s.mark))
    case Owner(b) => s.(live := s.live + {b})
  }

  function Become(s: State, c: nat, x: Client): (s': State)
    requires c < |s.clients|
  {
    s.(clients := s.clients[c := x])
  }

  /** A client leaves its full block to fetch another one. */
  function Leave(s: State, c: nat): (s': State)
    requires c < |s.clients|
  {
    if s.clients[c].Owner? then Become(s, c, NoBlock) else s
  }

  /** The last live record of a block is freed. */
  function Free(s: State, b: nat): (s': State) { s.(live := s.live - {b}) }

  /** Kill and reopen: clients are gone and the cursor restarts at the surviving mark. */
  function Reopen(s: State): (s': State) { State(s.mark, Cursor(s.mark, 0), [], s.live) }

  function Spawn(s: State): (s': State) { s.(clients := s.clients + [NoBlock]) }

  datatype Act = Go(c: nat, rnd: nat) | Quit(c: nat) | Drop(b: nat) | Crash | Join

  function Step(s: State, act: Act): (s': State) {
    match act
    case Go(c, rnd) => if c < |s.clients| then Advance(s, c, rnd) else s
    case Quit(c) => if c < |s.clients| then Leave(s, c) else s
    case Drop(b) => Free(s, b)
    case Crash => Reopen(s)
    case Join => Spawn(s)
  }

  predicate Has(x: Client) { x.Claimed? || x.Raising? || x.Owner? }

  ghost predicate Inv(s: State) {
    && s.mark <= s.cur.block
    && (forall b :: b in s.live ==> b < s.mark)
    && (forall c :: 0 <= c < |s.clients| && Has(s.clients[c]) ==> s.clients[c].b < s.cur.block)
    && (forall c :: 0 <= c < |s.clients| && s.clients[c].Loaded? ==> s.clients[c].raw.block <= s.cur.block)
    && (forall c :: 0 <= c < |s.clients| && s.clients[c].Owner? ==> s.clients[c].b < s.mark)
    && (forall c :: 0 <= c < |s.clients| && s.clients[c].Raising? ==> s.clients[c].prev <= s.mark)
    && (forall c, d :: 0 <= c < d < |s.clients| && Has(s.clients[c]) && Has(s.clients[d]) ==>
          s.clients[c].b != s.clients[d].b)
    && (forall c :: 0 <= c < |s.clients| && (s.clients[c].Claimed? || s.clients[c].Raising?) ==> s.clients[c].b !in s.live)
  }

  lemma StepInv(s: State, act: Act)
    requires Inv(s)
    ensures Inv(Step(s, act))
    ensures s.mark <= Step(s, act).mark
  {
    if act.Go? && act.c < |s.clients| {
      if s.clients[act.c].Loaded? {
        ClaimInv(s, act.c, act.rnd);
      } else if s.clients[act.c].Owner? {
        WriteInv(s, act.c, act.rnd);
      } else {
        RaiseInv(s, act.c, act.rnd);
      }
    } else {
      match act
      case Go(_, _) =>
      case Quit(c) => if c < |s.clients| { LeaveInv(s, c); }
      case Drop(_) =>
      case Crash =>
      case Join => JoinInv(s);
    }
  }

  lemma LeaveInv(s: State, c: nat)
    requires Inv(s) && c < |s.clients|
    ensures Inv(Leave(s, c))
  {
  }

  lemma JoinInv(s: State)
    requires Inv(s)
    ensures Inv(Spawn(s))
  {
  }

  lemma ClaimInv(s: State, c: nat, rnd: nat)
    requires Inv(s) && c < |s.clients| && s.clients[c].Loaded?
    ensures Inv(Advance(s, c, rnd)) && s.mark <= Advance(s, c, rnd).mark
  {
  }

  lemma WriteInv(s: State, c: nat, rnd: nat)
    requires Inv(s) && c < |s.clients| && s.clients[c].Owner?
    ensures Inv(Advance(s, c, rnd)) && s.mark <= Advance(s, c, rnd).mark
  {
  }

  lemma RaiseInv(s: State, c: nat, rnd: nat)
    requires Inv(s) && c < |s.clients| && !s.clients[c].Loaded? && !s.clients[c].Owner?
    ensures Inv(Advance(s, c, rnd)) && s.mark <= Advance(s, c, rnd).mark
  {
  }

  function Exec(s: State, acts: seq<Act>): (s': State)
    decreases |acts|
  {
    if acts == [] then s else Exec(Step(s, acts[0]), acts[1..])
  }

  lemma {:induction false} ExecInv(s: State, acts: seq<Act>)
    requires Inv(s)
    ensures Inv(Exec(s, acts))
    decreases |acts|
  {
    if acts != [] {
      StepInv(s, acts[0]);
      ExecInv(Step(s, acts[0]), acts[1..]);
    }
  }

  /** A pool being opened: the cursor stands at the mark and every live record lies below it. */
  ghost predicate Opened(s: State) {
    s.clients == [] && s.cur.block == s.mark && forall b :: b in s.live ==> b < s.mark
  }

  /** Recovery ceiling, over every interleaving and any number of kills: the mark exceeds the block of every
      live record, so the recovery scan reaches it; and no two clients own one block. */
  lemma RecoveryCeiling(s: State, acts: seq<Act>)
    requires Opened(s)
    ensures forall b :: b in Exec(s, acts).live ==> b < Exec(s, acts).mark
    ensures forall c, d :: 0 <= c < d < |Exec(s, acts).clients|
                           && Has(Exec(s, acts).clients[c]) && Has(Exec(s, acts).clients[d]) ==>
              Exec(s, acts).clients[c].b != Exec(s, acts).clients[d].b
  {
    ExecInv(s, acts);
  }

  /** A successful claim, also after a reopen, never returns a block that holds a live record or that another
      client has. */
  lemma ClaimIsFresh(s: State, acts: seq<Act>, c: nat, rnd: nat)
    requires Opened(s)
    requires var t := Exec(s, acts); c < |t.clients| && t.clients[c].Loaded? && Advance(t, c, rnd).clients[c].Claimed?
    ensures var t := Exec(s, acts);
            var b := Advance(t, c, rnd).clients[c].b;
            && b !in t.live && b >= t.mark
            && forall d :: 0 <= d < |t.clients| && Has(t.clients[d]) ==> t.clients[d].b != b
  {
    ExecInv(s, acts);
  }

  /** A record is written only by a client that owns its block, after the mark covers it: a kill right after
      the write, followed by a reopen, leaves the record below the recovered ceiling. */
  lemma WriteThenKill(s: State, acts: seq<Act>, c: nat)
    requires Opened(s) && c < |Exec(s, acts).clients| && Exec(s, acts).clients[c].Owner?
    ensures var t := Reopen(Advance(Exec(s, acts), c, 0));
            Opened(t) && Exec(s, acts).clients[c].b in t.live && Exec(s, acts).clients[c].b < t.mark
  {
    ExecInv(s, acts);
    StepInv(Exec(s, acts), Go(c, 0));
  }

  // ---------------------------------------------------------------- the order of claims

  /** The step wins the block at the cursor for client `c`. */
  predicate Wins(s: State, act: Act) {
    act.Go? && act.c < |s.clients| && s.clients[act.c].Loaded? && Advance(s, act.c, act.rnd).clients[act.c].Claimed?
  }

  /** The blocks claimed in a run, in order. */
  function Claims(s: State, acts: seq<Act>): (bs: seq<nat>)
    decreases |acts|
  {
    if acts == [] then []
    else
      var t := Step(s, acts[0]);
      (if Wins(s, acts[0]) then [t.clients[acts[0].c].b] else []) + Claims(t, acts[1..])
  }

  /** Within one process, over every interleaving, successive claims get successive blocks, from the cursor on. */
  lemma {:induction false} ClaimsInOrder(s: State, acts: seq<Act>)
    requires forall i :: 0 <= i < |acts| ==> !acts[i].Crash?
    ensures forall i :: 0 <= i < |Claims(s, acts)| ==> Claims(s, acts)[i] == s.cur.block + i
    ensures Exec(s, acts).cur.block == s.cur.block + |Claims(s, acts)|
    decreases |acts|
  {
    if acts != [] {
      ClaimsInOrder(Step(s, acts[0]), acts[1..]);
    }
  }

  /** Left alone, a client without a block owns the one at the cursor after four steps, with the mark raised just past
      it. */
  lemma ClaimAlone(s: State, c: nat, rnd: nat)
    requires Inv(s) && c < |s.clients| && s.clients[c].NoBlock?
    ensures Exec(s, [Go(c, rnd), Go(c, rnd), Go(c, rnd), Go(c, rnd)])
         == State(s.cur.block + 1, Cursor(s.cur.block + 1, rnd), s.clients[c := Owner(s.cur.block)], s.live)
  {
    var g, b := Go(c, rnd), s.cur.block;
    var s1 := s.(clients := s.clients[c := Loaded(s.cur)]);
    var s2 := s.(clients := s.clients[c := Claimed(b)], cur := Cursor(b + 1, rnd));
    var s3 := s2.(clients := s.clients[c := Raising(b, s.mark)]);
    var s4 := s2.(clients := s.clients[c := Owner(b)], mark := b + 1);
    assert Step(s, g) == s1;
    assert Step(s1, g) == s2 by { assert s1.clients[c := Claimed(b)] == s2.clients; }
    assert Step(s2, g) == s3 by { assert s2.clients[c := Raising(b, s.mark)] == s3.clients; }
    assert Step(s3, g) == s4 by { assert s3.clients[c := Owner(b)] == s4.clients; }
    hide Step;
    assert [g][1..] == [] && [g, g][1..] == [g] && [g, g, g][1..] == [g, g] && [g, g, g, g][1..] == [g, g, g];
    assert Exec(s3, [g]) == s4;
    assert Exec(s2, [g, g]) == s4;
    assert Exec(s1, [g, g, g]) == s4;
  }
}

/** Every run of the thread ring ends: as long as some thread has not come to its end one of them can take a
    step, and an input that ends allows only so many steps. */
module MtCoderEnds {
  import opened Bytes
  import opened MtCoder

  // ---------- Who was told to stop ----------

  predicate Coding(pc: Pc) {
    pc == Code || pc == WaitWrite || pc == TestStopWriting || pc == Write || pc == SetWrite
  }

  /** A thread that will not wait for its turn to read again. */
  predicate Out(t: Thread) {
    Failing(t.pc) || t.pc == PassStop || t.pc == PassStopSet || t.pc == Ended || (t.stop && (t.pc == Tell || t.pc == SetRead || Coding(t.pc)))
  }

  /** A thread that has told the next one to stop and has woken it. */
  predicate Signalled(t: Thread) {
    t.pc == Ended || t.pc == Fail4 || t.pc == Failed || (t.stop && Coding(t.pc))
  }

  /** What thread i was told is not lost. */
  ghost predicate Told(e: Env, s: State, i: nat)
    requires Shaped(e, s) && i < e.n
  {
    var p := s.t[Prev(e.n, i)];
    (p.pc == SetRead && p.stop ==> s.stopReading[i]) &&
    (Signalled(p) ==> Out(s.t[i]) || (s.stopReading[i] && (s.canRead[i] || s.t[i].pc == TestStop))) &&
    (p.pc == Failed ==> s.stopWriting[i] && (s.canWrite[i] || s.t[i].pc == TestStopWriting || Failing(s.t[i].pc)))
  }

  /** The right to write is in a thread's hands, or waits for it; or its holder failed. */
  ghost predicate WriteRight(e: Env, s: State)
    requires Shaped(e, s) && s.writer < e.n
  {
    var pc := s.t[s.writer].pc;
    if s.writer == s.wi && pc != SetWrite then s.canWrite[s.writer] || pc == TestStopWriting || pc == Write || Failing(pc)
    else s.wi == Next(e.n, s.writer) && (pc == SetWrite || Failing(pc))
  }

  /** The right to read likewise; if it was never given, the first thread was told to stop. */
  ghost predicate ReadRight(e: Env, s: State)
    requires Shaped(e, s)
  {
    if s.reader < e.n then
      s.canRead[s.reader] || s.t[s.reader].pc == TestStop || s.t[s.reader].pc == Read || s.t[s.reader].pc == Tell || s.t[s.reader].pc == SetRead ||
      Failing(s.t[s.reader].pc) || s.t[s.reader].pc == PassStop || s.t[s.reader].pc == PassStopSet || s.t[s.reader].pc == Ended
    else s.stopReading[0] && (s.canRead[0] || s.t[0].pc == TestStop || s.t[0].pc == PassStop || s.t[0].pc == PassStopSet || s.t[0].pc == Ended || Failing(s.t[0].pc))
  }

  ghost predicate Awake(e: Env, s: State) {
    Inv(e, s) && WriteRight(e, s) && ReadRight(e, s) && forall i: nat | i < e.n :: Told(e, s, i)
  }

  /** The first m threads could be started; if not all could, the first was told to stop. */
  ghost predicate Begun(e: Env, s: State, m: nat) {
    Init(e, s) && m <= e.n && (m < e.n ==> s.stopReading[0]) && forall i | 0 <= i < e.n :: s.t[i].pc == if i < m then WaitRead else Ended
  }

  lemma BegunAwake(e: Env, s: State, m: nat)
    requires Begun(e, s, m)
    ensures Awake(e, s)
  {
    InitInv(e, s);
  }

  // ---------- Every step ----------

  /** What a step of thread k needs to keep what thread i was told. */
  ghost predicate Ready(e: Env, s: State, k: nat, i: nat, pc: Pc) {
    Shaped(e, s) && k < e.n && i < e.n && s.t[k].pc == pc && CanGo(e, s, k) && ReadInv(e, s, k) && WriteInv(e, s, k) && Told(e, s, i)
  }

  ghost predicate Still(e: Env, s: State, i: nat) {
    Shaped(e, s) && i < e.n && Told(e, s, i)
  }

  lemma Neighbours(n: nat, k: nat, i: nat)
    requires k < n && i < n
    ensures Prev(n, i) == k <==> Next(n, k) == i
  {
  }

  lemma ToldWaitRead(e: Env, s: State, k: nat, i: nat)
    requires Ready(e, s, k, i, WaitRead)
    ensures Still(e, Go(e, s, k), i)
  {
    Neighbours(e.n, k, i);
  }

  lemma ToldTestStop(e: Env, s: State, k: nat, i: nat)
    requires Ready(e, s, k, i, TestStop)
    ensures Still(e, Go(e, s, k), i)
  {
    Neighbours(e.n, k, i);
  }

  lemma ToldPassStop(e: Env, s: State, k: nat, i: nat)
    requires Ready(e, s, k, i, PassStop)
    ensures Still(e, Go(e, s, k), i)
  {
    Neighbours(e.n, k, i);
  }

  lemma ToldPassStopSet(e: Env, s: State, k: nat, i: nat)
    requires Ready(e, s, k, i, PassStopSet)
    ensures Still(e, Go(e, s, k), i)
  {
    Neighbours(e.n, k, i);
  }

  lemma ToldRead(e: Env, s: State, k: nat, i: nat)
    requires Ready(e, s, k, i, Read)
    ensures Still(e, Go(e, s, k), i)
  {
    Neighbours(e.n, k, i);
  }

  lemma ToldTell(e: Env, s: State, k: nat, i: nat)
    requires Ready(e, s, k, i, Tell)
    ensures Still(e, Go(e, s, k), i)
  {
    Neighbours(e.n, k, i);
  }

  lemma ToldSetRead(e: Env, s: State, k: nat, i: nat)
    requires Ready(e, s, k, i, SetRead)
    ensures Still(e, Go(e, s, k), i)
  {
    Neighbours(e.n, k, i);
  }

  lemma ToldCode(e: Env, s: State, k: nat, i: nat)
    requires Ready(e, s, k, i, Code)
    ensures Still(e, Go(e, s, k), i)
  {
    Neighbours(e.n, k, i);
  }

  lemma ToldWaitWrite(e: Env, s: State, k: nat, i: nat)
    requires Ready(e, s, k, i, WaitWrite)
    ensures Still(e, Go(e, s, k), i)
  {
    Neighbours(e.n, k, i);
  }

  lemma ToldTestStopWriting(e: Env, s: State, k: nat, i: nat)
    requires Ready(e, s, k, i, TestStopWriting)
    ensures Still(e, Go(e, s, k), i)
  {
    Neighbours(e.n, k, i);
  }

  lemma ToldWrite(e: Env, s: State, k: nat, i: nat)
    requires Ready(e, s, k, i, Write)
    ensures Still(e, Go(e, s, k), i)
  {
    Neighbours(e.n, k, i);
  }

  lemma ToldSetWrite(e: Env, s: State, k: nat, i: nat)
    requires Ready(e, s, k, i, SetWrite)
    ensures Still(e, Go(e, s, k), i)
  {
    Neighbours(e.n, k, i);
  }

  lemma ToldFail1(e: Env, s: State, k: nat, i: nat)
    requires Ready(e, s, k, i, Fail1)
    ensures Still(e, Go(e, s, k), i)
  {
    Neighbours(e.n, k, i);
  }

  lemma ToldFail2(e: Env, s: State, k: nat, i: nat)
    requires Ready(e, s, k, i, Fail2)
    ensures Still(e, Go(e, s, k), i)
  {
    Neighbours(e.n, k, i);
  }

  lemma ToldFail3(e: Env, s: State, k: nat, i: nat)
    requires Ready(e, s, k, i, Fail3)
    ensures Still(e, Go(e, s, k), i)
  {
    Neighbours(e.n, k, i);
  }

  lemma ToldFail4(e: Env, s: State, k: nat, i: nat)
    requires Ready(e, s, k, i, Fail4)
    ensures Still(e, Go(e, s, k), i)
  {
    Neighbours(e.n, k, i);
  }

  lemma GoTold(e: Env, s: State, k: nat, i: nat)
    requires Shaped(e, s) && k < e.n && Ready(e, s, k, i, s.t[k].pc)
    ensures Still(e, Go(e, s, k), i)
  {
    hide Ready, Still, Go;
    match s.t[k].pc
    case WaitRead => ToldWaitRead(e, s, k, i);
    case TestStop => ToldTestStop(e, s, k, i);
    case PassStop => ToldPassStop(e, s, k, i);
    case PassStopSet => ToldPassStopSet(e, s, k, i);
    case Read => ToldRead(e, s, k, i);
    case Tell => ToldTell(e, s, k, i);
    case SetRead => ToldSetRead(e, s, k, i);
    case Code => ToldCode(e, s, k, i);
    case WaitWrite => ToldWaitWrite(e, s, k, i);
    case TestStopWriting => ToldTestStopWriting(e, s, k, i);
    case Write => ToldWrite(e, s, k, i);
    case SetWrite => ToldSetWrite(e, s, k, i);
    case Fail1 => ToldFail1(e, s, k, i);
    case Fail2 => ToldFail2(e, s, k, i);
    case Fail3 => ToldFail3(e, s, k, i);
    case Fail4 => ToldFail4(e, s, k, i);
    case Ended => Halted(e, s, k, i);
    case Failed => Halted(e, s, k, i);
  }

  lemma Halted(e: Env, s: State, k: nat, i: nat)
    requires Shaped(e, s) && k < e.n && Ready(e, s, k, i, s.t[k].pc)
    ensures s.t[k].pc != Ended && s.t[k].pc != Failed
  {
  }

  /** A step that is not the holder's leaves the right to write where it is. */
  lemma WriteRightElsewhere(e: Env, s: State, k: nat)
    requires Shaped(e, s) && Counts(e, s) && k < e.n && CanGo(e, s, k) && WriteInv(e, s, k) && WriteRight(e, s) && k != s.writer
    ensures var s' := Go(e, s, k); Shaped(e, s') && s'.writer < e.n && WriteRight(e, s')
  {
    NotTheWriter(e, s, k);
    hide Go;
  }

  lemma NotTheWriter(e: Env, s: State, k: nat)
    requires Shaped(e, s) && k < e.n && CanGo(e, s, k) && WriteInv(e, s, k) && k != s.writer < e.n
    ensures var s' := Go(e, s, k);
      Shaped(e, s') && s'.writer == s.writer && s'.wi == s.wi && s'.t[s.writer] == s.t[s.writer] && (s.canWrite[s.writer] ==> s'.canWrite[s.writer])
  {
  }

  lemma WriteRightHanded(e: Env, s: State, k: nat)
    requires Shaped(e, s) && Counts(e, s) && k < e.n && s.t[k].pc == SetWrite && WriteInv(e, s, k) && WriteInv(e, s, Next(e.n, k))
    ensures var s' := Go(e, s, k); Shaped(e, s') && s'.writer < e.n && WriteRight(e, s')
  {
  }

  lemma WriteRightHeld(e: Env, s: State, k: nat)
    requires Shaped(e, s) && Counts(e, s) && k < e.n && CanGo(e, s, k) && WriteInv(e, s, k) && WriteRight(e, s) && k == s.writer && s.t[k].pc != SetWrite
    ensures var s' := Go(e, s, k); Shaped(e, s') && s'.writer < e.n && WriteRight(e, s')
  {
  }

  lemma GoWriteRight(e: Env, s: State, k: nat)
    requires Inv(e, s) && k < e.n && CanGo(e, s, k) && WriteRight(e, s)
    ensures var s' := Go(e, s, k); Shaped(e, s') && s'.writer < e.n && WriteRight(e, s')
  {
    hide Go, WriteRight, WriteInv, ReadInv, BlockInv, Counts, Output;
    if s.t[k].pc == SetWrite {
      WriteRightHanded(e, s, k);
    } else if k == s.writer {
      WriteRightHeld(e, s, k);
    } else {
      WriteRightElsewhere(e, s, k);
    }
  }

  lemma ReadRightElsewhere(e: Env, s: State, k: nat)
    requires Shaped(e, s) && k < e.n && CanGo(e, s, k) && ReadInv(e, s, k) && ReadRight(e, s) && k != if s.reader < e.n then s.reader else 0
    ensures var s' := Go(e, s, k); Shaped(e, s') && ReadRight(e, s')
  {
  }

  lemma ReadRightHanded(e: Env, s: State, k: nat)
    requires Shaped(e, s) && k < e.n && ReadInv(e, s, k) && s.t[k].pc == SetRead
    ensures var s' := Go(e, s, k); Shaped(e, s') && ReadRight(e, s')
  {
  }

  lemma ReadRightHeld(e: Env, s: State, k: nat)
    requires Shaped(e, s) && k < e.n && CanGo(e, s, k) && ReadRight(e, s) && k == s.reader && s.t[k].pc != SetRead
    ensures var s' := Go(e, s, k); Shaped(e, s') && ReadRight(e, s')
  {
  }

  lemma NoReadRight(e: Env, s: State, k: nat)
    requires Shaped(e, s) && k == 0 && CanGo(e, s, k) && ReadInv(e, s, k) && ReadRight(e, s) && s.reader >= e.n
    ensures var s' := Go(e, s, k); Shaped(e, s') && ReadRight(e, s')
  {
  }

  lemma GoReadRight(e: Env, s: State, k: nat)
    requires Shaped(e, s) && k < e.n && CanGo(e, s, k) && ReadInv(e, s, k) && ReadRight(e, s)
    ensures var s' := Go(e, s, k); Shaped(e, s') && ReadRight(e, s')
  {
    hide Go, ReadRight, ReadInv;
    if s.t[k].pc == SetRead {
      ReadRightHanded(e, s, k);
    } else if s.reader < e.n && k == s.reader {
      ReadRightHeld(e, s, k);
    } else if s.reader >= e.n && k == 0 {
      NoReadRight(e, s, k);
    } else {
      ReadRightElsewhere(e, s, k);
    }
  }

  lemma StumbleTold(e: Env, s: State, k: nat, b: nat, i: nat)
    requires Shaped(e, s) && k < e.n && i < e.n && MayFail(s.t[k].pc) && (s.t[k].pc == Write ==> b <= |e.code(s.t[k].block)|)
    requires Told(e, s, i)
    ensures Still(e, Stumble(e, s, k, b), i)
  {
  }

  lemma StumbleRights(e: Env, s: State, k: nat, b: nat)
    requires Shaped(e, s) && Counts(e, s) && k < e.n && MayFail(s.t[k].pc) && (s.t[k].pc == Write ==> b <= |e.code(s.t[k].block)|)
    requires WriteRight(e, s) && ReadRight(e, s) && WriteInv(e, s, k)
    ensures var s' := Stumble(e, s, k, b); Shaped(e, s') && s'.writer < e.n && WriteRight(e, s') && ReadRight(e, s')
  {
  }

  lemma StepAwake(e: Env, s: State, s': State)
    requires Awake(e, s) && Step(e, s, s')
    ensures Awake(e, s')
  {
    hide Go, Stumble, Inv, Told, WriteRight, ReadRight, Ready;
    StepInv(e, s, s');
    Parts(e, s);
    var k: nat :| StepOf(e, s, s', k);
    if CanGo(e, s, k) && s' == Go(e, s, k) {
      GoWriteRight(e, s, k);
      GoReadRight(e, s, k);
      forall i: nat | i < e.n
        ensures Told(e, s', i)
      {
        IsReady(e, s, k, i);
        GoTold(e, s, k, i);
      }
    } else {
      var b: nat :| (s.t[k].pc == Write ==> b <= |e.code(s.t[k].block)|) && s' == Stumble(e, s, k, b);
      StumbleRights(e, s, k, b);
      forall i: nat | i < e.n
        ensures Told(e, s', i)
      {
        StumbleTold(e, s, k, b, i);
      }
    }
  }

  lemma Parts(e: Env, s: State)
    requires Inv(e, s)
    ensures Shaped(e, s) && Counts(e, s) && forall i: nat | i < e.n :: ReadInv(e, s, i) && WriteInv(e, s, i) && BlockInv(e, s, i)
  {
  }

  lemma IsReady(e: Env, s: State, k: nat, i: nat)
    requires Shaped(e, s) && k < e.n && i < e.n && CanGo(e, s, k) && ReadInv(e, s, k) && WriteInv(e, s, k) && Told(e, s, i)
    ensures Ready(e, s, k, i, s.t[k].pc)
  {
  }

  ghost predicate RunFrom(e: Env, states: seq<State>, m: nat) {
    Run(e, states) && Begun(e, states[0], m)
  }

  lemma {:induction false} RunAwake(e: Env, states: seq<State>, m: nat)
    requires RunFrom(e, states, m)
    ensures Awake(e, states[|states| - 1])
    decreases |states|
  {
    hide Awake, Begun, Step, Init;
    if |states| == 1 {
      BegunAwake(e, states[0], m);
    } else {
      var before := states[..|states| - 1];
      assert forall j | 0 <= j < |before| - 1 :: Step(e, before[j], before[j + 1]);
      RunAwake(e, before, m);
      StepAwake(e, states[|states| - 2], states[|states| - 1]);
    }
  }

  // ---------- No deadlock ----------

  predicate Done(t: Thread) {
    t.pc == Ended || t.pc == Failed
  }

  /** Nobody can take a step. */
  ghost predicate Stuck(e: Env, s: State) {
    Shaped(e, s) && forall i: nat | i < e.n :: !CanGo(e, s, i)
  }

  lemma StuckAt(e: Env, s: State, i: nat)
    requires Stuck(e, s) && i < e.n
    ensures Done(s.t[i]) || (s.t[i].pc == WaitRead && !s.canRead[i]) || (s.t[i].pc == WaitWrite && !s.canWrite[i])
  {
    assert !CanGo(e, s, i);
  }

  /** Whose block is next to be written failed. */
  lemma NextFailed(e: Env, s: State)
    requires Awake(e, s) && Stuck(e, s) && s.w < s.r
    ensures s.wi < e.n && s.t[s.wi].pc == Failed
  {
    hide ReadInv, WriteInv, ReadRight, Output;
    Parts(e, s);
    StuckAt(e, s, s.wi);
    StuckAt(e, s, s.writer);
    assert BlockInv(e, s, s.wi) && Told(e, s, s.wi);
    assert Own(e, s, s.wi) == s.w;
  }

  /** The block of the thread j places further is in work: that thread failed too. */
  lemma {:induction false} AllFailed(e: Env, s: State, i: nat)
    requires Awake(e, s) && Stuck(e, s) && i < e.n && Own(e, s, i) < s.r
    ensures s.t[i].pc == Failed
    decreases Dist(s.wi, i, e.n)
  {
    hide ReadInv, WriteInv, ReadRight, WriteRight, Output;
    Parts(e, s);
    if i == s.wi {
      NextFailed(e, s);
    } else {
      var p := Prev(e.n, i);
      AllFailed(e, s, p);
      StuckAt(e, s, i);
      assert BlockInv(e, s, i) && Told(e, s, i);
    }
  }

  /** So nobody waits to write. */
  lemma NoneWaitsToWrite(e: Env, s: State, i: nat)
    requires Awake(e, s) && Stuck(e, s) && i < e.n
    ensures s.t[i].pc != WaitWrite
  {
    hide ReadInv, WriteInv, ReadRight, WriteRight, Output, Told;
    Parts(e, s);
    assert BlockInv(e, s, i);
    if s.t[i].pc == WaitWrite {
      AllFailed(e, s, i);
    }
  }

  /** And who waits to read waits for one who waits to read. */
  lemma WaitsForReader(e: Env, s: State, i: nat)
    requires Awake(e, s) && Stuck(e, s) && i < e.n && s.t[i].pc == WaitRead
    ensures s.t[Prev(e.n, i)].pc == WaitRead
  {
    hide Inv, ReadRight, WriteRight;
    var p := Prev(e.n, i);
    StuckAt(e, s, i);
    StuckAt(e, s, p);
    NoneWaitsToWrite(e, s, p);
    assert Told(e, s, i);
  }

  lemma {:induction false} AllWaitToRead(e: Env, s: State, i: nat, j: nat)
    requires Awake(e, s) && Stuck(e, s) && i < e.n && s.t[i].pc == WaitRead && j < e.n
    ensures s.t[j].pc == WaitRead
    decreases Dist(j, i, e.n)
  {
    hide Awake, Stuck;
    if i != j {
      WaitsForReader(e, s, i);
      AllWaitToRead(e, s, Prev(e.n, i), j);
    }
  }

  /** No deadlock: when nobody can take a step, all threads have come to their end. */
  lemma NoDeadlock(e: Env, states: seq<State>, m: nat)
    requires RunFrom(e, states, m) && Stuck(e, states[|states| - 1])
    ensures var s := states[|states| - 1]; |s.t| == e.n && forall i: nat | i < e.n :: Done(s.t[i])
  {
    hide Step, Begun, Awake, Stuck;
    RunAwake(e, states, m);
    var s := states[|states| - 1];
    ShapeOf(e, s);
    forall i: nat | i < e.n
      ensures Done(s.t[i])
    {
      StuckAt(e, s, i);
      NoneWaitsToWrite(e, s, i);
      if s.t[i].pc == WaitRead {
        SomeoneReads(e, s, i);
      }
    }
  }

  lemma ShapeOf(e: Env, s: State)
    requires Awake(e, s)
    ensures Shaped(e, s)
  {
  }

  /** Not all can wait for their turn to read: one has it, or was told to stop. */
  lemma SomeoneReads(e: Env, s: State, i: nat)
    requires Awake(e, s) && Stuck(e, s) && i < e.n
    ensures s.t[i].pc != WaitRead
  {
    hide Inv, WriteRight, Told;
    if s.t[i].pc == WaitRead {
      var h := if s.reader < e.n then s.reader else 0;
      AllWaitToRead(e, s, i, h);
      StuckAt(e, s, h);
      assert false;
    }
  }

  // ---------- No run goes on for ever ----------

  /** After a block that ends the input nobody reads again. */
  ghost predicate Closed(e: Env, s: State) {
    Shaped(e, s) && (s.r > 0 && e.short(s.r - 1) ==>
      s.reader < e.n &&
      var t := s.t[s.reader];
      if t.pc == Tell then t.stop
      else if t.pc == SetRead then s.stopReading[Next(e.n, s.reader)]
      else t.pc != Read && (s.stopReading[s.reader] || Out(t)))
  }

  /** More than the steps that a thread has before it, until it reads again or ends. */
  function Rank(pc: Pc): nat {
    match pc
    case WaitRead => 9
    case TestStop => 8
    case PassStop => 7
    case PassStopSet => 6
    case Read => 7
    case Tell => 20
    case SetRead => 19
    case Code => 18
    case WaitWrite => 17
    case TestStopWriting => 16
    case Write => 15
    case SetWrite => 14
    case Fail1 => 5
    case Fail2 => 4
    case Fail3 => 3
    case Fail4 => 2
    case Ended => 0
    case Failed => 0
  }

  function Ranks(t: seq<Thread>): nat {
    if t == [] then 0 else Rank(t[0].pc) + Ranks(t[1..])
  }

  lemma {:induction false} RanksUpdate(t: seq<Thread>, i: nat, x: Thread)
    requires i < |t|
    ensures Ranks(t[i := x]) + Rank(t[i].pc) == Ranks(t) + Rank(x.pc)
    decreases |t|
  {
    if i == 0 {
      assert t[0 := x][1..] == t[1..];
    } else {
      assert t[i := x][1..] == t[1..][i - 1 := x];
      RanksUpdate(t[1..], i - 1, x);
    }
  }

  lemma {:induction false} RanksAtMost(t: seq<Thread>)
    requires forall i | 0 <= i < |t| :: Rank(t[i].pc) <= 9
    ensures Ranks(t) <= 9 * |t|
    decreases |t|
  {
    if t != [] {
      RanksAtMost(t[1..]);
    }
  }

  /** Steps that are left at most, when the input has blocks blocks. */
  function Left(s: State, blocks: nat): int {
    20 * (blocks - s.r) + Ranks(s.t)
  }

  ghost predicate Ending(e: Env, s: State, blocks: nat) {
    Inv(e, s) && Closed(e, s) && s.r <= blocks
  }

  lemma ClosedRead(e: Env, s: State, k: nat)
    requires Shaped(e, s) && k < e.n && ReadInv(e, s, k) && Closed(e, s) && s.t[k].pc == Read
    ensures Closed(e, Go(e, s, k)) && (s.r > 0 ==> !e.short(s.r - 1))
  {
  }

  lemma ClosedSetRead(e: Env, s: State, k: nat)
    requires Shaped(e, s) && k < e.n && ReadInv(e, s, k) && ReadInv(e, s, Next(e.n, k)) && Closed(e, s) && s.t[k].pc == SetRead
    ensures Closed(e, Go(e, s, k))
  {
  }

  lemma ClosedElsewhere(e: Env, s: State, k: nat)
    requires Shaped(e, s) && k < e.n && CanGo(e, s, k) && ReadInv(e, s, k) && Closed(e, s) && s.t[k].pc != Read && s.t[k].pc != SetRead && k != s.reader
    ensures Closed(e, Go(e, s, k))
  {
    NotTheReader(e, s, k);
    hide Go;
  }

  lemma NotTheReader(e: Env, s: State, k: nat)
    requires Shaped(e, s) && k < e.n && CanGo(e, s, k) && ReadInv(e, s, k) && s.t[k].pc != Read && s.t[k].pc != SetRead && k != s.reader
    ensures var s' := Go(e, s, k);
      Shaped(e, s') && s'.reader == s.reader && s'.r == s.r && s'.t == s.t[k := s'.t[k]] &&
      forall j | 0 <= j < e.n && s.stopReading[j] :: s'.stopReading[j]
  {
  }

  lemma ClosedHeld(e: Env, s: State, k: nat)
    requires Shaped(e, s) && k < e.n && CanGo(e, s, k) && ReadInv(e, s, k) && Closed(e, s) && s.t[k].pc != Read && s.t[k].pc != SetRead && k == s.reader
    ensures Closed(e, Go(e, s, k))
  {
    HeldEffect(e, s, k);
    hide Go;
  }

  lemma HeldEffect(e: Env, s: State, k: nat)
    requires Shaped(e, s) && k < e.n && CanGo(e, s, k) && s.t[k].pc != Read && s.t[k].pc != SetRead
    ensures var s', t := Go(e, s, k), s.t[k];
      var t' := s'.t[k];
      Shaped(e, s') && s'.reader == s.reader && s'.r == s.r && t'.stop == t.stop && (t'.pc == SetRead <==> t.pc == Tell) && t'.pc != Tell &&
      (t'.pc == Read ==> t.pc == TestStop && !s.stopReading[k]) && (t.pc == Tell ==> s'.stopReading[Next(e.n, k)] == t.stop) &&
      (t.pc != Tell && s.stopReading[k] ==> s'.stopReading[k]) && (Out(t) ==> Out(t'))
  {
  }

  lemma GoClosed(e: Env, s: State, k: nat)
    requires Inv(e, s) && Closed(e, s) && k < e.n && CanGo(e, s, k)
    ensures Closed(e, Go(e, s, k)) && (s.t[k].pc == Read && s.r > 0 ==> !e.short(s.r - 1))
  {
    hide Go, Closed, ReadInv, WriteInv, BlockInv, Counts, Output;
    if s.t[k].pc == Read {
      ClosedRead(e, s, k);
    } else if s.t[k].pc == SetRead {
      ClosedSetRead(e, s, k);
    } else if k == s.reader {
      ClosedHeld(e, s, k);
    } else {
      ClosedElsewhere(e, s, k);
    }
  }

  lemma StumbleClosed(e: Env, s: State, k: nat, b: nat)
    requires Shaped(e, s) && k < e.n && MayFail(s.t[k].pc) && (s.t[k].pc == Write ==> b <= |e.code(s.t[k].block)|) && Closed(e, s)
    ensures var s' := Stumble(e, s, k, b); Closed(e, s') && s'.r == s.r && s'.t == s.t[k := s'.t[k]] && Rank(s'.t[k].pc) < Rank(s.t[k].pc)
  {
  }

  lemma GoRank(e: Env, s: State, k: nat)
    requires Shaped(e, s) && k < e.n && CanGo(e, s, k)
    ensures var s' := Go(e, s, k);
      |s'.t| == e.n && s'.t == s.t[k := s'.t[k]] &&
      if s.t[k].pc == Read then s'.r == s.r + 1 && Rank(s'.t[k].pc) < Rank(s.t[k].pc) + 20
      else s'.r == s.r && Rank(s'.t[k].pc) < Rank(s.t[k].pc)
  {
  }

  /** Every step leaves fewer steps. */
  lemma StepFewer(e: Env, s: State, s': State, blocks: nat)
    requires Ending(e, s, blocks) && Step(e, s, s') && blocks > 0 && e.short(blocks - 1)
    ensures Ending(e, s', blocks) && Left(s', blocks) < Left(s, blocks)
  {
    hide Go, Stumble, Inv, Closed, Rank, Ranks;
    StepInv(e, s, s');
    Parts(e, s);
    var k: nat :| StepOf(e, s, s', k);
    if CanGo(e, s, k) && s' == Go(e, s, k) {
      GoClosed(e, s, k);
      GoRank(e, s, k);
      RanksUpdate(s.t, k, s'.t[k]);
    } else {
      var b: nat :| (s.t[k].pc == Write ==> b <= |e.code(s.t[k].block)|) && s' == Stumble(e, s, k, b);
      StumbleClosed(e, s, k, b);
      RanksUpdate(s.t, k, s'.t[k]);
    }
  }

  lemma StartLeft(e: Env, s: State, blocks: nat)
    requires Init(e, s)
    ensures Ending(e, s, blocks) && Left(s, blocks) <= 20 * blocks + 9 * e.n
  {
    hide Inv, Ranks;
    InitInv(e, s);
    RanksAtMost(s.t);
  }

  lemma {:induction false} FewerLeft(e: Env, states: seq<State>, blocks: nat)
    requires Run(e, states) && blocks > 0 && e.short(blocks - 1)
    ensures var s := states[|states| - 1]; Ending(e, s, blocks) && Left(s, blocks) + |states| - 1 <= 20 * blocks + 9 * e.n
    decreases |states|
  {
    hide Ending, Left, Step, Init;
    if |states| == 1 {
      StartLeft(e, states[0], blocks);
    } else {
      var before := states[..|states| - 1];
      assert forall j | 0 <= j < |before| - 1 :: Step(e, before[j], before[j + 1]);
      FewerLeft(e, before, blocks);
      StepFewer(e, states[|states| - 2], states[|states| - 1], blocks);
    }
  }

  /** When the input ends within so many blocks, so does every run, in whatever order the threads take their steps and
      whatever fails. */
  lemma RunsEnd(e: Env, states: seq<State>, blocks: nat)
    requires Run(e, states) && blocks > 0 && e.short(blocks - 1)
    ensures |states| <= 20 * blocks + 9 * e.n + 1
  {
    hide Run, Inv, Closed;
    FewerLeft(e, states, blocks);
  }
}

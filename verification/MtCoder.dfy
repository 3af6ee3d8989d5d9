/** The multi-thread coder: threads in a ring pass on the right to read and the right to write.
    Every interleaving of their steps, with failures anywhere, writes the coded blocks in order. */
module MtCoder {
  import opened Bytes

  /** What the steps depend on: the number of threads, the coded form of block k, and whether the
      read of block k comes out short, which ends the input. */
  datatype Env = Env(n: nat, code: nat -> seq<byte>, short: nat -> bool)

  /** Where a thread is in MtThread_Process and ThreadFunc, between two accesses to shared state. */
  datatype Pc =
    | WaitRead                   // Event_Wait(canRead)
    | TestStop                   // if (p->stopReading)
    | PassStop | PassStopSet     // next->stopReading = True, Event_Set(next->canRead)
    | Read                       // FullRead
    | Tell | SetRead             // next->stopReading = *stop, Event_Set(next->canRead)
    | Code
    | WaitWrite                  // Event_Wait(canWrite)
    | TestStopWriting            // if (p->stopWriting)
    | Write
    | SetWrite                   // Event_Set(next->canWrite)
    | Fail1 | Fail2 | Fail3 | Fail4   // stopReading, stopWriting, canRead, canWrite of next
    | Ended | Failed

  datatype Thread = Thread(pc: Pc, stop: bool, block: nat)

  /** The shared state, and beside it the numbers of blocks read and written, whose turn is next,
      and who holds the right to read and to write (n: nobody). */
  datatype State = State(
    t: seq<Thread>, canRead: seq<bool>, canWrite: seq<bool>, stopReading: seq<bool>, stopWriting: seq<bool>,
    output: seq<byte>, r: nat, w: nat, ri: nat, wi: nat, reader: nat, writer: nat, part: nat)

  /** GET_NEXT_THREAD. */
  function Next(n: nat, i: nat): nat {
    if i + 1 == n then 0 else i + 1
  }

  function Prev(n: nat, i: nat): nat
    requires i < n
  {
    if i == 0 then n - 1 else i - 1
  }

  ghost predicate Shaped(e: Env, s: State) {
    e.n > 0 && |s.t| == |s.canRead| == |s.canWrite| == |s.stopReading| == |s.stopWriting| == e.n
  }

  // ---------- Steps ----------

  /** MtCoder_Code: all threads wait, and the first one may read and write. When a thread could not
      be started, the first one is told to stop before anything is read. */
  ghost predicate Init(e: Env, s: State) {
    Shaped(e, s) &&
    (forall i | 0 <= i < e.n :: s.t[i].pc == WaitRead || (s.stopReading[0] && s.t[i].pc == Ended)) &&
    (forall i | 0 <= i < e.n :: s.canRead[i] == s.canWrite[i] == (i == 0) && !s.stopWriting[i]) &&
    (forall i | 0 < i < e.n :: !s.stopReading[i]) &&
    s.output == [] && s.r == s.w == s.ri == s.wi == s.part == 0 && s.writer == 0 &&
    s.reader == if s.stopReading[0] then e.n else 0
  }

  function At(s: State, i: nat, pc: Pc): State
    requires i < |s.t|
  {
    s.(t := s.t[i := s.t[i].(pc := pc)])
  }

  predicate CanGo(e: Env, s: State, i: nat)
    requires Shaped(e, s) && i < e.n
  {
    match s.t[i].pc
    case WaitRead => s.canRead[i]
    case WaitWrite => s.canWrite[i]
    case Ended => false
    case Failed => false
    case _ => true
  }

  /** Thread i takes its next step, and nothing goes wrong. */
  function Go(e: Env, s: State, i: nat): State
    requires Shaped(e, s) && i < e.n && CanGo(e, s, i)
  {
    var t, next := s.t[i], Next(e.n, i);
    match t.pc
    case WaitRead => At(s, i, TestStop).(canRead := s.canRead[i := false])
    case TestStop => At(s, i, if s.stopReading[i] then PassStop else Read)
    case PassStop => At(s, i, PassStopSet).(stopReading := s.stopReading[next := true])
    case PassStopSet => At(s, i, Ended).(canRead := s.canRead[next := true])
    case Read => s.(t := s.t[i := Thread(Tell, e.short(s.r), s.r)], r := s.r + 1, ri := next)
    case Tell => At(s, i, SetRead).(stopReading := s.stopReading[next := t.stop])
    case SetRead => At(s, i, Code).(canRead := s.canRead[next := true], reader := next)
    case Code => At(s, i, WaitWrite)
    case WaitWrite => At(s, i, TestStopWriting).(canWrite := s.canWrite[i := false])
    case TestStopWriting => At(s, i, if s.stopWriting[i] then Fail1 else Write)
    case Write => At(s, i, SetWrite).(output := s.output + e.code(t.block), w := s.w + 1, wi := next)
    case SetWrite => At(s, i, if t.stop then Ended else WaitRead).(canWrite := s.canWrite[next := true], writer := next)
    case Fail1 => At(s, i, Fail2).(stopReading := s.stopReading[next := true])
    case Fail2 => At(s, i, Fail3).(stopWriting := s.stopWriting[next := true])
    case Fail3 => At(s, i, Fail4).(canRead := s.canRead[next := true])
    case Fail4 => At(s, i, Failed).(canWrite := s.canWrite[next := true])
    case _ => s
  }

  /** Where MtThread_Process can return an error: events, the streams and the coder may fail. */
  predicate MayFail(pc: Pc) {
    pc == WaitRead || pc == PassStopSet || pc == Read || pc == SetRead || pc == Code || pc == WaitWrite || pc == Write || pc == SetWrite
  }

  /** Thread i fails; a failing write may still have written the first k bytes of its block. */
  function Stumble(e: Env, s: State, i: nat, k: nat): State
    requires Shaped(e, s) && i < e.n && (s.t[i].pc == Write ==> k <= |e.code(s.t[i].block)|)
  {
    if s.t[i].pc == Write then At(s, i, Fail1).(output := s.output + e.code(s.t[i].block)[..k], part := k)
    else At(s, i, Fail1)
  }

  ghost predicate Step(e: Env, s: State, s': State) {
    Shaped(e, s) && exists i: nat :: StepOf(e, s, s', i)
  }

  ghost predicate StepOf(e: Env, s: State, s': State, i: nat)
    requires Shaped(e, s)
  {
    i < e.n &&
    ((CanGo(e, s, i) && s' == Go(e, s, i)) ||
     (MayFail(s.t[i].pc) && exists k: nat :: (s.t[i].pc == Write ==> k <= |e.code(s.t[i].block)|) && s' == Stumble(e, s, i, k)))
  }

  ghost predicate Run(e: Env, states: seq<State>) {
    states != [] && Init(e, states[0]) && forall j | 0 <= j < |states| - 1 :: Step(e, states[j], states[j + 1])
  }

  // ---------- What every step keeps ----------

  function Dist(a: nat, b: nat, n: nat): int {
    if b >= a then b - a else b - a + n
  }

  /** The block that thread i has in work, or will have: blocks go round the ring. */
  function Own(e: Env, s: State, i: nat): int {
    s.w + Dist(s.wi, i, e.n)
  }

  predicate Holds(pc: Pc) {
    pc == Tell || pc == SetRead || pc == Code || pc == WaitWrite || pc == TestStopWriting || pc == Write
  }

  predicate Free(pc: Pc) {
    pc == WaitRead || pc == TestStop || pc == PassStop || pc == PassStopSet || pc == Read || pc == SetWrite || pc == Ended
  }

  predicate Failing(pc: Pc) {
    pc == Fail1 || pc == Fail2 || pc == Fail3 || pc == Fail4 || pc == Failed
  }

  /** A thread that will not read again and has told, or may have told, the next one so. */
  predicate Stopping(t: Thread) {
    t.pc == PassStopSet || t.pc == Ended || Failing(t.pc) ||
    (t.stop && (t.pc == SetRead || t.pc == Code || t.pc == WaitWrite || t.pc == TestStopWriting || t.pc == Write || t.pc == SetWrite))
  }

  /** The right to read is where it should be. */
  ghost predicate ReadInv(e: Env, s: State, i: nat)
    requires Shaped(e, s) && i < e.n
  {
    var pc := s.t[i].pc;
    ((pc == TestStop && !s.stopReading[i]) || pc == Read ==> s.reader == i == s.ri) &&
    (pc == Tell || pc == SetRead ==> s.reader == i && s.ri == Next(e.n, i)) &&
    (s.canRead[i] && !s.stopReading[i] ==> s.reader == i == s.ri && pc != TestStop && pc != Read && pc != Tell && pc != SetRead) &&
    (s.stopReading[i] && s.reader < e.n ==> Stopping(s.t[Prev(e.n, i)])) &&
    (pc == PassStopSet || pc == Fail2 || pc == Fail3 ==> s.stopReading[Next(e.n, i)])
  }

  /** The right to write is where it should be. */
  ghost predicate WriteInv(e: Env, s: State, i: nat)
    requires Shaped(e, s) && i < e.n
  {
    var pc := s.t[i].pc;
    ((pc == TestStopWriting && !s.stopWriting[i]) || pc == Write ==> s.writer == i == s.wi) &&
    (pc == SetWrite ==> s.writer == i && s.wi == Next(e.n, i)) &&
    (s.canWrite[i] && !s.stopWriting[i] ==> s.writer == i == s.wi && pc != TestStopWriting && pc != Write && pc != SetWrite) &&
    (pc == Fail3 || pc == Fail4 ==> s.stopWriting[Next(e.n, i)])
  }

  /** Blocks in work are those read and not yet written. */
  ghost predicate BlockInv(e: Env, s: State, i: nat)
    requires Shaped(e, s) && i < e.n
  {
    (Holds(s.t[i].pc) ==> s.t[i].block == Own(e, s, i) < s.r) && (Free(s.t[i].pc) ==> s.r <= Own(e, s, i))
  }

  function Concat(code: nat -> seq<byte>, n: nat): seq<byte> {
    if n == 0 then [] else Concat(code, n - 1) + code(n - 1)
  }

  ghost predicate Counts(e: Env, s: State) {
    s.wi < e.n && s.ri < e.n && s.writer < e.n && s.reader <= e.n && s.w <= s.r &&
    (s.r - s.w == Dist(s.wi, s.ri, e.n) || (s.r - s.w == e.n && s.ri == s.wi))
  }

  ghost predicate Output(e: Env, s: State)
    requires Shaped(e, s)
  {
    s.part <= |e.code(s.w)| && s.output == Concat(e.code, s.w) + e.code(s.w)[..s.part] &&
    (s.part > 0 ==> s.writer < e.n && Failing(s.t[s.writer].pc))
  }

  ghost predicate Inv(e: Env, s: State) {
    Shaped(e, s) && Counts(e, s) && Output(e, s) &&
    (forall i: nat | i < e.n :: ReadInv(e, s, i)) &&
    (forall i: nat | i < e.n :: WriteInv(e, s, i)) &&
    (forall i: nat | i < e.n :: BlockInv(e, s, i))
  }

  lemma InitInv(e: Env, s: State)
    requires Init(e, s)
    ensures Inv(e, s)
  {
  }

  predicate TakesRead(pc: Pc) {
    pc == WaitRead || pc == TestStop || pc == Read
  }

  predicate TellsStop(pc: Pc) {
    pc == PassStop || pc == Fail1
  }

  predicate WakesNext(pc: Pc) {
    pc == PassStopSet || pc == Fail3
  }

  lemma GoRead(e: Env, s: State, i: nat, j: nat)
    requires Shaped(e, s) && (forall i: nat | i < e.n :: ReadInv(e, s, i)) && i < e.n && CanGo(e, s, i) && j < e.n
    ensures ReadInv(e, Go(e, s, i), j)
  {
    hide ReadInv, Go;
    if s.t[i].pc == SetRead {
      GoSetRead(e, s, i, j);
    } else if s.t[i].pc == Tell {
      GoTell(e, s, i, j);
    } else if TakesRead(s.t[i].pc) {
      GoTakesRead(e, s, i, j);
    } else if TellsStop(s.t[i].pc) {
      GoTellsStop(e, s, i, j);
    } else if WakesNext(s.t[i].pc) {
      GoWakesNext(e, s, i, j);
    } else {
      GoElsewhere(e, s, i, j);
    }
  }

  lemma GoTakesRead(e: Env, s: State, i: nat, j: nat)
    requires Shaped(e, s) && i < e.n && ReadInv(e, s, i) && CanGo(e, s, i) && TakesRead(s.t[i].pc) && j < e.n && ReadInv(e, s, j)
    ensures ReadInv(e, Go(e, s, i), j)
  {
  }

  lemma GoTellsStop(e: Env, s: State, i: nat, j: nat)
    requires Shaped(e, s) && i < e.n && ReadInv(e, s, i) && CanGo(e, s, i) && TellsStop(s.t[i].pc) && j < e.n && ReadInv(e, s, j)
    ensures ReadInv(e, Go(e, s, i), j)
  {
    TellsStopEffect(e, s, i);
    hide Go;
  }

  lemma TellsStopEffect(e: Env, s: State, i: nat)
    requires Shaped(e, s) && i < e.n && CanGo(e, s, i) && TellsStop(s.t[i].pc)
    ensures var s' := Go(e, s, i);
      Shaped(e, s') && (s'.t[i].pc == PassStopSet || s'.t[i].pc == Fail2) && s'.t == s.t[i := s'.t[i]] && s'.canRead == s.canRead &&
      s'.stopReading == s.stopReading[Next(e.n, i) := true] && s'.reader == s.reader && s'.ri == s.ri && s'.t[i].stop == s.t[i].stop
  {
  }

  lemma GoWakesNext(e: Env, s: State, i: nat, j: nat)
    requires Shaped(e, s) && i < e.n && ReadInv(e, s, i) && CanGo(e, s, i) && WakesNext(s.t[i].pc) && j < e.n && ReadInv(e, s, j)
    ensures ReadInv(e, Go(e, s, i), j)
  {
  }

  lemma GoElsewhere(e: Env, s: State, i: nat, j: nat)
    requires Shaped(e, s) && i < e.n && ReadInv(e, s, i) && CanGo(e, s, i) && j < e.n && ReadInv(e, s, j)
    requires var pc := s.t[i].pc; pc != SetRead && pc != Tell && !TakesRead(pc) && !TellsStop(pc) && !WakesNext(pc)
    ensures ReadInv(e, Go(e, s, i), j)
  {
    ElsewhereEffect(e, s, i);
    hide Go;
  }

  lemma ElsewhereEffect(e: Env, s: State, i: nat)
    requires Shaped(e, s) && i < e.n && CanGo(e, s, i)
    requires var pc := s.t[i].pc; pc != SetRead && pc != Tell && !TakesRead(pc) && !TellsStop(pc) && !WakesNext(pc)
    ensures var s' := Go(e, s, i);
      Shaped(e, s') && s'.t == s.t[i := s'.t[i]] && s'.canRead == s.canRead && s'.stopReading == s.stopReading &&
      s'.reader == s.reader && s'.ri == s.ri && s'.t[i].pc != TestStop && s'.t[i].pc != Read && s'.t[i].pc != Tell && s'.t[i].pc != SetRead &&
      s'.t[i].pc != PassStopSet && s'.t[i].pc != Fail2 && (s'.t[i].pc == Fail3 ==> s.t[i].pc == Fail2) &&
      (Stopping(s.t[i]) ==> Stopping(s'.t[i]))
  {
  }

  lemma GoSetRead(e: Env, s: State, i: nat, j: nat)
    requires Shaped(e, s) && i < e.n && ReadInv(e, s, i) && s.t[i].pc == SetRead && j < e.n && ReadInv(e, s, j)
    ensures ReadInv(e, Go(e, s, i), j)
  {
  }

  lemma GoTell(e: Env, s: State, i: nat, j: nat)
    requires Shaped(e, s) && i < e.n && ReadInv(e, s, i) && s.t[i].pc == Tell && j < e.n && ReadInv(e, s, j)
    ensures ReadInv(e, Go(e, s, i), j)
  {
  }

  lemma GoWrite(e: Env, s: State, i: nat, j: nat)
    requires Shaped(e, s) && (forall i: nat | i < e.n :: WriteInv(e, s, i)) && i < e.n && CanGo(e, s, i) && j < e.n
    ensures WriteInv(e, Go(e, s, i), j)
  {
    hide WriteInv, Go;
    if TakesWrite(s.t[i].pc) {
      GoTakesWrite(e, s, i, j);
    } else if s.t[i].pc == SetWrite || s.t[i].pc == Fail4 {
      GoWakesWriter(e, s, i, j);
    } else {
      GoWriteElsewhere(e, s, i, j);
    }
  }

  predicate TakesWrite(pc: Pc) {
    pc == WaitWrite || pc == TestStopWriting || pc == Write
  }

  lemma GoTakesWrite(e: Env, s: State, i: nat, j: nat)
    requires Shaped(e, s) && i < e.n && WriteInv(e, s, i) && CanGo(e, s, i) && TakesWrite(s.t[i].pc) && j < e.n && WriteInv(e, s, j)
    ensures WriteInv(e, Go(e, s, i), j)
  {
  }

  lemma GoWakesWriter(e: Env, s: State, i: nat, j: nat)
    requires Shaped(e, s) && i < e.n && WriteInv(e, s, i) && (s.t[i].pc == SetWrite || s.t[i].pc == Fail4) && j < e.n && WriteInv(e, s, j)
    ensures WriteInv(e, Go(e, s, i), j)
  {
  }

  lemma GoWriteElsewhere(e: Env, s: State, i: nat, j: nat)
    requires Shaped(e, s) && i < e.n && WriteInv(e, s, i) && CanGo(e, s, i) && j < e.n && WriteInv(e, s, j)
    requires var pc := s.t[i].pc; !TakesWrite(pc) && pc != SetWrite && pc != Fail4
    ensures WriteInv(e, Go(e, s, i), j)
  {
    WriteEffect(e, s, i);
    hide Go;
  }

  lemma WriteEffect(e: Env, s: State, i: nat)
    requires Shaped(e, s) && i < e.n && CanGo(e, s, i)
    requires var pc := s.t[i].pc; !TakesWrite(pc) && pc != SetWrite && pc != Fail4
    ensures var s' := Go(e, s, i);
      var pc' := s'.t[i].pc;
      Shaped(e, s') && s'.t == s.t[i := s'.t[i]] && s'.canWrite == s.canWrite && s'.writer == s.writer && s'.wi == s.wi &&
      pc' != TestStopWriting && pc' != Write && pc' != SetWrite && (pc' == Fail4 ==> s.t[i].pc == Fail3) &&
      s'.stopWriting == if pc' == Fail3 then s.stopWriting[Next(e.n, i) := true] else s.stopWriting
  {
  }

  lemma GoBlock(e: Env, s: State, i: nat, j: nat)
    requires Shaped(e, s) && Counts(e, s) && i < e.n && CanGo(e, s, i) && j < e.n
    requires ReadInv(e, s, i) && WriteInv(e, s, i) && BlockInv(e, s, i) && BlockInv(e, s, j)
    ensures BlockInv(e, Go(e, s, i), j)
  {
    hide ReadInv, WriteInv, BlockInv, Go;
    match s.t[i].pc
    case Read =>
      AtRead(e, s, i);
      GoBlockRead(e, s, i, j);
    case Write =>
      AtWrite(e, s, i);
      GoBlockWrite(e, s, i, j);
    case _ => GoBlockElse(e, s, i, j);
  }

  lemma GoBlockRead(e: Env, s: State, i: nat, j: nat)
    requires Shaped(e, s) && Counts(e, s) && i < e.n && j < e.n && BlockInv(e, s, i) && BlockInv(e, s, j)
    requires s.t[i].pc == Read && s.reader == i == s.ri
    ensures BlockInv(e, Go(e, s, i), j)
  {
  }

  lemma GoBlockWrite(e: Env, s: State, i: nat, j: nat)
    requires Shaped(e, s) && Counts(e, s) && i < e.n && j < e.n && BlockInv(e, s, i) && BlockInv(e, s, j)
    requires s.t[i].pc == Write && s.writer == i == s.wi
    ensures BlockInv(e, Go(e, s, i), j)
  {
  }

  lemma GoBlockElse(e: Env, s: State, i: nat, j: nat)
    requires Shaped(e, s) && i < e.n && CanGo(e, s, i) && j < e.n && BlockInv(e, s, i) && BlockInv(e, s, j)
    requires s.t[i].pc != Read && s.t[i].pc != Write
    ensures BlockInv(e, Go(e, s, i), j)
  {
    BlockEffect(e, s, i);
    hide Go;
  }

  lemma BlockEffect(e: Env, s: State, i: nat)
    requires Shaped(e, s) && i < e.n && CanGo(e, s, i) && s.t[i].pc != Read && s.t[i].pc != Write
    ensures var s' := Go(e, s, i);
      Shaped(e, s') && s'.t == s.t[i := s'.t[i]] && s'.r == s.r && s'.w == s.w && s'.wi == s.wi && s'.t[i].block == s.t[i].block &&
      (Holds(s'.t[i].pc) ==> Holds(s.t[i].pc)) && (Free(s'.t[i].pc) ==> Free(s.t[i].pc))
  {
  }

  lemma AtRead(e: Env, s: State, i: nat)
    requires Shaped(e, s) && i < e.n && ReadInv(e, s, i) && s.t[i].pc == Read
    ensures s.reader == i == s.ri
  {
  }

  lemma AtWrite(e: Env, s: State, i: nat)
    requires Shaped(e, s) && i < e.n && WriteInv(e, s, i) && s.t[i].pc == Write
    ensures s.writer == i == s.wi
  {
  }

  lemma GoCounts(e: Env, s: State, i: nat)
    requires Shaped(e, s) && Counts(e, s) && i < e.n && CanGo(e, s, i) && ReadInv(e, s, i) && WriteInv(e, s, i) && BlockInv(e, s, i)
    ensures Counts(e, Go(e, s, i))
  {
    hide ReadInv, WriteInv;
    match s.t[i].pc
    case Read => AtRead(e, s, i);
    case Write => AtWrite(e, s, i);
    case _ =>
  }

  /** Only the thread whose turn it is writes, after a block that was written whole. */
  lemma GoOutput(e: Env, s: State, i: nat)
    requires Shaped(e, s) && Counts(e, s) && Output(e, s) && i < e.n && CanGo(e, s, i) && WriteInv(e, s, i) && BlockInv(e, s, i)
    requires s.writer < e.n && WriteInv(e, s, s.writer)
    ensures Output(e, Go(e, s, i))
  {
    hide WriteInv, BlockInv;
    if s.t[i].pc == Write {
      AtWrite(e, s, i);
      WholeBlock(e, s, i);
      WrittenWhole(e, s, i);
    } else {
      if s.t[i].pc == SetWrite {
        AtSetWrite(e, s, i);
      }
      NothingWritten(e, s, i);
    }
  }

  lemma WrittenWhole(e: Env, s: State, i: nat)
    requires Shaped(e, s) && i < e.n && s.t[i].pc == Write && s.part == 0 && s.t[i].block == s.w
    requires s.output + e.code(s.w) == Concat(e.code, s.w + 1) + e.code(s.w + 1)[..0]
    ensures Output(e, Go(e, s, i))
  {
    hide Concat;
  }

  lemma NothingWritten(e: Env, s: State, i: nat)
    requires Shaped(e, s) && Output(e, s) && i < e.n && CanGo(e, s, i) && s.t[i].pc != Write
    requires s.writer < e.n && (s.t[i].pc == SetWrite ==> s.writer == i)
    ensures Output(e, Go(e, s, i))
  {
    hide Concat;
  }

  lemma AtSetWrite(e: Env, s: State, i: nat)
    requires Shaped(e, s) && i < e.n && WriteInv(e, s, i) && s.t[i].pc == SetWrite
    ensures s.writer == i && s.wi == Next(e.n, i)
  {
  }

  lemma WholeBlock(e: Env, s: State, i: nat)
    requires Shaped(e, s) && Counts(e, s) && Output(e, s) && i < e.n && BlockInv(e, s, i) && s.t[i].pc == Write && s.writer == i == s.wi
    ensures s.part == 0 && s.t[i].block == s.w && s.output + e.code(s.w) == Concat(e.code, s.w + 1) + e.code(s.w + 1)[..0]
  {
    assert e.code(s.w)[..0] == [] && e.code(s.w + 1)[..0] == [];
    assert s.output == Concat(e.code, s.w);
  }

  lemma GoInv(e: Env, s: State, i: nat)
    requires Inv(e, s) && i < e.n && CanGo(e, s, i)
    ensures Inv(e, Go(e, s, i))
  {
    hide ReadInv, WriteInv, BlockInv, Counts, Output, Go;
    var s' := Go(e, s, i);
    Shape(e, s, i);
    WriterExists(e, s);
    GoCounts(e, s, i);
    GoOutput(e, s, i);
    forall j: nat | j < e.n ensures ReadInv(e, s', j) {
      GoRead(e, s, i, j);
    }
    forall j: nat | j < e.n ensures WriteInv(e, s', j) {
      GoWrite(e, s, i, j);
    }
    forall j: nat | j < e.n ensures BlockInv(e, s', j) {
      GoBlock(e, s, i, j);
    }
  }

  lemma Shape(e: Env, s: State, i: nat)
    requires Shaped(e, s) && i < e.n && CanGo(e, s, i)
    ensures Shaped(e, Go(e, s, i))
  {
  }

  lemma WriterExists(e: Env, s: State)
    requires Counts(e, s)
    ensures s.writer < e.n
  {
  }

  // ---------- Failures ----------

  lemma StumbleInv(e: Env, s: State, i: nat, k: nat)
    requires Inv(e, s) && i < e.n && MayFail(s.t[i].pc) && (s.t[i].pc == Write ==> k <= |e.code(s.t[i].block)|)
    ensures Inv(e, Stumble(e, s, i, k))
  {
    hide ReadInv, WriteInv, BlockInv, Counts, Output, Stumble;
    var s' := Stumble(e, s, i, k);
    WriterExists(e, s);
    StumbleOutput(e, s, i, k);
    forall j: nat | j < e.n ensures ReadInv(e, s', j) && WriteInv(e, s', j) && BlockInv(e, s', j) {
      StumbleThread(e, s, i, k, j);
    }
  }

  lemma StumbleThread(e: Env, s: State, i: nat, k: nat, j: nat)
    requires Shaped(e, s) && i < e.n && MayFail(s.t[i].pc) && (s.t[i].pc == Write ==> k <= |e.code(s.t[i].block)|)
    requires j < e.n && ReadInv(e, s, j) && WriteInv(e, s, j) && BlockInv(e, s, j)
    ensures var s' := Stumble(e, s, i, k); Shaped(e, s') && ReadInv(e, s', j) && WriteInv(e, s', j) && BlockInv(e, s', j)
  {
  }

  lemma StumbleOutput(e: Env, s: State, i: nat, k: nat)
    requires Shaped(e, s) && Counts(e, s) && Output(e, s) && i < e.n && WriteInv(e, s, i) && BlockInv(e, s, i)
    requires MayFail(s.t[i].pc) && (s.t[i].pc == Write ==> k <= |e.code(s.t[i].block)|)
    ensures var s' := Stumble(e, s, i, k); Shaped(e, s') && Counts(e, s') && Output(e, s')
  {
    hide WriteInv, BlockInv, Concat;
    if s.t[i].pc == Write {
      AtWrite(e, s, i);
      WholeBlock(e, s, i);
    }
  }

  // ---------- Every run ----------

  lemma StepInv(e: Env, s: State, s': State)
    requires Inv(e, s) && Step(e, s, s')
    ensures Inv(e, s')
  {
    hide Inv, Go, Stumble, StepOf;
    var i: nat :| StepOf(e, s, s', i);
    StepOfInv(e, s, s', i);
  }

  lemma StepOfInv(e: Env, s: State, s': State, i: nat)
    requires Inv(e, s) && StepOf(e, s, s', i)
    ensures Inv(e, s')
  {
    hide Go, Stumble, ReadInv, WriteInv, BlockInv, Counts, Output;
    if CanGo(e, s, i) && s' == Go(e, s, i) {
      GoInv(e, s, i);
    } else {
      var k: nat :| (s.t[i].pc == Write ==> k <= |e.code(s.t[i].block)|) && s' == Stumble(e, s, i, k);
      StumbleInv(e, s, i, k);
    }
  }

  lemma {:induction false} RunInv(e: Env, states: seq<State>)
    requires Run(e, states)
    ensures Inv(e, states[|states| - 1])
    decreases |states|
  {
    hide Inv, Init, Step;
    if |states| == 1 {
      InitInv(e, states[0]);
    } else {
      var before := states[..|states| - 1];
      assert forall j | 0 <= j < |before| - 1 :: Step(e, before[j], before[j + 1]);
      RunInv(e, before);
      StepInv(e, states[|states| - 2], states[|states| - 1]);
    }
  }

  /** In every interleaving, whatever fails and whenever, the output is a beginning of the coded
      blocks in the order in which they were read, each at most once. */
  lemma OutputInOrder(e: Env, states: seq<State>)
    requires Run(e, states)
    ensures var s := states[|states| - 1];
            s.w <= s.r && Concat(e.code, s.w) <= s.output <= Concat(e.code, s.w + 1)
  {
    hide Step, Init, ReadInv, WriteInv, BlockInv;
    RunInv(e, states);
    var s := states[|states| - 1];
    assert Concat(e.code, s.w + 1) == Concat(e.code, s.w) + e.code(s.w);
  }

  /** No two threads read at once, and no two write at once. */
  lemma OneAtATime(e: Env, states: seq<State>, i: nat, j: nat)
    requires Run(e, states) && i < e.n && j < e.n
    ensures var s := states[|states| - 1];
            Shaped(e, s) &&
            (s.t[i].pc == Read && s.t[j].pc == Read ==> i == j) &&
            (s.t[i].pc == Write && s.t[j].pc == Write ==> i == j)
  {
    hide Step, Init, BlockInv, Counts, Output;
    RunInv(e, states);
    var s := states[|states| - 1];
    assert ReadInv(e, s, i) && ReadInv(e, s, j) && WriteInv(e, s, i) && WriteInv(e, s, j);
  }

  /** When all threads have come to their end and none failed, all that was read is written. */
  lemma AllWritten(e: Env, states: seq<State>)
    requires Run(e, states)
    requires var s := states[|states| - 1]; |s.t| == e.n && forall i | 0 <= i < e.n :: s.t[i].pc == Ended
    ensures var s := states[|states| - 1];
            s.w == s.r && s.output == Concat(e.code, s.r)
  {
    hide Step, Init, ReadInv, WriteInv;
    RunInv(e, states);
    var s := states[|states| - 1];
    assert BlockInv(e, s, s.wi);
    assert e.code(s.w)[..0] == [];
  }
}

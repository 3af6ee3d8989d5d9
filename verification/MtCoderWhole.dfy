/** The thread ring codes the whole input: threads that end without error have read it up to the block that
    comes out short, and what they wrote is the input coded block by block. */
module MtCoderWhole {
  import opened Arith
  import opened Bytes
  import opened MtCoder
  import opened MtCoderEnds

  // ---------- Who ends the reading ----------

  /** The last block read was short. */
  ghost predicate AtLast(e: Env, s: State) {
    s.r > 0 && e.short(s.r - 1)
  }

  /** No block before the last one was short, and only a short block or a failure makes anybody stop. */
  ghost predicate Caused(e: Env, s: State) {
    Shaped(e, s) && (forall b: nat | b + 1 < s.r :: !e.short(b)) &&
    (AtLast(e, s) || (exists i: nat | i < e.n :: Failing(s.t[i].pc)) || forall i: nat | i < e.n :: !s.stopReading[i] && !Out(s.t[i]))
  }

  lemma StartCaused(e: Env, s: State)
    requires Init(e, s) && !s.stopReading[0]
    ensures Caused(e, s)
  {
  }

  lemma ReadCaused(e: Env, s: State, k: nat)
    requires Caused(e, s) && k < e.n && s.t[k].pc == Read && !AtLast(e, s)
    ensures Caused(e, Go(e, s, k))
  {
    var s' := Go(e, s, k);
    if i: nat :| i < e.n && Failing(s.t[i].pc) {
      assert Failing(s'.t[i].pc);
    }
  }

  lemma FailureStays(e: Env, s: State, k: nat, i: nat)
    requires Shaped(e, s) && k < e.n && CanGo(e, s, k) && i < e.n && Failing(s.t[i].pc)
    ensures var s' := Go(e, s, k); Shaped(e, s') && Failing(s'.t[i].pc)
  {
  }

  /** Where nobody was told to stop, only a read or a failure can bring it up. */
  lemma NobodyStops(e: Env, s: State, k: nat)
    requires Shaped(e, s) && k < e.n && CanGo(e, s, k) && s.t[k].pc != Read && !s.stopReading[k] && !Out(s.t[k])
    ensures var s' := Go(e, s, k);
      Shaped(e, s') && (Failing(s'.t[k].pc) || !Out(s'.t[k])) && (s'.stopReading == s.stopReading || s'.stopReading == s.stopReading[Next(e.n, k) := false])
  {
  }

  lemma GoCaused(e: Env, s: State, k: nat)
    requires Caused(e, s) && k < e.n && CanGo(e, s, k) && (s.t[k].pc == Read ==> !AtLast(e, s))
    ensures Caused(e, Go(e, s, k))
  {
    var s' := Go(e, s, k);
    GoRank(e, s, k);
    Shape(e, s, k);
    if s.t[k].pc == Read {
      ReadCaused(e, s, k);
    } else if i: nat :| i < e.n && Failing(s.t[i].pc) {
      FailureStays(e, s, k, i);
    } else if !AtLast(e, s) {
      NobodyStops(e, s, k);
      hide Go;
    }
  }

  lemma StumbleCaused(e: Env, s: State, k: nat, b: nat)
    requires Caused(e, s) && k < e.n && (s.t[k].pc == Write ==> b <= |e.code(s.t[k].block)|)
    ensures Caused(e, Stumble(e, s, k, b))
  {
    assert Failing(Stumble(e, s, k, b).t[k].pc);
  }

  lemma StepCaused(e: Env, s: State, s': State)
    requires Inv(e, s) && Closed(e, s) && Caused(e, s) && Step(e, s, s')
    ensures Inv(e, s') && Closed(e, s') && Caused(e, s')
  {
    hide Go, Stumble, Inv, Closed, Caused;
    StepInv(e, s, s');
    Parts(e, s);
    var k: nat :| StepOf(e, s, s', k);
    if CanGo(e, s, k) && s' == Go(e, s, k) {
      GoClosed(e, s, k);
      GoCaused(e, s, k);
    } else {
      var b: nat :| (s.t[k].pc == Write ==> b <= |e.code(s.t[k].block)|) && s' == Stumble(e, s, k, b);
      StumbleClosed(e, s, k, b);
      StumbleCaused(e, s, k, b);
    }
  }

  lemma {:induction false} RunCaused(e: Env, states: seq<State>)
    requires Run(e, states) && !states[0].stopReading[0]
    ensures var s := states[|states| - 1]; Inv(e, s) && Closed(e, s) && Caused(e, s)
    decreases |states|
  {
    hide Inv, Closed, Caused, Step;
    if |states| == 1 {
      StartCaused(e, states[0]);
      InitInv(e, states[0]);
      StartLeft(e, states[0], 0);
      assert Ending(e, states[0], 0);
    } else {
      var before := states[..|states| - 1];
      assert forall j | 0 <= j < |before| - 1 :: Step(e, before[j], before[j + 1]);
      RunCaused(e, before);
      StepCaused(e, states[|states| - 2], states[|states| - 1]);
    }
  }

  ghost predicate AllEnded(e: Env, s: State) {
    |s.t| == e.n > 0 && forall i | 0 <= i < e.n :: s.t[i].pc == Ended
  }

  /** Threads that could all be started and all ended without error have read up to the first short
      block, that one included, and have written all of it. */
  lemma ReadToTheEnd(e: Env, states: seq<State>)
    requires Run(e, states) && !states[0].stopReading[0] && AllEnded(e, states[|states| - 1])
    ensures var s := states[|states| - 1];
            s.r > 0 && e.short(s.r - 1) && (forall b: nat | b + 1 < s.r :: !e.short(b)) && s.output == Concat(e.code, s.r)
  {
    hide Step, Inv, Closed;
    RunCaused(e, states);
    AllWritten(e, states);
    assert Out(states[|states| - 1].t[0]);
  }

  // ---------- The input ----------

  function Upto(input: seq<byte>, size: nat, k: nat): (r: nat)
    ensures r <= |input|
  {
    if k * size <= |input| then k * size else |input|
  }

  /** What FullRead delivers for block k: size bytes, or fewer at the end of the input. */
  function Block(input: seq<byte>, size: nat, k: nat): seq<byte> {
    if Upto(input, size, k) <= Upto(input, size, k + 1) then input[Upto(input, size, k)..Upto(input, size, k + 1)] else []
  }

  /** A coder that is given a block and whether the input ends with it. */
  type Coder = (seq<byte>, bool) -> seq<byte>

  function EnvOf(n: nat, input: seq<byte>, size: nat, coder: Coder): Env {
    Env(n, (k: nat) => coder(Block(input, size, k), |Block(input, size, k)| != size), (k: nat) => |Block(input, size, k)| != size)
  }

  /** The input coded by one thread alone. */
  function Coded(input: seq<byte>, size: nat, coder: Coder): seq<byte>
    requires size > 0
    decreases |input|
  {
    if |input| < size then coder(input, true) else coder(input[..size], false) + Coded(input[size..], size, coder)
  }

  lemma BlockIs(input: seq<byte>, size: nat, k: nat)
    requires size > 0 && k * size <= |input|
    ensures var rest := input[k * size..]; Block(input, size, k) == if |rest| < size then rest else rest[..size]
    ensures (k + 1) * size == k * size + size
  {
    Distribute(k, 1, size);
  }

  /** As long as no block is short, what is coded block by block and the rest are the whole. */
  lemma {:induction false} CodedSoFar(n: nat, input: seq<byte>, size: nat, coder: Coder, k: nat)
    requires size > 0 && forall b: nat | b < k :: |Block(input, size, b)| == size
    ensures k * size <= |input| && Concat(EnvOf(n, input, size, coder).code, k) + Coded(input[k * size..], size, coder) == Coded(input, size, coder)
  {
    hide Block;
    if k == 0 {
      assert input[0..] == input;
    } else {
      var done := Concat(EnvOf(n, input, size, coder).code, k - 1);
      CodedSoFar(n, input, size, coder, k - 1);
      BlockIs(input, size, k - 1);
      assert |Block(input, size, k - 1)| == size;
      var rest := input[(k - 1) * size..];
      assert rest[size..] == input[k * size..];
      assert done + (coder(rest[..size], false) + Coded(rest[size..], size, coder)) == done + coder(rest[..size], false) + Coded(rest[size..], size, coder);
    }
  }

  /** In every interleaving: if the threads could be started and end without error, what they wrote is
      what one thread alone would have written. */
  lemma WholeInputCoded(n: nat, input: seq<byte>, size: nat, coder: Coder, states: seq<State>)
    requires size > 0
    requires var e := EnvOf(n, input, size, coder); Run(e, states) && !states[0].stopReading[0] && AllEnded(e, states[|states| - 1])
    ensures states[|states| - 1].output == Coded(input, size, coder)
  {
    hide Block, AllEnded, Init, Step;
    var e := EnvOf(n, input, size, coder);
    ReadToTheEnd(e, states);
    var k := states[|states| - 1].r - 1;
    forall b: nat | b < k
      ensures |Block(input, size, b)| == size
    {
      assert !e.short(b);
    }
    CodedSoFar(n, input, size, coder, k);
    BlockIs(input, size, k);
    assert e.short(k);
  }

  ghost predicate NoneFailed(n: nat, s: State) {
    |s.t| == n > 0 && forall i | 0 <= i < n :: !Failing(s.t[i].pc)
  }

  /** So every run that cannot go on, and in which no thread failed, has coded the whole input. */
  lemma CodedInTheEnd(n: nat, input: seq<byte>, size: nat, coder: Coder, states: seq<State>)
    requires size > 0
    requires var e := EnvOf(n, input, size, coder); RunFrom(e, states, n) && !states[0].stopReading[0] && Stuck(e, states[|states| - 1])
    requires NoneFailed(n, states[|states| - 1])
    ensures states[|states| - 1].output == Coded(input, size, coder)
  {
    hide Stuck, Init, Step, Block;
    var e, s := EnvOf(n, input, size, coder), states[|states| - 1];
    NoDeadlock(e, states, n);
    forall i | 0 <= i < n
      ensures s.t[i].pc == Ended
    {
      assert Done(s.t[i]) && !Failing(s.t[i].pc);
    }
    assert AllEnded(e, s);
    WholeInputCoded(n, input, size, coder, states);
  }
}

/** The guardian's loop: which frames it accepts and how far they put off the deadline. */
module GuardianLoop {

  // ---------- One round ----------

  const WINDOW_MS := 600
  const DRAIN := 32
  const RENEW := 1
  const RELEASE := 2

  /** A frame as the guardian checks it: genuine says that generation, epoch, token and the reserved
      field are as they should be. */
  datatype Frame = Frame(genuine: bool, sequence: nat, operation: nat)

  predicate Acceptable(f: Frame, last: nat) {
    f.genuine && f.sequence == last + 1 && (f.operation == RENEW || f.operation == RELEASE)
  }

  /** How many frames one round takes, with room for so many more. */
  function TakenFrom(frames: seq<Frame>, last: nat, room: nat): (n: nat)
    ensures n <= |frames| && n <= room
    decreases room
  {
    if room == 0 || frames == [] || !Acceptable(frames[0], last) then 0
    else if frames[0].operation == RELEASE then 1
    else 1 + TakenFrom(frames[1..], last + 1, room - 1)
  }

  lemma TakenStep(frames: seq<Frame>, last: nat, room: nat)
    ensures TakenFrom(frames, last, room) ==
            if room == 0 || frames == [] || !Acceptable(frames[0], last) then 0
            else if frames[0].operation == RELEASE then 1
            else 1 + TakenFrom(frames[1..], last + 1, room - 1)
  {
  }

  /** The round ends the session: a frame was refused, or released it, or there may be more of them. */
  predicate Stops(frames: seq<Frame>, n: nat)
    requires n <= |frames|
  {
    n < |frames| || n == DRAIN || (n > 0 && frames[n - 1].operation == RELEASE)
  }

  /** Frames that are taken are genuine and numbered on; all but the last renew. */
  lemma {:induction false} TakenIs(frames: seq<Frame>, last: nat, room: nat)
    ensures var n := TakenFrom(frames, last, room);
            (forall i | 0 <= i < n :: Acceptable(frames[i], last + i)) && (forall i | 0 <= i < n - 1 :: frames[i].operation == RENEW) &&
            (n < |frames| && n < room && (n == 0 || frames[n - 1].operation == RENEW) ==> !Acceptable(frames[n], last + n))
    decreases room
  {
    if room > 0 && frames != [] && Acceptable(frames[0], last) && frames[0].operation != RELEASE {
      var rest := frames[1..];
      TakenIs(rest, last + 1, room - 1);
      assert forall i | 1 <= i < |frames| :: frames[i] == rest[i - 1];
    }
  }

  /** What one round of the guardian reads: nothing more, or frames; at most 32 of them. */
  method Drain(frames: seq<Frame>, last: nat) returns (sequence: nat, valid: bool, stop: bool)
    ensures var n := TakenFrom(frames, last, DRAIN);
            sequence == last + n && (stop <==> Stops(frames, n)) && (!stop ==> (valid <==> n > 0))
  {
    hide TakenFrom;
    sequence, valid, stop := last, false, false;
    var i := 0;
    assert frames[0..] == frames;
    while i < DRAIN
      invariant 0 <= i <= DRAIN && i <= |frames| && sequence == last + i && !stop && (valid <==> i > 0) && i < DRAIN
      invariant TakenFrom(frames, last, DRAIN) == i + TakenFrom(frames[i..], last + i, DRAIN - i)
      invariant i > 0 ==> frames[i - 1].operation == RENEW
    {
      TakenStep(frames[i..], last + i, DRAIN - i);
      if i == |frames| {
        return;
      }
      var frame := frames[i];
      if !frame.genuine || frame.sequence != sequence + 1 || (frame.operation != RENEW && frame.operation != RELEASE) {
        stop := true;
        return;
      }
      sequence := frame.sequence;
      if frame.operation == RELEASE {
        stop := true;
        return;
      }
      valid := true;
      assert frames[i..][1..] == frames[i + 1..];
      i := i + 1;
      TakenStep(frames[i..], last + i, DRAIN - i);
      if i == DRAIN {
        stop := true;   // flooding cannot extend authority
        return;
      }
    }
  }

  /** One turn of the loop. It starts at a time; the peers are alive, or not; if the socket is ready its
      frames are read; then the clock is read, and again for a new deadline; the deadline is passed on, or not. */
  datatype Round = Round(start: int, alive: bool, ready: bool, frames: seq<Frame>, checked: int, renewed: int, forwarded: bool)

  /** When the session started, and how long it may last; 0 is no limit. */
  datatype Grant = Grant(started: int, temporaryMs: nat)

  datatype Session = Session(deadline: int, sequence: nat, open: bool)

  function Window(g: Grant, now: int): int {
    if g.temporaryMs > 0 && now + WINDOW_MS > g.started + g.temporaryMs then g.started + g.temporaryMs else now + WINDOW_MS
  }

  function Started(g: Grant): Session {
    Session(Window(g, g.started), 0, true)
  }

  predicate Enters(s: Session, r: Round) {
    s.open && r.alive && r.start < s.deadline
  }

  /** The frames that a round accepts. */
  function Accepts(s: Session, r: Round): (n: nat)
    ensures n <= |r.frames|
  {
    if Enters(s, r) && r.ready then TakenFrom(r.frames, s.sequence, DRAIN) else 0
  }

  /** The round gives the session a new deadline. */
  predicate Renews(s: Session, r: Round) {
    Enters(s, r) && r.ready && !Stops(r.frames, Accepts(s, r)) && r.checked < s.deadline && Accepts(s, r) > 0
  }

  function Turn(g: Grant, s: Session, r: Round): Session {
    if !Enters(s, r) then s.(open := false)
    else Session(if Renews(s, r) then Window(g, r.renewed) else s.deadline, s.sequence + Accepts(s, r),
                 r.forwarded && (!r.ready || (!Stops(r.frames, Accepts(s, r)) && r.checked < s.deadline)))
  }

  function After(g: Grant, s: Session, rounds: seq<Round>): Session
    decreases |rounds|
  {
    if rounds == [] then s else After(g, Turn(g, s, rounds[0]), rounds[1..])
  }

  function Accepted(g: Grant, s: Session, rounds: seq<Round>): seq<Frame>
    decreases |rounds|
  {
    if rounds == [] then [] else rounds[0].frames[..Accepts(s, rounds[0])] + Accepted(g, Turn(g, s, rounds[0]), rounds[1..])
  }

  /** One turn of the loop; the session goes on, or it was left. */
  method ServeRound(limited: bool, limit: int, deadline0: int, sequence0: nat, r: Round, ghost g: Grant)
    returns (deadline: int, sequence: nat, open: bool)
    requires limited == (g.temporaryMs > 0) && limit == g.started + g.temporaryMs
    ensures Session(deadline, sequence, open) == Turn(g, Session(deadline0, sequence0, true), r)
  {
    hide Turn, TakenFrom, Stops;
    deadline, sequence, open := deadline0, sequence0, false;
    TurnIs(g, Session(deadline, sequence, true), r);
    if r.start >= deadline || !r.alive {
      return;
    }
    if r.ready {
      var valid, stop;
      sequence, valid, stop := Drain(r.frames, sequence);
      if stop || r.checked >= deadline {
        return;
      }
      if valid {
        deadline := r.renewed + WINDOW_MS;
        if limited && deadline > limit {
          deadline := limit;
        }
      }
    }
    open := r.forwarded;
  }

  /** The loop. */
  method Serve(started: int, temporaryMs: nat, rounds: seq<Round>) returns (deadline: int, sequence: nat)
    ensures var g := Grant(started, temporaryMs);
            var end := After(g, Started(g), rounds);
            deadline == end.deadline && sequence == end.sequence
  {
    ghost var g := Grant(started, temporaryMs);
    var limited, limit := temporaryMs > 0, started + temporaryMs;
    deadline := started + WINDOW_MS;
    if limited && deadline > limit {
      deadline := limit;
    }
    sequence := 0;
    var k, open := 0, true;
    assert rounds[0..] == rounds;
    while k < |rounds| && open
      invariant 0 <= k <= |rounds|
      invariant After(g, Started(g), rounds) == After(g, Session(deadline, sequence, open), rounds[k..])
    {
      hide Turn, After;
      AfterOne(g, Session(deadline, sequence, open), rounds, k);
      deadline, sequence, open := ServeRound(limited, limit, deadline, sequence, rounds[k], g);
      k := k + 1;
    }
    ServedAll(g, Session(deadline, sequence, open), rounds[k..]);
  }

  lemma ServedAll(g: Grant, s: Session, rounds: seq<Round>)
    requires rounds == [] || !s.open
    ensures After(g, s, rounds) == s
  {
    if rounds != [] {
      ClosedStays(g, s, rounds);
    }
  }

  lemma AfterOne(g: Grant, s: Session, rounds: seq<Round>, k: nat)
    requires k < |rounds|
    ensures After(g, s, rounds[k..]) == After(g, Turn(g, s, rounds[k]), rounds[k + 1..])
  {
    assert rounds[k..][1..] == rounds[k + 1..];
  }

  lemma TurnIs(g: Grant, s: Session, r: Round)
    requires s.open
    ensures var t := Turn(g, s, r);
            var n := TakenFrom(r.frames, s.sequence, DRAIN);
            if !r.alive || r.start >= s.deadline then t == s.(open := false)
            else if !r.ready then t == s.(open := r.forwarded)
            else if Stops(r.frames, n) || r.checked >= s.deadline then t == Session(s.deadline, s.sequence + n, false)
            else t == Session(if n > 0 then Window(g, r.renewed) else s.deadline, s.sequence + n, r.forwarded)
  {
  }

  // ---------- What the loop keeps ----------

  /** After the end nothing is accepted and nothing renewed. */
  lemma {:induction false} ClosedStays(g: Grant, s: Session, rounds: seq<Round>)
    requires !s.open
    ensures After(g, s, rounds) == s && Accepted(g, s, rounds) == []
    decreases |rounds|
  {
    if rounds != [] {
      ClosedStays(g, s, rounds[1..]);
    }
  }

  lemma {:induction false} AfterMore(g: Grant, s: Session, before: seq<Round>, later: seq<Round>)
    ensures After(g, s, before + later) == After(g, After(g, s, before), later)
    ensures Accepted(g, s, before + later) == Accepted(g, s, before) + Accepted(g, After(g, s, before), later)
    decreases |before|
  {
    hide Turn;
    if before == [] {
      assert before + later == later;
    } else {
      assert (before + later)[1..] == before[1..] + later;
      AfterMore(g, Turn(g, s, before[0]), before[1..], later);
    }
  }

  /** Whatever arrives, in whatever rounds: the frames accepted are genuine and numbered 1, 2, 3, ...: none is
      accepted twice, left out or taken from another session. */
  lemma {:induction false} NumberedOn(g: Grant, s: Session, rounds: seq<Round>)
    ensures var a := Accepted(g, s, rounds);
            After(g, s, rounds).sequence == s.sequence + |a| &&
            forall i | 0 <= i < |a| :: a[i].genuine && a[i].sequence == s.sequence + 1 + i
    decreases |rounds|
  {
    hide TakenFrom, Stops;
    if rounds != [] {
      var n := Accepts(s, rounds[0]);
      TakenIs(rounds[0].frames, s.sequence, DRAIN);
      NumberedOn(g, Turn(g, s, rounds[0]), rounds[1..]);
      assert forall i | 0 <= i < n :: Acceptable(rounds[0].frames[i], s.sequence + i);
    }
  }

  /** A temporary grant is over at its limit, whatever frames arrive. */
  lemma {:induction false} NeverPastLimit(g: Grant, s: Session, rounds: seq<Round>)
    requires g.temporaryMs > 0 && s.deadline <= g.started + g.temporaryMs
    ensures After(g, s, rounds).deadline <= g.started + g.temporaryMs
    decreases |rounds|
  {
    hide Stops, Accepts, Enters;
    if rounds != [] {
      NeverPastLimit(g, Turn(g, s, rounds[0]), rounds[1..]);
    }
  }

  /** The deadline in force is the first one, or was given by the last round that renewed. */
  lemma {:induction false} LastRenewal(g: Grant, s: Session, rounds: seq<Round>)
    ensures var d := After(g, s, rounds).deadline;
            (d == s.deadline && forall k | 0 <= k < |rounds| :: !Renews(After(g, s, rounds[..k]), rounds[k])) ||
            (exists k | 0 <= k < |rounds| :: RenewedLast(g, s, rounds, k) && d == Window(g, rounds[k].renewed))
    decreases |rounds|
  {
    hide Renews, Window;
    if rounds != [] {
      var n := |rounds| - 1;
      var init, last := rounds[..n], rounds[n];
      assert rounds == init + [last];
      AfterMore(g, s, init, [last]);
      OneTurn(g, After(g, s, init), last);
      assert forall k | 0 <= k <= n :: rounds[..k] == init[..k];
      assert init[..n] == init;
      LastRenewal(g, s, init);
      if Renews(After(g, s, init), last) {
        assert RenewedLast(g, s, rounds, n);
      } else if k :| 0 <= k < n && RenewedLast(g, s, init, k) && After(g, s, init).deadline == Window(g, init[k].renewed) {
        assert RenewedLast(g, s, rounds, k) && rounds[k] == init[k];
      }
    }
  }

  /** Round k renewed, and no later one. */
  ghost predicate RenewedLast(g: Grant, s: Session, rounds: seq<Round>, k: nat)
    requires k < |rounds|
  {
    Renews(After(g, s, rounds[..k]), rounds[k]) && forall j | k < j < |rounds| :: !Renews(After(g, s, rounds[..j]), rounds[j])
  }

  lemma OneTurn(g: Grant, s: Session, r: Round)
    ensures After(g, s, [r]) == Turn(g, s, r)
    ensures Turn(g, s, r).deadline == if Renews(s, r) then Window(g, r.renewed) else s.deadline
  {
    assert [r][1..] == [];
  }

  /** A round renews only with at least one and fewer than 32 frames, all of them acceptable and none a release,
      before the deadline that it puts off. */
  lemma WhatRenews(s: Session, r: Round)
    requires Renews(s, r)
    ensures s.open && r.alive && r.start < s.deadline && r.checked < s.deadline && 0 < |r.frames| < DRAIN
    ensures forall i | 0 <= i < |r.frames| :: r.frames[i].genuine && r.frames[i].sequence == s.sequence + 1 + i && r.frames[i].operation == RENEW
  {
    hide TakenFrom;
    TakenIs(r.frames, s.sequence, DRAIN);
    forall i | 0 <= i < |r.frames|
      ensures r.frames[i].genuine && r.frames[i].sequence == s.sequence + 1 + i && r.frames[i].operation == RENEW
    {
      assert Acceptable(r.frames[i], s.sequence + i);
    }
  }

  /** Whoever is still served at some time was started, or renewed by a round of its own, less than 600 ms before, and
      has not reached the limit of a temporary grant. */
  lemma AuthorityEnds(g: Grant, rounds: seq<Round>, r: Round)
    requires Enters(After(g, Started(g), rounds), r)
    ensures g.temporaryMs > 0 ==> r.start < g.started + g.temporaryMs
    ensures r.start < g.started + WINDOW_MS ||
            exists k | 0 <= k < |rounds| :: Renews(After(g, Started(g), rounds[..k]), rounds[k]) && r.start < rounds[k].renewed + WINDOW_MS
  {
    hide Renews;
    LastRenewal(g, Started(g), rounds);
    if g.temporaryMs > 0 {
      NeverPastLimit(g, Started(g), rounds);
    }
    if k :| 0 <= k < |rounds| && RenewedLast(g, Started(g), rounds, k) && After(g, Started(g), rounds).deadline == Window(g, rounds[k].renewed) {
      assert Renews(After(g, Started(g), rounds[..k]), rounds[k]) && r.start < rounds[k].renewed + WINDOW_MS;
    }
  }

  /** A full drain ends the session and renews nothing. */
  lemma FloodEnds(g: Grant, s: Session, r: Round)
    requires Accepts(s, r) == DRAIN
    ensures !Turn(g, s, r).open && Turn(g, s, r).deadline == s.deadline
  {
    hide TakenFrom;
  }

  /** The clock does not go back. */
  ghost predicate Clocked(t: int, rounds: seq<Round>) {
    (forall k | 0 <= k < |rounds| :: t <= rounds[k].renewed) && forall j, k | 0 <= j < k < |rounds| :: rounds[j].renewed <= rounds[k].renewed
  }

  /** Deadlines never go back either: the watchdog, which takes an earlier one for a fault, always agrees. */
  lemma {:induction false} DeadlineRises(g: Grant, t: int, s: Session, rounds: seq<Round>)
    requires Clocked(t, rounds) && s.deadline <= Window(g, t)
    ensures s.deadline <= After(g, s, rounds).deadline
    decreases |rounds|
  {
    hide Renews, Enters, Accepts, Stops;
    if rounds != [] {
      var s' := Turn(g, s, rounds[0]);
      OneTurn(g, s, rounds[0]);
      DeadlineRises(g, rounds[0].renewed, s', rounds[1..]);
    }
  }

  // ---------- What a controller can rely on ----------

  /** When the session was started or last renewed. */
  function LastTime(g: Grant, s: Session, t: int, rounds: seq<Round>): int
    decreases |rounds|
  {
    if rounds == [] then t else LastTime(g, Turn(g, s, rounds[0]), if Renews(s, rounds[0]) then rounds[0].renewed else t, rounds[1..])
  }

  lemma {:induction false} DeadlineIs(g: Grant, s: Session, t: int, rounds: seq<Round>)
    requires s.deadline == Window(g, t)
    ensures After(g, s, rounds).deadline == Window(g, LastTime(g, s, t, rounds))
    decreases |rounds|
  {
    hide Renews, Window;
    if rounds != [] {
      OneTurn(g, s, rounds[0]);
      DeadlineIs(g, Turn(g, s, rounds[0]), if Renews(s, rounds[0]) then rounds[0].renewed else t, rounds[1..]);
    }
  }

  /** An open session is served for 600 ms from its start or its last renewal, up to the limit of a temporary grant, and
      no longer. */
  lemma ServedUntil(g: Grant, rounds: seq<Round>, r: Round)
    ensures var s, t := After(g, Started(g), rounds), LastTime(g, Started(g), g.started, rounds);
            Enters(s, r) <==> s.open && r.alive && r.start < t + 600 && (g.temporaryMs > 0 ==> r.start < g.started + g.temporaryMs)
  {
    DeadlineIs(g, Started(g), g.started, rounds);
  }

  /** Frames as a faithful controller sends them in one round: at least one and fewer than 32, renewing, numbered on. */
  predicate InOrder(frames: seq<Frame>, last: nat) {
    0 < |frames| < 32 && forall i | 0 <= i < |frames| :: frames[i] == Frame(true, last + 1 + i, 1)
  }

  /** In time: 600 ms after the last renewal at the latest, and before the limit. */
  predicate InTime(g: Grant, t: int, now: int) {
    now < t + 600 && (g.temporaryMs > 0 ==> now < g.started + g.temporaryMs)
  }

  /** Every round comes in time with frames in order, and nobody fails. */
  predicate Faithful(g: Grant, last: nat, t: int, rounds: seq<Round>)
    decreases |rounds|
  {
    rounds == [] ||
    (var r := rounds[0];
     r.alive && r.ready && r.forwarded && InTime(g, t, r.start) && InTime(g, t, r.checked) && InOrder(r.frames, last) &&
     Faithful(g, last + |r.frames|, r.renewed, rounds[1..]))
  }

  lemma {:induction false} AllTaken(frames: seq<Frame>, last: nat, room: nat)
    requires |frames| <= room && forall i | 0 <= i < |frames| :: frames[i] == Frame(true, last + 1 + i, 1)
    ensures TakenFrom(frames, last, room) == |frames|
    decreases room
  {
    if frames != [] {
      assert forall i | 0 <= i < |frames| - 1 :: frames[1..][i] == frames[i + 1];
      AllTaken(frames[1..], last + 1, room - 1);
    }
  }

  function Sent(rounds: seq<Round>): seq<Frame> {
    if rounds == [] then [] else rounds[0].frames + Sent(rounds[1..])
  }

  lemma FaithfulTurn(g: Grant, s: Session, t: int, r: Round)
    requires s.open && s.deadline == Window(g, t) && r.alive && r.ready && r.forwarded && InTime(g, t, r.start) && InTime(g, t, r.checked)
    requires InOrder(r.frames, s.sequence)
    ensures Accepts(s, r) == |r.frames| && Turn(g, s, r) == Session(Window(g, r.renewed), s.sequence + |r.frames|, true)
  {
    hide TakenFrom;
    AllTaken(r.frames, s.sequence, DRAIN);
  }

  /** Whoever keeps sending in time and in order is served on: every frame is accepted, every round renews. */
  lemma {:induction false} FaithfulIsServed(g: Grant, s: Session, t: int, rounds: seq<Round>)
    requires s.open && s.deadline == Window(g, t) && Faithful(g, s.sequence, t, rounds)
    ensures After(g, s, rounds).open && Accepted(g, s, rounds) == Sent(rounds) && After(g, s, rounds).sequence == s.sequence + |Sent(rounds)|
    ensures rounds != [] ==> After(g, s, rounds).deadline == Window(g, rounds[|rounds| - 1].renewed)
    decreases |rounds|
  {
    hide Turn, Accepts, Window;
    if rounds != [] {
      var r := rounds[0];
      FaithfulTurn(g, s, t, r);
      FaithfulIsServed(g, Turn(g, s, r), r.renewed, rounds[1..]);
      assert r.frames[..|r.frames|] == r.frames;
    }
  }
}

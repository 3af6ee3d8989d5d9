/** The handshake gets somewhere: as long as nobody fails or is killed, every run ends, and it ends with the provider
    entered and all three supervisors running. */
module GuardianLive {
  import opened Guardian

  /** A step of the handshake, not a failure, a death or a cleanup. */
  predicate Healthy(e: Event) {
    match e
    case ParentFails => false
    case GuardFails => false
    case WatchdogFails => false
    case ParentCleans => false
    case GuardCleans => false
    case WatchdogCleans => false
    case ParentKilled => false
    case GuardKilled => false
    case WatchdogKilled => false
    case ProviderDies => false
    case _ => true
  }

  // How far each process has come.

  function ParentStage(p: Parent): nat {
    match p
    case PWaits => 0
    case PGotData => 1
    case PHolds => 2
    case PSent => 3
    case _ => 4
  }

  function GuardStage(g: Guard): nat {
    match g
    case GForked => 0
    case GWaits => 1
    case GGotData => 2
    case GHolds => 3
    case GSentData => 4
    case GGranted => 5
    case _ => 6
  }

  function WatchdogStage(w: Watchdog): nat {
    match w
    case WWaits => 0
    case WGranted => 1
    case WForked => 2
    case WStored => 3
    case WHolds => 4
    case WSentGo => 5
    case WReady => 6
    case WSentData => 7
    case WActivating => 8
    case _ => 9
  }

  function ProviderStage(c: Provider): nat {
    match c
    case NotForked => 0
    case CWaits => 0
    case CIsolated => 1
    case CReady => 2
    case _ => 3
  }

  const STEPS := 23

  function Progress(s: State): nat {
    ParentStage(s.parent) + GuardStage(s.guard) + WatchdogStage(s.watchdog) + ProviderStage(s.provider) + if s.confirmed then 1 else 0
  }

  // Nobody has stopped, and every message is sent once its sender has come that far.

  predicate ParentSide(p: Parent, anchored: bool) {
    p != PFailed && p != PGone && (anchored <==> ParentStage(p) >= 3)
  }

  predicate GuardSide(g: Guard, grant: bool, dataToParent: bool, activate: bool, confirmed: bool) {
    g != GFailed && g != GGone && (grant <==> GuardStage(g) >= 1) && (dataToParent <==> GuardStage(g) >= 4) &&
    (activate <==> GuardStage(g) >= 6) && (confirmed ==> GuardStage(g) >= 6)
  }

  predicate WatchdogSide(w: Watchdog, go: bool, dataToGuard: bool, enter: bool) {
    w != WFailed && w != WGone && (go <==> WatchdogStage(w) >= 5) && (dataToGuard <==> WatchdogStage(w) >= 7) && (enter <==> WatchdogStage(w) >= 9)
  }

  predicate ProviderSide(c: Provider, w: Watchdog, ready: bool) {
    c != CDead && (c != NotForked <==> WatchdogStage(w) >= 2) && (ready <==> ProviderStage(c) >= 2)
  }

  predicate Underway(s: State) {
    ParentSide(s.parent, s.anchored) && GuardSide(s.guard, s.grant, s.dataToParent, s.activate, s.confirmed) &&
    WatchdogSide(s.watchdog, s.go, s.dataToGuard, s.enter) && ProviderSide(s.provider, s.watchdog, s.ready)
  }

  predicate Finished(s: State) {
    s.provider == CActive && s.parent == PRuns && s.guard == GRuns && s.watchdog == WRuns && s.confirmed
  }

  lemma HealthyParent(s: State, e: Event)
    requires Underway(s) && Enabled(s, e) 
    requires (e == ParentReceives || e == ParentOpens || e == ParentAnchors || e == ParentConfirmed)
    ensures Underway(Apply(s, e)) && Progress(Apply(s, e)) == Progress(s) + 1
  {
    hide GuardSide, WatchdogSide, ProviderSide, GuardStage, WatchdogStage, ProviderStage;
  }

  lemma HealthyGuard(s: State, e: Event)
    requires Underway(s) && Enabled(s, e)
    requires e == GuardGrants || e == GuardReceives || e == GuardOpens || e == GuardSends || e == GuardAnchored || e == GuardActivates || e == GuardConfirms
    ensures Underway(Apply(s, e)) && Progress(Apply(s, e)) == Progress(s) + 1
  {
    hide ParentSide, WatchdogSide, ProviderSide, ParentStage, WatchdogStage, ProviderStage;
  }

  lemma HealthyFork(s: State, e: Event)
    requires Underway(s) && Enabled(s, e)
    requires e == WatchdogGranted || e == WatchdogForks
    ensures Underway(Apply(s, e)) && Progress(Apply(s, e)) == Progress(s) + 1
  {
    hide ParentSide, GuardSide, ParentStage, GuardStage;
  }

  lemma HealthyAnchor(s: State, e: Event)
    requires Underway(s) && Enabled(s, e)
    requires e == WatchdogStores || e == WatchdogOpens || e == WatchdogGo
    ensures Underway(Apply(s, e)) && Progress(Apply(s, e)) == Progress(s) + 1
  {
    hide ParentSide, GuardSide, ParentStage, GuardStage, ProviderStage;
  }

  lemma HealthyWatchdog(s: State, e: Event)
    requires Underway(s) && Enabled(s, e)
    requires e == WatchdogReady || e == WatchdogSends
    ensures Underway(Apply(s, e)) && Progress(Apply(s, e)) == Progress(s) + 1
  {
    hide ParentSide, GuardSide, ParentStage, GuardStage, ProviderStage;
  }

  lemma HealthyEntry(s: State, e: Event)
    requires Underway(s) && Enabled(s, e)
    requires e == WatchdogActivated || e == WatchdogEnters
    ensures Underway(Apply(s, e)) && Progress(Apply(s, e)) == Progress(s) + 1
  {
    hide ParentSide, GuardSide, ParentStage, GuardStage, ProviderStage;
  }

  lemma HealthyProvider(s: State, e: Event)
    requires Underway(s) && Enabled(s, e)
    requires e == ProviderGoes || e == ProviderReady || e == ProviderEnters
    ensures Underway(Apply(s, e)) && Progress(Apply(s, e)) == Progress(s) + 1
  {
    hide ParentSide, GuardSide, ParentStage, GuardStage, WatchdogStage;
  }

  lemma HealthyStep(s: State, e: Event)
    requires Underway(s) && Enabled(s, e) && Healthy(e)
    ensures Underway(Apply(s, e)) && Progress(Apply(s, e)) == Progress(s) + 1
  {
    hide Underway, Enabled, Apply, Progress;
    match e
    case ParentReceives => HealthyParent(s, e);
    case ParentOpens => HealthyParent(s, e);
    case ParentAnchors => HealthyParent(s, e);
    case ParentConfirmed => HealthyParent(s, e);
    case GuardGrants => HealthyGuard(s, e);
    case GuardReceives => HealthyGuard(s, e);
    case GuardOpens => HealthyGuard(s, e);
    case GuardSends => HealthyGuard(s, e);
    case GuardAnchored => HealthyGuard(s, e);
    case GuardActivates => HealthyGuard(s, e);
    case GuardConfirms => HealthyGuard(s, e);
    case WatchdogGranted => HealthyFork(s, e);
    case WatchdogForks => HealthyFork(s, e);
    case WatchdogStores => HealthyAnchor(s, e);
    case WatchdogOpens => HealthyAnchor(s, e);
    case WatchdogGo => HealthyAnchor(s, e);
    case WatchdogReady => HealthyWatchdog(s, e);
    case WatchdogSends => HealthyWatchdog(s, e);
    case WatchdogActivated => HealthyEntry(s, e);
    case WatchdogEnters => HealthyEntry(s, e);
    case _ => HealthyProvider(s, e);
  }

  /** Somebody can always go on. */
  function NextStep(s: State): Event {
    if s.guard == GForked then GuardGrants
    else if s.watchdog == WWaits then WatchdogGranted
    else if s.watchdog == WGranted then WatchdogForks
    else if s.watchdog == WForked then WatchdogStores
    else if s.watchdog == WStored then WatchdogOpens
    else if s.watchdog == WHolds then WatchdogGo
    else if s.provider == CWaits then ProviderGoes
    else if s.provider == CIsolated then ProviderReady
    else if s.watchdog == WSentGo then WatchdogReady
    else if s.watchdog == WReady then WatchdogSends
    else if s.guard == GWaits then GuardReceives
    else if s.guard == GGotData then GuardOpens
    else if s.guard == GHolds then GuardSends
    else if s.parent == PWaits then ParentReceives
    else if s.parent == PGotData then ParentOpens
    else if s.parent == PHolds then ParentAnchors
    else if s.guard == GSentData then GuardAnchored
    else if s.guard == GGranted then GuardActivates
    else if s.watchdog == WSentData then WatchdogActivated
    else if s.watchdog == WActivating then WatchdogEnters
    else if s.provider == CReady then ProviderEnters
    else if !s.confirmed then GuardConfirms
    else ParentConfirmed
  }

  lemma GoesOn(s: State)
    requires Underway(s)
    ensures Finished(s) || (Healthy(NextStep(s)) && Enabled(s, NextStep(s)))
  {
  }

  predicate AllHealthy(events: seq<Event>) {
    forall i | 0 <= i < |events| :: Healthy(events[i])
  }

  lemma {:induction false} HealthyRun(s: State, events: seq<Event>)
    requires Underway(s) && Possible(s, events) && AllHealthy(events)
    ensures Underway(After(s, events)) && Progress(After(s, events)) == Progress(s) + |events|
    decreases |events|
  {
    hide Underway, Enabled, Apply, Progress, Healthy;
    if events != [] {
      HealthyStep(s, events[0]);
      HealthyRun(Apply(s, events[0]), events[1..]);
    }
  }

  /** Whatever the order of their steps: without a failure a run has at most 23 of them, and when nobody can take another
      one, the provider has been entered and parent, guardian and watchdog run. */
  lemma Activates(events: seq<Event>)
    requires Possible(START, events) && AllHealthy(events)
    ensures |events| <= STEPS
    ensures (forall e | Healthy(e) :: !Enabled(After(START, events), e)) <==> Finished(After(START, events))
    ensures Finished(After(START, events)) <==> |events| == STEPS
  {
    hide Enabled, Apply;
    HealthyRun(START, events);
    var s := After(START, events);
    GoesOn(s);
    if Finished(s) {
      forall e | Healthy(e)
        ensures !Enabled(s, e)
      {
        AtTheEnd(s, e);
      }
    }
    Farthest(s);
  }

  lemma AtTheEnd(s: State, e: Event)
    requires Underway(s) && Finished(s) && Healthy(e)
    ensures !Enabled(s, e)
  {
  }

  lemma Farthest(s: State)
    requires Underway(s)
    ensures Progress(s) <= STEPS && (Progress(s) == STEPS <==> Finished(s))
  {
  }
}

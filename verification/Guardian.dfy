/** The three supervisors of a provider: who may start it, and who may clean up its files. Parent,
    guardian, watchdog and provider run interleaved; each may fail or be killed at any moment. */
module Guardian {

  // Where each process is. Failed: it is on its way out and has its cleanup to do; Gone: it has
  // ended, or was killed without cleaning up.
  datatype Parent = PWaits | PGotData | PHolds | PSent | PRuns | PFailed | PGone
  datatype Guard = GForked | GWaits | GGotData | GHolds | GSentData | GGranted | GRuns | GFailed | GGone
  datatype Watchdog = WWaits | WGranted | WForked | WStored | WHolds | WSentGo | WReady | WSentData | WActivating | WRuns | WFailed | WGone
  datatype Provider = NotForked | CWaits | CIsolated | CReady | CActive | CDead

  /** The processes, the messages that were sent (each at most once), the shared identity of the
      provider, the descriptors held, and whether somebody has removed the owned files. */
  datatype State = State(
    parent: Parent, guard: Guard, watchdog: Watchdog, provider: Provider,
    grant: bool,        // guardian to watchdog: 1
    go: bool,           // watchdog to provider: 1
    ready: bool,        // provider to watchdog: 1
    dataToGuard: bool,  // watchdog to guardian: the provider's identity
    dataToParent: bool, // guardian to parent: the provider's identity
    anchored: bool,     // parent to guardian: 2
    activate: bool,     // guardian to watchdog: 2
    enter: bool,        // watchdog to provider: 2
    confirmed: bool,    // guardian to parent: 1
    stored: bool,       // the shared identity is set
    parentFd: bool, guardFd: bool, watchdogFd: bool,
    cleaned: bool)

  const START := State(PWaits, GForked, WWaits, NotForked, false, false, false, false, false, false, false, false, false, false,
                       false, false, false, false)

  datatype Event =
    | ParentReceives | ParentOpens | ParentAnchors | ParentConfirmed | ParentFails | ParentCleans
    | GuardGrants | GuardReceives | GuardOpens | GuardSends | GuardAnchored | GuardActivates | GuardConfirms | GuardFails | GuardCleans
    | WatchdogGranted | WatchdogForks | WatchdogStores | WatchdogOpens | WatchdogGo | WatchdogReady | WatchdogSends
    | WatchdogActivated | WatchdogEnters | WatchdogFails | WatchdogCleans
    | ProviderGoes | ProviderReady | ProviderEnters
    | ParentKilled | GuardKilled | WatchdogKilled | ProviderDies

  /** The provider was killed and its exit was observed. */
  predicate Exited(s: State) {
    s.provider == CDead
  }

  // Cleanup waits for the observed exit of the provider, unless the one who cleans up knows of none:
  // the parent while it holds no descriptor of it, the guardian while its identity is not stored,
  // the watchdog before it forked it.

  predicate Enabled(s: State, e: Event) {
    match e
    case ParentReceives => s.parent == PWaits && s.dataToParent
    case ParentOpens => s.parent == PGotData
    case ParentAnchors => s.parent == PHolds
    case ParentConfirmed => s.parent == PSent && s.confirmed
    case ParentFails => s.parent != PRuns && s.parent != PFailed && s.parent != PGone
    case ParentCleans => s.parent == PFailed && (!s.parentFd || Exited(s))
    case GuardGrants => s.guard == GForked
    case GuardReceives => s.guard == GWaits && s.dataToGuard
    case GuardOpens => s.guard == GGotData
    case GuardSends => s.guard == GHolds
    case GuardAnchored => s.guard == GSentData && s.anchored
    case GuardActivates => s.guard == GGranted
    case GuardConfirms => s.guard == GRuns && !s.confirmed
    case GuardFails => s.guard != GFailed && s.guard != GGone
    case GuardCleans => s.guard == GFailed && (!s.stored || Exited(s))
    case WatchdogGranted => s.watchdog == WWaits && s.grant
    case WatchdogForks => s.watchdog == WGranted
    case WatchdogStores => s.watchdog == WForked
    case WatchdogOpens => s.watchdog == WStored
    case WatchdogGo => s.watchdog == WHolds
    case WatchdogReady => s.watchdog == WSentGo && s.ready
    case WatchdogSends => s.watchdog == WReady
    case WatchdogActivated => s.watchdog == WSentData && s.activate
    case WatchdogEnters => s.watchdog == WActivating
    case WatchdogFails => s.watchdog != WFailed && s.watchdog != WGone
    case WatchdogCleans => s.watchdog == WFailed && (s.provider == NotForked || Exited(s))
    case ProviderGoes => s.provider == CWaits && s.go
    case ProviderReady => s.provider == CIsolated
    case ProviderEnters => s.provider == CReady && s.enter
    case ParentKilled => true
    case GuardKilled => true
    case WatchdogKilled => true
    case ProviderDies => s.provider != NotForked
  }

  /** The steps in which owned files are removed. */
  predicate Cleans(e: Event) {
    e == ParentCleans || e == GuardCleans || e == WatchdogCleans
  }

  function Apply(s: State, e: Event): State
    requires Enabled(s, e)
  {
    Move(s, e).(cleaned := s.cleaned || Cleans(e))
  }

  function Move(s: State, e: Event): State {
    match e
    case ParentReceives => s.(parent := PGotData)
    case ParentOpens => s.(parent := PHolds, parentFd := true)
    case ParentAnchors => s.(parent := PSent, anchored := true)
    case ParentConfirmed => s.(parent := PRuns)
    case ParentFails => s.(parent := PFailed)
    case ParentCleans => s.(parent := PGone)
    case GuardGrants => s.(guard := GWaits, grant := true)
    case GuardReceives => s.(guard := GGotData)
    case GuardOpens => s.(guard := GHolds, guardFd := true)
    case GuardSends => s.(guard := GSentData, dataToParent := true)
    case GuardAnchored => s.(guard := GGranted)
    case GuardActivates => s.(guard := GRuns, activate := true)
    case GuardConfirms => s.(confirmed := true)
    case GuardFails => s.(guard := GFailed)
    case GuardCleans => s.(guard := GGone)
    case WatchdogGranted => s.(watchdog := WGranted)
    case WatchdogForks => s.(watchdog := WForked, provider := CWaits)
    case WatchdogStores => s.(watchdog := WStored, stored := true)
    case WatchdogOpens => s.(watchdog := WHolds, watchdogFd := true)
    case WatchdogGo => s.(watchdog := WSentGo, go := true)
    case WatchdogReady => s.(watchdog := WReady)
    case WatchdogSends => s.(watchdog := WSentData, dataToGuard := true)
    case WatchdogActivated => s.(watchdog := WActivating)
    case WatchdogEnters => s.(watchdog := WRuns, enter := true)
    case WatchdogFails => s.(watchdog := WFailed)
    case WatchdogCleans => s.(watchdog := WGone)
    case ProviderGoes => s.(provider := CIsolated)
    case ProviderReady => s.(provider := CReady, ready := true)
    case ProviderEnters => s.(provider := CActive)
    case ParentKilled => s.(parent := PGone)
    case GuardKilled => s.(guard := GGone)
    case WatchdogKilled => s.(watchdog := WGone)
    case ProviderDies => s.(provider := CDead)
  }

  // ---------- What every step keeps ----------

  predicate ParentStopped(s: State) {
    s.parent == PFailed || s.parent == PGone
  }

  predicate GuardStopped(s: State) {
    s.guard == GFailed || s.guard == GGone
  }

  predicate WatchdogStopped(s: State) {
    s.watchdog == WFailed || s.watchdog == WGone
  }

  predicate WatchdogHolding(w: Watchdog) {
    w == WHolds || w == WSentGo || w == WReady || w == WSentData || w == WActivating || w == WRuns
  }

  predicate GuardHolding(g: Guard) {
    g == GHolds || g == GSentData || g == GGranted || g == GRuns
  }

  predicate ParentHolding(p: Parent) {
    p == PHolds || p == PSent || p == PRuns
  }

  /** Every message and every descriptor has its cause. */
  predicate Causes(s: State) {
    (s.watchdog == WWaits || s.watchdog == WGranted ==> s.provider == NotForked) &&
    (s.provider == NotForked ==> !s.stored && (WatchdogStopped(s) || s.watchdog == WWaits || s.watchdog == WGranted)) &&
    (s.stored ==> s.provider != NotForked) &&
    (s.watchdog == WStored || WatchdogHolding(s.watchdog) ==> s.stored) &&
    (WatchdogHolding(s.watchdog) ==> s.watchdogFd) &&
    (s.watchdogFd ==> s.stored) &&
    (s.dataToGuard ==> s.watchdogFd) &&
    (s.guard == GGotData || GuardHolding(s.guard) ==> s.dataToGuard) &&
    (GuardHolding(s.guard) ==> s.guardFd) &&
    (s.guardFd ==> s.dataToGuard) &&
    (s.dataToParent ==> s.guardFd) &&
    (s.parent == PGotData || ParentHolding(s.parent) ==> s.dataToParent) &&
    (ParentHolding(s.parent) ==> s.parentFd) &&
    (s.parentFd ==> s.dataToParent) &&
    (s.anchored ==> s.parentFd) &&
    (s.guard == GGranted || s.guard == GRuns ==> s.anchored) &&
    (s.activate ==> s.anchored && s.guardFd) &&
    (s.watchdog == WActivating || s.watchdog == WRuns ==> s.activate) &&
    (s.enter ==> s.activate && s.watchdogFd) &&
    (s.provider == CActive ==> s.enter)
  }

  /** The provider is dead, or somebody on the way from the parent to it has stopped before passing
      on the right to enter. */
  predicate Barred(s: State) {
    s.provider == CDead ||
    (!s.enter &&
      (WatchdogStopped(s) || (!s.activate && (GuardStopped(s) || (!s.anchored && ParentStopped(s))))))
  }

  predicate Inv(s: State) {
    Causes(s) && (s.cleaned ==> Barred(s))
  }

  // Groups of steps, each proved by itself.

  predicate ParentBinds(e: Event) {
    e == ParentReceives || e == ParentOpens || e == ParentAnchors
  }

  predicate ParentEnds(e: Event) {
    e == ParentConfirmed || e == ParentFails || e == ParentCleans || e == ParentKilled
  }

  predicate GuardBinds(e: Event) {
    e == GuardGrants || e == GuardReceives || e == GuardOpens
  }

  predicate GuardAnchors(e: Event) {
    e == GuardSends || e == GuardAnchored || e == GuardActivates
  }

  predicate GuardEnds(e: Event) {
    e == GuardConfirms || e == GuardFails || e == GuardCleans || e == GuardKilled
  }

  predicate WatchdogStarts(e: Event) {
    e == WatchdogGranted || e == WatchdogForks || e == WatchdogStores
  }

  predicate WatchdogBinds(e: Event) {
    e == WatchdogOpens || e == WatchdogGo || e == WatchdogReady
  }

  predicate WatchdogPasses(e: Event) {
    e == WatchdogSends || e == WatchdogActivated || e == WatchdogEnters
  }

  predicate WatchdogEnds(e: Event) {
    e == WatchdogFails || e == WatchdogCleans || e == WatchdogKilled
  }

  predicate OfProvider(e: Event) {
    e == ProviderGoes || e == ProviderReady || e == ProviderEnters || e == ProviderDies
  }

  lemma ParentBindsStep(s: State, e: Event)
    requires Causes(s) && Enabled(s, e) && ParentBinds(e)
    ensures Causes(Apply(s, e))
  {
  }

  lemma ParentBindsBarred(s: State, e: Event)
    requires Causes(s) && Barred(s) && Enabled(s, e) && ParentBinds(e)
    ensures Barred(Apply(s, e))
  {
  }

  lemma ParentEndsStep(s: State, e: Event)
    requires Causes(s) && Enabled(s, e) && ParentEnds(e)
    ensures Causes(Apply(s, e))
  {
    match e
    case ParentConfirmed =>
    case ParentFails =>
    case ParentCleans =>
    case _ =>
  }

  lemma ParentEndsBarred(s: State, e: Event)
    requires Causes(s) && Barred(s) && Enabled(s, e) && ParentEnds(e)
    ensures Barred(Apply(s, e))
  {
  }

  lemma GuardBindsStep(s: State, e: Event)
    requires Causes(s) && Enabled(s, e) && GuardBinds(e)
    ensures Causes(Apply(s, e))
  {
  }

  lemma GuardBindsBarred(s: State, e: Event)
    requires Causes(s) && Barred(s) && Enabled(s, e) && GuardBinds(e)
    ensures Barred(Apply(s, e))
  {
  }

  lemma GuardAnchorsStep(s: State, e: Event)
    requires Causes(s) && Enabled(s, e) && GuardAnchors(e)
    ensures Causes(Apply(s, e))
  {
  }

  lemma GuardAnchorsBarred(s: State, e: Event)
    requires Causes(s) && Barred(s) && Enabled(s, e) && GuardAnchors(e)
    ensures Barred(Apply(s, e))
  {
  }

  lemma GuardEndsStep(s: State, e: Event)
    requires Causes(s) && Enabled(s, e) && GuardEnds(e)
    ensures Causes(Apply(s, e))
  {
    match e
    case GuardConfirms =>
    case GuardFails =>
    case GuardCleans =>
    case _ =>
  }

  lemma GuardEndsBarred(s: State, e: Event)
    requires Causes(s) && Barred(s) && Enabled(s, e) && GuardEnds(e)
    ensures Barred(Apply(s, e))
  {
  }

  lemma WatchdogStartsStep(s: State, e: Event)
    requires Causes(s) && Enabled(s, e) && WatchdogStarts(e)
    ensures Causes(Apply(s, e))
  {
    match e
    case WatchdogGranted =>
    case WatchdogForks =>
    case _ =>
  }

  lemma WatchdogStartsBarred(s: State, e: Event)
    requires Causes(s) && Barred(s) && Enabled(s, e) && WatchdogStarts(e)
    ensures Barred(Apply(s, e))
  {
  }

  lemma WatchdogBindsStep(s: State, e: Event)
    requires Causes(s) && Enabled(s, e) && WatchdogBinds(e)
    ensures Causes(Apply(s, e))
  {
  }

  lemma WatchdogBindsBarred(s: State, e: Event)
    requires Causes(s) && Barred(s) && Enabled(s, e) && WatchdogBinds(e)
    ensures Barred(Apply(s, e))
  {
  }

  lemma WatchdogPassesStep(s: State, e: Event)
    requires Causes(s) && Enabled(s, e) && WatchdogPasses(e)
    ensures Causes(Apply(s, e))
  {
  }

  lemma WatchdogPassesBarred(s: State, e: Event)
    requires Causes(s) && Barred(s) && Enabled(s, e) && WatchdogPasses(e)
    ensures Barred(Apply(s, e))
  {
  }

  lemma WatchdogEndsStep(s: State, e: Event)
    requires Causes(s) && Enabled(s, e) && WatchdogEnds(e)
    ensures Causes(Apply(s, e))
  {
    hide Apply, Enabled, Causes;
    if e.WatchdogFails? {
      WatchdogFailsStep(s, e);
    } else if e.WatchdogCleans? {
      WatchdogCleansStep(s, e);
    } else {
      WatchdogGoneStep(s, e);
    }
  }

  lemma WatchdogFailsStep(s: State, e: Event)
    requires Causes(s) && Enabled(s, e) && e.WatchdogFails?
    ensures Causes(Apply(s, e))
  {
  }

  lemma WatchdogCleansStep(s: State, e: Event)
    requires Causes(s) && Enabled(s, e) && e.WatchdogCleans?
    ensures Causes(Apply(s, e))
  {
  }

  lemma WatchdogGoneStep(s: State, e: Event)
    requires Causes(s) && Enabled(s, e) && WatchdogEnds(e) && !e.WatchdogFails? && !e.WatchdogCleans?
    ensures Causes(Apply(s, e))
  {
  }

  lemma WatchdogEndsBarred(s: State, e: Event)
    requires Causes(s) && Barred(s) && Enabled(s, e) && WatchdogEnds(e)
    ensures Barred(Apply(s, e))
  {
  }

  lemma OfProviderStep(s: State, e: Event)
    requires Causes(s) && Enabled(s, e) && OfProvider(e)
    ensures Causes(Apply(s, e))
  {
    match e
    case ProviderGoes =>
    case ProviderReady =>
    case ProviderEnters =>
    case _ =>
  }

  lemma OfProviderBarred(s: State, e: Event)
    requires Causes(s) && Barred(s) && Enabled(s, e) && OfProvider(e)
    ensures Barred(Apply(s, e))
  {
  }

  lemma EveryEvent(e: Event)
    ensures ParentBinds(e) || ParentEnds(e) || GuardBinds(e) || GuardAnchors(e) || GuardEnds(e) ||
            WatchdogStarts(e) || WatchdogBinds(e) || WatchdogPasses(e) || WatchdogEnds(e) || OfProvider(e)
  {
  }

  lemma BarredStep(s: State, e: Event)
    requires Causes(s) && Barred(s) && Enabled(s, e)
    ensures Barred(Apply(s, e))
  {
    hide Causes, Barred, Apply, Enabled;
    EveryEvent(e);
    if ParentBinds(e) {
      ParentBindsBarred(s, e);
    } else if ParentEnds(e) {
      ParentEndsBarred(s, e);
    } else if GuardBinds(e) {
      GuardBindsBarred(s, e);
    } else if GuardAnchors(e) {
      GuardAnchorsBarred(s, e);
    } else if GuardEnds(e) {
      GuardEndsBarred(s, e);
    } else if WatchdogStarts(e) {
      WatchdogStartsBarred(s, e);
    } else if WatchdogBinds(e) {
      WatchdogBindsBarred(s, e);
    } else if WatchdogPasses(e) {
      WatchdogPassesBarred(s, e);
    } else if WatchdogEnds(e) {
      WatchdogEndsBarred(s, e);
    } else {
      OfProviderBarred(s, e);
    }
  }

  /** Barred once is barred for ever. */
  lemma StepKeeps(s: State, e: Event)
    requires Causes(s) && Enabled(s, e)
    ensures Causes(Apply(s, e)) && (Barred(s) ==> Barred(Apply(s, e)))
  {
    hide Causes, Barred, Apply, Enabled;
    EveryEvent(e);
    if ParentBinds(e) {
      ParentBindsStep(s, e);
    } else if ParentEnds(e) {
      ParentEndsStep(s, e);
    } else if GuardBinds(e) {
      GuardBindsStep(s, e);
    } else if GuardAnchors(e) {
      GuardAnchorsStep(s, e);
    } else if GuardEnds(e) {
      GuardEndsStep(s, e);
    } else if WatchdogStarts(e) {
      WatchdogStartsStep(s, e);
    } else if WatchdogBinds(e) {
      WatchdogBindsStep(s, e);
    } else if WatchdogPasses(e) {
      WatchdogPassesStep(s, e);
    } else if WatchdogEnds(e) {
      WatchdogEndsStep(s, e);
    } else {
      OfProviderStep(s, e);
    }
    if Barred(s) {
      BarredStep(s, e);
    }
  }

  /** Who cleans up has waited for the exit, or bars the way by having stopped. */
  lemma CleaningBars(s: State, e: Event)
    requires Causes(s) && Enabled(s, e) && Cleans(e)
    ensures Barred(Apply(s, e))
  {
  }

  // ---------- Every run ----------

  function After(s: State, events: seq<Event>): State
    requires Possible(s, events)
    decreases |events|
  {
    if events == [] then s else After(Apply(s, events[0]), events[1..])
  }

  predicate Possible(s: State, events: seq<Event>)
    decreases |events|
  {
    events == [] || (Enabled(s, events[0]) && Possible(Apply(s, events[0]), events[1..]))
  }

  lemma {:induction false} RunKeeps(s: State, events: seq<Event>)
    requires Inv(s) && Possible(s, events)
    ensures Inv(After(s, events))
    decreases |events|
  {
    hide Causes, Barred, Enabled, Apply;
    if events != [] {
      StepKeeps(s, events[0]);
      CleanedBy(s, events[0]);
      if Cleans(events[0]) {
        CleaningBars(s, events[0]);
      }
      RunKeeps(Apply(s, events[0]), events[1..]);
    }
  }

  lemma CleanedBy(s: State, e: Event)
    requires Enabled(s, e)
    ensures Apply(s, e).cleaned <==> s.cleaned || Cleans(e)
  {
    hide Move;
  }

  /** In every run the provider's callback is entered only when parent, guardian and watchdog have
      each opened their own descriptor of it. */
  lemma EnteredUnderThree(events: seq<Event>)
    requires Possible(START, events)
    ensures var s := After(START, events);
            s.provider == CActive ==> s.parentFd && s.guardFd && s.watchdogFd
  {
    RunKeeps(START, events);
  }

  lemma {:induction false} AfterBoth(s: State, before: seq<Event>, later: seq<Event>)
    requires Possible(s, before + later)
    ensures Possible(s, before) && Possible(After(s, before), later) && After(s, before + later) == After(After(s, before), later)
    decreases |before|
  {
    hide Enabled, Apply;
    if before == [] {
      assert before + later == later;
    } else {
      assert (before + later)[1..] == before[1..] + later;
      AfterBoth(Apply(s, before[0]), before[1..], later);
    }
  }

  lemma {:induction false} CleanedStays(s: State, events: seq<Event>)
    requires Possible(s, events) && s.cleaned
    ensures After(s, events).cleaned
    decreases |events|
  {
    hide Apply, Enabled;
    if events != [] {
      CleanedBy(s, events[0]);
      CleanedStays(Apply(s, events[0]), events[1..]);
    }
  }

  /** Files are only removed after the exit of the provider was observed, or when it can no longer
      be entered: whatever follows, a provider is never active over removed files. */
  lemma NeverActiveAfterCleanup(before: seq<Event>, later: seq<Event>)
    requires Possible(START, before + later)
    ensures Possible(START, before) && (After(START, before).cleaned ==> After(START, before + later).provider != CActive)
  {
    hide Apply, Enabled;
    AfterBoth(START, before, later);
    if After(START, before).cleaned {
      CleanedStays(After(START, before), later);
      RunKeeps(START, before + later);
      BarredIsIdle(After(START, before + later));
    }
  }

  lemma BarredIsIdle(s: State)
    requires Inv(s) && s.cleaned
    ensures s.provider != CActive
  {
  }
}

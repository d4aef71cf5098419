/** What holds over every run of the generation and session protocol. */
module SessionTheorems {
  import opened Wrappers
  import opened Profiles
  import opened ServiceCore
  import opened SessionProtocol
  import opened SessionInvariant

  lemma {:induction false} RunHolds(states: seq<State>, events: seq<Event>, i: nat)
    requires Run(states, events) && i < |states|
    ensures Inv(states[i])
  {
    hide Inv, Apply, Enabled;
    if i == 0 {
      var config :| UniqueIds(config) && states[0] == Start(config);
      StartHolds(config);
    } else {
      RunHolds(states, events, i - 1);
      StepKeeps(states[i - 1], events[i - 1]);
    }
  }

  // ---- leases ----

  ghost predicate HoldsLease(s: State, o: nat, lease: Lease) {
    o in s.operations && s.operations[o].phase == Leased(lease)
  }

  /**
   Whichever way `session_for` hands out a lease - a cache hit, a fresh install or a lost race - the lease
   is for the profile published at that moment under that generation, and holds a cached, open handle
   that was connected with exactly that profile's fingerprint.
   */
  lemma LeaseMatchesPublishedProfile(states: seq<State>, events: seq<Event>, i: nat, o: nat, lease: Lease)
    requires Run(states, events) && i < |events|
    requires !HoldsLease(states[i], o, lease) && HoldsLease(states[i + 1], o, lease)
    ensures !states[i].core.uncertain
    ensures Find(states[i].core.observed.config, lease.profileId) == Some(lease.profile)
    ensures lease.profileId in states[i].core.observed.generations
    ensures states[i].core.observed.generations[lease.profileId] == lease.identity.profileGeneration
    ensures lease.handle in states[i + 1].openedWith
    ensures states[i + 1].openedWith[lease.handle] == FingerprintOf(lease.profile)
    ensures lease.profileId in states[i + 1].core.sessions
    ensures states[i + 1].core.sessions[lease.profileId].Identity() == lease.identity
    ensures states[i + 1].core.sessions[lease.profileId].handle == lease.handle
    ensures lease.handle !in states[i + 1].taken && lease.handle !in states[i + 1].closes
    ensures lease.handle !in states[i + 1].drops
  {
    RunHolds(states, events, i);
    RunHolds(states, events, i + 1);
    LeaseStep(states[i], events[i], o, lease);
  }

  lemma LeaseStep(s: State, e: Event, o: nat, lease: Lease)
    requires Inv(s) && Enabled(s, e) && Inv(Apply(s, e))
    requires !HoldsLease(s, o, lease) && HoldsLease(Apply(s, e), o, lease)
    ensures !s.core.uncertain && IsCurrent(s.core, lease.profile, lease.identity.profileGeneration)
    ensures Find(s.core.observed.config, lease.profile.id) == Some(lease.profile)
    ensures lease.profileId == lease.profile.id
    ensures lease.handle in Apply(s, e).openedWith
    ensures Apply(s, e).openedWith[lease.handle] == FingerprintOf(lease.profile)
    ensures var t := Apply(s, e);
            && lease.profileId in t.core.sessions
            && t.core.sessions[lease.profileId].Identity() == lease.identity
            && t.core.sessions[lease.profileId].handle == lease.handle
            && lease.handle !in t.taken && lease.handle !in t.closes && lease.handle !in t.drops
  {
    hide NamedOk, NamingsOf, PlanOk, FencesOk, CapturesOk, ReadsOk, LaneOk, SessionsOk;
    var t := Apply(s, e);
    assert LeaseOk(lease, t.openedWith, t.owner) by {
      hide HandlesOk, ObservedOk;
      assert PhaseOk(t.operations[o], t.openedWith, t.owner, t.core.nextSession);
    }
    hide PhasesOk;
    LeaseComesFrom(s, e, o, lease);
    FindMeaning(s.core.observed.config, lease.profile.id);
    assert t.place[t.core.sessions[lease.profileId].handle] == Cached(lease.profileId);
  }

  ghost predicate LeasedFromCache(core: Core, after: Core, lease: Lease) {
    !core.uncertain && IsCurrent(core, lease.profile, lease.identity.profileGeneration)
    && lease.profileId == lease.profile.id && lease.profileId in after.sessions
    && after.sessions[lease.profileId].Identity() == lease.identity
    && after.sessions[lease.profileId].handle == lease.handle
  }

  lemma CheckLeases(s: State, p: nat, o: nat, lease: Lease)
    requires Enabled(s, Check(p)) && !HoldsLease(s, o, lease) && HoldsLease(CheckStep(s, p), o, lease)
    ensures p == o && LeasedFromCache(s.core, CheckStep(s, p).core, lease)
  {
    hide FingerprintOf, Find;
  }

  lemma InstallLeases(s: State, p: nat, o: nat, lease: Lease)
    requires Enabled(s, InstallOrClose(p)) && !HoldsLease(s, o, lease) && HoldsLease(InstallStep(s, p), o, lease)
    ensures p == o && LeasedFromCache(s.core, InstallStep(s, p).core, lease)
  {
    hide FingerprintOf, Find;
  }

  /** Only the two locked sections of `session_for` put an operation into the leased phase. */
  lemma LeaseComesFrom(s: State, e: Event, o: nat, lease: Lease)
    requires Enabled(s, e)
    requires !HoldsLease(s, o, lease) && HoldsLease(Apply(s, e), o, lease)
    ensures e == Check(o) || e == InstallOrClose(o)
    ensures LeasedFromCache(s.core, Apply(s, e).core, lease)
  {
    hide CheckStep, InstallStep, LeasedFromCache;
    match e {
      case Check(p) => CheckLeases(s, p, o, lease);
      case InstallOrClose(p) => InstallLeases(s, p, o, lease);
      case _ => NoNewLease(s, e, o);
    }
  }

  lemma NoNewLease(s: State, e: Event, o: nat)
    requires Enabled(s, e) && !e.Check? && !e.InstallOrClose?
    ensures forall lease :: HoldsLease(Apply(s, e), o, lease) ==> HoldsLease(s, o, lease)
  {
    hide MutationStep, PublishStep, BumpStep, PlanWith, MarkStep, EvictStep, ResolveStep, ShutdownStep, Find;
    if IsTaskEvent(e) {
      hide FingerprintOf, Observation;
    } else {
      OperationsStay(s, e);
      hide Apply, Enabled;
    }
  }

  predicate IsTaskEvent(e: Event) {
    e.Begin? || e.Check? || e.Allocate? || e.Connect? || e.Abort? || e.InstallOrClose? || e.Observe? || e.Drop?
  }

  lemma OperationsStay(s: State, e: Event)
    requires Enabled(s, e) && !IsTaskEvent(e)
    ensures Apply(s, e).operations == s.operations
  {
    hide EvictStep, ResolveStep, MutationStep, PublishStep, BumpStep, ShutdownStep, ReloadPlan;
    match e {
      case Evict(id, generation, session) => EvictStays(s, id, generation, session);
      case Resolve(issued, allowRetag) => ResolveStays(s, issued.fence, allowRetag);
      case PlanMutation(config, identity) => MutationStays(s, config, identity);
      case BumpAll(order) => assert BumpStep(s, order).operations == s.operations by { LaneStays(s, order); }
      case PublishPlan => LaneStays(s, []);
      case Shutdown => LaneStays(s, []);
      case _ =>
    }
  }

  lemma LaneStays(s: State, order: seq<ProfileId>)
    ensures BumpStep(s, order).operations == s.operations && ShutdownStep(s).operations == s.operations
    ensures s.lane.Planned? ==> PublishStep(s).operations == s.operations
    ensures ShutdownStep(s).core.observed == s.core.observed
  {
    hide NamingsOf, CapturesOf, Bump, BumpTargets, CachedHandles, Publish;
  }

  lemma MutationStays(s: State, config: seq<ConnectionProfile>, identity: MutationIdentity)
    ensures MutationStep(s, config, identity).operations == s.operations
    ensures MutationStep(s, config, identity).core.observed == s.core.observed
  {
    hide ReconcilePlan, IssuedBy, CapturesOf;
  }

  lemma EvictStays(s: State, id: ProfileId, generation: nat, session: nat)
    ensures EvictStep(s, id, generation, session).operations == s.operations
    ensures EvictStep(s, id, generation, session).core.observed == s.core.observed
  {
  }

  lemma ResolveStays(s: State, fence: Fence, allowRetag: bool)
    ensures ResolveStep(s, fence, allowRetag).operations == s.operations
    ensures ResolveStep(s, fence, allowRetag).core.observed == s.core.observed
  {
    hide EvictStep;
    EvictStays(s, fence.profileId, fence.previous.profileGeneration, fence.previous.sessionGeneration);
  }

  /** The task that marked an episode is dropped before it gives new numbers. */
  ghost predicate Tears(s: State, e: Event) {
    e.DropLane? && s.lane.Marked?
  }

  /** Nothing else tears an episode. */
  lemma TornByStep(s: State, e: Event)
    requires Enabled(s, e) && !Tears(s, e)
    ensures Apply(s, e).torn == s.torn
  {
    if IsTaskEvent(e) {
      TornByTask(s, e);
    } else {
      TornByService(s, e);
    }
  }

  lemma TornByTask(s: State, e: Event)
    requires Enabled(s, e) && IsTaskEvent(e)
    ensures Apply(s, e).torn == s.torn
  {
    hide Bump, BumpTargets, Publish, Find, CheckCache, Install, Observation, FingerprintOf, MutationStep, PublishStep,
         BumpStep, PlanWith, EvictStep, ResolveStep, ShutdownStep;
  }

  lemma TornByService(s: State, e: Event)
    requires Enabled(s, e) && !IsTaskEvent(e) && !Tears(s, e)
    ensures Apply(s, e).torn == s.torn
  {
    hide NamingsOf, CapturesOf, IssuedBy, Bump, BumpTargets, Publish, Find, ReconcilePlan, ReloadPlan, TakeExact,
         RetagExact, CachedHandles, CheckStep, InstallStep, ConnectStep, ObserveStep, DropStep;
  }

  /** However long a lease is kept, its handle stays the one connected for its profile and generation. */
  lemma LeaseStaysNamed(states: seq<State>, events: seq<Event>, i: nat, o: nat, lease: Lease)
    requires Run(states, events) && i < |states| && HoldsLease(states[i], o, lease)
    ensures lease.handle in states[i].openedWith
    ensures states[i].openedWith[lease.handle] == FingerprintOf(lease.profile)
    ensures Naming(lease.identity.profileGeneration, lease.profileId, Some(lease.profile)) in states[i].named
  {
    RunHolds(states, events, i);
    hide ObservedOk, NamedOk, NamingsOf, PlanOk, FencesOk, CapturesOk, LaneOk, SessionsOk, HandlesOk;
    var s := states[i];
    assert PhaseOk(s.operations[o], s.openedWith, s.owner, s.core.nextSession);
  }

  // ---- the closing observation ----

  predicate SameRead(op: Operation, later: Operation) {
    later.profile == op.profile && later.generation == op.generation
    && later.readAt == op.readAt && later.episodesAtRead == op.episodesAtRead
  }

  ghost predicate Keeps(s: State, t: State) {
    s.history <= t.history && s.episodes <= t.episodes && s.torn <= t.torn && s.named <= t.named && s.closes <= t.closes
    && s.drops <= t.drops
    && forall o | o in s.operations :: o in t.operations && SameRead(s.operations[o], t.operations[o])
  }

  lemma {:induction false} HistoryGrows(states: seq<State>, events: seq<Event>, i: nat, j: nat)
    requires Run(states, events) && i <= j < |states|
    ensures Keeps(states[i], states[j])
  {
    hide Keeps, Start, Apply, Enabled, Run;
    RunLength(states, events);
    if i < j {
      HistoryGrows(states, events, i, j - 1);
      Stepped(states, events, j - 1);
      HistoryStep(states[j - 1], events[j - 1]);
      KeepsTransitive(states[i], states[j - 1], states[j]);
    } else {
      KeepsItself(states[i]);
    }
  }

  lemma RunLength(states: seq<State>, events: seq<Event>)
    requires Run(states, events)
    ensures |states| == |events| + 1
  {
    hide Start, Apply, Enabled;
  }

  lemma KeepsItself(s: State)
    ensures Keeps(s, s)
  {
  }

  lemma KeepsTransitive(s: State, t: State, u: State)
    requires Keeps(s, t) && Keeps(t, u)
    ensures Keeps(s, u)
  {
  }

  lemma PhaseHistory(s: State, o: nat, phase: Phase, core: Core, place: map<Handle, Place>)
    requires o in s.operations
    ensures Keeps(s, SetPhase(s.(core := core, place := place), o, phase))
  {
  }

  lemma TakeHistory(s: State, h: Option<Handle>)
    ensures Keeps(s, TakeIf(s, h))
  {
  }

  lemma CheckHistory(s: State, o: nat)
    requires o in s.operations
    ensures Keeps(s, CheckStep(s, o))
  {
    hide CheckCache;
  }

  lemma InstallHistory(s: State, o: nat)
    requires o in s.operations && s.operations[o].phase.Connected?
    ensures Keeps(s, InstallStep(s, o))
  {
    hide Install, SetPhase, Take, Keeps;
    var op := s.operations[o];
    var h := op.phase.handle;
    var (core, install) := Install(s.core, op.profile, op.generation, op.phase.session, h);
    var place := if install.Installed? then s.place[h := Cached(op.profile.id)] else s.place;
    var after := if install.Installed? then core else s.core;
    var phase := match install
                 case Installed(_, lease) => Leased(lease)
                 case Existing(lease) => Leased(lease)
                 case _ => Ended;
    var t := SetPhase(s.(core := after, place := place), o, phase);
    var freed := if install.Installed? then install.displaced else Some(h);
    PhaseHistory(s, o, phase, after, place);
    TakeHistory(t, freed);
    KeepsTransitive(s, t, TakeIf(t, freed));
    assert s.(core := s.core, place := s.place) == s;
  }

  lemma EvictHistory(s: State, id: ProfileId, generation: nat, session: nat)
    ensures Keeps(s, EvictStep(s, id, generation, session))
  {
    hide TakeExact;
  }

  lemma LaneHistory(s: State, e: Event)
    requires Enabled(s, e)
    requires e.AcquireLane? || e.ReleaseLane? || e.MarkUncertain? || e.BumpAll? || e.PlanReload? || e.PlanMutation?
             || e.PublishPlan? || e.ClearFlag? || e.DropLane?
    ensures Keeps(s, Apply(s, e))
  {
    hide NamingsOf, CapturesOf, IssuedBy, Bump, BumpTargets, Publish, Find, ReconcilePlan, ReloadPlan,
         CheckStep, InstallStep, EvictStep, ResolveStep, ConnectStep, ShutdownStep;
  }

  lemma TaskHistory(s: State, e: Event)
    requires Enabled(s, e)
    requires e.Begin? || e.Allocate? || e.Connect? || e.Abort?
    ensures Keeps(s, Apply(s, e))
  {
    hide CachedHandles, Find, CheckStep, InstallStep, EvictStep, ResolveStep, MutationStep, PublishStep, BumpStep,
         PlanWith, Observation, ShutdownStep, ObserveStep, DropStep;
  }

  lemma ClosingHistory(s: State, e: Event)
    requires Enabled(s, e) && (e.Observe? || e.CloseTaken? || e.DropTaken? || e.Shutdown?)
    ensures Keeps(s, Apply(s, e))
  {
    hide CachedHandles, Find, CheckStep, InstallStep, EvictStep, ResolveStep, MutationStep, PublishStep, BumpStep,
         PlanWith, Observation, ConnectStep, DropStep;
  }

  lemma DropHistory(s: State, o: nat)
    requires o in s.operations && s.operations[o].phase.Connected?
    ensures Keeps(s, DropStep(s, o))
  {
    hide Keeps, SetPhase, Take;
    var h := s.operations[o].phase.handle;
    var t := SetPhase(s, o, Ended);
    PhaseHistory(s, o, Ended, s.core, s.place);
    assert s.(core := s.core, place := s.place) == s;
    TakeHistory(t, Some(h));
    KeepsTransitive(s, t, Take(t, h));
    DropTakenHistory(Take(t, h), h);
    KeepsTransitive(s, Take(t, h), DropStep(s, o));
  }

  lemma DropTakenHistory(s: State, h: Handle)
    ensures Keeps(s, DropTakenStep(s, h))
  {
  }

  lemma HistoryStep(s: State, e: Event)
    requires Enabled(s, e)
    ensures Keeps(s, Apply(s, e))
  {
    hide Keeps, CheckStep, InstallStep, EvictStep, DropStep;
    match e {
      case Check(o) => CheckHistory(s, o);
      case InstallOrClose(o) => InstallHistory(s, o);
      case Evict(id, generation, session) => EvictHistory(s, id, generation, session);
      case Resolve(issued, allowRetag) => ResolveHistory(s, issued.fence, allowRetag);
      case Begin(_, _, _) => TaskHistory(s, e);
      case Allocate(_) => TaskHistory(s, e);
      case Connect(_, _) => TaskHistory(s, e);
      case Abort(_) => TaskHistory(s, e);
      case Observe(_) => ClosingHistory(s, e);
      case CloseTaken(_) => ClosingHistory(s, e);
      case Drop(o) => DropHistory(s, o);
      case DropTaken(_) => ClosingHistory(s, e);
      case Shutdown => ClosingHistory(s, e);
      case _ => LaneHistory(s, e);
    }
  }

  lemma ResolveHistory(s: State, fence: Fence, allowRetag: bool)
    ensures Keeps(s, ResolveStep(s, fence, allowRetag))
  {
    hide RetagExact, EvictStep;
    EvictHistory(s, fence.profileId, fence.previous.profileGeneration, fence.previous.sessionGeneration);
  }

  lemma ConfigIsLast(states: seq<State>, events: seq<Event>, i: nat)
    requires Run(states, events) && i < |states|
    ensures |states[i].history| > 0
    ensures states[i].history[|states[i].history| - 1] == states[i].core.observed.config
  {
    RunHolds(states, events, i);
    hide NamedOk, NamingsOf, PlanOk, FencesOk, CapturesOk, LaneOk, SessionsOk, HandlesOk, ReadsOk, PhasesOk;
  }

  /** Every episode of these was torn. */
  ghost predicate AllTorn(after: nat, upTo: nat, torn: set<nat>) {
    forall e | after < e <= upTo :: e in torn
  }

  /** At the moment of a successful observation the operation is undisturbed, and no episode is open. */
  lemma ConfirmedIsSteady(s: State, o: nat)
    requires Inv(s) && Enabled(s, Observe(o)) && ObserveStep(s, o).operations[o].phase.Confirmed?
    ensures Steady(s.operations[o], s.history) && AllTorn(s.operations[o].episodesAtRead, s.episodes, s.torn)
    ensures !s.core.uncertain
  {
    hide ObservedOk, NamedOk, NamingsOf, PlanOk, FencesOk, CapturesOk, SessionsOk, HandlesOk;
    var op := s.operations[o];
    assert PhaseOk(op, s.openedWith, s.owner, s.core.nextSession);
    assert Undisturbed(op, s.core.observed.generations, s.history, s.episodes, s.torn, s.lane.Marked?);
  }

  /**
   If an operation reads its profile at step `b` and its closing observation succeeds at step `i`, then at
   every state in between the published profile was the one it read, and every uncertainty episode that began
   was torn. So no episode began, not even one that a reload has already cleared, exactly if none was torn that
   began since the read.
   */
  lemma ObservationCoversTheInterval(states: seq<State>, events: seq<Event>, b: nat, i: nat, k: nat,
                                     o: nat, id: ProfileId, generation: nat)
    requires Run(states, events) && b < i < |events| && b <= k <= i
    requires events[b] == Begin(o, id, generation)
    requires events[i] == Observe(o) && o in states[i + 1].operations
    requires states[i + 1].operations[o].phase.Confirmed?
    ensures o in states[i].operations
    ensures Find(states[k].core.observed.config, id) == Some(states[i].operations[o].profile)
    ensures states[b].episodes <= states[k].episodes <= states[i].episodes
    ensures AllTorn(states[b].episodes, states[i].episodes, states[i].torn)
    ensures states[b].episodes == states[i].episodes
       <==> forall e | e in states[i].torn :: e <= states[b].episodes
  {
    hide Inv, ObserveStep, Apply, Enabled, Start, Find;
    ConfirmedInRun(states, events, i, o);
    BeginMeaning(states, events, b, o, id, generation);
    HistoryGrows(states, events, b + 1, i);
    HistoryGrows(states, events, b, k);
    HistoryGrows(states, events, k, i);
    ConfigIsLast(states, events, k);
    ConfigIsLast(states, events, b);
    var op := states[i].operations[o];
    var n := |states[k].history| - 1;
    assert states[i].history[n] == states[k].history[n];
    if n < op.readAt {
      assert |states[k].history| == |states[b].history|;
      assert states[k].history[n] == states[b].history[n];
    }
    TornHaveBegun(states, events, i);
    if states[b].episodes < states[i].episodes {
      assert states[i].episodes in states[i].torn;
    }
  }

  lemma TornHaveBegun(states: seq<State>, events: seq<Event>, i: nat)
    requires Run(states, events) && i < |states|
    ensures forall e | e in states[i].torn :: e <= states[i].episodes
  {
    RunHolds(states, events, i);
    hide ObservedOk, NamedOk, PlanOk, FencesOk, CapturesOk, LaneOk, SessionsOk, HandlesOk, ReadsOk, PhasesOk;
  }

  lemma {:induction false} TornInRun(states: seq<State>, events: seq<Event>, b: nat, i: nat)
    requires Run(states, events) && b <= i < |states|
    requires forall k | b <= k < i :: !Tears(states[k], events[k])
    ensures states[i].torn == states[b].torn
  {
    hide Apply, Enabled, Start, Tears;
    if b < i {
      TornInRun(states, events, b, i - 1);
      Stepped(states, events, i - 1);
      TornByStep(states[i - 1], events[i - 1]);
    }
  }

  /**
   Where no such task is dropped, a successful observation means that no episode began since the read, whatever
   else was dropped and whatever a reload has cleared.
   */
  lemma ObservationMissesNothing(states: seq<State>, events: seq<Event>, b: nat, i: nat, k: nat,
                                 o: nat, id: ProfileId, generation: nat)
    requires Run(states, events) && b < i < |events| && b <= k <= i
    requires events[b] == Begin(o, id, generation)
    requires events[i] == Observe(o) && o in states[i + 1].operations
    requires states[i + 1].operations[o].phase.Confirmed?
    requires forall m | b <= m < i :: !Tears(states[m], events[m])
    ensures states[k].episodes == states[i].episodes
  {
    hide Inv, ObserveStep, Apply, Enabled, Start, Find, Run, Tears;
    ObservationCoversTheInterval(states, events, b, i, k, o, id, generation);
    RunLength(states, events);
    TornInRun(states, events, b, i);
    TornHaveBegun(states, events, b);
  }

  lemma ConfirmedInRun(states: seq<State>, events: seq<Event>, i: nat, o: nat)
    requires Run(states, events) && i < |events|
    requires events[i] == Observe(o) && o in states[i + 1].operations
    requires states[i + 1].operations[o].phase.Confirmed?
    ensures o in states[i].operations
    ensures Steady(states[i].operations[o], states[i].history)
    ensures AllTorn(states[i].operations[o].episodesAtRead, states[i].episodes, states[i].torn)
  {
    RunHolds(states, events, i);
    hide Inv;
    Stepped(states, events, i);
    ConfirmedIsSteady(states[i], o);
  }

  lemma Stepped(states: seq<State>, events: seq<Event>, i: nat)
    requires Run(states, events) && i < |events|
    ensures Enabled(states[i], events[i]) && states[i + 1] == Apply(states[i], events[i])
  {
  }

  lemma BeginMeaning(states: seq<State>, events: seq<Event>, b: nat, o: nat, id: ProfileId, generation: nat)
    requires Run(states, events) && b < |events| && events[b] == Begin(o, id, generation)
    ensures o in states[b + 1].operations
    ensures var op := states[b + 1].operations[o];
            && op.readAt == |states[b].history| && op.episodesAtRead == states[b].episodes
            && op.profile.id == id && Find(states[b].core.observed.config, id) == Some(op.profile)
    ensures states[b + 1].history == states[b].history && states[b + 1].episodes == states[b].episodes
  {
    Stepped(states, events, b);
    FindMeaning(states[b].core.observed.config, id);
  }

  // ---- generations ----

  /** A generation number stands for one id and one content in every state of the run. */
  lemma GenerationNamesOneProfile(states: seq<State>, events: seq<Event>, i: nat, j: nat, p: ProfileId, q: ProfileId)
    requires Run(states, events) && i <= j < |states|
    requires p in states[i].core.observed.generations && q in states[j].core.observed.generations
    requires states[i].core.observed.generations[p] == states[j].core.observed.generations[q]
    ensures p == q
    ensures Find(states[i].core.observed.config, p) == Find(states[j].core.observed.config, p)
  {
    RunHolds(states, events, i);
    RunHolds(states, events, j);
    HistoryGrows(states, events, i, j);
    Published(states[i], p);
    Published(states[j], q);
    NamedOnce(states[j]);
  }

  lemma Published(s: State, id: ProfileId)
    requires Inv(s) && id in s.core.observed.generations
    ensures Naming(s.core.observed.generations[id], id, Find(s.core.observed.config, id)) in s.named
  {
    hide ObservedOk, PlanOk, FencesOk, CapturesOk, LaneOk, SessionsOk, HandlesOk, ReadsOk, PhasesOk;
    assert Naming(s.core.observed.generations[id], id, Find(s.core.observed.config, id))
        in NamingsOf(s.core.observed);
  }

  lemma BuriedName(s: State, id: ProfileId)
    requires Inv(s) && id in s.core.observed.tombstones
    ensures Naming(s.core.observed.tombstones[id], id, None) in s.named
  {
    hide ObservedOk, PlanOk, FencesOk, CapturesOk, LaneOk, SessionsOk, HandlesOk, ReadsOk, PhasesOk;
    assert Naming(s.core.observed.tombstones[id], id, None) in NamingsOf(s.core.observed);
  }

  lemma NamedOnce(s: State)
    requires Inv(s)
    ensures forall n, m | n in s.named && m in s.named && n.generation == m.generation :: n == m
    ensures forall n | n in s.named && n.profileId in s.core.observed.generations ::
              n.generation <= s.core.observed.generations[n.profileId]
  {
    hide ObservedOk, PlanOk, FencesOk, CapturesOk, LaneOk, SessionsOk, HandlesOk, ReadsOk, PhasesOk;
  }

  /** In effect: published for a configured id, or as the tombstone of a removed one. */
  ghost predicate InEffect(s: State, n: Naming) {
    n in NamingsOf(s.core.observed)
  }

  /** A step that publishes a number publishes one above every number before it, or one that was in effect. */
  lemma PublishedIsNewOrKept(s: State, e: Event, n: Naming)
    requires Inv(s) && Enabled(s, e) && InEffect(Apply(s, e), n)
    ensures InEffect(s, n) || forall m | m in s.named :: m.generation < n.generation
  {
    hide NamingsOf, ObservedOk, FencesOk, CapturesOk, SessionsOk, HandlesOk, ReadsOk, PhasesOk;
    match e {
      case PublishPlan =>
        PlanAdvances(s.core.observed, s.lane.base, s.lane.plan, s.named) by { ObservedKeys(s); }
      case BumpAll(order) => BumpIsNewOrKept(s, order, n);
      case _ => ObservedStays(s, e);
    }
  }

  lemma BumpIsNewOrKept(s: State, order: seq<ProfileId>, n: Naming)
    requires Inv(s) && Enabled(s, BumpAll(order)) && InEffect(BumpStep(s, order), n)
    ensures InEffect(s, n) || forall m | m in s.named :: m.generation < n.generation
  {
    hide NamingsOf, PlanOk, FencesOk, CapturesOk, SessionsOk, HandlesOk, ReadsOk, PhasesOk, Enumerates;
    var base := s.core.nextGeneration;
    var plan := Plan(Bump(s.core, order).observed, base + |order|, None, {});
    NamedBelow(s.named, s.core.observed, base);
    BumpIsPlan(s.core.observed, order, base);
    PlanAdvances(s.core.observed, base, plan, s.named);
  }

  lemma ObservedStays(s: State, e: Event)
    requires Enabled(s, e) && !e.PublishPlan? && !e.BumpAll?
    ensures Apply(s, e).core.observed == s.core.observed
  {
    hide CheckStep, InstallStep, EvictStep, ResolveStep, MutationStep, ShutdownStep, ReloadPlan, Find;
    match e {
      case Check(o) => CacheStaysObserved(s, o);
      case InstallOrClose(o) => InstallStaysObserved(s, o);
      case Evict(id, generation, session) => EvictStays(s, id, generation, session);
      case Resolve(issued, allowRetag) => ResolveStays(s, issued.fence, allowRetag);
      case PlanMutation(config, identity) => MutationStays(s, config, identity);
      case Shutdown => LaneStays(s, []);
      case _ => hide IssuedBy, CapturesOf, FingerprintOf, Observation;
    }
  }

  lemma CacheStaysObserved(s: State, o: nat)
    requires o in s.operations
    ensures CheckStep(s, o).core.observed == s.core.observed
  {
    hide CheckCache;
  }

  lemma InstallStaysObserved(s: State, o: nat)
    requires o in s.operations && s.operations[o].phase.Connected?
    ensures InstallStep(s, o).core.observed == s.core.observed
  {
    hide FingerprintOf, Find;
  }

  /** Over any stretch of a run, a number in effect at its end was in effect at its start or is above all before. */
  lemma {:induction false} NewNumbersAreLarger(states: seq<State>, events: seq<Event>, i: nat, j: nat, n: Naming)
    requires Run(states, events) && i <= j < |states| && InEffect(states[j], n)
    ensures InEffect(states[i], n) || forall m | m in states[i].named :: m.generation < n.generation
  {
    hide Inv, Apply, Enabled, InEffect;
    if i < j {
      Stepped(states, events, j - 1);
      RunHolds(states, events, j - 1);
      PublishedIsNewOrKept(states[j - 1], events[j - 1], n);
      HistoryGrows(states, events, i, j - 1);
      if InEffect(states[j - 1], n) {
        NewNumbersAreLarger(states, events, i, j - 1, n);
      }
    }
  }

  lemma InEffectIsNamed(s: State, n: Naming)
    requires Inv(s) && InEffect(s, n)
    ensures n in s.named
  {
    hide NamingsOf, ObservedOk, PlanOk, FencesOk, CapturesOk, LaneOk, SessionsOk, HandlesOk, ReadsOk, PhasesOk;
  }

  /** What a number stands for, id and content or deletion, is in effect over one unbroken stretch of a run. */
  lemma NeverReused(states: seq<State>, events: seq<Event>, i: nat, k: nat, j: nat, n: Naming)
    requires Run(states, events) && i <= k <= j < |states|
    requires InEffect(states[i], n) && InEffect(states[j], n)
    ensures InEffect(states[k], n)
  {
    hide Inv, InEffect, Run;
    RunHolds(states, events, i);
    InEffectIsNamed(states[i], n);
    HistoryGrows(states, events, i, k);
    NewNumbersAreLarger(states, events, k, j, n);
  }

  ghost predicate Has(s: State, p: ProfileId, generation: nat) {
    p in s.core.observed.generations && s.core.observed.generations[p] == generation
  }

  lemma HasIsInEffect(s: State, p: ProfileId, generation: nat)
    requires Inv(s)
    ensures Has(s, p, generation) <==>
            p in s.core.observed.generations
            && InEffect(s, Naming(generation, p, Find(s.core.observed.config, p)))
  {
    hide NamedOk, PlanOk, FencesOk, CapturesOk, LaneOk, SessionsOk, HandlesOk, ReadsOk, PhasesOk;
    FindMeaning(s.core.observed.config, p);
    NamingIn(s.core.observed, Naming(generation, p, Find(s.core.observed.config, p)));
  }

  lemma InEffectIsHad(s: State, n: Naming)
    requires Inv(s) && InEffect(s, n)
    ensures n.content.Some? ==> Has(s, n.profileId, n.generation) && Find(s.core.observed.config, n.profileId) == n.content
    ensures n.content.None? ==>
              n.profileId in s.core.observed.tombstones && s.core.observed.tombstones[n.profileId] == n.generation
  {
    hide NamedOk, PlanOk, FencesOk, CapturesOk, LaneOk, SessionsOk, HandlesOk, ReadsOk, PhasesOk;
    NamingIn(s.core.observed, n);
  }

  /**
   No generation is used a second time: if two states of a run publish one number, for whatever ids, it is one id,
   and every state between them publishes it, for that id and that content.
   */
  lemma GenerationIsNeverReused(states: seq<State>, events: seq<Event>, i: nat, k: nat, j: nat, p: ProfileId,
                                q: ProfileId, generation: nat)
    requires Run(states, events) && i <= k <= j < |states|
    requires Has(states[i], p, generation) && Has(states[j], q, generation)
    ensures p == q && Has(states[k], p, generation)
    ensures Find(states[k].core.observed.config, p) == Find(states[i].core.observed.config, p)
  {
    GenerationNamesOneProfile(states, events, i, j, p, q);
    hide Inv, InEffect, Run;
    RunHolds(states, events, i);
    RunHolds(states, events, k);
    RunHolds(states, events, j);
    FindKnown(states[i], p);
    HasIsInEffect(states[i], p, generation);
    HasIsInEffect(states[j], p, generation);
    var n := Naming(generation, p, Find(states[i].core.observed.config, p));
    NeverReused(states, events, i, k, j, n);
    InEffectIsHad(states[k], n);
  }

  lemma BuriedInEffect(s: State, id: ProfileId)
    requires id in s.core.observed.tombstones
    ensures InEffect(s, Naming(s.core.observed.tombstones[id], id, None))
  {
    hide Find;
  }

  /** The number of a tombstone is never a generation, before or after, and is of one id over one stretch. */
  lemma TombstoneIsNeverReused(states: seq<State>, events: seq<Event>, i: nat, k: nat, j: nat, p: ProfileId,
                               q: ProfileId)
    requires Run(states, events) && i <= k <= j < |states|
    ensures p in states[i].core.observed.tombstones ==> !Has(states[j], q, states[i].core.observed.tombstones[p])
    ensures p in states[j].core.observed.tombstones ==> !Has(states[i], q, states[j].core.observed.tombstones[p])
    ensures p in states[i].core.observed.tombstones && q in states[j].core.observed.tombstones
            && states[i].core.observed.tombstones[p] == states[j].core.observed.tombstones[q] ==>
              p == q && p in states[k].core.observed.tombstones
              && states[k].core.observed.tombstones[p] == states[i].core.observed.tombstones[p]
  {
    hide Inv, InEffect, Run, Find;
    RunHolds(states, events, i);
    RunHolds(states, events, k);
    RunHolds(states, events, j);
    HistoryGrows(states, events, i, j);
    NamedOnce(states[j]);
    if q in states[j].core.observed.generations {
      Published(states[j], q);
      FindKnown(states[j], q);
    }
    if q in states[i].core.observed.generations {
      Published(states[i], q);
      FindKnown(states[i], q);
    }
    if p in states[i].core.observed.tombstones {
      BuriedName(states[i], p);
    }
    if p in states[j].core.observed.tombstones {
      BuriedName(states[j], p);
    }
    if q in states[j].core.observed.tombstones {
      BuriedName(states[j], q);
    }
    if p in states[i].core.observed.tombstones && q in states[j].core.observed.tombstones
       && states[i].core.observed.tombstones[p] == states[j].core.observed.tombstones[q] {
      var n := Naming(states[i].core.observed.tombstones[p], p, None);
      BuriedInEffect(states[i], p);
      BuriedInEffect(states[j], q);
      NeverReused(states, events, i, k, j, n);
      InEffectIsHad(states[k], n);
    }
  }

  /**
   Per id, generations only grow: past every earlier tombstone, and past an earlier generation unless the profile
   kept its number and its content in every state between. A later tombstone is past every earlier generation.
   */
  lemma GenerationsIncrease(states: seq<State>, events: seq<Event>, i: nat, k: nat, j: nat, p: ProfileId)
    requires Run(states, events) && i <= k <= j < |states|
    ensures var first, middle, last := states[i].core.observed, states[k].core.observed, states[j].core.observed;
            && (p in first.generations && p in last.generations ==>
                  first.generations[p] <= last.generations[p])
            && (p in first.generations && p in last.generations
                && !(Has(states[k], p, first.generations[p]) && Find(middle.config, p) == Find(first.config, p)) ==>
                  first.generations[p] < last.generations[p])
            && (p in first.tombstones && p in last.generations ==> first.tombstones[p] < last.generations[p])
            && (p in first.generations && p in last.tombstones ==>
                  first.generations[p] < last.tombstones[p]
                  || (p in first.tombstones && first.tombstones[p] == last.tombstones[p]))
  {
    hide Inv, Run, InEffect;
    RunHolds(states, events, i);
    RunHolds(states, events, j);
    HistoryGrows(states, events, i, j);
    NamedOnce(states[j]);
    if p in states[j].core.observed.generations {
      Published(states[j], p);
      FindKnown(states[j], p);
    }
    if p in states[i].core.observed.generations {
      Published(states[i], p);
      if Has(states[j], p, states[i].core.observed.generations[p]) {
        GenerationIsNeverReused(states, events, i, k, j, p, p, states[i].core.observed.generations[p]);
      }
    }
    if p in states[i].core.observed.tombstones {
      BuriedName(states[i], p);
    }
    if p in states[j].core.observed.tombstones {
      var n := Naming(states[j].core.observed.tombstones[p], p, None);
      BuriedInEffect(states[j], p);
      NewNumbersAreLarger(states, events, i, j, n);
      if InEffect(states[i], n) {
        InEffectIsHad(states[i], n);
      }
    }
  }

  lemma FindKnown(s: State, id: ProfileId)
    requires Inv(s) && id in s.core.observed.generations
    ensures Find(s.core.observed.config, id).Some?
  {
    hide NamedOk, PlanOk, FencesOk, CapturesOk, LaneOk, SessionsOk, HandlesOk, ReadsOk, PhasesOk;
    FindMeaning(s.core.observed.config, id);
  }

  /** Exactly the configured ids have a generation, and a mutation can always be reconciled. */
  lemma ReconcileIsTotal(states: seq<State>, events: seq<Event>, i: nat, config: seq<ConnectionProfile>,
                         identity: MutationIdentity)
    requires Run(states, events) && i < |states|
    ensures states[i].core.observed.generations.Keys == Ids(states[i].core.observed.config)
    ensures Enabled(states[i], PlanMutation(config, identity)) ==>
              ReconcilePlan(states[i].core, config, identity).Ok?
  {
    RunHolds(states, events, i);
    assert states[i].core.observed.generations.Keys == Ids(states[i].core.observed.config) by {
      hide NamedOk, PlanOk, FencesOk, CapturesOk, LaneOk, SessionsOk, HandlesOk, ReadsOk, PhasesOk;
    }
    hide Inv;
    if Enabled(states[i], PlanMutation(config, identity)) {
      ReconcileSucceeds(states[i], config, identity);
    }
  }

  // ---- handles ----

  ghost predicate InFlightAt(s: State, h: Handle, o: nat) {
    o in s.operations && s.operations[o].phase.Connected? && s.operations[o].phase.handle == h
  }

  ghost predicate CachedAt(s: State, h: Handle, id: ProfileId) {
    id in s.core.sessions && s.core.sessions[id].handle == h
  }

  /**
   Every handle the connector returned is in exactly one place: with the one task that connected it,
   in one cache slot, taken and waiting for its close, closed, or dropped with the task that held it. It is
   closed at most once.
   */
  lemma HandlesAreConserved(states: seq<State>, events: seq<Event>, i: nat, h: Handle)
    requires Run(states, events) && i < |states| && h in states[i].openedWith
    ensures var s := states[i];
            var flying := exists o :: InFlightAt(s, h, o);
            var cached := exists id :: CachedAt(s, h, id);
            && (if flying then 1 else 0) + (if cached then 1 else 0) + s.taken[h] + s.closes[h]
               + s.drops[h] == 1
            && (forall o, p :: InFlightAt(s, h, o) && InFlightAt(s, h, p) ==> o == p)
            && (forall id, other :: CachedAt(s, h, id) && CachedAt(s, h, other) ==> id == other)
  {
    RunHolds(states, events, i);
    hide NamedOk, ObservedOk, NamingsOf, PlanOk, FencesOk, CapturesOk, LaneOk, SessionsOk, ReadsOk, PhasesOk;
    var s := states[i];
    assert forall o :: InFlightAt(s, h, o) ==> s.place[h] == InFlight(o);
    assert forall id :: CachedAt(s, h, id) ==> s.place[h] == Cached(id);
    match s.place[h] {
      case InFlight(o) => assert InFlightAt(s, h, o);
      case Cached(id) => assert CachedAt(s, h, id);
      case Taken =>
      case Closed =>
      case Dropped =>
    }
  }

  /** A closed handle stays closed, and nothing but known handles is ever closed. */
  lemma ClosedForGood(states: seq<State>, events: seq<Event>, i: nat, j: nat, h: Handle)
    requires Run(states, events) && i <= j < |states| && h in states[i].closes
    ensures h in states[j].openedWith && states[j].closes[h] == 1
    ensures forall id :: !CachedAt(states[j], h, id)
  {
    HistoryGrows(states, events, i, j);
    RunHolds(states, events, j);
    hide NamedOk, ObservedOk, NamingsOf, PlanOk, FencesOk, CapturesOk, LaneOk, SessionsOk, ReadsOk, PhasesOk;
    assert h in states[j].closes && states[j].place[h] == Closed;
  }

  /** A deferred cleanup removes the session it captured or none, and no other slot changes. */
  lemma CleanupIsExact(states: seq<State>, events: seq<Event>, i: nat, c: Capture)
    requires Run(states, events) && i < |states| && c in states[i].captures
    ensures var (core, removed) := TakeExact(states[i].core, c.profileId, c.identity.profileGeneration,
                                             c.identity.sessionGeneration);
            && (removed == None || removed == Some(c.handle))
            && (forall id | id in states[i].core.sessions && states[i].core.sessions[id].handle != c.handle ::
                  id in core.sessions && core.sessions[id] == states[i].core.sessions[id])
  {
    RunHolds(states, events, i);
    hide NamedOk, ObservedOk, NamingsOf, PlanOk, FencesOk, LaneOk, HandlesOk, ReadsOk, PhasesOk;
  }

  /** A fence, retagging or evicting, touches the session it was issued for or none. */
  lemma FenceIsExact(states: seq<State>, events: seq<Event>, i: nat, issued: IssuedFence, allowRetag: bool)
    requires Run(states, events) && i < |states| && issued in states[i].fences
    ensures var after := ResolveStep(states[i], issued.fence, allowRetag).core.sessions;
            && (forall id | id in states[i].core.sessions && states[i].core.sessions[id].handle != issued.handle ::
                  id in after && after[id] == states[i].core.sessions[id])
            && (forall id | id in after :: id in states[i].core.sessions && after[id].handle == states[i].core.sessions[id].handle)
  {
    RunHolds(states, events, i);
    FenceExact(states[i], issued, allowRetag);
  }

  lemma FenceExact(s: State, issued: IssuedFence, allowRetag: bool)
    requires Inv(s) && issued in s.fences
    ensures var after := ResolveStep(s, issued.fence, allowRetag).core.sessions;
            && (forall id | id in s.core.sessions && s.core.sessions[id].handle != issued.handle ::
                  id in after && after[id] == s.core.sessions[id])
            && (forall id | id in after :: id in s.core.sessions && after[id].handle == s.core.sessions[id].handle)
  {
    hide NamedOk, ObservedOk, NamingsOf, PlanOk, CapturesOk, LaneOk, HandlesOk, ReadsOk, PhasesOk, FingerprintOf;
  }
}

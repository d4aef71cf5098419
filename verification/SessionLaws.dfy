/** What steps of the protocol must do, beside what they may not: sessions handed out, numbers kept, fences resolved. */
module SessionLaws {
  import opened Wrappers
  import opened Profiles
  import opened ServiceCore
  import opened ServiceLaws
  import opened SessionProtocol
  import opened SessionInvariant
  import opened SessionTheorems

  // ---- sessions ----

  /** The operation's profile is published as it was read, and nothing is uncertain. */
  ghost predicate Current(s: State, op: Operation) {
    !s.core.uncertain && IsPublished(s.core, op.profile, op.generation)
  }

  /** An operation that finds a session for its profile in the cache is given it, at either of its two sections. */
  lemma CachedSessionIsLeased(s: State, o: nat)
    requires o in s.operations && Current(s, s.operations[o])
    requires Serves(s.core, s.operations[o].profile, s.operations[o].generation)
    ensures var op, t := s.operations[o], CheckStep(s, o);
            t.operations[o].phase.Leased? && t.core == s.core
            && LeaseIs(t.operations[o].phase.lease, op.profile, s.core.sessions[op.profile.id])
    ensures s.operations[o].phase.Connected? ==>
              var op, t := s.operations[o], InstallStep(s, o);
              && t.operations[o].phase.Leased? && t.core == s.core
              && LeaseIs(t.operations[o].phase.lease, op.profile, s.core.sessions[op.profile.id])
              && t.taken == s.taken + multiset{op.phase.handle}
  {
    var op := s.operations[o];
    CheckMeaning(s.core, op.profile, op.generation);
    if op.phase.Connected? {
      InstallMeaning(s.core, op.profile, op.generation, op.phase.session, op.phase.handle);
    }
    hide CheckCache, Install, FingerprintOf;
  }

  /** An operation that finds none connects, and its new session is cached and given to it. */
  lemma NewSessionIsLeased(s: State, o: nat)
    requires o in s.operations && Current(s, s.operations[o])
    requires !Serves(s.core, s.operations[o].profile, s.operations[o].generation)
    ensures CheckStep(s, o).operations[o].phase == Missed
    ensures s.operations[o].phase.Connected? ==>
              var op, t := s.operations[o], InstallStep(s, o);
              && t.operations[o].phase.Leased? && t.operations[o].phase.lease.handle == op.phase.handle
              && op.profile.id in t.core.sessions
              && LeaseIs(t.operations[o].phase.lease, op.profile, t.core.sessions[op.profile.id])
              && t.taken == s.taken + (if op.profile.id in s.core.sessions
                                       then multiset{s.core.sessions[op.profile.id].handle} else multiset{})
  {
    var op := s.operations[o];
    CheckMeaning(s.core, op.profile, op.generation);
    if op.phase.Connected? {
      InstallMeaning(s.core, op.profile, op.generation, op.phase.session, op.phase.handle);
    }
    hide CheckCache, Install, FingerprintOf;
  }

  /** The closing observation succeeds exactly while the number is the published one and nothing is uncertain. */
  lemma ConfirmedMeaning(s: State, o: nat)
    requires Inv(s) && Enabled(s, Observe(o))
    ensures ObserveStep(s, o).operations[o].phase.Confirmed?
       <==> && !s.core.uncertain && s.operations[o].profile.id in s.core.observed.generations
            && s.core.observed.generations[s.operations[o].profile.id] == s.operations[o].generation
  {
    var op := s.operations[o];
    assert PhaseOk(op, s.openedWith, s.owner, s.core.nextSession);
    hide ObservedOk, NamedOk, NamingsOf, PlanOk, FencesOk, CapturesOk, SessionsOk, HandlesOk, ReadsOk, LaneOk, PhasesOk;
    ObservationMeaning(s.core, op.phase.lease.profileId, op.phase.lease.identity.profileGeneration);
  }

  /**
   A fence that may be retagged gives its session the new number, if that is still the session and connects as the
   profile now does; any other fence takes its session out of the cache.
   */
  lemma ResolveMeaning(s: State, fence: Fence, allowRetag: bool)
    ensures var before, after, id := s.core.sessions, ResolveStep(s, fence, allowRetag).core.sessions, fence.profileId;
            && (forall other | other != id :: (other in after <==> other in before)
                                              && (other in before ==> after[other] == before[other]))
            && (allowRetag && fence.retagEligible ==>
                  if id in before && before[id].Identity() == fence.previous
                     && before[id].fingerprint == fence.nextFingerprint
                  then after == before[id := before[id].(profileGeneration := fence.nextGeneration)] else after == before)
            && (!(allowRetag && fence.retagEligible) ==>
                  if IsSession(s.core, id, fence.previous.profileGeneration, fence.previous.sessionGeneration)
                  then after == before - {id} else after == before)
  {
  }

  // ---- plans ----

  lemma PlansFromInvariant(s: State)
    requires Inv(s) && s.lane.Held?
    ensures Numbered(s.core.observed)
    ensures forall id | id in s.core.observed.generations :: s.core.observed.generations[id] < s.core.nextGeneration
  {
    NamedBelow(s.named, s.core.observed, s.core.nextGeneration);
    hide NamedOk, NamingsOf, PlanOk, FencesOk, CapturesOk, SessionsOk, HandlesOk, ReadsOk, LaneOk, PhasesOk;
  }

  /** Planning is the only step that sets a plan, and only publishing it or dropping it ends it. */
  lemma PlanStays(s: State, e: Event)
    requires Enabled(s, e) && s.lane.Planned? && !e.PublishPlan? && !e.DropLane?
    ensures Apply(s, e).lane == s.lane
  {
    hide NamingsOf, CapturesOf, IssuedBy, Bump, BumpTargets, Publish, Find, ReconcilePlan, ReloadPlan, CheckCache,
         Install, TakeExact, RetagExact, Observation, CachedHandles, FingerprintOf;
  }

  ghost predicate Quiet(events: seq<Event>, i: nat, j: nat)
    requires j <= |events|
  {
    forall m | i < m < j :: !events[m].PublishPlan? && !events[m].DropLane?
  }

  lemma {:induction false} PlanLasts(states: seq<State>, events: seq<Event>, i: nat, j: nat)
    requires Run(states, events) && i < j <= |events| && states[i + 1].lane.Planned? && Quiet(events, i, j)
    ensures states[j].lane == states[i + 1].lane
  {
    hide Apply, Enabled, Start;
    if i + 1 < j {
      PlanLasts(states, events, i, j - 1);
      Stepped(states, events, j - 1);
      PlanStays(states[j - 1], events[j - 1]);
    }
  }

  /** What is planned is what is published, whatever happens in between. */
  lemma PlanIsPublished(states: seq<State>, events: seq<Event>, i: nat, j: nat)
    requires Run(states, events) && i < j < |events| && states[i + 1].lane.Planned? && Quiet(events, i, j)
    requires events[j].PublishPlan?
    ensures states[j + 1].core.observed == states[i + 1].lane.plan.observed
  {
    PlanLasts(states, events, i, j);
    Stepped(states, events, j);
    hide Run, Quiet, NamingsOf;
  }

  /**
   A mutation, from its plan to its publish: every other profile that it leaves as it was keeps its number, so what
   is in flight and what is cached for it stays current.
   */
  lemma MutationKeepsTheOthers(states: seq<State>, events: seq<Event>, i: nat, j: nat, config: seq<ConnectionProfile>,
                               identity: MutationIdentity, p: ConnectionProfile)
    requires Run(states, events) && i < j < |events| && Quiet(events, i, j)
    requires events[i] == PlanMutation(config, identity) && events[j].PublishPlan?
    requires p in config && p in states[i].core.observed.config && (p.id != identity.profileId || identity.Delete?)
    ensures p in states[j + 1].core.observed.config
    ensures p.id in states[i].core.observed.generations && p.id in states[j + 1].core.observed.generations
    ensures states[j + 1].core.observed.generations[p.id] == states[i].core.observed.generations[p.id]
  {
    RunHolds(states, events, i);
    Stepped(states, events, i);
    PlansFromInvariant(states[i]);
    ReconcileSucceeds(states[i], config, identity);
    ReconcilePlanMeaning(states[i].core, config, identity);
    hide Inv, ReconcilePlan, IssuedBy, CapturesOf;
    PlanIsPublished(states, events, i, j);
  }

  /** And the profile it writes has a number that no profile had. */
  lemma MutationRenewsItsProfile(states: seq<State>, events: seq<Event>, i: nat, j: nat,
                                 config: seq<ConnectionProfile>, identity: MutationIdentity)
    requires Run(states, events) && i < j < |events| && Quiet(events, i, j)
    requires events[i] == PlanMutation(config, identity) && events[j].PublishPlan?
    ensures var before, after := states[i].core, states[j + 1].core.observed;
            && after.config == config
            && (!identity.Delete? ==> identity.profileId in after.generations
                                      && after.generations[identity.profileId] >= before.nextGeneration)
            && (identity.Delete? ==> identity.profileId in after.tombstones
                                     && after.tombstones[identity.profileId] >= before.nextGeneration)
  {
    RunHolds(states, events, i);
    Stepped(states, events, i);
    PlansFromInvariant(states[i]);
    ReconcileSucceeds(states[i], config, identity);
    ReconcilePlanMeaning(states[i].core, config, identity);
    hide Inv, ReconcilePlan, IssuedBy, CapturesOf;
    PlanIsPublished(states, events, i, j);
    if !identity.Delete? {
      var q :| q in config && q.id == identity.profileId;
    }
  }

  /** A reload, from its plan to its publish: exactly the profiles that are as they were keep their numbers. */
  lemma ReloadKeepsTheUnchanged(states: seq<State>, events: seq<Event>, i: nat, j: nat,
                                config: seq<ConnectionProfile>, removed: seq<ProfileId>, p: ConnectionProfile)
    requires Run(states, events) && i < j < |events| && Quiet(events, i, j)
    requires events[i] == PlanReload(config, removed) && events[j].PublishPlan? && p in config
    ensures p in states[j + 1].core.observed.config && p.id in states[j + 1].core.observed.generations
    ensures var number := states[j + 1].core.observed.generations[p.id];
            if p in states[i].core.observed.config
            then p.id in states[i].core.observed.generations && number == states[i].core.observed.generations[p.id]
            else number >= states[i].core.nextGeneration
  {
    RunHolds(states, events, i);
    Stepped(states, events, i);
    PlansFromInvariant(states[i]);
    ReloadPlanMeaning(states[i].core, config, removed);
    hide Inv, ReloadPlan, IssuedBy, CapturesOf;
    PlanIsPublished(states, events, i, j);
  }

  // ---- what a publish leaves to be done, and the flag ----

  lemma PlannedIs(s: State, e: Event)
    requires Enabled(s, e) && (e.PlanReload? || e.PlanMutation?) && Apply(s, e).lane.Planned?
    ensures var t := Apply(s, e);
            && t.lane.reload == e.PlanReload? && t.core.sessions == s.core.sessions
            && (forall target | target in t.lane.plan.targets && target.session.Some?
                  && target.profileId in s.core.sessions ::
                  Capture(target.profileId, target.session.value, s.core.sessions[target.profileId].handle)
                  in t.lane.captures)
            && (t.lane.plan.fence.Some? && t.lane.plan.fence.value.profileId in s.core.sessions ==>
                  IssuedFence(t.lane.plan.fence.value, s.core.sessions[t.lane.plan.fence.value.profileId].handle)
                  in t.lane.fence)
  {
    hide ReloadPlan, ReconcilePlan, NamingsOf;
  }

  /**
   The publish of a plan leaves every session in the cache, and hands on what is to be cleaned up: for each target the
   very session that was cached when it was planned, and the fence with its session. Only after a reload the flag is
   to be cleared.
   */
  lemma PublishHandsOn(states: seq<State>, events: seq<Event>, i: nat, j: nat)
    requires Run(states, events) && i < j < |events| && Quiet(events, i, j)
    requires (events[i].PlanReload? || events[i].PlanMutation?) && states[i + 1].lane.Planned? && events[j].PublishPlan?
    ensures var sessions, plan, before, after := states[i].core.sessions, states[i + 1].lane.plan, states[j], states[j + 1];
            && after.core.sessions == before.core.sessions && after.core.uncertain == before.core.uncertain
            && after.operations == before.operations && after.taken == before.taken
            && before.captures <= after.captures && before.fences <= after.fences
            && (forall target | target in plan.targets && target.session.Some? && target.profileId in sessions ::
                  Capture(target.profileId, target.session.value, sessions[target.profileId].handle) in after.captures)
            && (plan.fence.Some? && plan.fence.value.profileId in sessions ==>
                  IssuedFence(plan.fence.value, sessions[plan.fence.value.profileId].handle) in after.fences)
            && after.lane == if events[i].PlanReload? then Clearing else Idle
  {
    Stepped(states, events, i);
    PlannedIs(states[i], events[i]);
    PlanLasts(states, events, i, j);
    Stepped(states, events, j);
    hide Run, Quiet, NamingsOf, CapturesOf, IssuedBy, ReloadPlan, ReconcilePlan;
  }

  /** The flag rises where an episode begins, and falls only where a reload that was published clears it. */
  lemma FlagMeaning(s: State, e: Event)
    requires Enabled(s, e)
    ensures Apply(s, e).core.uncertain <==>
              || e.MarkUncertain? || (e.PlanMutation? && ReconcilePlan(s.core, e.config, e.identity).Err?)
              || (s.core.uncertain && !e.ClearFlag?)
    ensures e.ClearFlag? ==> s.lane.Clearing?
    ensures Apply(s, e).lane.Clearing? && !s.lane.Clearing? ==> e.PublishPlan? && s.lane.Planned? && s.lane.reload
  {
    hide NamingsOf, CapturesOf, IssuedBy, BumpTargets, Find, ReconcilePlan, ReloadPlan, CachedHandles, FingerprintOf,
         Allot, Affects, Enumerates, Inv, InstallStep, EvictStep, ResolveStep, CheckStep, ObserveStep;
    match e {
      case Check(o) => CheckKeepsFlag(s, o);
      case Observe(o) => CheckKeepsFlag(s, o);
      case InstallOrClose(o) => InstallKeepsFlag(s, o);
      case Evict(id, generation, session) => EvictKeepsFlag(s, id, generation, session);
      case Resolve(issued, allowRetag) => ResolveKeepsFlag(s, issued.fence, allowRetag);
      case _ =>
    }
  }

  lemma CheckKeepsFlag(s: State, o: nat)
    requires o in s.operations
    ensures CheckStep(s, o).core == s.core && CheckStep(s, o).lane == s.lane
    ensures s.operations[o].phase.Leased? ==> ObserveStep(s, o).core == s.core && ObserveStep(s, o).lane == s.lane
  {
    hide CheckCache, Observation;
  }

  lemma InstallKeepsFlag(s: State, o: nat)
    requires o in s.operations && s.operations[o].phase.Connected?
    ensures InstallStep(s, o).core.uncertain == s.core.uncertain && InstallStep(s, o).lane == s.lane
  {
    hide FingerprintOf;
  }

  lemma EvictKeepsFlag(s: State, id: ProfileId, generation: nat, session: nat)
    ensures EvictStep(s, id, generation, session).core.uncertain == s.core.uncertain
    ensures EvictStep(s, id, generation, session).lane == s.lane
  {
  }

  lemma ResolveKeepsFlag(s: State, fence: Fence, allowRetag: bool)
    ensures ResolveStep(s, fence, allowRetag).core.uncertain == s.core.uncertain
    ensures ResolveStep(s, fence, allowRetag).lane == s.lane
  {
    EvictKeepsFlag(s, fence.profileId, fence.previous.profileGeneration, fence.previous.sessionGeneration);
    hide EvictStep;
  }
}

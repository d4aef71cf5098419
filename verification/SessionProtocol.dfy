/**
 The generation and session protocol as a step system. Each event is one locked section or one atomic
 access of `ApplicationService`; between two events of one task any events of the others may run.

 Beside the fields of the service a state carries what has happened so far: which profile content every
 generation number was given to, which configurations were published, how many uncertainty episodes
 have begun and which of them, by number, were torn, and where each handle the connector returned is now.
 */
module SessionProtocol {
  import opened Wrappers
  import opened Profiles
  import opened ServiceCore

  /** `generation` was published for this id, with this content, or with none for a deletion. */
  datatype Naming = Naming(generation: nat, profileId: ProfileId, content: Option<ConnectionProfile>)

  /** A cleanup target's session identity, with the handle that had it when it was captured. */
  datatype Capture = Capture(profileId: ProfileId, identity: SessionIdentity, handle: Handle)

  datatype IssuedFence = IssuedFence(fence: Fence, handle: Handle)

  datatype Lane =
    | Idle
    | Held
    | Marked
    | Planned(base: nat, plan: Plan, fence: set<IssuedFence>, captures: set<Capture>, reload: bool)
    | Clearing

  datatype Phase =
    | Reading
    | Missed
    | Connecting(session: nat)
    | Connected(session: nat, handle: Handle)
    | Leased(lease: Lease)
    | Confirmed(lease: Lease)
    | Ended

  datatype Operation = Operation(
    profile: ConnectionProfile,
    generation: nat,
    readAt: nat,
    episodesAtRead: nat,
    phase: Phase)

  datatype Place = InFlight(operation: nat) | Cached(profileId: ProfileId) | Taken | Closed | Dropped

  datatype State = State(
    core: Core,
    lane: Lane,
    operations: map<nat, Operation>,
    fences: set<IssuedFence>,
    captures: set<Capture>,
    taken: multiset<Handle>,
    closes: multiset<Handle>,
    drops: multiset<Handle>,
    openedWith: map<Handle, ConnectionFingerprint>,
    owner: map<nat, Handle>,
    place: map<Handle, Place>,
    named: set<Naming>,
    history: seq<seq<ConnectionProfile>>,
    episodes: nat,
    torn: set<nat>)

  datatype Event =
    | AcquireLane
    | ReleaseLane
    | MarkUncertain
    | BumpAll(order: seq<ProfileId>)
    | PlanReload(config: seq<ConnectionProfile>, removed: seq<ProfileId>)
    | PlanMutation(config: seq<ConnectionProfile>, identity: MutationIdentity)
    | PublishPlan
    | ClearFlag
    | DropLane
    | Begin(operation: nat, profileId: ProfileId, generation: nat)
    | Check(operation: nat)
    | Allocate(operation: nat)
    | Connect(operation: nat, handle: Handle)
    | Abort(operation: nat)
    | InstallOrClose(operation: nat)
    | Observe(operation: nat)
    | Evict(profileId: ProfileId, generation: nat, session: nat)
    | Resolve(issued: IssuedFence, allowRetag: bool)
    | CloseTaken(handle: Handle)
    | Drop(operation: nat)
    | DropTaken(handle: Handle)
    | Shutdown

  // ---- the steps ----

  function NamingsOf(observed: Observed): set<Naming> {
    (set id | id in observed.generations :: Naming(observed.generations[id], id, Find(observed.config, id)))
    + (set id | id in observed.tombstones :: Naming(observed.tombstones[id], id, None))
  }

  /** The handle each identity in `targets` belonged to when the sessions were read. */
  function CapturesOf(targets: set<CleanupTarget>, sessions: map<ProfileId, CachedSession>): set<Capture> {
    set t | t in targets && t.session.Some? && t.profileId in sessions ::
      Capture(t.profileId, t.session.value, sessions[t.profileId].handle)
  }

  function IssuedBy(fence: Option<Fence>, sessions: map<ProfileId, CachedSession>): set<IssuedFence> {
    if fence.Some? && fence.value.profileId in sessions
    then {IssuedFence(fence.value, sessions[fence.value.profileId].handle)}
    else {}
  }

  /** What the writer's reply must show before a mutation is reconciled. */
  predicate Affects(config: seq<ConnectionProfile>, identity: MutationIdentity, observed: Observed) {
    match identity
    case Create(id) => Find(config, id).Some?
    case Update(id, _) => Find(config, id).Some? && id in observed.generations
    case Delete(id) => Find(config, id).None? && id in observed.generations
  }

  predicate Enabled(s: State, e: Event) {
    match e
    case AcquireLane => s.lane.Idle?
    case ReleaseLane => s.lane.Held?
    case MarkUncertain => s.lane.Held?
    case BumpAll(order) => s.lane.Marked? && Enumerates(order, s.core.observed.generations.Keys)
    case PlanReload(config, removed) =>
      s.lane.Held? && UniqueIds(config)
      && Enumerates(removed, Ids(s.core.observed.config) - Ids(config))
    case PlanMutation(config, identity) =>
      s.lane.Held? && UniqueIds(config) && !s.core.uncertain && Affects(config, identity, s.core.observed)
    case PublishPlan => s.lane.Planned?
    case ClearFlag => s.lane.Clearing?
    case DropLane => !s.lane.Idle?
    case Begin(o, id, generation) =>
      o !in s.operations && Find(s.core.observed.config, id).Some?
      && id in s.core.observed.generations && s.core.observed.generations[id] == generation
    case Check(o) => o in s.operations && s.operations[o].phase.Reading?
    case Allocate(o) => o in s.operations && s.operations[o].phase.Missed?
    case Connect(o, h) => o in s.operations && s.operations[o].phase.Connecting? && h !in s.openedWith
    case Abort(o) =>
      o in s.operations
      && (s.operations[o].phase.Reading? || s.operations[o].phase.Missed? || s.operations[o].phase.Connecting?
          || s.operations[o].phase.Leased?)
    case InstallOrClose(o) => o in s.operations && s.operations[o].phase.Connected?
    case Observe(o) => o in s.operations && s.operations[o].phase.Leased?
    case Evict(_, _, _) => true
    case Resolve(issued, _) => issued in s.fences
    case CloseTaken(h) => h in s.taken
    case Drop(o) => o in s.operations && s.operations[o].phase.Connected?
    case DropTaken(h) => h in s.taken
    case Shutdown => true
  }

  function SetPhase(s: State, operation: nat, phase: Phase): State
    requires operation in s.operations
  {
    s.(operations := s.operations[operation := s.operations[operation].(phase := phase)])
  }

  /** A handle leaves the cache or its task and waits for `close`. */
  function Take(s: State, handle: Handle): State {
    s.(taken := s.taken + multiset{handle}, place := s.place[handle := Taken])
  }

  function TakeIf(s: State, handle: Option<Handle>): State {
    if handle.Some? then Take(s, handle.value) else s
  }

  /** The task that was to close a handle is dropped, and the handle with it. */
  function DropTakenStep(s: State, handle: Handle): State {
    s.(taken := s.taken - multiset{handle}, drops := s.drops + multiset{handle}, place := s.place[handle := Dropped])
  }

  /** A task is dropped between its connect and its install, and the handle with it. */
  function DropStep(s: State, o: nat): State
    requires o in s.operations && s.operations[o].phase.Connected?
  {
    var h := s.operations[o].phase.handle;
    DropTakenStep(Take(SetPhase(s, o, Ended), h), h)
  }

  function PlanWith(s: State, plan: Plan, reload: bool): State {
    s.(core := s.core.(nextGeneration := plan.next),
       lane := Planned(s.core.nextGeneration, plan, IssuedBy(plan.fence, s.core.sessions),
                       CapturesOf(plan.targets, s.core.sessions), reload))
  }

  function MarkStep(s: State): State {
    s.(core := s.core.(uncertain := true), episodes := s.episodes + 1, lane := Marked)
  }

  function BumpStep(s: State, order: seq<ProfileId>): State {
    var core := Bump(s.core, order);
    s.(core := core, lane := Idle,
       captures := s.captures + CapturesOf(BumpTargets(s.core), s.core.sessions),
       named := s.named + NamingsOf(core.observed))
  }

  /**
   The task that holds the lane is dropped, and its plan with it. An episode it has begun without giving new
   numbers is torn: its flag stays set, and the numbers in use stay valid.
   */
  function DropLaneStep(s: State): State {
    s.(lane := Idle, torn := if s.lane.Marked? then s.torn + {s.episodes} else s.torn)
  }

  function MutationStep(s: State, config: seq<ConnectionProfile>, identity: MutationIdentity): State {
    match ReconcilePlan(s.core, config, identity)
    case Ok(plan) => PlanWith(s, plan, false)
    case Err(_) => MarkStep(s)
  }

  function PublishStep(s: State): State
    requires s.lane.Planned?
  {
    var observed := s.lane.plan.observed;
    s.(core := Publish(s.core, observed),
       lane := if s.lane.reload then Clearing else Idle,
       fences := s.fences + s.lane.fence,
       captures := s.captures + s.lane.captures,
       named := s.named + NamingsOf(observed),
       history := s.history + [observed.config])
  }

  function CheckStep(s: State, o: nat): State
    requires o in s.operations
  {
    var op := s.operations[o];
    match CheckCache(s.core, op.profile, op.generation)
    case Err(_) => SetPhase(s, o, Ended)
    case Ok(Some(lease)) => SetPhase(s, o, Leased(lease))
    case Ok(None) => SetPhase(s, o, Missed)
  }

  function ConnectStep(s: State, o: nat, h: Handle): State
    requires o in s.operations && s.operations[o].phase.Connecting?
  {
    var session := s.operations[o].phase.session;
    SetPhase(s, o, Connected(session, h))
      .(openedWith := s.openedWith[h := FingerprintOf(s.operations[o].profile)],
        owner := s.owner[session := h],
        place := s.place[h := InFlight(o)])
  }

  function InstallStep(s: State, o: nat): State
    requires o in s.operations && s.operations[o].phase.Connected?
  {
    var op := s.operations[o];
    var h := op.phase.handle;
    var (core, install) := Install(s.core, op.profile, op.generation, op.phase.session, h);
    match install
    case Installed(displaced, lease) =>
      TakeIf(SetPhase(s.(core := core, place := s.place[h := Cached(op.profile.id)]), o, Leased(lease)), displaced)
    case Existing(lease) => Take(SetPhase(s, o, Leased(lease)), h)
    case Stale => Take(SetPhase(s, o, Ended), h)
    case Uncertain => Take(SetPhase(s, o, Ended), h)
  }

  function ObserveStep(s: State, o: nat): State
    requires o in s.operations && s.operations[o].phase.Leased?
  {
    var op := s.operations[o];
    var lease := op.phase.lease;
    SetPhase(s, o, if Observation(s.core, lease.profileId, lease.identity.profileGeneration).Ok?
                   then Confirmed(lease) else Ended)
  }

  function EvictStep(s: State, id: ProfileId, generation: nat, session: nat): State {
    var (core, removed) := TakeExact(s.core, id, generation, session);
    TakeIf(s.(core := core), removed)
  }

  function ResolveStep(s: State, fence: Fence, allowRetag: bool): State {
    if allowRetag && fence.retagEligible then
      s.(core := RetagExact(s.core, fence.profileId, fence.previous, fence.nextGeneration,
                            fence.nextFingerprint).0)
    else
      EvictStep(s, fence.profileId, fence.previous.profileGeneration, fence.previous.sessionGeneration)
  }

  function CachedHandles(sessions: map<ProfileId, CachedSession>): set<Handle> {
    set id | id in sessions :: sessions[id].handle
  }

  /** Sessions in the cache have distinct handles (`HandlesOk`), so draining takes each once. */
  function ShutdownStep(s: State): State {
    var drained := CachedHandles(s.core.sessions);
    s.(core := s.core.(sessions := map[]),
       taken := s.taken + multiset(drained),
       place := map h | h in s.place :: if h in drained then Taken else s.place[h])
  }

  function Apply(s: State, e: Event): State
    requires Enabled(s, e)
  {
    match e
    case AcquireLane => s.(lane := Held)
    case ReleaseLane => s.(lane := Idle)
    case MarkUncertain => MarkStep(s)
    case BumpAll(order) => BumpStep(s, order)
    case PlanReload(config, removed) => PlanWith(s, ReloadPlan(s.core, config, removed), true)
    case PlanMutation(config, identity) => MutationStep(s, config, identity)
    case PublishPlan => PublishStep(s)
    case ClearFlag => s.(core := s.core.(uncertain := false), lane := Idle)
    case DropLane => DropLaneStep(s)
    case Begin(o, id, generation) =>
      s.(operations := s.operations[o := Operation(Find(s.core.observed.config, id).value, generation,
                                                   |s.history|, s.episodes, Reading)])
    case Check(o) => CheckStep(s, o)
    case Allocate(o) => SetPhase(s, o, Connecting(s.core.nextSession))
                          .(core := s.core.(nextSession := s.core.nextSession + 1))
    case Connect(o, h) => ConnectStep(s, o, h)
    case Abort(o) => SetPhase(s, o, Ended)
    case InstallOrClose(o) => InstallStep(s, o)
    case Observe(o) => ObserveStep(s, o)
    case Evict(id, generation, session) => EvictStep(s, id, generation, session)
    case Resolve(issued, allowRetag) => ResolveStep(s, issued.fence, allowRetag)
    case CloseTaken(h) =>
      s.(taken := s.taken - multiset{h}, closes := s.closes + multiset{h}, place := s.place[h := Closed])
    case Drop(o) => DropStep(s, o)
    case DropTaken(h) => DropTakenStep(s, h)
    case Shutdown => ShutdownStep(s)
  }

  function Start(config: seq<ConnectionProfile>): State {
    var assignment := Assign(config, Observed([], map[], map[]), None, 1);
    var observed := Observed(config, assignment.generations, map[]);
    State(Core(observed, map[], assignment.next, 1, false), Idle, map[], {}, {}, multiset{}, multiset{}, multiset{},
          map[], map[], map[], NamingsOf(observed), [config], 0, {})
  }

  /** A run of the service from a loaded configuration. */
  ghost predicate Run(states: seq<State>, events: seq<Event>) {
    |states| == |events| + 1
    && (exists config :: UniqueIds(config) && states[0] == Start(config))
    && forall i | 0 <= i < |events| :: Enabled(states[i], events[i]) && states[i + 1] == Apply(states[i], events[i])
  }

  // ---- the invariant ----

  ghost predicate ObservedOk(observed: Observed, history: seq<seq<ConnectionProfile>>) {
    UniqueIds(observed.config)
    && observed.generations.Keys == Ids(observed.config)
    && |history| > 0 && history[|history| - 1] == observed.config
  }

  ghost predicate NamedOk(named: set<Naming>, observed: Observed, bound: nat) {
    (forall n | n in named :: n.generation < bound)
    && (forall n, m | n in named && m in named && n.generation == m.generation :: n == m)
    && NamingsOf(observed) <= named
    && (forall n | n in named && n.profileId in observed.generations ::
          n.generation <= observed.generations[n.profileId])
  }

  /** `generation` was given to a content of this id with this fingerprint. */
  ghost predicate Names(named: set<Naming>, generation: nat, id: ProfileId, fingerprint: ConnectionFingerprint) {
    exists profile :: Naming(generation, id, Some(profile)) in named && FingerprintOf(profile) == fingerprint
  }

  ghost predicate SessionsOk(sessions: map<ProfileId, CachedSession>, openedWith: map<Handle, ConnectionFingerprint>,
                             owner: map<nat, Handle>, named: set<Naming>)
  {
    forall id | id in sessions ::
      var c := sessions[id];
      && c.handle in openedWith && openedWith[c.handle] == c.fingerprint
      && c.sessionGeneration in owner && owner[c.sessionGeneration] == c.handle
      && Names(named, c.profileGeneration, id, c.fingerprint)
  }

  /** Each handle the connector returned is in exactly the place recorded for it. */
  ghost predicate HandlesOk(operations: map<nat, Operation>, sessions: map<ProfileId, CachedSession>,
                            taken: multiset<Handle>, closes: multiset<Handle>, drops: multiset<Handle>,
                            known: set<Handle>, place: map<Handle, Place>)
  {
    place.Keys == known
    && (forall o | o in operations && operations[o].phase.Connected? ::
          var h := operations[o].phase.handle; h in place && place[h] == InFlight(o))
    && (forall id | id in sessions ::
          var h := sessions[id].handle; h in place && place[h] == Cached(id))
    && (forall h | h in taken :: h in place && place[h] == Taken && taken[h] == 1)
    && (forall h | h in closes :: h in place && place[h] == Closed && closes[h] == 1)
    && (forall h | h in drops :: h in place && place[h] == Dropped && drops[h] == 1)
    && (forall h | h in place ::
          match place[h]
          case InFlight(o) =>
            o in operations && operations[o].phase.Connected? && operations[o].phase.handle == h
          case Cached(id) => id in sessions && sessions[id].handle == h
          case Taken => h in taken
          case Closed => h in closes
          case Dropped => h in drops)
  }

  ghost predicate IssuedOk(fences: set<IssuedFence>, owner: map<nat, Handle>) {
    forall f | f in fences ::
      f.fence.previous.sessionGeneration in owner && owner[f.fence.previous.sessionGeneration] == f.handle
  }

  ghost predicate FencesOk(fences: set<IssuedFence>, owner: map<nat, Handle>, named: set<Naming>) {
    IssuedOk(fences, owner)
    && forall f | f in fences ::
         Names(named, f.fence.nextGeneration, f.fence.profileId, f.fence.nextFingerprint)
  }

  ghost predicate CapturesOk(captures: set<Capture>, owner: map<nat, Handle>) {
    forall c | c in captures ::
      c.identity.sessionGeneration in owner && owner[c.identity.sessionGeneration] == c.handle
  }

  /** A plan keeps a number only with its content and otherwise uses numbers from `base` on, each once. */
  ghost predicate PlanOk(observed: Observed, base: nat, plan: Plan) {
    var next := plan.observed;
    && base <= plan.next
    && UniqueIds(next.config) && next.generations.Keys == Ids(next.config)
    && (forall id | id in next.generations ::
          next.generations[id] < plan.next
          && (next.generations[id] < base ==>
                id in observed.generations && observed.generations[id] == next.generations[id]
                && Find(observed.config, id) == Find(next.config, id)))
    && (forall id | id in next.tombstones ::
          if id in observed.tombstones && observed.tombstones[id] == next.tombstones[id] then true
          else base <= next.tombstones[id] < plan.next && id !in next.generations)
    && (forall p, q | p in next.generations && q in next.generations && p != q && base <= next.generations[p] ::
          next.generations[p] != next.generations[q])
    && (forall p, q | p in next.tombstones && q in next.tombstones && p != q && base <= next.tombstones[p] ::
          next.tombstones[p] != next.tombstones[q])
    && (forall p, q | p in next.generations && q in next.tombstones && base <= next.generations[p] ::
          next.generations[p] != next.tombstones[q])
    && (plan.fence.Some? ==>
          var f := plan.fence.value;
          && f.profileId in next.generations && f.nextGeneration == next.generations[f.profileId]
          && Find(next.config, f.profileId).Some?
          && FingerprintOf(Find(next.config, f.profileId).value) == f.nextFingerprint)
  }

  ghost predicate LaneOk(lane: Lane, core: Core, owner: map<nat, Handle>) {
    match lane
    case Marked => core.uncertain
    case Planned(base, plan, fence, captures, _) =>
      plan.next == core.nextGeneration && PlanOk(core.observed, base, plan)
      && IssuedOk(fence, owner) && CapturesOk(captures, owner)
      && (forall f | f in fence :: plan.fence == Some(f.fence))
    case _ => true
  }

  function Bound(s: State): nat {
    if s.lane.Planned? then s.lane.base else s.core.nextGeneration
  }

  ghost predicate LeaseOk(lease: Lease, openedWith: map<Handle, ConnectionFingerprint>, owner: map<nat, Handle>) {
    lease.profileId == lease.profile.id
    && lease.handle in openedWith && openedWith[lease.handle] == FingerprintOf(lease.profile)
    && lease.identity.sessionGeneration in owner && owner[lease.identity.sessionGeneration] == lease.handle
  }

  ghost predicate PhaseOk(op: Operation, openedWith: map<Handle, ConnectionFingerprint>, owner: map<nat, Handle>,
                          nextSession: nat)
  {
    match op.phase
    case Connecting(session) => session < nextSession && session !in owner
    case Connected(session, h) =>
      session in owner && owner[session] == h && h in openedWith && openedWith[h] == FingerprintOf(op.profile)
    case Leased(lease) =>
      LeaseOk(lease, openedWith, owner) && lease.profile == op.profile
      && lease.identity.profileGeneration == op.generation
    case Confirmed(lease) =>
      LeaseOk(lease, openedWith, owner) && lease.profile == op.profile
      && lease.identity.profileGeneration == op.generation
    case _ => true
  }

  /** Every configuration published since the operation read its profile still held that profile. */
  ghost predicate Steady(op: Operation, history: seq<seq<ConnectionProfile>>) {
    op.readAt <= |history|
    && forall k | op.readAt <= k < |history| :: Find(history[k], op.profile.id) == Some(op.profile)
  }

  /** While the operation's generation is the published one, nothing has happened that it must notice. */
  ghost predicate Undisturbed(op: Operation, generations: map<ProfileId, nat>, history: seq<seq<ConnectionProfile>>,
                              episodes: nat, torn: set<nat>, marked: bool)
  {
    op.profile.id in generations && generations[op.profile.id] == op.generation ==>
      && Steady(op, history)
      && op.episodesAtRead <= episodes
      && forall e | op.episodesAtRead < e <= episodes :: e in torn || (marked && e == episodes)
  }

  ghost predicate ReadsOk(operations: map<nat, Operation>, generations: map<ProfileId, nat>, named: set<Naming>,
                          history: seq<seq<ConnectionProfile>>, episodes: nat, torn: set<nat>, marked: bool)
  {
    forall o | o in operations ::
      var op := operations[o];
      && Naming(op.generation, op.profile.id, Some(op.profile)) in named
      && Undisturbed(op, generations, history, episodes, torn, marked)
  }

  ghost predicate PhasesOk(operations: map<nat, Operation>, openedWith: map<Handle, ConnectionFingerprint>,
                           owner: map<nat, Handle>, nextSession: nat)
  {
    (forall session | session in owner :: session < nextSession)
    && (forall o | o in operations :: PhaseOk(operations[o], openedWith, owner, nextSession))
    && (forall o, p | o in operations && p in operations && o != p
          && operations[o].phase.Connecting? && operations[p].phase.Connecting? ::
          operations[o].phase.session != operations[p].phase.session)
  }

  ghost predicate Inv(s: State) {
    ObservedOk(s.core.observed, s.history)
    && NamedOk(s.named, s.core.observed, Bound(s))
    && SessionsOk(s.core.sessions, s.openedWith, s.owner, s.named)
    && HandlesOk(s.operations, s.core.sessions, s.taken, s.closes, s.drops, s.openedWith.Keys, s.place)
    && FencesOk(s.fences, s.owner, s.named)
    && CapturesOk(s.captures, s.owner)
    && LaneOk(s.lane, s.core, s.owner)
    && ReadsOk(s.operations, s.core.observed.generations, s.named, s.history, s.episodes, s.torn, s.lane.Marked?)
    && (forall e | e in s.torn :: e <= s.episodes)
    && PhasesOk(s.operations, s.openedWith, s.owner, s.core.nextSession)
  }
}

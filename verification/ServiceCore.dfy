/**
 The state behind the service lock and, as functions on values, what each locked section and each
 piece of lane-local planning makes of it.
 */
module ServiceCore {
  import opened Wrappers
  import opened Profiles

  type Handle = nat

  datatype CachedSession = CachedSession(
    profileGeneration: nat,
    sessionGeneration: nat,
    fingerprint: ConnectionFingerprint,
    handle: Handle)
  {
    function Identity(): SessionIdentity {
      SessionIdentity(profileGeneration, sessionGeneration, fingerprint)
    }
  }

  datatype SessionIdentity = SessionIdentity(
    profileGeneration: nat,
    sessionGeneration: nat,
    fingerprint: ConnectionFingerprint)

  datatype Observed = Observed(
    config: seq<ConnectionProfile>,
    generations: map<ProfileId, nat>,
    tombstones: map<ProfileId, nat>)

  /** `ServiceState` together with the atomics that live beside it. */
  datatype Core = Core(
    observed: Observed,
    sessions: map<ProfileId, CachedSession>,
    nextGeneration: nat,
    nextSession: nat,
    uncertain: bool)

  datatype MutationIdentity =
    | Create(profileId: ProfileId)
    | Update(profileId: ProfileId, retagEligible: bool)
    | Delete(profileId: ProfileId)

  datatype Fence = Fence(
    profileId: ProfileId,
    previous: SessionIdentity,
    nextGeneration: nat,
    nextFingerprint: ConnectionFingerprint,
    retagEligible: bool)

  datatype CleanupTarget = CleanupTarget(
    profileId: ProfileId,
    previousGeneration: nat,
    session: Option<SessionIdentity>)

  datatype Plan = Plan(
    observed: Observed,
    next: nat,
    fence: Option<Fence>,
    targets: set<CleanupTarget>)

  datatype Lease = Lease(
    profileId: ProfileId,
    profile: ConnectionProfile,
    identity: SessionIdentity,
    handle: Handle)

  datatype ServiceError = ConfigUncertain | ProfileStale | UnknownProfile

  // ---- allocating generations ----

  datatype Assignment = Assignment(generations: map<ProfileId, nat>, next: nat)

  /** A profile keeps its generation when its content is what it was and no mutation targets it. */
  predicate Keeps(profile: ConnectionProfile, previous: Observed, forced: Option<ProfileId>) {
    forced != Some(profile.id)
    && Find(previous.config, profile.id) == Some(profile)
    && profile.id in previous.generations
  }

  /** The generations of a newly observed configuration, allocated in configuration order from `next`. */
  function Assign(config: seq<ConnectionProfile>, previous: Observed, forced: Option<ProfileId>, next: nat)
    : Assignment
  {
    if config == [] then Assignment(map[], next)
    else
      var last := config[|config| - 1];
      var earlier := Assign(config[..|config| - 1], previous, forced, next);
      if Keeps(last, previous, forced)
      then Assignment(earlier.generations[last.id := previous.generations[last.id]], earlier.next)
      else Assignment(earlier.generations[last.id := earlier.next], earlier.next + 1)
  }

  /** One fresh number for each id of `order`, added to `numbers`. */
  function Allot(order: seq<ProfileId>, numbers: map<ProfileId, nat>, next: nat): map<ProfileId, nat> {
    if order == [] then numbers
    else
      var n := |order| - 1;
      Allot(order[..n], numbers, next)[order[n] := next + n]
  }

  /** `order` lists each member of `ids` once; iteration over a hash map visits keys in such an order. */
  predicate Enumerates(order: seq<ProfileId>, ids: set<ProfileId>) {
    (forall i, j | 0 <= i < j < |order| :: order[i] != order[j])
    && (set p | p in order) == ids
  }

  // ---- planning a publish ----

  predicate Changed(id: ProfileId, previous: Observed, config: seq<ConnectionProfile>) {
    id in Ids(previous.config) && Find(config, id) != Find(previous.config, id)
  }

  predicate Touched(id: ProfileId, previous: Observed, config: seq<ConnectionProfile>, identity: MutationIdentity) {
    Changed(id, previous, config)
    || (id in Ids(previous.config) && id == identity.profileId && !identity.Create?)
  }

  function IdentityAt(sessions: map<ProfileId, CachedSession>, id: ProfileId): Option<SessionIdentity> {
    if id in sessions then Some(sessions[id].Identity()) else None
  }

  function ReloadTargets(previous: Observed, sessions: map<ProfileId, CachedSession>,
                         config: seq<ConnectionProfile>): set<CleanupTarget>
  {
    set id | id in previous.generations && Changed(id, previous, config) ::
      CleanupTarget(id, previous.generations[id], IdentityAt(sessions, id))
  }

  /** The planning half of `replace_loaded_config`. */
  function ReloadPlan(core: Core, config: seq<ConnectionProfile>, removed: seq<ProfileId>): Plan {
    var assignment := Assign(config, core.observed, None, core.nextGeneration);
    Plan(Observed(config, assignment.generations, Allot(removed, core.observed.tombstones, assignment.next)),
         assignment.next + |removed|,
         None,
         ReloadTargets(core.observed, core.sessions, config))
  }

  function Forced(identity: MutationIdentity): Option<ProfileId> {
    if identity.Delete? then None else Some(identity.profileId)
  }

  function ReconcileTargets(previous: Observed, sessions: map<ProfileId, CachedSession>,
                            config: seq<ConnectionProfile>, identity: MutationIdentity): set<CleanupTarget>
  {
    set id | id in previous.generations && Touched(id, previous, config, identity) ::
      CleanupTarget(id, previous.generations[id],
                    if identity.Update? && id == identity.profileId then None else IdentityAt(sessions, id))
  }

  function ReconcileFence(previous: Observed, sessions: map<ProfileId, CachedSession>,
                          config: seq<ConnectionProfile>, identity: MutationIdentity,
                          generations: map<ProfileId, nat>): Option<Fence>
  {
    var id := identity.profileId;
    if identity.Update? && id in Ids(previous.config) && id in sessions && id in generations
       && Find(config, id).Some?
    then Some(Fence(id, sessions[id].Identity(), generations[id],
                    FingerprintOf(Find(config, id).value), identity.retagEligible))
    else None
  }

  /** The planning half of `reconcile_after_mutation`, with its two `ConfigUncertain` exits. */
  function ReconcilePlan(core: Core, config: seq<ConnectionProfile>, identity: MutationIdentity)
    : Result<Plan, ServiceError>
  {
    var previous := core.observed;
    var assignment := Assign(config, previous, Forced(identity), core.nextGeneration);
    if exists id :: id in Ids(previous.config) && Touched(id, previous, config, identity)
                    && id !in previous.generations
    then Err(ConfigUncertain)
    else if !identity.Delete? && identity.profileId !in assignment.generations then Err(ConfigUncertain)
    else
      var buried := if identity.Delete? then [identity.profileId] else [];
      Ok(Plan(Observed(config, assignment.generations, Allot(buried, previous.tombstones, assignment.next)),
              assignment.next + |buried|,
              ReconcileFence(previous, core.sessions, config, identity, assignment.generations),
              ReconcileTargets(previous, core.sessions, config, identity)))
  }

  // ---- locked sections ----

  /** The write-locked half of `enter_config_uncertain_deferred`: every generation is replaced. */
  function Bump(core: Core, order: seq<ProfileId>): Core {
    core.(observed := core.observed.(generations := Allot(order, core.observed.generations, core.nextGeneration)),
          nextGeneration := core.nextGeneration + |order|)
  }

  function BumpTargets(core: Core): set<CleanupTarget> {
    set id | id in core.observed.generations ::
      CleanupTarget(id, core.observed.generations[id], IdentityAt(core.sessions, id))
  }

  function Publish(core: Core, observed: Observed): Core {
    core.(observed := observed)
  }

  predicate IsCurrent(core: Core, profile: ConnectionProfile, generation: nat) {
    profile.id in core.observed.generations
    && core.observed.generations[profile.id] == generation
    && profile in core.observed.config
  }

  predicate Reusable(core: Core, profile: ConnectionProfile, generation: nat) {
    profile.id in core.sessions
    && core.sessions[profile.id].fingerprint == FingerprintOf(profile)
    && core.sessions[profile.id].profileGeneration == generation
  }

  function LeaseOf(profile: ConnectionProfile, cached: CachedSession): Lease {
    Lease(profile.id, profile, cached.Identity(), cached.handle)
  }

  /** The first locked section of `session_for`: a lease, a miss, or an error. */
  function CheckCache(core: Core, profile: ConnectionProfile, generation: nat): Result<Option<Lease>, ServiceError> {
    if core.uncertain then Err(ConfigUncertain)
    else if !IsCurrent(core, profile, generation) then Err(ProfileStale)
    else if Reusable(core, profile, generation) then Ok(Some(LeaseOf(profile, core.sessions[profile.id])))
    else Ok(None)
  }

  datatype CacheInstall =
    | Installed(displaced: Option<Handle>, lease: Lease)
    | Existing(lease: Lease)
    | Stale
    | Uncertain

  function Fresh(profile: ConnectionProfile, generation: nat, session: nat, handle: Handle): CachedSession {
    CachedSession(generation, session, FingerprintOf(profile), handle)
  }

  /** The second locked section of `session_for`, after the connection has been made. */
  function Install(core: Core, profile: ConnectionProfile, generation: nat, session: nat, handle: Handle)
    : (Core, CacheInstall)
  {
    if core.uncertain then (core, Uncertain)
    else if !IsCurrent(core, profile, generation) then (core, Stale)
    else if Reusable(core, profile, generation) then
      (core, Existing(LeaseOf(profile, core.sessions[profile.id])))
    else
      var installed := Fresh(profile, generation, session, handle);
      (core.(sessions := core.sessions[profile.id := installed]),
       Installed(if profile.id in core.sessions then Some(core.sessions[profile.id].handle) else None,
                 LeaseOf(profile, installed)))
  }

  predicate Matches(core: Core, id: ProfileId, generation: nat, session: nat) {
    id in core.sessions
    && core.sessions[id].profileGeneration == generation
    && core.sessions[id].sessionGeneration == session
  }

  /** `take_cached_session_exact`. */
  function TakeExact(core: Core, id: ProfileId, generation: nat, session: nat): (Core, Option<Handle>) {
    if Matches(core, id, generation, session)
    then (core.(sessions := core.sessions - {id}), Some(core.sessions[id].handle))
    else (core, None)
  }

  /** `retag_cached_session_exact`. */
  function RetagExact(core: Core, id: ProfileId, expected: SessionIdentity, generation: nat,
                      fingerprint: ConnectionFingerprint): (Core, bool)
  {
    if id in core.sessions && core.sessions[id].Identity() == expected
       && core.sessions[id].fingerprint == fingerprint
    then (core.(sessions := core.sessions[id := core.sessions[id].(profileGeneration := generation)]), true)
    else (core, false)
  }

  /** `ensure_session_observation`. */
  function Observation(core: Core, id: ProfileId, generation: nat): Result<(), ServiceError> {
    if core.uncertain then Err(ConfigUncertain)
    else if id in core.observed.generations && core.observed.generations[id] == generation then Ok(())
    else Err(ProfileStale)
  }

  // ---- what the allocators promise ----

  lemma {:induction false} AssignKeys(config: seq<ConnectionProfile>, previous: Observed,
                                      forced: Option<ProfileId>, next: nat)
    ensures var a := Assign(config, previous, forced, next);
            a.generations.Keys == Ids(config) && next <= a.next <= next + |config|
  {
    if config != [] {
      var n := |config| - 1;
      AssignKeys(config[..n], previous, forced, next);
      assert config == config[..n] + [config[n]];
      assert Ids(config) == Ids(config[..n]) + {config[n].id};
    }
  }

  /** A kept profile keeps its number; any other gets one from `next` on. */
  lemma {:induction false} AssignAt(config: seq<ConnectionProfile>, previous: Observed,
                                    forced: Option<ProfileId>, next: nat, i: nat)
    requires UniqueIds(config) && i < |config|
    ensures var a := Assign(config, previous, forced, next);
            && config[i].id in a.generations
            && (Keeps(config[i], previous, forced) ==>
                  a.generations[config[i].id] == previous.generations[config[i].id])
            && (!Keeps(config[i], previous, forced) ==> next <= a.generations[config[i].id] < a.next)
  {
    AssignKeys(config, previous, forced, next);
    var n := |config| - 1;
    AssignKeys(config[..n], previous, forced, next);
    if i < n {
      AssignAt(config[..n], previous, forced, next, i);
    }
  }

  /** No two profiles share a fresh number. */
  lemma {:induction false} AssignDistinct(config: seq<ConnectionProfile>, previous: Observed,
                                          forced: Option<ProfileId>, next: nat, i: nat, j: nat)
    requires UniqueIds(config) && i < j < |config|
    requires !Keeps(config[i], previous, forced) && !Keeps(config[j], previous, forced)
    ensures config[i].id in Assign(config, previous, forced, next).generations
    ensures config[j].id in Assign(config, previous, forced, next).generations
    ensures Assign(config, previous, forced, next).generations[config[i].id]
         != Assign(config, previous, forced, next).generations[config[j].id]
  {
    AssignKeys(config, previous, forced, next);
    var n := |config| - 1;
    AssignAt(config[..n], previous, forced, next, i);
    if j < n {
      AssignDistinct(config[..n], previous, forced, next, i, j);
    }
  }

  lemma {:induction false} AllotMeaning(order: seq<ProfileId>, numbers: map<ProfileId, nat>, next: nat)
    requires forall i, j | 0 <= i < j < |order| :: order[i] != order[j]
    ensures var m := Allot(order, numbers, next);
            && m.Keys == numbers.Keys + (set p | p in order)
            && (forall i | 0 <= i < |order| :: m[order[i]] == next + i)
            && (forall p | p in numbers && p !in order :: m[p] == numbers[p])
  {
    if order != [] {
      var n := |order| - 1;
      AllotMeaning(order[..n], numbers, next);
      assert order == order[..n] + [order[n]];
      assert forall i | 0 <= i < n :: order[..n][i] == order[i];
    }
  }
}

/** What the sections and plans of the service do, in terms of profiles, numbers and sessions alone. */
module ServiceLaws {
  import opened Wrappers
  import opened Profiles
  import opened ServiceCore

  /** A fingerprint is all of a profile but its id and its name. */
  lemma FingerprintMeaning(p: ConnectionProfile, q: ConnectionProfile)
    ensures FingerprintOf(p) == FingerprintOf(q) <==> p.(id := q.id, name := q.name) == q
  {
  }

  // ---- the locked sections ----

  /** The session of the cache that serves this profile under this number. */
  ghost predicate Serves(core: Core, profile: ConnectionProfile, generation: nat) {
    && profile.id in core.sessions && core.sessions[profile.id].profileGeneration == generation
    && core.sessions[profile.id].fingerprint == FingerprintOf(profile)
  }

  ghost predicate IsPublished(core: Core, profile: ConnectionProfile, generation: nat) {
    && profile in core.observed.config && profile.id in core.observed.generations
    && core.observed.generations[profile.id] == generation
  }

  /** The lease of a session that is in the cache. */
  ghost predicate LeaseIs(lease: Lease, profile: ConnectionProfile, cached: CachedSession) {
    && lease.profileId == profile.id && lease.profile == profile && lease.handle == cached.handle
    && lease.identity.profileGeneration == cached.profileGeneration
    && lease.identity.sessionGeneration == cached.sessionGeneration
    && lease.identity.fingerprint == cached.fingerprint
  }

  /** The check hands out a session that serves the profile whenever there is one, and says why otherwise. */
  lemma CheckMeaning(core: Core, profile: ConnectionProfile, generation: nat)
    ensures var outcome := CheckCache(core, profile, generation);
            if core.uncertain then outcome == Err(ConfigUncertain)
            else if !IsPublished(core, profile, generation) then outcome == Err(ProfileStale)
            else if !Serves(core, profile, generation) then outcome == Ok(None)
            else outcome.Ok? && outcome.value.Some? && LeaseIs(outcome.value.value, profile, core.sessions[profile.id])
  {
    hide FingerprintOf;
  }

  /**
   After connecting: a session that serves the profile is handed out instead and the cache stays; without one the
   new session takes the place of the one cached for the id, which is given back; and nothing is cached for a
   profile that is no longer the published one.
   */
  lemma InstallMeaning(core: Core, profile: ConnectionProfile, generation: nat, session: nat, handle: Handle)
    ensures var (after, install) := Install(core, profile, generation, session, handle);
            if core.uncertain then after == core && install == Uncertain
            else if !IsPublished(core, profile, generation) then after == core && install == Stale
            else if Serves(core, profile, generation) then
              after == core && install.Existing? && LeaseIs(install.lease, profile, core.sessions[profile.id])
            else
              && install.Installed? && profile.id in after.sessions
              && after.sessions[profile.id].handle == handle && Serves(after, profile, generation)
              && after.sessions[profile.id].sessionGeneration == session
              && LeaseIs(install.lease, profile, after.sessions[profile.id])
              && (forall id | id != profile.id ::
                    (id in after.sessions <==> id in core.sessions)
                    && (id in core.sessions ==> after.sessions[id] == core.sessions[id]))
              && install.displaced == (if profile.id in core.sessions then Some(core.sessions[profile.id].handle) else None)
              && after.(sessions := core.sessions) == core
  {
    hide FingerprintOf;
  }

  ghost predicate IsSession(core: Core, id: ProfileId, profileGeneration: nat, sessionGeneration: nat) {
    && id in core.sessions && core.sessions[id].profileGeneration == profileGeneration
    && core.sessions[id].sessionGeneration == sessionGeneration
  }

  /** The session with both numbers leaves the cache, with its handle, and no other does. */
  lemma TakeMeaning(core: Core, id: ProfileId, generation: nat, session: nat)
    ensures var (after, taken) := TakeExact(core, id, generation, session);
            && after.(sessions := core.sessions) == core
            && (IsSession(core, id, generation, session) ==>
                  taken == Some(core.sessions[id].handle) && after.sessions == core.sessions - {id})
            && (!IsSession(core, id, generation, session) ==> taken == None && after == core)
  {
  }

  /** The session with this identity and this fingerprint gets the new number, and nothing else changes. */
  lemma RetagMeaning(core: Core, id: ProfileId, expected: SessionIdentity, generation: nat,
                     fingerprint: ConnectionFingerprint)
    ensures var (after, retagged) := RetagExact(core, id, expected, generation, fingerprint);
            && (retagged <==> && IsSession(core, id, expected.profileGeneration, expected.sessionGeneration)
                              && core.sessions[id].fingerprint == expected.fingerprint == fingerprint)
            && (!retagged ==> after == core)
            && (retagged ==>
                  && after.(sessions := core.sessions) == core && after.sessions.Keys == core.sessions.Keys
                  && after.sessions[id].profileGeneration == generation
                  && after.sessions[id].(profileGeneration := core.sessions[id].profileGeneration) == core.sessions[id]
                  && forall other | other in core.sessions && other != id ::
                       after.sessions[other] == core.sessions[other])
  {
  }

  /** The observation succeeds exactly while the flag is down and the number is the published one. */
  lemma ObservationMeaning(core: Core, id: ProfileId, generation: nat)
    ensures Observation(core, id, generation)
         == if core.uncertain then Err(ConfigUncertain)
            else if id !in core.observed.generations || core.observed.generations[id] != generation then Err(ProfileStale)
            else Ok(())
  {
  }

  // ---- what a plan publishes ----

  /** Every profile has a number, and each id one profile. */
  ghost predicate Numbered(observed: Observed) {
    UniqueIds(observed.config) && observed.generations.Keys == Ids(observed.config)
  }

  /**
   Of the config a plan publishes, each profile that was published just so keeps its number, unless it is the one
   that is renewed; each other has a new number, and no two the same.
   */
  ghost predicate KeepsNumbers(core: Core, config: seq<ConnectionProfile>, renewed: Option<ProfileId>, plan: Plan)
    requires Numbered(core.observed)
  {
    && plan.observed.config == config && plan.observed.generations.Keys == Ids(config)
    && core.nextGeneration <= plan.next
    && (forall p | p in config ::
          var g := plan.observed.generations[p.id];
          if p in core.observed.config && renewed != Some(p.id) then g == core.observed.generations[p.id]
          else core.nextGeneration <= g < plan.next)
    && (forall p, q | p in config && q in config && p.id != q.id
          && core.nextGeneration <= plan.observed.generations[p.id]
          && core.nextGeneration <= plan.observed.generations[q.id] ::
          plan.observed.generations[p.id] != plan.observed.generations[q.id])
  }

  /** Each id that goes has a new number as its tombstone, different from every new generation; the others stay. */
  ghost predicate Buries(core: Core, gone: set<ProfileId>, plan: Plan) {
    && plan.observed.tombstones.Keys == core.observed.tombstones.Keys + gone
    && (forall id | id in core.observed.tombstones && id !in gone ::
          plan.observed.tombstones[id] == core.observed.tombstones[id])
    && (forall id | id in gone ::
          core.nextGeneration <= plan.observed.tombstones[id] < plan.next
          && forall p | p in plan.observed.generations ::
               plan.observed.generations[p] < core.nextGeneration
               || plan.observed.generations[p] != plan.observed.tombstones[id])
    && (forall a, b | a in gone && b in gone && a != b :: plan.observed.tombstones[a] != plan.observed.tombstones[b])
  }

  /** A profile that was published and is not, or not unchanged, in the new config. */
  ghost predicate Retires(core: Core, config: seq<ConnectionProfile>, p: ConnectionProfile) {
    p in core.observed.config && p !in config
  }

  /** What is cleaned up of a profile: its old number, and the session cached for its id. */
  ghost predicate TargetIs(core: Core, p: ConnectionProfile, withSession: bool, t: CleanupTarget) {
    && p.id in core.observed.generations && t.profileId == p.id && t.previousGeneration == core.observed.generations[p.id]
    && t.session == if withSession && p.id in core.sessions then Some(core.sessions[p.id].Identity()) else None
  }

  lemma FoundIs(config: seq<ConnectionProfile>, p: ConnectionProfile)
    requires UniqueIds(config)
    ensures Find(config, p.id) == Some(p) <==> p in config
    ensures Find(config, p.id).Some? <==> p.id in Ids(config)
  {
    FindMeaning(config, p.id);
  }

  lemma AssignedNumbers(core: Core, config: seq<ConnectionProfile>, renewed: Option<ProfileId>, plan: Plan)
    requires UniqueIds(config) && Numbered(core.observed)
    requires forall id | id in core.observed.generations :: core.observed.generations[id] < core.nextGeneration
    requires var a := Assign(config, core.observed, renewed, core.nextGeneration);
             plan.observed.config == config && plan.observed.generations == a.generations && a.next <= plan.next
    ensures KeepsNumbers(core, config, renewed, plan)
  {
    var previous, base := core.observed, core.nextGeneration;
    AssignKeys(config, previous, renewed, base);
    forall p | p in config
      ensures if p in previous.config && renewed != Some(p.id) then
                plan.observed.generations[p.id] == previous.generations[p.id]
              else base <= plan.observed.generations[p.id] < plan.next
    {
      var i :| 0 <= i < |config| && config[i] == p;
      AssignAt(config, previous, renewed, base, i);
      FoundIs(previous.config, p);
    }
    forall p, q | p in config && q in config && p.id != q.id && base <= plan.observed.generations[p.id]
                  && base <= plan.observed.generations[q.id]
      ensures plan.observed.generations[p.id] != plan.observed.generations[q.id]
    {
      AssignedApart(core, config, renewed, p, q);
    }
  }

  lemma AssignedApart(core: Core, config: seq<ConnectionProfile>, renewed: Option<ProfileId>, p: ConnectionProfile,
                      q: ConnectionProfile)
    requires UniqueIds(config) && p in config && q in config && p.id != q.id
    requires forall id | id in core.observed.generations :: core.observed.generations[id] < core.nextGeneration
    ensures var numbers := Assign(config, core.observed, renewed, core.nextGeneration).generations;
            && p.id in numbers && q.id in numbers
            && (core.nextGeneration <= numbers[p.id] && core.nextGeneration <= numbers[q.id] ==>
                  numbers[p.id] != numbers[q.id])
  {
    var previous, base := core.observed, core.nextGeneration;
    var i :| 0 <= i < |config| && config[i] == p;
    var j :| 0 <= j < |config| && config[j] == q;
    AssignAt(config, previous, renewed, base, i);
    AssignAt(config, previous, renewed, base, j);
    if !Keeps(p, previous, renewed) && !Keeps(q, previous, renewed) {
      if i < j {
        AssignDistinct(config, previous, renewed, base, i, j);
      } else {
        AssignDistinct(config, previous, renewed, base, j, i);
      }
    }
  }

  lemma BuriedNumbers(core: Core, config: seq<ConnectionProfile>, renewed: Option<ProfileId>, removed: seq<ProfileId>,
                      plan: Plan)
    requires forall i, j | 0 <= i < j < |removed| :: removed[i] != removed[j]
    requires var a := Assign(config, core.observed, renewed, core.nextGeneration);
             && plan.observed.generations == a.generations && plan.next == a.next + |removed|
             && plan.observed.tombstones == Allot(removed, core.observed.tombstones, a.next)
    requires UniqueIds(config)
    requires forall id | id in core.observed.generations :: core.observed.generations[id] < core.nextGeneration
    ensures Buries(core, (set id | id in removed), plan)
  {
    var a := Assign(config, core.observed, renewed, core.nextGeneration);
    AssignKeys(config, core.observed, renewed, core.nextGeneration);
    forall p | p in a.generations
      ensures a.generations[p] < a.next
    {
      var i :| 0 <= i < |config| && config[i].id == p;
      AssignAt(config, core.observed, renewed, core.nextGeneration, i);
    }
    hide Assign, Allot;
    AllottedApart(removed, core.observed.tombstones, a.next);
  }

  lemma AllottedApart(order: seq<ProfileId>, numbers: map<ProfileId, nat>, base: nat)
    requires forall i, j | 0 <= i < j < |order| :: order[i] != order[j]
    ensures var m := Allot(order, numbers, base);
            && m.Keys == numbers.Keys + (set p | p in order)
            && (forall p | p in numbers && p !in order :: m[p] == numbers[p])
            && (forall p | p in order :: base <= m[p] < base + |order|)
            && (forall p, q | p in order && q in order && p != q :: m[p] != m[q])
  {
    AllotMeaning(order, numbers, base);
    hide Allot;
    var m := Allot(order, numbers, base);
    forall p | p in order
      ensures exists i :: 0 <= i < |order| && order[i] == p && m[p] == base + i
    {
      var i :| 0 <= i < |order| && order[i] == p;
    }
    forall p, q | p in order && q in order && p != q
      ensures m[p] != m[q]
    {
      var i :| 0 <= i < |order| && order[i] == p && m[p] == base + i;
      var j :| 0 <= j < |order| && order[j] == q && m[q] == base + j;
    }
  }

  /**
   A reload renumbers exactly the profiles that are not as they were, buries exactly the ids that are gone, and
   cleans up exactly what was published and is so no more.
   */
  lemma ReloadPlanMeaning(core: Core, config: seq<ConnectionProfile>, removed: seq<ProfileId>)
    requires UniqueIds(config) && Numbered(core.observed) && Enumerates(removed, Ids(core.observed.config) - Ids(config))
    requires forall id | id in core.observed.generations :: core.observed.generations[id] < core.nextGeneration
    ensures var plan := ReloadPlan(core, config, removed);
            && KeepsNumbers(core, config, None, plan)
            && Buries(core, Ids(core.observed.config) - Ids(config), plan)
            && plan.fence == None
            && (forall t | t in plan.targets :: exists p :: Retires(core, config, p) && TargetIs(core, p, true, t))
            && (forall p | Retires(core, config, p) :: exists t | t in plan.targets :: TargetIs(core, p, true, t))
  {
    var plan := ReloadPlan(core, config, removed);
    AssignKeys(config, core.observed, None, core.nextGeneration);
    AssignedNumbers(core, config, None, plan);
    BuriedNumbers(core, config, None, removed, plan);
    forall t | t in plan.targets
      ensures exists p :: Retires(core, config, p) && TargetIs(core, p, true, t)
    {
      var p := ChangedProfile(core, config, t.profileId);
    }
    forall p | Retires(core, config, p)
      ensures exists t | t in plan.targets :: TargetIs(core, p, true, t)
    {
      RetiredIsChanged(core, config, p);
      var t := CleanupTarget(p.id, core.observed.generations[p.id], IdentityAt(core.sessions, p.id));
      assert t in plan.targets && TargetIs(core, p, true, t);
    }
  }

  lemma ChangedProfile(core: Core, config: seq<ConnectionProfile>, id: ProfileId) returns (p: ConnectionProfile)
    requires UniqueIds(config) && Numbered(core.observed) && Changed(id, core.observed, config)
    ensures p.id == id && Retires(core, config, p)
  {
    FindMeaning(core.observed.config, id);
    p := Find(core.observed.config, id).value;
    FoundIs(config, p);
  }

  lemma RetiredIsChanged(core: Core, config: seq<ConnectionProfile>, p: ConnectionProfile)
    requires UniqueIds(config) && Numbered(core.observed) && Retires(core, config, p)
    ensures p.id in core.observed.generations && Changed(p.id, core.observed, config)
  {
    FoundIs(config, p);
    FoundIs(core.observed.config, p);
  }

  /** What a mutation cleans up: what retires, and the profile it updates or deletes in any case. */
  ghost predicate Affected(core: Core, config: seq<ConnectionProfile>, identity: MutationIdentity, p: ConnectionProfile) {
    Retires(core, config, p) || (p in core.observed.config && p.id == identity.profileId && !identity.Create?)
  }

  /** The profile a mutation writes has a new number in any case; a deletion renews nothing. */
  ghost function Renewed(identity: MutationIdentity): Option<ProfileId> {
    match identity
    case Create(id) => Some(id)
    case Update(id, _) => Some(id)
    case Delete(_) => None
  }

  /** The fence of an update: the session that was cached for the profile, and what it may be retagged to. */
  ghost predicate FenceIs(core: Core, config: seq<ConnectionProfile>, identity: MutationIdentity, plan: Plan) {
    var id := identity.profileId;
    if identity.Update? && id in core.sessions && id in Ids(core.observed.config) then
      && plan.fence.Some? && id in plan.observed.generations
      && var f := plan.fence.value;
      && f.profileId == id && f.previous == core.sessions[id].Identity()
      && f.nextGeneration == plan.observed.generations[id] && f.retagEligible == identity.retagEligible
      && exists q :: q in config && q.id == id && f.nextFingerprint == FingerprintOf(q)
    else plan.fence == None
  }

  /**
   A mutation renumbers the profile it writes and every profile that is not as it was, and no other; it buries the
   id it deletes; the session of the profile it updates goes to the fence and every other session of what changed
   to the targets. It fails exactly where the profile it says it wrote is not in the config.
   */
  lemma ReconcilePlanMeaning(core: Core, config: seq<ConnectionProfile>, identity: MutationIdentity)
    requires UniqueIds(config) && Numbered(core.observed)
    requires forall id | id in core.observed.generations :: core.observed.generations[id] < core.nextGeneration
    ensures ReconcilePlan(core, config, identity).Ok? <==> identity.Delete? || identity.profileId in Ids(config)
    ensures ReconcilePlan(core, config, identity).Ok? ==>
              var plan := ReconcilePlan(core, config, identity).value;
              && KeepsNumbers(core, config, Renewed(identity), plan)
              && Buries(core, if identity.Delete? then {identity.profileId} else {}, plan)
              && FenceIs(core, config, identity, plan)
              && (forall t | t in plan.targets ::
                    exists p :: Affected(core, config, identity, p)
                                && TargetIs(core, p, !(identity.Update? && p.id == identity.profileId), t))
              && (forall p | Affected(core, config, identity, p) ::
                    exists t | t in plan.targets ::
                      TargetIs(core, p, !(identity.Update? && p.id == identity.profileId), t))
  {
    AssignKeys(config, core.observed, Renewed(identity), core.nextGeneration);
    NothingUnnumbered(core, config, identity);
    assert Forced(identity) == Renewed(identity);
    if ReconcilePlan(core, config, identity).Ok? {
      NumbersOfPlan(core, config, identity);
      var plan := ReconcilePlan(core, config, identity).value;
      assert plan.fence == ReconcileFence(core.observed, core.sessions, config, identity, plan.observed.generations);
      assert plan.targets == ReconcileTargets(core.observed, core.sessions, config, identity);
      hide ReconcilePlan, KeepsNumbers, Buries, FenceIs, TargetIs, Affected, ReconcileTargets, ReconcileFence;
      FenceOfPlan(core, config, identity, plan);
      TargetsOfPlan(core, config, identity, plan);
    }
  }

  lemma NumbersOfPlan(core: Core, config: seq<ConnectionProfile>, identity: MutationIdentity)
    requires UniqueIds(config) && Numbered(core.observed) && ReconcilePlan(core, config, identity).Ok?
    requires forall id | id in core.observed.generations :: core.observed.generations[id] < core.nextGeneration
    ensures var plan := ReconcilePlan(core, config, identity).value;
            && KeepsNumbers(core, config, Renewed(identity), plan)
            && Buries(core, if identity.Delete? then {identity.profileId} else {}, plan)
            && plan.observed.generations.Keys == Ids(config)
  {
    hide KeepsNumbers, Buries, ReconcileFence, ReconcileTargets, Touched;
    AssignKeys(config, core.observed, Renewed(identity), core.nextGeneration);
    var plan := ReconcilePlan(core, config, identity).value;
    var buried := if identity.Delete? then [identity.profileId] else [];
    AssignedNumbers(core, config, Renewed(identity), plan);
    BuriedNumbers(core, config, Renewed(identity), buried, plan);
    assert (set id | id in buried) == if identity.Delete? then {identity.profileId} else {};
  }

  lemma NothingUnnumbered(core: Core, config: seq<ConnectionProfile>, identity: MutationIdentity)
    requires Numbered(core.observed)
    ensures !exists id :: id in Ids(core.observed.config) && Touched(id, core.observed, config, identity)
                          && id !in core.observed.generations
  {
  }

  lemma FenceOfPlan(core: Core, config: seq<ConnectionProfile>, identity: MutationIdentity, plan: Plan)
    requires plan.fence == ReconcileFence(core.observed, core.sessions, config, identity, plan.observed.generations)
    requires plan.observed.generations.Keys == Ids(config) && (identity.Delete? || identity.profileId in Ids(config))
    ensures FenceIs(core, config, identity, plan)
  {
    FindMeaning(config, identity.profileId);
    hide FingerprintOf;
  }

  lemma TargetsOfPlan(core: Core, config: seq<ConnectionProfile>, identity: MutationIdentity, plan: Plan)
    requires UniqueIds(config) && Numbered(core.observed)
    requires plan.targets == ReconcileTargets(core.observed, core.sessions, config, identity)
    ensures forall t | t in plan.targets ::
              exists p :: Affected(core, config, identity, p)
                          && TargetIs(core, p, !(identity.Update? && p.id == identity.profileId), t)
    ensures forall p | Affected(core, config, identity, p) ::
              exists t | t in plan.targets ::
                TargetIs(core, p, !(identity.Update? && p.id == identity.profileId), t)
  {
    forall t | t in plan.targets
      ensures exists p :: Affected(core, config, identity, p)
                          && TargetIs(core, p, !(identity.Update? && p.id == identity.profileId), t)
    {
      if Changed(t.profileId, core.observed, config) {
        var p := ChangedProfile(core, config, t.profileId);
        assert Affected(core, config, identity, p);
      } else {
        FindMeaning(core.observed.config, t.profileId);
        var p := Find(core.observed.config, t.profileId).value;
        assert Affected(core, config, identity, p);
      }
    }
    forall p | Affected(core, config, identity, p)
      ensures exists t | t in plan.targets ::
                TargetIs(core, p, !(identity.Update? && p.id == identity.profileId), t)
    {
      FoundIs(core.observed.config, p);
      if Retires(core, config, p) {
        RetiredIsChanged(core, config, p);
      }
      var t := CleanupTarget(p.id, core.observed.generations[p.id],
                             if identity.Update? && p.id == identity.profileId then None
                             else IdentityAt(core.sessions, p.id));
      assert t in plan.targets && TargetIs(core, p, !(identity.Update? && p.id == identity.profileId), t);
    }
  }

  /** Entering uncertainty gives every published id a new number of its own, and captures every session of theirs. */
  lemma BumpMeaning(core: Core, order: seq<ProfileId>)
    requires Enumerates(order, core.observed.generations.Keys)
    ensures var after := Bump(core, order);
            && after.observed.generations.Keys == core.observed.generations.Keys
            && after.observed.config == core.observed.config && after.observed.tombstones == core.observed.tombstones
            && after.sessions == core.sessions && after.uncertain == core.uncertain
            && (forall id | id in after.observed.generations ::
                  core.nextGeneration <= after.observed.generations[id] < after.nextGeneration)
            && (forall p, q | p in after.observed.generations && q in after.observed.generations && p != q ::
                  after.observed.generations[p] != after.observed.generations[q])
    ensures forall id | id in core.observed.generations && id in core.sessions ::
              exists t | t in BumpTargets(core) :: t.profileId == id && t.session == Some(core.sessions[id].Identity())
    ensures forall t | t in BumpTargets(core) ::
              t.profileId in core.observed.generations
              && t.previousGeneration == core.observed.generations[t.profileId]
              && (t.session.Some? ==> t.profileId in core.sessions
                                      && t.session == Some(core.sessions[t.profileId].Identity()))
  {
    AllottedApart(order, core.observed.generations, core.nextGeneration);
    assert forall id | id in core.observed.generations :: id in (set p | p in order);
    hide Enumerates, Allot;
    forall id | id in core.observed.generations && id in core.sessions
      ensures exists t | t in BumpTargets(core) :: t.profileId == id && t.session == Some(core.sessions[id].Identity())
    {
      var t := CleanupTarget(id, core.observed.generations[id], IdentityAt(core.sessions, id));
      assert t in BumpTargets(core);
    }
  }
}

/**
 The service object: fields behind the state lock and the atomics beside it, updated in place by the
 locked sections and by the planning loops. Each method is tied to the value-level section the protocol
 interleaves, so what is proved there about a section holds of the method.
 */
module ApplicationServiceObject {
  import opened Wrappers
  import opened Profiles
  import opened ServiceCore

  class ApplicationService {
    var config: seq<ConnectionProfile>
    var generations: map<ProfileId, nat>
    var tombstones: map<ProfileId, nat>
    var sessions: map<ProfileId, CachedSession>
    var nextGeneration: nat
    var nextSession: nat
    var uncertain: bool

    ghost function View(): Core
      reads this
    {
      Core(Observed(config, generations, tombstones), sessions, nextGeneration, nextSession, uncertain)
    }

    constructor (loaded: seq<ConnectionProfile>)
      ensures View() == Core(Observed(loaded, Assign(loaded, Observed([], map[], map[]), None, 1).generations, map[]),
                             map[], Assign(loaded, Observed([], map[], map[]), None, 1).next, 1, false)
    {
      config, tombstones, sessions := loaded, map[], map[];
      nextSession, uncertain := 1, false;
      new;
      var numbers, next := map[], 1;
      for i := 0 to |loaded|
        invariant Assignment(numbers, next) == Assign(loaded[..i], Observed([], map[], map[]), None, 1)
        invariant config == loaded && tombstones == map[] && sessions == map[] && nextSession == 1 && !uncertain
      {
        assert loaded[..i + 1][..i] == loaded[..i];
        numbers, next := numbers[loaded[i].id := next], next + 1;
      }
      assert loaded[..|loaded|] == loaded;
      generations, nextGeneration := numbers, next;
    }

    method AllocateProfileGeneration() returns (generation: nat)
      modifies this`nextGeneration
      ensures generation == old(nextGeneration) && nextGeneration == generation + 1
    {
      generation := nextGeneration;
      nextGeneration := nextGeneration + 1;
    }

    /** The loop over the loaded profiles in both planning routines. */
    method AssignGenerations(loaded: seq<ConnectionProfile>, forced: Option<ProfileId>)
      returns (numbers: map<ProfileId, nat>)
      modifies this`nextGeneration
      ensures Assignment(numbers, nextGeneration)
           == Assign(loaded, Observed(config, generations, tombstones), forced, old(nextGeneration))
    {
      numbers := map[];
      for i := 0 to |loaded|
        invariant Assignment(numbers, nextGeneration)
               == Assign(loaded[..i], Observed(config, generations, tombstones), forced, old(nextGeneration))
      {
        var profile := loaded[i];
        assert loaded[..i + 1][..i] == loaded[..i];
        if forced != Some(profile.id) && Find(config, profile.id) == Some(profile) && profile.id in generations {
          numbers := numbers[profile.id := generations[profile.id]];
        } else {
          var generation := AllocateProfileGeneration();
          numbers := numbers[profile.id := generation];
        }
      }
      assert loaded[..|loaded|] == loaded;
    }

    /** A tombstone with a fresh generation for every id that is gone, in whatever order the ids are visited. */
    method BuryRemoved(gone: set<ProfileId>) returns (buried: map<ProfileId, nat>, ghost removed: seq<ProfileId>)
      modifies this`nextGeneration
      ensures Enumerates(removed, gone)
      ensures buried == Allot(removed, tombstones, old(nextGeneration))
      ensures nextGeneration == old(nextGeneration) + |removed|
    {
      ghost var before, base := tombstones, nextGeneration;
      buried := tombstones;
      removed := [];
      var todo := gone;
      while todo != {}
        invariant todo <= gone
        invariant Enumerates(removed, gone - todo)
        invariant buried == Allot(removed, before, base) && nextGeneration == base + |removed|
        decreases todo
      {
        var id :| id in todo;
        removed := Visit(removed, id, gone - todo);
        assert gone - (todo - {id}) == (gone - todo) + {id};
        var generation := AllocateProfileGeneration();
        buried := buried[id := generation];
        todo := todo - {id};
      }
    }

    /** The targets of a reload: every profile that changed or disappeared. */
    method CollectReloadTargets(loaded: seq<ConnectionProfile>) returns (targets: set<CleanupTarget>)
      ensures targets == ReloadTargets(View().observed, sessions, loaded)
    {
      targets := {};
      var todo := Ids(config);
      while todo != {}
        invariant todo <= Ids(config)
        invariant forall t | t in targets :: t in ReloadTargets(View().observed, sessions, loaded)
        invariant forall t | t in ReloadTargets(View().observed, sessions, loaded) && t.profileId !in todo ::
                    t in targets
        decreases todo
      {
        var id :| id in todo;
        if Find(loaded, id) != Find(config, id) && id in generations {
          targets := targets + {CleanupTarget(id, generations[id], IdentityAt(sessions, id))};
        }
        todo := todo - {id};
      }
    }

    /** Lane-local half of a reload: read the state, allocate, and collect what must be cleaned up. */
    method PlanReload(loaded: seq<ConnectionProfile>) returns (plan: Plan, ghost removed: seq<ProfileId>)
      modifies this`nextGeneration
      ensures Enumerates(removed, Ids(config) - Ids(loaded))
      ensures plan == ReloadPlan(old(View()), loaded, removed)
      ensures View() == old(View()).(nextGeneration := plan.next)
    {
      var numbers := AssignGenerations(loaded, None);
      var buried;
      buried, removed := BuryRemoved(Ids(config) - Ids(loaded));
      var targets := CollectReloadTargets(loaded);
      plan := Plan(Observed(loaded, numbers, buried), nextGeneration, None, targets);
    }

    /** The loop over the previous profiles of a mutation: cleanup targets, and a fence for an updated session. */
    method CollectTouched(loaded: seq<ConnectionProfile>, identity: MutationIdentity, numbers: map<ProfileId, nat>)
      returns (outcome: Result<(Option<Fence>, set<CleanupTarget>), ServiceError>)
      ensures outcome.Err? <==> exists id :: id in Ids(config) && Touched(id, View().observed, loaded, identity)
                                             && id !in generations
      ensures outcome.Err? ==> outcome.error == ConfigUncertain
      ensures outcome.Ok? ==>
                && outcome.value.0 == ReconcileFence(View().observed, sessions, loaded, identity, numbers)
                && outcome.value.1 == ReconcileTargets(View().observed, sessions, loaded, identity)
    {
      var fence := None;
      var targets := {};
      var todo := Ids(config);
      while todo != {}
        invariant todo <= Ids(config)
        invariant forall id | id in Ids(config) - todo && Touched(id, View().observed, loaded, identity) ::
                    id in generations
        invariant forall t | t in targets :: t in ReconcileTargets(View().observed, sessions, loaded, identity)
        invariant forall t | t in ReconcileTargets(View().observed, sessions, loaded, identity)
                    && t.profileId !in todo :: t in targets
        invariant fence == if identity.profileId in todo then None
                           else ReconcileFence(View().observed, sessions, loaded, identity, numbers)
        decreases todo
      {
        var id :| id in todo;
        if Find(loaded, id) != Find(config, id) || (id == identity.profileId && !identity.Create?) {
          assert Touched(id, View().observed, loaded, identity);
          if id !in generations {
            return Err(ConfigUncertain);
          }
          var session := IdentityAt(sessions, id);
          if id == identity.profileId && identity.Update? {
            if session.Some? && id in numbers && Find(loaded, id).Some? {
              fence := Some(Fence(id, session.value, numbers[id], FingerprintOf(Find(loaded, id).value),
                                  identity.retagEligible));
            }
            session := None;
          }
          targets := targets + {CleanupTarget(id, generations[id], session)};
        }
        todo := todo - {id};
      }
      assert targets == ReconcileTargets(View().observed, sessions, loaded, identity);
      return Ok((fence, targets));
    }

    /** Lane-local half of a mutation, with its two early exits. */
    method PlanReconcile(loaded: seq<ConnectionProfile>, identity: MutationIdentity)
      returns (outcome: Result<Plan, ServiceError>)
      modifies this`nextGeneration
      ensures outcome == ReconcilePlan(old(View()), loaded, identity)
      ensures outcome.Ok? ==> View() == old(View()).(nextGeneration := outcome.value.next)
    {
      var numbers := AssignGenerations(loaded, Forced(identity));
      ghost var base := nextGeneration;
      var buried := tombstones;
      if identity.Delete? {
        var generation := AllocateProfileGeneration();
        buried := buried[identity.profileId := generation];
        assert [identity.profileId][..0] == [];
        assert buried == Allot([identity.profileId], tombstones, base);
      }
      var collected := CollectTouched(loaded, identity, numbers);
      if collected.Err? {
        return Err(collected.error);
      }
      if !identity.Delete? && identity.profileId !in numbers {
        return Err(ConfigUncertain);
      }
      return Ok(Plan(Observed(loaded, numbers, buried), nextGeneration, collected.value.0, collected.value.1));
    }

    /** The write-locked publish that ends both planning routines. */
    method PublishObserved(observed: Observed)
      modifies this`config, this`generations, this`tombstones
      ensures View() == Publish(old(View()), observed)
    {
      config, generations, tombstones := observed.config, observed.generations, observed.tombstones;
    }

    /** The write-locked half of `enter_config_uncertain_deferred`. */
    method BumpGenerations() returns (targets: set<CleanupTarget>, ghost order: seq<ProfileId>)
      modifies this`generations, this`nextGeneration
      ensures Enumerates(order, old(generations).Keys)
      ensures View() == Bump(old(View()), order)
      ensures targets == BumpTargets(old(View()))
    {
      ghost var before := generations;
      ghost var base := nextGeneration;
      targets := set id | id in generations :: CleanupTarget(id, generations[id], IdentityAt(sessions, id));
      order := [];
      var todo := generations.Keys;
      while todo != {}
        invariant todo <= before.Keys && generations.Keys == before.Keys
        invariant Enumerates(order, before.Keys - todo)
        invariant generations == Allot(order, before, base) && nextGeneration == base + |order|
        decreases todo
      {
        var id :| id in todo;
        order := Visit(order, id, before.Keys - todo);
        var generation := AllocateProfileGeneration();
        generations := generations[id := generation];
        todo := todo - {id};
      }
    }

    method IsCurrentProfile(profile: ConnectionProfile, generation: nat) returns (current: bool)
      ensures current == IsCurrent(View(), profile, generation)
    {
      if profile.id !in generations || generations[profile.id] != generation {
        return false;
      }
      for i := 0 to |config|
        invariant profile !in config[..i]
      {
        if config[i] == profile {
          return true;
        }
      }
      return false;
    }

    /** The first locked section of `session_for`. */
    method CheckCachedSession(profile: ConnectionProfile, generation: nat)
      returns (outcome: Result<Option<Lease>, ServiceError>)
      ensures outcome == CheckCache(View(), profile, generation)
    {
      var current := IsCurrentProfile(profile, generation);
      if uncertain {
        return Err(ConfigUncertain);
      }
      if !current {
        return Err(ProfileStale);
      }
      if profile.id in sessions {
        var cached := sessions[profile.id];
        if cached.fingerprint == FingerprintOf(profile) && cached.profileGeneration == generation {
          return Ok(Some(Lease(profile.id, profile, cached.Identity(), cached.handle)));
        }
      }
      return Ok(None);
    }

    /** The second locked section of `session_for`. */
    method InstallConnected(profile: ConnectionProfile, generation: nat, session: nat, handle: Handle)
      returns (outcome: CacheInstall)
      modifies this`sessions
      ensures (View(), outcome) == Install(old(View()), profile, generation, session, handle)
    {
      var current := IsCurrentProfile(profile, generation);
      var fingerprint := FingerprintOf(profile);
      if uncertain {
        return Uncertain;
      }
      if !current {
        return Stale;
      }
      var displaced := None;
      if profile.id in sessions {
        var cached := sessions[profile.id];
        if cached.fingerprint == fingerprint && cached.profileGeneration == generation {
          return Existing(Lease(profile.id, profile, cached.Identity(), cached.handle));
        }
        displaced := Some(cached.handle);
      }
      sessions := sessions[profile.id := CachedSession(generation, session, fingerprint, handle)];
      return Installed(displaced, Lease(profile.id, profile, SessionIdentity(generation, session, fingerprint), handle));
    }

    method TakeCachedSessionExact(id: ProfileId, generation: nat, session: nat) returns (removed: Option<Handle>)
      modifies this`sessions
      ensures (View(), removed) == TakeExact(old(View()), id, generation, session)
    {
      if id in sessions && sessions[id].profileGeneration == generation && sessions[id].sessionGeneration == session {
        removed := Some(sessions[id].handle);
        sessions := sessions - {id};
      } else {
        removed := None;
      }
    }

    method RetagCachedSessionExact(id: ProfileId, expected: SessionIdentity, generation: nat,
                                   fingerprint: ConnectionFingerprint) returns (retagged: bool)
      modifies this`sessions
      ensures (View(), retagged) == RetagExact(old(View()), id, expected, generation, fingerprint)
    {
      if id !in sessions {
        return false;
      }
      var cached := sessions[id];
      if cached.Identity() != expected || cached.fingerprint != fingerprint {
        return false;
      }
      sessions := sessions[id := cached.(profileGeneration := generation)];
      return true;
    }

    method EnsureSessionObservation(id: ProfileId, generation: nat) returns (outcome: Result<(), ServiceError>)
      ensures outcome == Observation(View(), id, generation)
    {
      if uncertain {
        return Err(ConfigUncertain);
      } else if id in generations && generations[id] == generation {
        return Ok(());
      } else {
        return Err(ProfileStale);
      }
    }

    /** The loop over a cleanup's targets: exactly the captured sessions leave the cache. */
    method EvictTargets(targets: seq<CleanupTarget>) returns (removed: seq<Handle>)
      modifies this`sessions
      ensures forall id | id in sessions :: id in old(sessions) && sessions[id] == old(sessions)[id]
      ensures forall id | id in old(sessions) ::
                id in sessions <==>
                  (forall t | t in targets && t.profileId == id ::
                     t.session.None? || t.session.value.profileGeneration != old(sessions)[id].profileGeneration
                     || t.session.value.sessionGeneration != old(sessions)[id].sessionGeneration)
      ensures forall h | h in removed :: exists id :: id in old(sessions) && id !in sessions && old(sessions)[id].handle == h
      ensures forall id | id in old(sessions) && id !in sessions :: old(sessions)[id].handle in removed
    {
      removed := [];
      for i := 0 to |targets|
        invariant forall id | id in sessions :: id in old(sessions) && sessions[id] == old(sessions)[id]
        invariant forall id | id in old(sessions) ::
                    id in sessions <==>
                      (forall k | 0 <= k < i && targets[k].profileId == id ::
                         targets[k].session.None?
                         || targets[k].session.value.profileGeneration != old(sessions)[id].profileGeneration
                         || targets[k].session.value.sessionGeneration != old(sessions)[id].sessionGeneration)
        invariant forall h | h in removed ::
                    exists id :: id in old(sessions) && id !in sessions && old(sessions)[id].handle == h
        invariant forall id | id in old(sessions) && id !in sessions :: old(sessions)[id].handle in removed
      {
        var target := targets[i];
        if target.session.Some? {
          ghost var before := sessions;
          var taken := TakeCachedSessionExact(target.profileId, target.session.value.profileGeneration,
                                              target.session.value.sessionGeneration);
          if taken.Some? {
            assert target.profileId in before && before[target.profileId].handle == taken.value;
            removed := removed + [taken.value];
          }
        }
      }
    }
  }

  /** One more id of a hash map visited. */
  ghost function Visit(order: seq<ProfileId>, id: ProfileId, visited: set<ProfileId>): (longer: seq<ProfileId>)
    requires Enumerates(order, visited) && id !in visited
    ensures Enumerates(longer, visited + {id})
    ensures longer == order + [id] && longer[..|order|] == order
  {
    assert forall p | p in order :: p in (set q | q in order);
    assert (set p | p in order + [id]) == (set p | p in order) + {id};
    order + [id]
  }
}

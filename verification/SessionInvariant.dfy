/** Every step of the protocol keeps the invariant. */
module SessionInvariant {
  import opened Wrappers
  import opened Profiles
  import opened ServiceCore
  import opened SessionProtocol

  // ---- planning ----

  lemma AssignedAt(config: seq<ConnectionProfile>, previous: Observed, forced: Option<ProfileId>,
                   base: nat, id: ProfileId) returns (i: nat)
    requires UniqueIds(config) && id in Assign(config, previous, forced, base).generations
    ensures i < |config| && config[i].id == id && Find(config, id) == Some(config[i])
    ensures var a := Assign(config, previous, forced, base);
            if Keeps(config[i], previous, forced) then a.generations[id] == previous.generations[id]
            else base <= a.generations[id] < a.next
  {
    AssignKeys(config, previous, forced, base);
    i :| 0 <= i < |config| && config[i].id == id;
    AssignAt(config, previous, forced, base, i);
    FindMeaning(config, id);
  }

  lemma AssignedKept(config: seq<ConnectionProfile>, previous: Observed, forced: Option<ProfileId>,
                     base: nat, id: ProfileId)
    requires UniqueIds(config)
    requires forall p | p in previous.generations :: previous.generations[p] < base
    requires id in Assign(config, previous, forced, base).generations
    ensures var a := Assign(config, previous, forced, base);
            && a.generations[id] < a.next
            && (a.generations[id] < base ==>
                  id in previous.generations && previous.generations[id] == a.generations[id]
                  && Find(previous.config, id) == Find(config, id))
  {
    var i := AssignedAt(config, previous, forced, base, id);
    AssignKeys(config, previous, forced, base);
  }

  lemma AssignedApart(config: seq<ConnectionProfile>, previous: Observed, forced: Option<ProfileId>,
                      base: nat, p: ProfileId, q: ProfileId)
    requires UniqueIds(config) && p != q
    requires forall id | id in previous.generations :: previous.generations[id] < base
    requires p in Assign(config, previous, forced, base).generations
    requires q in Assign(config, previous, forced, base).generations
    requires base <= Assign(config, previous, forced, base).generations[p]
    ensures Assign(config, previous, forced, base).generations[p] != Assign(config, previous, forced, base).generations[q]
  {
    var i := AssignedAt(config, previous, forced, base, p);
    var j := AssignedAt(config, previous, forced, base, q);
    if !Keeps(config[j], previous, forced) {
      if i < j {
        AssignDistinct(config, previous, forced, base, i, j);
      } else {
        AssignDistinct(config, previous, forced, base, j, i);
      }
    }
  }

  /** Burying removed ids gives each a number past the assignment and leaves the other tombstones alone. */
  lemma Buried(removed: seq<ProfileId>, tombstones: map<ProfileId, nat>, base: nat, next: nat)
    requires forall i, j | 0 <= i < j < |removed| :: removed[i] != removed[j]
    requires forall id | id in tombstones :: tombstones[id] < base
    requires base <= next
    ensures var t := Allot(removed, tombstones, next);
            && (forall id | id in t ::
                  if id in tombstones && tombstones[id] == t[id] then t[id] < base
                  else next <= t[id] < next + |removed| && id in removed)
            && (forall p, q | p in t && q in t && p != q && base <= t[p] :: t[p] != t[q])
  {
    AllotMeaning(removed, tombstones, next);
    var t := Allot(removed, tombstones, next);
    forall id | id in t && id in removed
      ensures exists i :: 0 <= i < |removed| && removed[i] == id && t[id] == next + i
    {
      var i :| 0 <= i < |removed| && removed[i] == id;
    }
    forall p, q | p in t && q in t && p != q && base <= t[p]
      ensures t[p] != t[q]
    {
      if p in removed && q in removed {
        var i :| 0 <= i < |removed| && removed[i] == p && t[p] == next + i;
        var j :| 0 <= j < |removed| && removed[j] == q && t[q] == next + j;
      }
    }
  }

  ghost predicate Below(observed: Observed, bound: nat) {
    (forall id | id in observed.generations :: observed.generations[id] < bound)
    && (forall id | id in observed.tombstones :: observed.tombstones[id] < bound)
  }

  lemma NamedBelow(named: set<Naming>, observed: Observed, bound: nat)
    requires NamedOk(named, observed, bound)
    ensures Below(observed, bound)
  {
    forall id | id in observed.generations ensures observed.generations[id] < bound {
      assert Naming(observed.generations[id], id, Find(observed.config, id)) in NamingsOf(observed);
    }
    forall id | id in observed.tombstones ensures observed.tombstones[id] < bound {
      assert Naming(observed.tombstones[id], id, None) in NamingsOf(observed);
    }
  }

  lemma PlanMeaning(previous: Observed, config: seq<ConnectionProfile>, forced: Option<ProfileId>,
                    removed: seq<ProfileId>, base: nat, plan: Plan)
    requires Below(previous, base) && UniqueIds(config)
    requires forall id | id in removed :: id !in Ids(config)
    requires forall i, j | 0 <= i < j < |removed| :: removed[i] != removed[j]
    requires var a := Assign(config, previous, forced, base);
             plan.observed == Observed(config, a.generations, Allot(removed, previous.tombstones, a.next))
             && plan.next == a.next + |removed|
    requires plan.fence.Some? ==>
               var f := plan.fence.value;
               && f.profileId in plan.observed.generations
               && f.nextGeneration == plan.observed.generations[f.profileId]
               && Find(config, f.profileId).Some?
               && FingerprintOf(Find(config, f.profileId).value) == f.nextFingerprint
    ensures PlanOk(previous, base, plan)
  {
    var a := Assign(config, previous, forced, base);
    var next := plan.observed;
    AssignKeys(config, previous, forced, base);
    Buried(removed, previous.tombstones, base, a.next);
    forall id | id in next.generations
      ensures next.generations[id] < a.next
      ensures next.generations[id] < base ==>
                id in previous.generations && previous.generations[id] == next.generations[id]
                && Find(previous.config, id) == Find(config, id)
    {
      AssignedKept(config, previous, forced, base, id);
    }
    forall p, q | p in next.generations && q in next.generations && p != q && base <= next.generations[p]
      ensures next.generations[p] != next.generations[q]
    {
      AssignedApart(config, previous, forced, base, p, q);
    }
  }

  lemma CapturesMeaning(sessions: map<ProfileId, CachedSession>, owner: map<nat, Handle>,
                        targets: set<CleanupTarget>)
    requires forall id | id in sessions ::
               sessions[id].sessionGeneration in owner && owner[sessions[id].sessionGeneration] == sessions[id].handle
    requires forall t | t in targets && t.session.Some? :: t.session == IdentityAt(sessions, t.profileId)
    ensures CapturesOk(CapturesOf(targets, sessions), owner)
  {
  }

  lemma PlanWithKeeps(s: State, plan: Plan, reload: bool)
    requires Inv(s) && s.lane.Held?
    requires PlanOk(s.core.observed, s.core.nextGeneration, plan)
    requires plan.fence.Some? && plan.fence.value.profileId in s.core.sessions ==>
               plan.fence.value.previous == s.core.sessions[plan.fence.value.profileId].Identity()
    requires forall t | t in plan.targets && t.session.Some? :: t.session == IdentityAt(s.core.sessions, t.profileId)
    ensures Inv(PlanWith(s, plan, reload))
  {
    hide ObservedOk, NamedOk, HandlesOk, FencesOk, CapturesOk, ReadsOk, PhasesOk, PlanOk;
    CapturesMeaning(s.core.sessions, s.owner, plan.targets);
  }

  lemma PlanReloadKeeps(s: State, config: seq<ConnectionProfile>, removed: seq<ProfileId>)
    requires Inv(s) && Enabled(s, PlanReload(config, removed))
    ensures Inv(Apply(s, PlanReload(config, removed)))
  {
    hide ObservedOk, NamedOk, HandlesOk, FencesOk, CapturesOk, ReadsOk, PhasesOk, PlanOk;
    NamedBelow(s.named, s.core.observed, s.core.nextGeneration);
    var plan := ReloadPlan(s.core, config, removed);
    PlanMeaning(s.core.observed, config, None, removed, s.core.nextGeneration, plan);
    PlanWithKeeps(s, plan, true);
  }

  /** Neither `ConfigUncertain` exit of the reconciliation can be taken. */
  lemma ReconcileSucceeds(s: State, config: seq<ConnectionProfile>, identity: MutationIdentity)
    requires Inv(s) && Enabled(s, PlanMutation(config, identity))
    ensures ReconcilePlan(s.core, config, identity).Ok?
  {
    hide NamedOk, HandlesOk, FencesOk, CapturesOk, ReadsOk, PhasesOk, PlanOk;
    AssignKeys(config, s.core.observed, Forced(identity), s.core.nextGeneration);
    FindMeaning(config, identity.profileId);
  }

  lemma PlanMutationKeeps(s: State, config: seq<ConnectionProfile>, identity: MutationIdentity)
    requires Inv(s) && Enabled(s, PlanMutation(config, identity))
    ensures Inv(Apply(s, PlanMutation(config, identity)))
  {
    hide ObservedOk, NamedOk, HandlesOk, FencesOk, CapturesOk, ReadsOk, PhasesOk, PlanOk;
    ReconcileSucceeds(s, config, identity);
    NamedBelow(s.named, s.core.observed, s.core.nextGeneration);
    FindMeaning(config, identity.profileId);
    var plan := ReconcilePlan(s.core, config, identity).value;
    var buried := if identity.Delete? then [identity.profileId] else [];
    PlanMeaning(s.core.observed, config, Forced(identity), buried, s.core.nextGeneration, plan);
    PlanWithKeeps(s, plan, false);
  }

  // ---- changing what is published ----

  lemma MarkKeeps(s: State)
    requires Inv(s) && s.lane.Held?
    ensures Inv(MarkStep(s))
  {
    hide ObservedOk, NamedOk, SessionsOk, HandlesOk, FencesOk, CapturesOk, PhasesOk;
  }

  lemma ClearKeeps(s: State)
    requires Inv(s) && Enabled(s, ClearFlag)
    ensures Inv(Apply(s, ClearFlag))
  {
    hide ObservedOk, NamedOk, SessionsOk, HandlesOk, FencesOk, CapturesOk, ReadsOk, PhasesOk;
  }

  /** Dropping the task of the lane at any of its steps. */
  lemma DropLaneKeeps(s: State)
    requires Inv(s) && Enabled(s, DropLane)
    ensures Inv(DropLaneStep(s))
  {
    hide ObservedOk, SessionsOk, HandlesOk, FencesOk, CapturesOk, PhasesOk, NamingsOf;
    assert s.lane.Planned? ==> s.lane.base <= s.core.nextGeneration;
    hide PlanOk;
  }

  lemma NamesGrow(named: set<Naming>, more: set<Naming>)
    requires named <= more
    ensures forall g, id, f :: Names(named, g, id, f) ==> Names(more, g, id, f)
  {
  }

  lemma SessionsGrow(s: State, named: set<Naming>)
    requires SessionsOk(s.core.sessions, s.openedWith, s.owner, s.named) && s.named <= named
    ensures SessionsOk(s.core.sessions, s.openedWith, s.owner, named)
  {
    NamesGrow(s.named, named);
  }

  lemma FencesGrow(s: State, named: set<Naming>)
    requires FencesOk(s.fences, s.owner, s.named) && s.named <= named
    ensures FencesOk(s.fences, s.owner, named)
  {
    NamesGrow(s.named, named);
  }

  /** What replaces the observed state names numbers from `bound` on or repeats what was named. */
  ghost predicate Advances(observed: Observed, next: Observed, bound: nat, bound': nat) {
    bound <= bound'
    && (forall n | n in NamingsOf(next) :: n.generation < bound' && (n.generation < bound ==> n in NamingsOf(observed)))
    && (forall n, m | n in NamingsOf(next) && m in NamingsOf(next) && n.generation == m.generation :: n == m)
    && (forall n | n in NamingsOf(next) && n.profileId in next.generations ::
          n.generation <= next.generations[n.profileId])
    && (forall id | id in next.generations && next.generations[id] < bound ::
          id in observed.generations && observed.generations[id] == next.generations[id])
  }

  lemma NamedAdvances(named: set<Naming>, observed: Observed, next: Observed, bound: nat, bound': nat)
    requires NamedOk(named, observed, bound) && Advances(observed, next, bound, bound')
    ensures NamedOk(named + NamingsOf(next), next, bound')
  {
  }

  lemma NamingIn(observed: Observed, n: Naming)
    requires observed.generations.Keys == Ids(observed.config)
    ensures n in NamingsOf(observed) <==>
              if n.content.Some?
              then n.profileId in observed.generations && n.generation == observed.generations[n.profileId]
                   && n.content == Find(observed.config, n.profileId)
              else n.profileId in observed.tombstones && n.generation == observed.tombstones[n.profileId]
  {
    FindMeaning(observed.config, n.profileId);
  }

  lemma Bumped(order: seq<ProfileId>, numbers: map<ProfileId, nat>, base: nat)
    requires Enumerates(order, numbers.Keys)
    ensures var m := Allot(order, numbers, base);
            && m.Keys == numbers.Keys
            && (forall id | id in m :: base <= m[id] < base + |order|)
            && (forall p, q | p in m && q in m && p != q :: m[p] != m[q])
  {
    hide Allot;
    AllotMeaning(order, numbers, base);
    var m := Allot(order, numbers, base);
    forall id | id in m
      ensures exists i :: 0 <= i < |order| && order[i] == id && m[id] == base + i
    {
      assert id in (set p | p in order);
      var i :| 0 <= i < |order| && order[i] == id;
    }
    hide Enumerates;
    forall p, q | p in m && q in m && p != q
      ensures m[p] != m[q]
    {
      var i :| 0 <= i < |order| && order[i] == p && m[p] == base + i;
      var j :| 0 <= j < |order| && order[j] == q && m[q] == base + j;
    }
  }

  lemma BumpIsPlan(observed: Observed, order: seq<ProfileId>, base: nat)
    requires UniqueIds(observed.config) && observed.generations.Keys == Ids(observed.config)
    requires Below(observed, base) && Enumerates(order, observed.generations.Keys)
    ensures PlanOk(observed, base,
                   Plan(observed.(generations := Allot(order, observed.generations, base)), base + |order|, None, {}))
  {
    Bumped(order, observed.generations, base);
    hide Allot, Enumerates;
  }

  lemma PlannedNaming(observed: Observed, base: nat, plan: Plan, n: Naming)
    requires observed.generations.Keys == Ids(observed.config) && Below(observed, base)
    requires PlanOk(observed, base, plan) && n in NamingsOf(plan.observed)
    ensures n.generation < plan.next
    ensures n.generation < base ==> n in NamingsOf(observed)
    ensures n.content.None? && n.profileId in plan.observed.generations ==> n in NamingsOf(observed)
  {
    NamingIn(plan.observed, n);
    NamingIn(observed, n);
  }

  lemma PlannedApart(observed: Observed, base: nat, plan: Plan, n: Naming, m: Naming)
    requires PlanOk(observed, base, plan) && Below(observed, base)
    requires n in NamingsOf(plan.observed) && m in NamingsOf(plan.observed)
    requires n.generation == m.generation && base <= n.generation
    ensures n == m
  {
    NamingIn(plan.observed, n);
    NamingIn(plan.observed, m);
  }

  lemma PlanAdvances(observed: Observed, base: nat, plan: Plan, named: set<Naming>)
    requires observed.generations.Keys == Ids(observed.config)
    requires NamedOk(named, observed, base) && PlanOk(observed, base, plan)
    ensures Advances(observed, plan.observed, base, plan.next)
  {
    NamedBelow(named, observed, base);
    var next := plan.observed;
    forall n | n in NamingsOf(next)
      ensures n.generation < plan.next && (n.generation < base ==> n in NamingsOf(observed))
      ensures n.profileId in next.generations ==> n.generation <= next.generations[n.profileId]
    {
      PlannedNaming(observed, base, plan, n);
      NamingIn(next, n);
    }
    forall n, m | n in NamingsOf(next) && m in NamingsOf(next) && n.generation == m.generation
      ensures n == m
    {
      if base <= n.generation {
        PlannedApart(observed, base, plan, n, m);
      }
    }
  }

  /** What an operation must notice survives a publish: an unchanged number means an unchanged profile. */
  lemma ReadsAfterPublish(s: State, base: nat, plan: Plan)
    requires ObservedOk(s.core.observed, s.history)
    requires ReadsOk(s.operations, s.core.observed.generations, s.named, s.history, s.episodes, s.torn, false)
    requires NamedOk(s.named, s.core.observed, base) && PlanOk(s.core.observed, base, plan)
    ensures ReadsOk(s.operations, plan.observed.generations, s.named + NamingsOf(plan.observed),
                    s.history + [plan.observed.config], s.episodes, s.torn, false)
  {
    hide NamingsOf, PlanOk, NamedOk, ObservedOk, Undisturbed;
    var history := s.history + [plan.observed.config];
    forall o | o in s.operations
      ensures Undisturbed(s.operations[o], plan.observed.generations, history, s.episodes, s.torn, false)
    {
      ReadAfterPublish(s, base, plan, s.operations[o]);
    }
  }

  lemma ReadAfterPublish(s: State, base: nat, plan: Plan, op: Operation)
    requires ObservedOk(s.core.observed, s.history)
    requires Naming(op.generation, op.profile.id, Some(op.profile)) in s.named
    requires Undisturbed(op, s.core.observed.generations, s.history, s.episodes, s.torn, false)
    requires NamedOk(s.named, s.core.observed, base) && PlanOk(s.core.observed, base, plan)
    ensures Undisturbed(op, plan.observed.generations, s.history + [plan.observed.config], s.episodes, s.torn, false)
  {
    hide NamingsOf;
    var id := op.profile.id;
    if id in plan.observed.generations && plan.observed.generations[id] == op.generation {
      SteadyNow(s, op);
    }
  }

  /** An operation whose number is the published one read the published profile. */
  lemma SteadyNow(s: State, op: Operation)
    requires ObservedOk(s.core.observed, s.history)
    requires NamingsOf(s.core.observed) <= s.named
    requires forall n, m | n in s.named && m in s.named && n.generation == m.generation :: n == m
    requires Naming(op.generation, op.profile.id, Some(op.profile)) in s.named
    requires op.profile.id in s.core.observed.generations
    requires s.core.observed.generations[op.profile.id] == op.generation
    ensures Find(s.core.observed.config, op.profile.id) == Some(op.profile)
  {
    assert Naming(op.generation, op.profile.id, Find(s.core.observed.config, op.profile.id))
        in NamingsOf(s.core.observed);
  }

  lemma FenceNamed(s: State, plan: Plan, issued: set<IssuedFence>)
    requires s.lane.Planned? && PlanOk(s.core.observed, s.lane.base, plan) && IssuedOk(issued, s.owner)
    requires forall f | f in issued :: plan.fence == Some(f.fence)
    ensures FencesOk(issued, s.owner, s.named + NamingsOf(plan.observed))
  {
    forall f | f in issued
      ensures Names(s.named + NamingsOf(plan.observed), f.fence.nextGeneration, f.fence.profileId,
                    f.fence.nextFingerprint)
    {
      var profile := Find(plan.observed.config, f.fence.profileId).value;
      assert Naming(f.fence.nextGeneration, f.fence.profileId, Some(profile)) in NamingsOf(plan.observed);
    }
  }

  lemma PublishKeeps(s: State)
    requires Inv(s) && s.lane.Planned?
    ensures Inv(PublishStep(s))
  {
    hide NamingsOf, SessionsOk, HandlesOk, PhasesOk, ReadsOk;
    var plan := s.lane.plan;
    var named := s.named + NamingsOf(plan.observed);
    assert NamedOk(named, plan.observed, plan.next) && SessionsOk(s.core.sessions, s.openedWith, s.owner, named) by {
      hide PlanOk, ObservedOk;
      PlanAdvances(s.core.observed, s.lane.base, plan, s.named) by { ObservedKeys(s); }
      NamedAdvances(s.named, s.core.observed, plan.observed, s.lane.base, plan.next);
      SessionsGrow(s, named);
    }
    hide NamedOk;
    assert FencesOk(s.fences + s.lane.fence, s.owner, named) by {
      FencesGrow(s, named);
      FenceNamed(s, plan, s.lane.fence);
    }
    ReadsAfterPublish(s, s.lane.base, plan);
  }

  lemma ObservedKeys(s: State)
    requires ObservedOk(s.core.observed, s.history)
    ensures s.core.observed.generations.Keys == Ids(s.core.observed.config)
  {
  }

  lemma BumpKeeps(s: State, order: seq<ProfileId>)
    requires Inv(s) && Enabled(s, BumpAll(order))
    ensures Inv(BumpStep(s, order))
  {
    hide NamingsOf, HandlesOk, PhasesOk, CapturesOk, Enumerates, NamedOk, FencesOk, SessionsOk, CapturesOf, BumpTargets;
    AllBumped(s, order);
    BumpNames(s, order);
    BumpCaptures(s);
  }

  lemma BumpCaptures(s: State)
    requires Inv(s)
    ensures CapturesOk(s.captures + CapturesOf(BumpTargets(s.core), s.core.sessions), s.owner)
  {
    hide NamingsOf, HandlesOk, PhasesOk, CapturesOk, NamedOk, FencesOk, ReadsOk, ObservedOk;
    CapturesMeaning(s.core.sessions, s.owner, BumpTargets(s.core));
    CapturesJoin(s.captures, CapturesOf(BumpTargets(s.core), s.core.sessions), s.owner);
  }

  lemma BumpNames(s: State, order: seq<ProfileId>)
    requires Inv(s) && Enabled(s, BumpAll(order))
    ensures var observed := Bump(s.core, order).observed;
            var named := s.named + NamingsOf(observed);
            && NamedOk(named, observed, s.core.nextGeneration + |order|)
            && SessionsOk(s.core.sessions, s.openedWith, s.owner, named) && FencesOk(s.fences, s.owner, named)
  {
    hide NamingsOf, HandlesOk, PhasesOk, CapturesOk, Enumerates, ObservedOk, ReadsOk;
    var named := s.named + NamingsOf(Bump(s.core, order).observed);
    BumpNamed(s, order);
    SessionsGrow(s, named);
    FencesGrow(s, named);
  }

  lemma CapturesJoin(captures: set<Capture>, more: set<Capture>, owner: map<nat, Handle>)
    requires CapturesOk(captures, owner) && CapturesOk(more, owner)
    ensures CapturesOk(captures + more, owner)
  {
  }

  lemma BumpNamed(s: State, order: seq<ProfileId>)
    requires ObservedOk(s.core.observed, s.history) && NamedOk(s.named, s.core.observed, s.core.nextGeneration)
    requires Enumerates(order, s.core.observed.generations.Keys)
    ensures NamedOk(s.named + NamingsOf(Bump(s.core, order).observed), Bump(s.core, order).observed,
                    s.core.nextGeneration + |order|)
  {
    hide PlanOk, NamingsOf;
    var base := s.core.nextGeneration;
    var plan := Plan(Bump(s.core, order).observed, base + |order|, None, {});
    NamedBelow(s.named, s.core.observed, base);
    BumpIsPlan(s.core.observed, order, base);
    PlanAdvances(s.core.observed, base, plan, s.named);
    NamedAdvances(s.named, s.core.observed, plan.observed, base, plan.next);
  }

  /** A bump leaves no operation with the published number. */
  lemma AllBumped(s: State, order: seq<ProfileId>)
    requires Inv(s) && Enabled(s, BumpAll(order))
    ensures var next := Bump(s.core, order).observed.generations;
            next.Keys == s.core.observed.generations.Keys
            && forall o | o in s.operations && s.operations[o].profile.id in next ::
                 next[s.operations[o].profile.id] > s.operations[o].generation
  {
    hide NamingsOf, HandlesOk, PhasesOk, SessionsOk, FencesOk, CapturesOk;
    AllotMeaning(order, s.core.observed.generations, s.core.nextGeneration);
    forall id | id in s.core.observed.generations
      ensures Bump(s.core, order).observed.generations[id] >= s.core.nextGeneration
    {
      assert id in (set p | p in order);
      var i :| 0 <= i < |order| && order[i] == id;
    }
    forall o | o in s.operations
      ensures s.operations[o].generation < s.core.nextGeneration
    {
      var op := s.operations[o];
      assert Naming(op.generation, op.profile.id, Some(op.profile)) in s.named;
    }
  }

  // ---- where a handle is ----

  lemma HandlesIdle(s: State, operations: map<nat, Operation>)
    requires HandlesOk(s.operations, s.core.sessions, s.taken, s.closes, s.drops, s.openedWith.Keys, s.place)
    requires forall o | o in operations && operations[o].phase.Connected? ::
               o in s.operations && s.operations[o].phase == operations[o].phase
    requires forall o | o in s.operations && s.operations[o].phase.Connected? ::
               o in operations && operations[o].phase.Connected?
    ensures HandlesOk(operations, s.core.sessions, s.taken, s.closes, s.drops, s.openedWith.Keys, s.place)
  {
  }

  lemma HandlesArrive(operations: map<nat, Operation>, sessions: map<ProfileId, CachedSession>,
                      taken: multiset<Handle>, closes: multiset<Handle>, drops: multiset<Handle>, known: set<Handle>,
                      place: map<Handle, Place>, o: nat, op: Operation)
    requires HandlesOk(operations, sessions, taken, closes, drops, known, place)
    requires o in operations && !operations[o].phase.Connected? && op.phase.Connected? && op.phase.handle !in known
    ensures HandlesOk(operations[o := op], sessions, taken, closes, drops, known + {op.phase.handle},
                      place[op.phase.handle := InFlight(o)])
  {
    var h := op.phase.handle;
    assert h !in place && h !in taken && h !in closes && h !in drops;
  }

  /** A task gives up the handle it connected, without caching it. */
  lemma HandlesAbandon(operations: map<nat, Operation>, sessions: map<ProfileId, CachedSession>,
                       taken: multiset<Handle>, closes: multiset<Handle>, drops: multiset<Handle>, known: set<Handle>,
                       place: map<Handle, Place>, o: nat, op: Operation)
    requires HandlesOk(operations, sessions, taken, closes, drops, known, place)
    requires o in operations && operations[o].phase.Connected? && !op.phase.Connected?
    ensures var h := operations[o].phase.handle;
            HandlesOk(operations[o := op], sessions, taken + multiset{h}, closes, drops, known, place[h := Taken])
  {
    var h := operations[o].phase.handle;
    assert place[h] == InFlight(o) && h !in taken;
  }

  /** A task's handle enters a cache slot that is empty. */
  lemma HandlesCache(operations: map<nat, Operation>, sessions: map<ProfileId, CachedSession>,
                     taken: multiset<Handle>, closes: multiset<Handle>, drops: multiset<Handle>, known: set<Handle>,
                     place: map<Handle, Place>, o: nat, op: Operation, id: ProfileId, cached: CachedSession)
    requires HandlesOk(operations, sessions, taken, closes, drops, known, place)
    requires o in operations && operations[o].phase.Connected? && !op.phase.Connected?
    requires id !in sessions && cached.handle == operations[o].phase.handle
    ensures HandlesOk(operations[o := op], sessions[id := cached], taken, closes, drops, known,
                      place[cached.handle := Cached(id)])
  {
    assert place[cached.handle] == InFlight(o);
  }

  lemma HandlesEvict(operations: map<nat, Operation>, sessions: map<ProfileId, CachedSession>,
                     taken: multiset<Handle>, closes: multiset<Handle>, drops: multiset<Handle>, known: set<Handle>,
                     place: map<Handle, Place>, id: ProfileId)
    requires HandlesOk(operations, sessions, taken, closes, drops, known, place)
    requires id in sessions
    ensures var h := sessions[id].handle;
            HandlesOk(operations, sessions - {id}, taken + multiset{h}, closes, drops, known, place[h := Taken])
  {
    var h := sessions[id].handle;
    assert place[h] == Cached(id) && h !in taken && h !in closes && h !in drops;
  }

  lemma HandlesDrain(operations: map<nat, Operation>, sessions: map<ProfileId, CachedSession>,
                     taken: multiset<Handle>, closes: multiset<Handle>, drops: multiset<Handle>, known: set<Handle>, place: map<Handle, Place>)
    requires HandlesOk(operations, sessions, taken, closes, drops, known, place)
    ensures var drained := CachedHandles(sessions);
            HandlesOk(operations, map[], taken + multiset(drained), closes, drops, known,
                      map h | h in place :: if h in drained then Taken else place[h])
  {
    forall h
      ensures h in CachedHandles(sessions) <==> h in place && place[h].Cached?
    {
      DrainedKnown(operations, sessions, taken, closes, drops, known, place, h);
    }
    hide CachedHandles;
    HandlesDrained(operations, sessions, taken, closes, drops, known, place, CachedHandles(sessions));
  }

  lemma HandlesDrained(operations: map<nat, Operation>, sessions: map<ProfileId, CachedSession>,
                       taken: multiset<Handle>, closes: multiset<Handle>, drops: multiset<Handle>, known: set<Handle>,
                       place: map<Handle, Place>, drained: set<Handle>)
    requires HandlesOk(operations, sessions, taken, closes, drops, known, place)
    requires forall h :: h in drained <==> h in place && place[h].Cached?
    ensures HandlesOk(operations, map[], taken + multiset(drained), closes, drops, known,
                      map h | h in place :: if h in drained then Taken else place[h])
  {
    forall h | h in taken + multiset(drained)
      ensures h in place && (h in taken <==> h !in drained) && (taken + multiset(drained))[h] == 1
    {
      assert h in drained ==> taken[h] == 0;
    }
  }

  lemma DrainedKnown(operations: map<nat, Operation>, sessions: map<ProfileId, CachedSession>,
                     taken: multiset<Handle>, closes: multiset<Handle>, drops: multiset<Handle>, known: set<Handle>,
                     place: map<Handle, Place>, h: Handle)
    requires HandlesOk(operations, sessions, taken, closes, drops, known, place)
    ensures h in CachedHandles(sessions) <==> h in place && place[h].Cached?
  {
    if h in place && place[h].Cached? {
      assert sessions[place[h].profileId].handle == h;
    }
    if h in CachedHandles(sessions) {
      var id :| id in sessions && sessions[id].handle == h;
    }
  }

  lemma HandlesRetag(s: State, id: ProfileId, generation: nat)
    requires HandlesOk(s.operations, s.core.sessions, s.taken, s.closes, s.drops, s.openedWith.Keys, s.place)
    requires id in s.core.sessions
    ensures HandlesOk(s.operations, s.core.sessions[id := s.core.sessions[id].(profileGeneration := generation)],
                      s.taken, s.closes, s.drops, s.openedWith.Keys, s.place)
  {
  }

  // ---- operations ----

  lemma BeginKeeps(s: State, o: nat, id: ProfileId, generation: nat)
    requires Inv(s) && Enabled(s, Begin(o, id, generation))
    ensures Inv(Apply(s, Begin(o, id, generation)))
  {
    hide SessionsOk, FencesOk, CapturesOk, PlanOk, HandlesOk, PhasesOk, ReadsOk;
    FindMeaning(s.core.observed.config, id);
    assert Naming(generation, id, Find(s.core.observed.config, id)) in NamingsOf(s.core.observed);
    hide NamedOk, NamingsOf, ObservedOk;
    var t := Apply(s, Begin(o, id, generation));
    HandlesIdle(s, t.operations);
    assert PhasesOk(t.operations, s.openedWith, s.owner, s.core.nextSession) by { PhasesAdd(s, o, t.operations[o]); }
    assert ReadsOk(t.operations, s.core.observed.generations, s.named, s.history, s.episodes, s.torn, s.lane.Marked?)
      by { ReadsAdd(s, o, t.operations[o]); }
  }

  lemma PhasesAdd(s: State, o: nat, op: Operation)
    requires PhasesOk(s.operations, s.openedWith, s.owner, s.core.nextSession)
    requires !op.phase.Connecting? && PhaseOk(op, s.openedWith, s.owner, s.core.nextSession)
    ensures PhasesOk(s.operations[o := op], s.openedWith, s.owner, s.core.nextSession)
  {
  }

  lemma ReadsAdd(s: State, o: nat, op: Operation)
    requires ReadsOk(s.operations, s.core.observed.generations, s.named, s.history, s.episodes, s.torn, s.lane.Marked?)
    requires Naming(op.generation, op.profile.id, Some(op.profile)) in s.named
    requires Undisturbed(op, s.core.observed.generations, s.history, s.episodes, s.torn, s.lane.Marked?)
    ensures ReadsOk(s.operations[o := op], s.core.observed.generations, s.named, s.history, s.episodes, s.torn, s.lane.Marked?)
  {
  }

  lemma ReadsPhase(s: State, o: nat, phase: Phase)
    requires ReadsOk(s.operations, s.core.observed.generations, s.named, s.history, s.episodes, s.torn, s.lane.Marked?)
    requires o in s.operations
    ensures ReadsOk(SetPhase(s, o, phase).operations, s.core.observed.generations, s.named, s.history, s.episodes,
                    s.torn, s.lane.Marked?)
  {
    assert Undisturbed(s.operations[o], s.core.observed.generations, s.history, s.episodes, s.torn, s.lane.Marked?);
  }

  /** An operation moves between phases that hold no handle of their own. */
  lemma SetPhaseKeeps(s: State, o: nat, phase: Phase)
    requires Inv(s) && o in s.operations
    requires !s.operations[o].phase.Connected? && !phase.Connected? && !phase.Connecting?
    requires PhaseOk(s.operations[o].(phase := phase), s.openedWith, s.owner, s.core.nextSession)
    ensures Inv(SetPhase(s, o, phase))
  {
    hide ObservedOk, NamedOk, SessionsOk, FencesOk, CapturesOk, PlanOk, NamingsOf, HandlesOk, PhasesOk, ReadsOk;
    var op := s.operations[o].(phase := phase);
    HandlesIdle(s, s.operations[o := op]);
    PhasesAdd(s, o, op);
    ReadsPhase(s, o, phase);
  }

  lemma CheckKeeps(s: State, o: nat)
    requires Inv(s) && Enabled(s, Check(o))
    ensures Inv(CheckStep(s, o))
  {
    hide ObservedOk, NamedOk, HandlesOk, FencesOk, CapturesOk, PlanOk, NamingsOf, ReadsOk;
    var op := s.operations[o];
    match CheckCache(s.core, op.profile, op.generation) {
      case Err(_) => SetPhaseKeeps(s, o, Ended);
      case Ok(Some(lease)) => SetPhaseKeeps(s, o, Leased(lease));
      case Ok(None) => SetPhaseKeeps(s, o, Missed);
    }
  }

  lemma PhasesAllocate(s: State, o: nat)
    requires PhasesOk(s.operations, s.openedWith, s.owner, s.core.nextSession) && o in s.operations
    ensures PhasesOk(SetPhase(s, o, Connecting(s.core.nextSession)).operations, s.openedWith, s.owner,
                     s.core.nextSession + 1)
  {
  }

  lemma AllocateKeeps(s: State, o: nat)
    requires Inv(s) && Enabled(s, Allocate(o))
    ensures Inv(Apply(s, Allocate(o)))
  {
    hide ObservedOk, NamedOk, SessionsOk, FencesOk, CapturesOk, PlanOk, NamingsOf, HandlesOk, PhasesOk, ReadsOk;
    var phase := Connecting(s.core.nextSession);
    HandlesIdle(s, SetPhase(s, o, phase).operations);
    PhasesAllocate(s, o);
    ReadsPhase(s, o, phase);
  }

  lemma AbortKeeps(s: State, o: nat)
    requires Inv(s) && Enabled(s, Abort(o))
    ensures Inv(SetPhase(s, o, Ended))
  {
    SetPhaseKeeps(s, o, Ended);
  }

  lemma ObserveKeeps(s: State, o: nat)
    requires Inv(s) && Enabled(s, Observe(o))
    ensures Inv(ObserveStep(s, o))
  {
    hide ObservedOk, NamedOk, HandlesOk, FencesOk, CapturesOk, PlanOk, NamingsOf, ReadsOk, SessionsOk;
    var lease := s.operations[o].phase.lease;
    SetPhaseKeeps(s, o, if Observation(s.core, lease.profileId, lease.identity.profileGeneration).Ok?
                        then Confirmed(lease) else Ended);
  }

  lemma PhasesConnect(s: State, o: nat, h: Handle)
    requires PhasesOk(s.operations, s.openedWith, s.owner, s.core.nextSession)
    requires o in s.operations && s.operations[o].phase.Connecting? && h !in s.openedWith
    ensures var t := ConnectStep(s, o, h); PhasesOk(t.operations, t.openedWith, t.owner, t.core.nextSession)
  {
  }

  lemma OpenedGrows(s: State, session: nat, h: Handle, fingerprint: ConnectionFingerprint)
    requires SessionsOk(s.core.sessions, s.openedWith, s.owner, s.named)
    requires FencesOk(s.fences, s.owner, s.named) && CapturesOk(s.captures, s.owner)
    requires LaneOk(s.lane, s.core, s.owner)
    requires h !in s.openedWith && session !in s.owner
    ensures var openedWith, owner := s.openedWith[h := fingerprint], s.owner[session := h];
            && SessionsOk(s.core.sessions, openedWith, owner, s.named)
            && FencesOk(s.fences, owner, s.named) && CapturesOk(s.captures, owner)
            && LaneOk(s.lane, s.core, owner)
  {
    hide PlanOk;
  }

  lemma ConnectKeeps(s: State, o: nat, h: Handle)
    requires Inv(s) && Enabled(s, Connect(o, h))
    ensures Inv(ConnectStep(s, o, h))
  {
    hide ObservedOk, NamedOk, PlanOk, NamingsOf, SessionsOk, FencesOk, CapturesOk, LaneOk, HandlesOk, ReadsOk;
    var session := s.operations[o].phase.session;
    OpenedGrows(s, session, h, FingerprintOf(s.operations[o].profile));
    hide PhasesOk;
    HandlesArrive(s.operations, s.core.sessions, s.taken, s.closes, s.drops, s.openedWith.Keys, s.place, o,
                  s.operations[o].(phase := Connected(session, h)));
    PhasesConnect(s, o, h);
    ReadsPhase(s, o, Connected(session, h));
    assert s.openedWith[h := FingerprintOf(s.operations[o].profile)].Keys == s.openedWith.Keys + {h};
  }

  // ---- the cache ----

  lemma AbandonKeeps(s: State, o: nat, phase: Phase)
    requires o in s.operations && s.operations[o].phase.Connected? && !phase.Connected? && !phase.Connecting?
    requires PhaseOk(s.operations[o].(phase := phase), s.openedWith, s.owner, s.core.nextSession)
    requires Inv(s)
    ensures Inv(Take(SetPhase(s, o, phase), s.operations[o].phase.handle))
  {
    hide ObservedOk, NamedOk, SessionsOk, FencesOk, CapturesOk, PlanOk, NamingsOf, HandlesOk, PhasesOk, ReadsOk;
    HandlesAbandon(s.operations, s.core.sessions, s.taken, s.closes, s.drops, s.openedWith.Keys, s.place, o,
                   s.operations[o].(phase := phase));
    PhasesAdd(s, o, s.operations[o].(phase := phase));
    ReadsPhase(s, o, phase);
  }

  lemma EvictKeeps(s: State, id: ProfileId, generation: nat, session: nat)
    requires Inv(s)
    ensures Inv(EvictStep(s, id, generation, session))
  {
    hide NamedOk, ObservedOk, NamingsOf, PlanOk, FencesOk, CapturesOk, ReadsOk, PhasesOk, HandlesOk;
    if Matches(s.core, id, generation, session) {
      HandlesEvict(s.operations, s.core.sessions, s.taken, s.closes, s.drops, s.openedWith.Keys, s.place, id);
    }
  }

  function Filled(s: State, o: nat, cached: CachedSession): State
    requires o in s.operations
  {
    var id := s.operations[o].profile.id;
    SetPhase(s.(core := s.core.(sessions := s.core.sessions[id := cached]),
                place := s.place[cached.handle := Cached(id)]),
             o, Leased(LeaseOf(s.operations[o].profile, cached)))
  }

  /** A new session of the current profile takes an empty slot. */
  lemma CacheKeeps(s: State, o: nat)
    requires o in s.operations && s.operations[o].phase.Connected?
    requires IsCurrent(s.core, s.operations[o].profile, s.operations[o].generation)
    requires s.operations[o].profile.id !in s.core.sessions
    requires Inv(s)
    ensures var op := s.operations[o];
            Inv(Filled(s, o, Fresh(op.profile, op.generation, op.phase.session, op.phase.handle)))
  {
    hide NamedOk, ObservedOk, NamingsOf, PlanOk, FencesOk, CapturesOk, HandlesOk;
    var op := s.operations[o];
    var cached := Fresh(op.profile, op.generation, op.phase.session, op.phase.handle);
    var lease := LeaseOf(op.profile, cached);
    var sessions := s.core.sessions[op.profile.id := cached];
    assert SessionsOk(sessions, s.openedWith, s.owner, s.named) by {
      assert PhaseOk(op, s.openedWith, s.owner, s.core.nextSession);
      assert Names(s.named, op.generation, op.profile.id, FingerprintOf(op.profile));
    }
    assert PhaseOk(op, s.openedWith, s.owner, s.core.nextSession);
    hide SessionsOk, PhasesOk, ReadsOk;
    HandlesCache(s.operations, s.core.sessions, s.taken, s.closes, s.drops, s.openedWith.Keys, s.place, o,
                 op.(phase := Leased(lease)), op.profile.id, cached);
    PhasesAdd(s, o, op.(phase := Leased(lease)));
    ReadsPhase(s, o, Leased(lease));
  }

  ghost predicate Displaces(s: State, o: nat) {
    Enabled(s, InstallOrClose(o))
    && var op := s.operations[o];
       && op.profile.id in s.core.sessions
       && s.core.sessions[op.profile.id].handle != op.phase.handle
       && Install(s.core, op.profile, op.generation, op.phase.session, op.phase.handle).1.Installed?
  }

  function EvictOwn(s: State, o: nat): State
    requires o in s.operations && s.operations[o].profile.id in s.core.sessions
  {
    var id := s.operations[o].profile.id;
    EvictStep(s, id, s.core.sessions[id].profileGeneration, s.core.sessions[id].sessionGeneration)
  }

  /** Replacing a session is evicting it and then filling its slot. */
  lemma DisplacingIsEvictThenFill(s: State, o: nat)
    requires Displaces(s, o)
    ensures var op := s.operations[o];
            var t := EvictOwn(s, o);
            && t.operations == s.operations && op.profile.id !in t.core.sessions
            && IsCurrent(t.core, op.profile, op.generation)
            && InstallStep(s, o) == Filled(t, o, Fresh(op.profile, op.generation, op.phase.session, op.phase.handle))
  {
    var op := s.operations[o];
    var id := op.profile.id;
    var h := op.phase.handle;
    var displaced := s.core.sessions[id];
    var t := EvictOwn(s, o);
    var cached := Fresh(op.profile, op.generation, op.phase.session, h);
    assert t.core.sessions[id := cached] == s.core.sessions[id := cached];
    assert t.place[h := Cached(id)] == s.place[h := Cached(id)][displaced.handle := Taken];
  }

  lemma ReplaceKeeps(s: State, o: nat)
    requires o in s.operations && s.operations[o].phase.Connected?
    requires s.operations[o].profile.id in s.core.sessions
    requires Displaces(s, o)
    requires Inv(s)
    ensures Inv(InstallStep(s, o))
  {
    hide Inv, EvictStep, InstallStep, Filled, Install, IsCurrent;
    var id := s.operations[o].profile.id;
    EvictKeeps(s, id, s.core.sessions[id].profileGeneration, s.core.sessions[id].sessionGeneration);
    DisplacingIsEvictThenFill(s, o);
    CacheKeeps(EvictOwn(s, o), o);
  }

  lemma Apart(s: State, o: nat, id: ProfileId)
    requires id in s.core.sessions && o in s.operations && s.operations[o].phase.Connected?
    requires Inv(s)
    ensures s.core.sessions[id].handle != s.operations[o].phase.handle
  {
    hide NamedOk, ObservedOk, NamingsOf, PlanOk, FencesOk, CapturesOk, ReadsOk, SessionsOk, PhasesOk, LaneOk;
    assert s.place[s.operations[o].phase.handle] == InFlight(o);
  }

  lemma InstallKeeps(s: State, o: nat)
    requires Inv(s) && Enabled(s, InstallOrClose(o))
    ensures Inv(InstallStep(s, o))
  {
    hide NamedOk, ObservedOk, NamingsOf, PlanOk, FencesOk, CapturesOk, ReadsOk, HandlesOk, LaneOk;
    var op := s.operations[o];
    match Install(s.core, op.profile, op.generation, op.phase.session, op.phase.handle).1 {
      case Installed(displaced, lease) =>
        if displaced.None? {
          CacheKeeps(s, o);
        } else {
          Apart(s, o, op.profile.id);
          ReplaceKeeps(s, o);
        }
      case Existing(lease) =>
        assert PhaseOk(op.(phase := Leased(lease)), s.openedWith, s.owner, s.core.nextSession);
        AbandonKeeps(s, o, Leased(lease));
      case Stale => AbandonKeeps(s, o, Ended);
      case Uncertain => AbandonKeeps(s, o, Ended);
    }
  }

  lemma ResolveKeeps(s: State, issued: IssuedFence, allowRetag: bool)
    requires Inv(s) && issued in s.fences
    ensures Inv(ResolveStep(s, issued.fence, allowRetag))
  {
    hide NamedOk, ObservedOk, NamingsOf, PlanOk, CapturesOk, ReadsOk, PhasesOk, HandlesOk;
    var fence := issued.fence;
    if allowRetag && fence.retagEligible {
      if RetagExact(s.core, fence.profileId, fence.previous, fence.nextGeneration, fence.nextFingerprint).1 {
        HandlesRetag(s, fence.profileId, fence.nextGeneration);
      }
    } else {
      EvictKeeps(s, fence.profileId, fence.previous.profileGeneration, fence.previous.sessionGeneration);
    }
  }

  lemma CloseKeeps(s: State, h: Handle)
    requires Inv(s) && Enabled(s, CloseTaken(h))
    ensures Inv(Apply(s, CloseTaken(h)))
  {
    hide NamedOk, ObservedOk, NamingsOf, PlanOk, FencesOk, CapturesOk, ReadsOk, PhasesOk, SessionsOk, HandlesOk;
    HandlesClose(s.operations, s.core.sessions, s.taken, s.closes, s.drops, s.openedWith.Keys, s.place, h);
  }

  lemma HandlesClose(operations: map<nat, Operation>, sessions: map<ProfileId, CachedSession>,
                     taken: multiset<Handle>, closes: multiset<Handle>, drops: multiset<Handle>, known: set<Handle>,
                     place: map<Handle, Place>, h: Handle)
    requires HandlesOk(operations, sessions, taken, closes, drops, known, place) && h in taken
    ensures HandlesOk(operations, sessions, taken - multiset{h}, closes + multiset{h}, drops, known, place[h := Closed])
  {
    assert place[h] == Taken && h !in closes;
  }

  lemma DropTakenKeeps(s: State, h: Handle)
    requires Inv(s) && h in s.taken
    ensures Inv(DropTakenStep(s, h))
  {
    hide NamedOk, ObservedOk, NamingsOf, PlanOk, FencesOk, CapturesOk, ReadsOk, PhasesOk, SessionsOk, HandlesOk;
    HandlesDrop(s.operations, s.core.sessions, s.taken, s.closes, s.drops, s.openedWith.Keys, s.place, h);
  }

  lemma HandlesDrop(operations: map<nat, Operation>, sessions: map<ProfileId, CachedSession>,
                    taken: multiset<Handle>, closes: multiset<Handle>, drops: multiset<Handle>, known: set<Handle>,
                    place: map<Handle, Place>, h: Handle)
    requires HandlesOk(operations, sessions, taken, closes, drops, known, place) && h in taken
    ensures HandlesOk(operations, sessions, taken - multiset{h}, closes, drops + multiset{h}, known,
                      place[h := Dropped])
  {
    assert place[h] == Taken && h !in drops;
  }

  lemma DropKeeps(s: State, o: nat)
    requires Inv(s) && Enabled(s, Drop(o))
    ensures Inv(DropStep(s, o))
  {
    hide Inv, DropTakenStep;
    AbandonKeeps(s, o, Ended);
    DropTakenKeeps(Take(SetPhase(s, o, Ended), s.operations[o].phase.handle), s.operations[o].phase.handle);
  }

  lemma ShutdownKeeps(s: State)
    requires Inv(s)
    ensures Inv(ShutdownStep(s))
  {
    hide NamedOk, ObservedOk, NamingsOf, PlanOk, FencesOk, CapturesOk, ReadsOk, PhasesOk, HandlesOk, CachedHandles;
    HandlesDrain(s.operations, s.core.sessions, s.taken, s.closes, s.drops, s.openedWith.Keys, s.place);
  }

  // ---- every step ----

  lemma StepKeeps(s: State, e: Event)
    requires Inv(s) && Enabled(s, e)
    ensures Inv(Apply(s, e))
  {
    hide Inv;
    match e
    case AcquireLane => LaneStepKeeps(s, Held);
    case ReleaseLane => LaneStepKeeps(s, Idle);
    case MarkUncertain => MarkKeeps(s);
    case BumpAll(order) => BumpKeeps(s, order);
    case PlanReload(config, removed) => PlanReloadKeeps(s, config, removed);
    case PlanMutation(config, identity) => PlanMutationKeeps(s, config, identity);
    case PublishPlan => PublishKeeps(s);
    case ClearFlag => ClearKeeps(s);
    case DropLane => DropLaneKeeps(s);
    case Begin(o, id, generation) => BeginKeeps(s, o, id, generation);
    case Check(o) => CheckKeeps(s, o);
    case Allocate(o) => AllocateKeeps(s, o);
    case Connect(o, h) => ConnectKeeps(s, o, h);
    case Abort(o) => AbortKeeps(s, o);
    case InstallOrClose(o) => InstallKeeps(s, o);
    case Observe(o) => ObserveKeeps(s, o);
    case Evict(id, generation, session) => EvictKeeps(s, id, generation, session);
    case Resolve(issued, allowRetag) => ResolveKeeps(s, issued, allowRetag);
    case CloseTaken(h) => CloseKeeps(s, h);
    case Drop(o) => DropKeeps(s, o);
    case DropTaken(h) => DropTakenKeeps(s, h);
    case Shutdown => ShutdownKeeps(s);
  }

  lemma LaneStepKeeps(s: State, lane: Lane)
    requires Inv(s)
    requires (s.lane.Idle? || s.lane.Held?) && (lane.Idle? || lane.Held?)
    ensures Inv(s.(lane := lane))
  {
    hide NamedOk, ObservedOk, NamingsOf, PlanOk, FencesOk, CapturesOk, ReadsOk, PhasesOk, HandlesOk, SessionsOk;
  }

  lemma StartHolds(config: seq<ConnectionProfile>)
    requires UniqueIds(config)
    ensures Inv(Start(config))
  {
    var observed := Start(config).core.observed;
    StartNamed(config);
    hide NamedOk, NamingsOf, Assign, PlanOk;
    assert ObservedOk(observed, [config]);
  }

  lemma NothingNamed()
    ensures NamedOk({}, Observed([], map[], map[]), 1)
  {
  }

  lemma StartNamed(config: seq<ConnectionProfile>)
    requires UniqueIds(config)
    ensures var a := Assign(config, Observed([], map[], map[]), None, 1);
            var observed := Observed(config, a.generations, map[]);
            a.generations.Keys == Ids(config) && NamedOk(NamingsOf(observed), observed, a.next)
  {
    var empty := Observed([], map[], map[]);
    var a := Assign(config, empty, None, 1);
    var plan := Plan(Observed(config, a.generations, map[]), a.next, None, {});
    AssignKeys(config, empty, None, 1);
    PlanMeaning(empty, config, None, [], 1, plan);
    hide Assign, PlanOk;
    NothingNamed();
    hide NamedOk;
    PlanAdvances(empty, 1, plan, {});
    NamedAdvances({}, empty, plan.observed, 1, plan.next);
    hide NamingsOf, Advances;
    assert {} + NamingsOf(plan.observed) == NamingsOf(plan.observed);
  }
}

/** A run in which an uncertainty episode goes unnoticed because the task that began it is dropped. */
module TornEpisodes {
  import opened Wrappers
  import opened Profiles
  import opened ServiceCore
  import opened SessionProtocol

  lemma Extend(states: seq<State>, events: seq<Event>, e: Event) returns (longer: seq<State>, more: seq<Event>)
    requires Run(states, events) && Enabled(states[|events|], e)
    ensures Run(longer, more) && more == events + [e]
    ensures longer == states + [Apply(states[|events|], e)]
  {
    hide Start, Apply, Enabled;
    longer, more := states + [Apply(states[|events|], e)], events + [e];
    forall i | 0 <= i < |more|
      ensures Enabled(longer[i], more[i]) && longer[i + 1] == Apply(longer[i], more[i])
    {
      if i < |events| {
        assert longer[i] == states[i] && more[i] == events[i];
      }
    }
  }

  /** Nothing but the profile is published, under its first number, and one operation has read it. */
  ghost predicate Alone(s: State, p: ConnectionProfile) {
    && s.core.observed == Observed([p], map[p.id := 1], map[]) && !s.core.uncertain && s.episodes == 0 && s.torn == {}
    && s.lane.Idle? && s.core.sessions == map[] && 0 in s.operations
    && s.operations[0].profile == p && s.operations[0].generation == 1
  }

  /** The operation holds a lease of the profile. */
  ghost predicate LeasedAlone(s: State, p: ConnectionProfile) {
    && s.core.observed == Observed([p], map[p.id := 1], map[]) && 0 in s.operations
    && s.operations[0].phase.Leased? && s.operations[0].phase.lease.profileId == p.id
    && s.operations[0].phase.lease.identity.profileGeneration == 1
  }

  lemma AssignAlone(p: ConnectionProfile, previous: Observed, next: nat)
    requires previous == Observed([], map[], map[]) || previous == Observed([p], map[p.id := 1], map[])
    requires previous.config == [] ==> next == 1
    ensures Assign([p], previous, None, next).generations == map[p.id := 1]
  {
    assert [p][..0] == [];
    assert Assign([], previous, None, next) == Assignment(map[], next);
  }

  lemma StartAlone(p: ConnectionProfile)
    ensures var s, e := Start([p]), Begin(0, p.id, 1);
            Enabled(s, e) && Alone(Apply(s, e), p) && s.episodes == 0
            && Apply(s, e).operations[0].phase.Reading? && Apply(s, e).openedWith == map[]
  {
    AssignAlone(p, Observed([], map[], map[]), 1);
    hide Assign, NamingsOf;
  }

  lemma CheckAlone(s: State, p: ConnectionProfile)
    requires Alone(s, p) && s.operations[0].phase.Reading? && s.openedWith == map[]
    ensures var t := Apply(s, Check(0)); Alone(t, p) && t.operations[0].phase.Missed? && t.openedWith == map[]
  {
    hide FingerprintOf;
  }

  lemma ConnectAlone(s: State, p: ConnectionProfile, h: Handle)
    requires Alone(s, p) && s.operations[0].phase.Missed? && s.openedWith == map[]
    ensures var t := Apply(s, Allocate(0));
            && Enabled(s, Allocate(0)) && Enabled(t, Connect(0, h))
            && Alone(Apply(t, Connect(0, h)), p) && Apply(t, Connect(0, h)).operations[0].phase.Connected?
  {
    hide FingerprintOf;
  }

  lemma InstallAlone(s: State, p: ConnectionProfile)
    requires Alone(s, p) && s.operations[0].phase.Connected?
    ensures var t := Apply(s, InstallOrClose(0));
            LeasedAlone(t, p) && t.lane.Idle? && !t.core.uncertain && t.episodes == 0 && t.torn == {}
  {
    hide FingerprintOf;
  }

  lemma LeaseAlone(p: ConnectionProfile, h: Handle) returns (states: seq<State>, events: seq<Event>)
    ensures Run(states, events) && |events| == 5 && |states| == 6 && events[0] == Begin(0, p.id, 1)
    ensures states[0].episodes == states[5].episodes == 0 && states[5].torn == {} && LeasedAlone(states[5], p)
    ensures states[5].lane.Idle? && !states[5].core.uncertain
  {
    StartAlone(p);
    states, events := [Start([p])], [];
    hide Start, Alone, LeasedAlone, Apply;
    states, events := Extend(states, events, Begin(0, p.id, 1));
    StillAlone(states[1], p);
    CheckAlone(states[1], p);
    states, events := Extend(states, events, Check(0));
    StillAlone(states[2], p);
    ConnectAlone(states[2], p, h);
    states, events := Extend(states, events, Allocate(0));
    states, events := Extend(states, events, Connect(0, h));
    StillAlone(states[4], p);
    InstallAlone(states[4], p);
    states, events := Extend(states, events, InstallOrClose(0));
  }

  lemma StillAlone(s: State, p: ConnectionProfile)
    requires Alone(s, p)
    ensures 0 in s.operations
  {
  }

  /** An episode begins and its task is dropped. */
  lemma TearAlone(s: State, p: ConnectionProfile)
    requires LeasedAlone(s, p) && s.lane.Idle? && s.episodes == 0 && s.torn == {}
    ensures var t := Apply(s, AcquireLane);
            var u := Apply(t, MarkUncertain);
            var v := Apply(u, DropLane);
            && Enabled(t, MarkUncertain) && Enabled(u, DropLane)
            && LeasedAlone(v, p) && v.lane.Idle? && v.episodes == 1 && v.torn == {1}
  {
  }

  /** A reload that finds the config as it was. */
  lemma ReloadAlone(s: State, p: ConnectionProfile)
    requires LeasedAlone(s, p) && s.lane.Idle?
    ensures var t := Apply(s, AcquireLane);
            var u := Apply(t, PlanReload([p], []));
            var v := Apply(u, PublishPlan);
            var w := Apply(v, ClearFlag);
            && Enabled(t, PlanReload([p], [])) && Enabled(u, PublishPlan) && Enabled(v, ClearFlag)
            && LeasedAlone(w, p) && !w.core.uncertain && w.episodes == s.episodes && w.torn == s.torn
  {
    AssignAlone(p, s.core.observed, s.core.nextGeneration);
    hide Assign, NamingsOf, ReloadTargets, CapturesOf;
  }

  lemma ObserveAlone(s: State, p: ConnectionProfile)
    requires LeasedAlone(s, p) && !s.core.uncertain
    ensures Enabled(s, Observe(0))
    ensures 0 in Apply(s, Observe(0)).operations && Apply(s, Observe(0)).operations[0].phase.Confirmed?
  {
  }

  /**
   An operation reads a profile, an episode begins and is torn, a reload finds the config as it was and clears
   the flag, and the closing observation succeeds.
   */
  lemma TornEpisodeIsMissed(p: ConnectionProfile, h: Handle) returns (states: seq<State>, events: seq<Event>)
    ensures Run(states, events) && |events| == 13 && |states| == 14
    ensures events[0] == Begin(0, p.id, 1) && events[12] == Observe(0)
    ensures 0 in states[13].operations && states[13].operations[0].phase.Confirmed?
    ensures states[0].episodes == 0 && states[12].episodes == 1 && states[12].torn == {1}
  {
    states, events := LeaseAlone(p, h);
    var leased := states[5];
    assert Enabled(leased, AcquireLane);
    TearAlone(leased, p);
    hide Start, Apply, LeasedAlone, Run;
    states, events := Extend(states, events, AcquireLane);
    states, events := Extend(states, events, MarkUncertain);
    states, events := Extend(states, events, DropLane);
    var free := states[8];
    assert Enabled(free, AcquireLane);
    ReloadAlone(free, p);
    hide Enabled;
    states, events := Extend(states, events, AcquireLane);
    states, events := Extend(states, events, PlanReload([p], []));
    states, events := Extend(states, events, PublishPlan);
    states, events := Extend(states, events, ClearFlag);
    ObserveAlone(states[12], p);
    states, events := Extend(states, events, Observe(0));
  }
}

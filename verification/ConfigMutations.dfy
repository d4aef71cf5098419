/** Configs and the mutations a writer applies to them. */
module ConfigMutations {
  import opened Wrappers
  import opened Profiles
  import opened ProfileIds

  const CURRENT_CONFIG_VERSION: nat := 2

  datatype Config = Config(version: nat, profiles: seq<ConnectionProfile>)

  datatype Mutation =
    | Create(profile: ConnectionProfile)
    | CreateAuto(baseId: string, draft: ConnectionProfile)
    | UpdateChecked(profileId: string, expected: ConnectionProfile, updated: ConnectionProfile)
    | DeleteChecked(profileId: string, expected: ConnectionProfile)

  datatype MutationError = ProfileAlreadyExists | ProfileMissing | ImmutableProfileId | ExternalChange

  /** `validate_config_identity`. */
  predicate ValidIdentity(config: Config) {
    && (forall i | 0 <= i < |config.profiles| :: ValidId(config.profiles[i].id))
    && UniqueIds(config.profiles)
  }

  /** `validate_config_mutation`; `draftOk` is the check of everything but the id. */
  predicate ValidMutation(mutation: Mutation, draftOk: ConnectionProfile -> bool) {
    match mutation
    case Create(profile) => ValidId(profile.id) && draftOk(profile)
    case CreateAuto(baseId, draft) => ValidId(baseId) && ValidId(draft.id) && draftOk(draft)
    case UpdateChecked(profileId, expected, updated) =>
      ValidId(expected.id) && expected.id == profileId && updated.id == profileId && draftOk(updated)
    case DeleteChecked(profileId, expected) => ValidId(expected.id) && expected.id == profileId
  }

  /** The position of the first profile with this id. */
  function Position(profiles: seq<ConnectionProfile>, id: string): (position: Option<nat>)
    ensures position.Some? ==> position.value < |profiles| && profiles[position.value].id == id
    ensures position.None? <==> Free(profiles, id)
  {
    if profiles == [] then None
    else if profiles[0].id == id then Some(0)
    else
      var rest := Position(profiles[1..], id);
      if rest.None? then None else Some(rest.value + 1)
  }

  /**
   What a mutation that succeeds did: one profile added under an id that was free, one profile replaced that
   was exactly the expected one, or one removed that was.
   */
  ghost predicate Applied(before: seq<ConnectionProfile>, mutation: Mutation, after: seq<ConnectionProfile>, id: string) {
    match mutation
    case Create(profile) => id == profile.id && Free(before, id) && after == before + [profile]
    case CreateAuto(baseId, draft) =>
      after == before + [draft.(id := id)] && exists tries :: Allocated(baseId, before, id, tries)
    case UpdateChecked(profileId, expected, updated) =>
      && id == profileId == expected.id == updated.id
      && (exists k: nat :: k < |before| && before[k] == expected && Free(before[..k], id) && after == before[k := updated])
    case DeleteChecked(profileId, expected) =>
      && id == profileId
      && (exists k: nat :: k < |before| && before[k] == expected && Free(before[..k], id)
                           && after == before[..k] + before[k + 1..])
  }

  /** Why a mutation fails: each error exactly where its condition holds. */
  predicate Fails(before: seq<ConnectionProfile>, mutation: Mutation, error: MutationError) {
    match mutation
    case Create(profile) => error == ProfileAlreadyExists && !Free(before, profile.id)
    case CreateAuto(_, _) => false
    case UpdateChecked(profileId, expected, updated) =>
      if updated.id != profileId || expected.id != profileId then error == ImmutableProfileId
      else
        var k := Position(before, profileId);
        if k.None? then error == ProfileMissing else error == ExternalChange && before[k.value] != expected
    case DeleteChecked(profileId, expected) =>
      var k := Position(before, profileId);
      if k.None? then error == ProfileMissing else error == ExternalChange && before[k.value] != expected
  }

  lemma {:induction false} PositionIsFirst(profiles: seq<ConnectionProfile>, id: string)
    requires Position(profiles, id).Some?
    ensures Free(profiles[..Position(profiles, id).value], id)
  {
    if profiles[0].id != id {
      PositionIsFirst(profiles[1..], id);
      var k := Position(profiles, id).value;
      assert profiles[..k][1..] == profiles[1..][..k - 1];
      forall i | 0 <= i < k
        ensures profiles[..k][i].id != id
      {
        if i > 0 {
          assert profiles[..k][i] == profiles[1..][..k - 1][i - 1];
        }
      }
    }
  }

  /** `apply_mutation`. */
  method ApplyMutation(profiles: seq<ConnectionProfile>, mutation: Mutation)
    returns (result: Result<seq<ConnectionProfile>, MutationError>, id: string)
    ensures result.Ok? ==> Applied(profiles, mutation, result.value, id)
    ensures result.Ok? ==> forall error :: !Fails(profiles, mutation, error)
    ensures result.Err? ==> Fails(profiles, mutation, result.error)
    ensures mutation.CreateAuto? && ValidId(mutation.baseId) ==> ValidId(id)
  {
    id := "";
    match mutation {
      case Create(profile) =>
        if !Free(profiles, profile.id) {
          return Err(ProfileAlreadyExists), "";
        }
        return Ok(profiles + [profile]), profile.id;
      case CreateAuto(baseId, draft) =>
        ghost var tries;
        id, tries := AllocateProfileId(baseId, profiles);
        assert Allocated(baseId, profiles, id, tries);
        result := Ok(profiles + [draft.(id := id)]);
      case UpdateChecked(profileId, expected, updated) =>
        if updated.id != profileId || expected.id != profileId {
          return Err(ImmutableProfileId), "";
        }
        var k := Position(profiles, profileId);
        if k.None? {
          return Err(ProfileMissing), "";
        }
        if profiles[k.value] != expected {
          return Err(ExternalChange), "";
        }
        PositionIsFirst(profiles, profileId);
        return Ok(profiles[k.value := updated]), profileId;
      case DeleteChecked(profileId, expected) =>
        var k := Position(profiles, profileId);
        if k.None? {
          return Err(ProfileMissing), "";
        }
        if profiles[k.value] != expected {
          return Err(ExternalChange), "";
        }
        PositionIsFirst(profiles, profileId);
        return Ok(profiles[..k.value] + profiles[k.value + 1..]), profileId;
    }
  }

  lemma FreeIsNotAnId(profiles: seq<ConnectionProfile>, id: string)
    ensures Free(profiles, id) <==> id !in Ids(profiles)
  {
    if id in Ids(profiles) {
      var p :| p in profiles && p.id == id;
    }
  }

  lemma OneMoreId(profiles: seq<ConnectionProfile>, profile: ConnectionProfile)
    requires UniqueIds(profiles) && Free(profiles, profile.id)
    ensures UniqueIds(profiles + [profile])
  {
  }

  /** A valid mutation keeps the ids of a config valid and different, so the check after it never fails. */
  lemma MutationKeepsIdentity(config: Config, mutation: Mutation, draftOk: ConnectionProfile -> bool,
                              after: seq<ConnectionProfile>, id: string)
    requires ValidIdentity(config) && ValidMutation(mutation, draftOk)
    requires Applied(config.profiles, mutation, after, id)
    requires mutation.CreateAuto? ==> ValidId(id)
    ensures ValidIdentity(Config(CURRENT_CONFIG_VERSION, after))
  {
    hide ValidId, Candidate, Allocated;
    var before := config.profiles;
    match mutation {
      case Create(profile) => OneMoreId(before, profile);
      case CreateAuto(baseId, draft) =>
        var tries :| Allocated(baseId, before, id, tries);
        AllocatedIsFree(baseId, before, id, tries);
        OneMoreId(before, draft.(id := id));
      case UpdateChecked(profileId, expected, updated) =>
      case DeleteChecked(profileId, expected) =>
    }
  }

  lemma AllocatedIsFree(base: string, config: seq<ConnectionProfile>, id: string, tries: nat)
    requires Allocated(base, config, id, tries)
    ensures Free(config, id)
  {
    FreeIsNotAnId(config, id);
  }
}

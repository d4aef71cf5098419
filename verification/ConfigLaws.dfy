/** What ids, checks and mutations of a config amount to, said without the predicates the writer is stated through. */
module ConfigLaws {
  import opened Wrappers
  import opened Profiles
  import opened ProfileIds
  import opened ConfigMutations

  /** The ASCII codes of the digits and of the letters, upper and lower case. */
  predicate LetterOrDigit(code: int) {
    48 <= code <= 57 || 65 <= code <= 90 || 97 <= code <= 122
  }

  /** An id is a letter or digit and any of these, dots, underscores and hyphens. */
  lemma IdMeaning(id: string)
    ensures ValidId(id) <==>
              && id != "" && LetterOrDigit(id[0] as int)
              && (forall c | c in id :: LetterOrDigit(c as int) || c in ['-', '.', '_'])
  {
    if ValidId(id) {
      forall c | c in id
        ensures LetterOrDigit(c as int) || c in ['-', '.', '_']
      {
        var i :| 0 <= i < |id| && id[i] == c;
      }
    }
    assert forall i | 0 <= i < |id| :: id[i] in id;
  }

  // ---- slugs ----

  predicate IsRun(name: string) {
    forall i | 0 <= i < |name| :: LetterOrDigit(name[i] as int)
  }

  predicate HasNone(name: string) {
    forall i | 0 <= i < |name| :: !LetterOrDigit(name[i] as int)
  }

  /** A name in lower case, by the ASCII codes. */
  function InLowerCase(name: string): (lower: string)
    ensures |lower| == |name|
    ensures forall i | 0 <= i < |name| ::
              lower[i] as int == name[i] as int + if 65 <= name[i] as int <= 90 then 32 else 0
  {
    seq(|name|, i requires 0 <= i < |name| => Lower(name[i]))
  }

  lemma {:induction false} WordsOfRun(run: string)
    requires run != "" && IsRun(run)
    ensures Words(run) == [InLowerCase(run)]
  {
    var n := |run| - 1;
    if n > 0 {
      WordsOfRun(run[..n]);
      assert InLowerCase(run[..n]) + [Lower(run[n])] == InLowerCase(run);
    } else {
      assert [Lower(run[n])] == InLowerCase(run);
    }
  }

  lemma {:induction false} WordsApart(a: string, between: char, b: string)
    requires !LetterOrDigit(between as int)
    ensures Words(a + [between] + b) == Words(a) + Words(b)
  {
    var name := a + [between] + b;
    var n := |name| - 1;
    if b == "" {
      assert name[..n] == a;
    } else {
      var k := |b| - 1;
      WordsApart(a, between, b[..k]);
      assert name[..n] == a + [between] + b[..k] && name[n] == b[k];
      if k > 0 {
        assert name[n - 1] == b[k - 1];
        WordsAreWords(b[..k]);
      }
    }
  }

  lemma {:induction false} NoWordsIn(name: string)
    ensures Words(name) == [] <==> HasNone(name)
  {
    if name != "" {
      NoWordsIn(name[..|name| - 1]);
      WordsAreWords(name);
    }
  }

  lemma {:induction false} HyphenBetween(a: seq<string>, b: seq<string>)
    requires a != [] && b != []
    ensures Hyphenated(a + b) == Hyphenated(a) + "-" + Hyphenated(b)
  {
    var n := |b| - 1;
    assert (a + b)[..|a + b| - 1] == a + b[..n];
    if n > 0 {
      HyphenBetween(a, b[..n]);
      var left, right := Hyphenated(a) + "-" + Hyphenated(b[..n]) + "-" + b[n], Hyphenated(a) + "-" + Hyphenated(b);
      assert left == right;
    } else {
      assert a + b[..n] == a;
    }
  }

  /**
   What the id made from a display name is: a run of letters and digits in lower case; anything else separates, with
   one hyphen where there are letters or digits on both sides of it and with nothing elsewhere.
   */
  lemma SlugMeaning(run: string, a: string, between: char, b: string)
    ensures run != "" && IsRun(run) ==> Slug(run) == InLowerCase(run)
    ensures HasNone(run) ==> Slug(run) == "connection"
    ensures !LetterOrDigit(between as int) ==>
              Slug(a + [between] + b) == if HasNone(b) then Slug(a) else if HasNone(a) then Slug(b)
                                         else Slug(a) + "-" + Slug(b)
  {
    hide Words, Hyphenated;
    if run != "" && IsRun(run) {
      WordsOfRun(run);
      OneWord(InLowerCase(run));
    }
    NoWordsIn(run);
    if !LetterOrDigit(between as int) {
      WordsApart(a, between, b);
      NoWordsIn(a);
      NoWordsIn(b);
      if !HasNone(a) && !HasNone(b) {
        HyphenBetween(Words(a), Words(b));
      } else {
        assert Words(a) + [] == Words(a) && [] + Words(b) == Words(b);
      }
    }
  }

  lemma OneWord(word: string)
    ensures Hyphenated([word]) == word
  {
  }

  // ---- checks and mutations ----

  /** A config is accepted exactly if its ids are ids, and different: each profile is the one found under its id. */
  lemma IdentityMeaning(config: Config)
    ensures ValidIdentity(config) <==>
              && (forall p | p in config.profiles :: ValidId(p.id))
              && (forall i | 0 <= i < |config.profiles| :: Position(config.profiles, config.profiles[i].id) == Some(i))
  {
    hide ValidId;
    var profiles := config.profiles;
    if ValidIdentity(config) {
      forall i | 0 <= i < |profiles|
        ensures Position(profiles, profiles[i].id) == Some(i)
      {
        assert !Free(profiles, profiles[i].id);
      }
    } else if forall p | p in profiles :: ValidId(p.id) {
      assert forall i | 0 <= i < |profiles| :: profiles[i] in profiles;
      var i, j :| 0 <= i < j < |profiles| && profiles[i].id == profiles[j].id;
      assert Position(profiles, profiles[i].id) == Position(profiles, profiles[j].id);
    }
  }

  /**
   What a checked mutation makes of a config: nothing but the profile it names is added, replaced or removed, every
   other one keeps its place among the rest, and what is new has passed the checks.
   */
  lemma MutationMeaning(config: Config, mutation: Mutation, draftOk: ConnectionProfile -> bool,
                        after: seq<ConnectionProfile>, id: string)
    requires ValidIdentity(config) && ValidMutation(mutation, draftOk) && Applied(config.profiles, mutation, after, id)
    ensures Others(after, id) == Others(config.profiles, id)
    ensures mutation.Create? ==>
              && id == mutation.profile.id && id !in Ids(config.profiles) && draftOk(mutation.profile)
              && after == config.profiles + [mutation.profile]
    ensures mutation.CreateAuto? ==>
              && id !in Ids(config.profiles) && draftOk(mutation.draft)
              && after == config.profiles + [mutation.draft.(id := id)]
    ensures mutation.UpdateChecked? ==>
              && id == mutation.profileId && Find(config.profiles, id) == Some(mutation.expected)
              && Find(after, id) == Some(mutation.updated) && draftOk(mutation.updated) && |after| == |config.profiles|
              && forall i | 0 <= i < |after| :: after[i].id == config.profiles[i].id
    ensures mutation.DeleteChecked? ==>
              id == mutation.profileId && Find(config.profiles, id) == Some(mutation.expected) && id !in Ids(after)
  {
    hide ValidId, Candidate, Find, Others, UniqueIds;
    var before := config.profiles;
    match mutation {
      case Create(profile) =>
        OthersOfMore(before, [profile], id);
        NoOthers(profile);
        FreeIsNotAnId(before, id);
      case CreateAuto(baseId, draft) =>
        OthersOfMore(before, [draft.(id := id)], id);
        NoOthers(draft.(id := id));
      case UpdateChecked(profileId, expected, updated) =>
        var k: nat :| k < |before| && before[k] == expected && Free(before[..k], id) && after == before[k := updated];
        Replaced(before, k, [updated]);
        assert after == before[..k] + [updated] + before[k + 1..];
        assert after[..k] == before[..k];
        FoundAt(before, k);
        FoundAt(after, k);
      case DeleteChecked(profileId, expected) =>
        var k: nat :| k < |before| && before[k] == expected && Free(before[..k], id)
                      && after == before[..k] + before[k + 1..];
        Replaced(before, k, []);
        FoundAt(before, k);
        assert before[..k] + [] == before[..k];
        Removed(before, k);
    }
  }

  lemma NoOthers(profile: ConnectionProfile)
    ensures Others([profile], profile.id) == []
  {
  }

  lemma Removed(profiles: seq<ConnectionProfile>, k: nat)
    requires k < |profiles| && UniqueIds(profiles)
    ensures profiles[k].id !in Ids(profiles[..k] + profiles[k + 1..])
  {
    var left := profiles[..k] + profiles[k + 1..];
    forall p | p in left
      ensures p.id != profiles[k].id
    {
      var i :| 0 <= i < |left| && left[i] == p;
      assert p == profiles[if i < k then i else i + 1];
    }
  }

  /** The profiles with another id, in their order. */
  function Others(profiles: seq<ConnectionProfile>, id: string): seq<ConnectionProfile> {
    if profiles == [] then []
    else (if profiles[0].id == id then [] else [profiles[0]]) + Others(profiles[1..], id)
  }

  lemma {:induction false} OthersOfMore(a: seq<ConnectionProfile>, b: seq<ConnectionProfile>, id: string)
    ensures Others(a + b, id) == Others(a, id) + Others(b, id)
  {
    if a == [] {
      assert a + b == b;
    } else {
      assert (a + b)[1..] == a[1..] + b;
      OthersOfMore(a[1..], b, id);
    }
  }

  lemma Replaced(profiles: seq<ConnectionProfile>, k: nat, put: seq<ConnectionProfile>)
    requires k < |profiles| && (put == [] || (|put| == 1 && put[0].id == profiles[k].id))
    ensures Others(profiles[..k] + put + profiles[k + 1..], profiles[k].id) == Others(profiles, profiles[k].id)
  {
    var front, one, back, id := profiles[..k], [profiles[k]], profiles[k + 1..], profiles[k].id;
    assert profiles == front + one + back;
    OthersOfMore(front + one, back, id);
    OthersOfMore(front, one, id);
    OthersOfMore(front + put, back, id);
    OthersOfMore(front, put, id);
    assert Others(one, id) == [] && Others(put, id) == [];
  }

  lemma {:induction false} FoundAt(profiles: seq<ConnectionProfile>, k: nat)
    requires k < |profiles| && Free(profiles[..k], profiles[k].id)
    ensures Find(profiles, profiles[k].id) == Some(profiles[k])
  {
    if k > 0 {
      assert profiles[..k][0] == profiles[0];
      assert profiles[1..][..k - 1] == profiles[..k][1..];
      FoundAt(profiles[1..], k - 1);
    }
  }

  /** When a mutation fails, and how: by the profile that is found under its id. */
  lemma FailureMeaning(before: seq<ConnectionProfile>, mutation: Mutation, error: MutationError)
    ensures mutation.Create? ==>
              (Fails(before, mutation, error) <==> error == ProfileAlreadyExists && mutation.profile.id in Ids(before))
    ensures mutation.CreateAuto? ==> !Fails(before, mutation, error)
    ensures mutation.UpdateChecked? && {mutation.updated.id, mutation.expected.id} != {mutation.profileId}
            ==> (Fails(before, mutation, error) <==> error == ImmutableProfileId)
    ensures mutation.UpdateChecked? && {mutation.updated.id, mutation.expected.id} == {mutation.profileId}
            ==> (Fails(before, mutation, error) <==>
                 && error == (if mutation.profileId in Ids(before) then ExternalChange else ProfileMissing)
                 && Find(before, mutation.profileId) != Some(mutation.expected))
    ensures mutation.DeleteChecked?
            ==> (Fails(before, mutation, error) <==>
                 && error == (if mutation.profileId in Ids(before) then ExternalChange else ProfileMissing)
                 && Find(before, mutation.profileId) != Some(mutation.expected))
  {
    match mutation {
      case Create(profile) =>
        FindIsPosition(before, profile.id);
      case CreateAuto(_, _) =>
      case UpdateChecked(profileId, expected, updated) =>
        FindIsPosition(before, profileId);
        assert updated.id in {updated.id, expected.id} && expected.id in {updated.id, expected.id};
      case DeleteChecked(profileId, expected) =>
        FindIsPosition(before, profileId);
    }
  }

  lemma FindIsPosition(profiles: seq<ConnectionProfile>, id: string)
    ensures Find(profiles, id) == (var k := Position(profiles, id); if k.None? then None else Some(profiles[k.value]))
    ensures Find(profiles, id).Some? <==> id in Ids(profiles)
    ensures Find(profiles, id).None? <==> Free(profiles, id)
  {
    FindMeaning(profiles, id);
    FreeIsNotAnId(profiles, id);
    if Position(profiles, id).Some? {
      PositionIsFirst(profiles, id);
      FoundAt(profiles, Position(profiles, id).value);
    }
  }

  /** A mutation is refused by its check exactly if what it writes or names does not pass. */
  lemma CheckMeaning(mutation: Mutation, draftOk: ConnectionProfile -> bool)
    ensures !ValidMutation(mutation, draftOk) <==>
              match mutation
              case Create(profile) => !ValidId(profile.id) || !draftOk(profile)
              case CreateAuto(baseId, draft) => !ValidId(baseId) || !ValidId(draft.id) || !draftOk(draft)
              case UpdateChecked(profileId, expected, updated) =>
                {profileId, expected.id, updated.id} != {expected.id} || !ValidId(profileId) || !draftOk(updated)
              case DeleteChecked(profileId, expected) => expected.id != profileId || !ValidId(profileId)
  {
    hide ValidId;
    if mutation.UpdateChecked? {
      var m := mutation;
      assert m.profileId in {m.profileId, m.expected.id, m.updated.id};
      assert m.updated.id in {m.profileId, m.expected.id, m.updated.id};
    }
  }
}

/** Profile ids: made from a display name, and made unique among the ids of a config. */
module ProfileIds {
  import opened Decimals
  import opened Profiles
  import Sets

  // ---- spelling ----

  predicate IsAlphanumeric(c: char) {
    '0' <= c <= '9' || 'A' <= c <= 'Z' || 'a' <= c <= 'z'
  }

  /** `valid_profile_id`. */
  predicate ValidId(id: string) {
    && id != [] && IsAlphanumeric(id[0])
    && forall i | 0 < i < |id| :: IsAlphanumeric(id[i]) || id[i] == '.' || id[i] == '_' || id[i] == '-'
  }

  function Lower(c: char): char {
    if 'A' <= c <= 'Z' then (c as int + 32) as char else c
  }

  // ---- from a display name ----

  /** The runs of letters and digits of a name, in lower case. */
  function Words(name: string): seq<string> {
    if name == [] then []
    else
      var before, last := Words(name[..|name| - 1]), name[|name| - 1];
      if !IsAlphanumeric(last) then before
      else if |name| > 1 && IsAlphanumeric(name[|name| - 2]) && before != [] then
        before[..|before| - 1] + [before[|before| - 1] + [Lower(last)]]
      else before + [[Lower(last)]]
  }

  function Hyphenated(words: seq<string>): string {
    if words == [] then []
    else if |words| == 1 then words[0]
    else Hyphenated(words[..|words| - 1]) + "-" + words[|words| - 1]
  }

  /** `slugify_profile_id`, as a value. */
  function Slug(name: string): string {
    if Words(name) == [] then "connection" else Hyphenated(Words(name))
  }

  lemma HyphenatedGrows(words: seq<string>, word: string, c: char)
    ensures words != [] ==> Hyphenated(words + [word]) == Hyphenated(words) + "-" + word
    ensures words == [] ==> Hyphenated(words + [word]) == word
    ensures Hyphenated(words + [word + [c]]) == Hyphenated(words + [word]) + [c]
  {
    assert (words + [word])[..|words|] == words && (words + [word + [c]])[..|words|] == words;
    if words != [] {
      assert Hyphenated(words) + "-" + (word + [c]) == Hyphenated(words) + "-" + word + [c];
    }
  }

  ghost predicate IsWord(word: string) {
    word != [] && forall i | 0 <= i < |word| :: '0' <= word[i] <= '9' || 'a' <= word[i] <= 'z'
  }

  lemma {:induction false} WordsAreWords(name: string)
    ensures forall i | 0 <= i < |Words(name)| :: IsWord(Words(name)[i])
    ensures name != [] && IsAlphanumeric(name[|name| - 1]) ==> Words(name) != []
  {
    if name != [] {
      WordsAreWords(name[..|name| - 1]);
    }
  }

  /** The slug is empty only before the first letter or digit. */
  lemma {:induction false} HyphenatedWords(words: seq<string>)
    requires forall i | 0 <= i < |words| :: IsWord(words[i])
    ensures Hyphenated(words) == [] <==> words == []
    ensures words != [] ==> ValidId(Hyphenated(words))
  {
    if |words| > 1 {
      var most, last := words[..|words| - 1], words[|words| - 1];
      HyphenatedWords(most);
      var slug := Hyphenated(most) + "-" + last;
      forall i | 0 < i < |slug|
        ensures IsAlphanumeric(slug[i]) || slug[i] == '-' || slug[i] == '.' || slug[i] == '_'
      {
        if i > |Hyphenated(most)| {
          assert slug[i] == last[i - |Hyphenated(most)| - 1];
        } else if i < |Hyphenated(most)| {
          assert slug[i] == Hyphenated(most)[i];
        }
      }
    }
  }

  /** `slugify_profile_id`. */
  method SlugifyProfileId(name: string) returns (id: string)
    ensures id == Slug(name) && ValidId(id)
  {
    hide Words, Hyphenated, ValidId;
    var slug := "";
    var separatorPending := false;
    var i := 0;
    assert Words([]) == [] && Hyphenated([]) == [] by {
      NoWords();
    }
    assert name[..0] == [];
    while i < |name|
      invariant 0 <= i <= |name| && slug == Hyphenated(Words(name[..i]))
      invariant slug == [] <==> Words(name[..i]) == []
      invariant separatorPending <==> slug != [] && !IsAlphanumeric(name[i - 1])
    {
      var c := name[i];
      OneMoreCharacter(name, i);
      WordsAreWords(name[..i + 1]);
      HyphenatedWords(Words(name[..i + 1]));
      if IsAlphanumeric(c) {
        if separatorPending && slug != [] {
          slug := slug + "-";
        }
        slug := slug + [Lower(c)];
        separatorPending := false;
      } else if slug != [] {
        separatorPending := true;
      }
      i := i + 1;
    }
    assert name[..i] == name;
    WordsAreWords(name);
    HyphenatedWords(Words(name));
    id := if slug == [] then "connection" else slug;
    ConnectionIsValid();
  }

  lemma NoWords()
    ensures Words([]) == [] && Hyphenated([]) == []
  {
  }

  lemma ConnectionIsValid()
    ensures ValidId("connection")
  {
  }

  /** What one more character adds to the slug. */
  lemma OneMoreCharacter(name: string, i: nat)
    requires i < |name|
    ensures !IsAlphanumeric(name[i]) ==> Words(name[..i + 1]) == Words(name[..i])
    ensures IsAlphanumeric(name[i]) ==>
              Hyphenated(Words(name[..i + 1]))
              == Hyphenated(Words(name[..i]))
                 + (if Words(name[..i]) != [] && !IsAlphanumeric(name[i - 1]) then "-" else "") + [Lower(name[i])]
  {
    var longer, shorter := name[..i + 1], name[..i];
    assert longer[..i] == shorter;
    var before := Words(shorter);
    if IsAlphanumeric(name[i]) {
      if before != [] {
        assert i > 0;
        var most, last := before[..|before| - 1], before[|before| - 1];
        assert most + [last] == before;
        HyphenatedGrows(most, last, Lower(name[i]));
        HyphenatedGrows(before, [Lower(name[i])], 'a');
      } else {
        if i > 0 && IsAlphanumeric(name[i - 1]) {
          WordsAreWords(shorter);
        }
        HyphenatedGrows([], [Lower(name[i])], 'a');
      }
    }
  }

  // ---- unique among the ids of a config ----

  function Candidate(base: string, suffix: nat): string {
    base + "-" + DecimalText(suffix)
  }

  lemma CandidatesDiffer(base: string, a: nat, b: nat)
    ensures Candidate(base, a) == Candidate(base, b) ==> a == b
    ensures Candidate(base, a) != base
  {
    DecimalReadsBack(a);
    DecimalReadsBack(b);
    if Candidate(base, a) == Candidate(base, b) {
      var text, n := Candidate(base, a), |base| + 1;
      assert text[n..] == DecimalText(a) && Candidate(base, b)[n..] == DecimalText(b);
    }
    assert |Candidate(base, a)| > |base|;
  }

  lemma CandidateIsValid(base: string, suffix: nat)
    requires ValidId(base)
    ensures ValidId(Candidate(base, suffix))
  {
    DecimalReadsBack(suffix);
    var digits, id := DecimalText(suffix), Candidate(base, suffix);
    forall i | 0 < i < |id|
      ensures IsAlphanumeric(id[i]) || id[i] == '.' || id[i] == '_' || id[i] == '-'
    {
      if i > |base| {
        assert id[i] == digits[i - |base| - 1] && digits[i - |base| - 1] in digits;
      }
    }
  }

  ghost predicate TakenUpTo(base: string, ids: set<string>, suffix: nat) {
    base in ids && forall n | 2 <= n < suffix :: Candidate(base, n) in ids
  }

  ghost function CandidateSet(base: string, suffix: nat): set<string> {
    set n | 2 <= n < suffix :: Candidate(base, n)
  }

  lemma {:induction false} CandidateCount(base: string, suffix: nat)
    requires suffix >= 2
    ensures |CandidateSet(base, suffix)| == suffix - 2 && base !in CandidateSet(base, suffix)
  {
    hide Candidate;
    if suffix > 2 {
      CandidateCount(base, suffix - 1);
      CandidatesDiffer(base, suffix - 1, 0);
      var last := Candidate(base, suffix - 1);
      if last in CandidateSet(base, suffix - 1) {
        var n :| 2 <= n < suffix - 1 && Candidate(base, n) == last;
        CandidatesDiffer(base, n, suffix - 1);
        assert false;
      }
      assert CandidateSet(base, suffix) == CandidateSet(base, suffix - 1) + {last};
    } else {
      assert CandidateSet(base, suffix) == {};
    }
  }

  lemma {:induction false} IdsCount(config: seq<ConnectionProfile>)
    ensures |Ids(config)| <= |config|
  {
    if config != [] {
      IdsCount(config[1..]);
      assert Ids(config) == {config[0].id} + Ids(config[1..]);
    }
  }

  /** The pigeonhole: among as many ids as profiles, the base and all earlier candidates cannot all be taken. */
  lemma SuffixIsBounded(base: string, config: seq<ConnectionProfile>, suffix: nat)
    requires suffix >= 2 && TakenUpTo(base, Ids(config), suffix)
    ensures suffix <= |config| + 1
  {
    hide Candidate, Ids;
    CandidateCount(base, suffix);
    IdsCount(config);
    assert CandidateSet(base, suffix) + {base} <= Ids(config);
    Sets.SubsetCount(CandidateSet(base, suffix) + {base}, Ids(config));
  }

  /** No profile has this id. */
  predicate Free(config: seq<ConnectionProfile>, id: string) {
    forall i | 0 <= i < |config| :: config[i].id != id
  }

  /**
   What `allocate_profile_id` promises: the base itself where it is free, and else the base with the least
   suffix from 2 that is free, found within as many tries as there are profiles and one more.
   */
  ghost predicate Allocated(base: string, config: seq<ConnectionProfile>, id: string, tries: nat) {
    && id !in Ids(config) && tries <= |config| + 1
    && (base !in Ids(config) ==> id == base && tries == 1)
    && (base in Ids(config) ==> id == base + "-" + DecimalText(tries) && tries >= 2
                                && forall n | 2 <= n < tries :: base + "-" + DecimalText(n) in Ids(config))
  }

  /** `allocate_profile_id`. The search ends because the candidates differ from each other. */
  method AllocateProfileId(base: string, config: seq<ConnectionProfile>) returns (id: string, ghost tries: nat)
    ensures Allocated(base, config, id, tries)
    ensures ValidId(base) ==> ValidId(id)
  {
    hide ValidId;
    if Free(config, base) {
      return base, 1;
    }
    var suffix := 2;
    SuffixIsBounded(base, config, suffix);
    while true
      invariant 2 <= suffix <= |config| + 1 && TakenUpTo(base, Ids(config), suffix)
      decreases |config| + 1 - suffix
    {
      var candidate := Candidate(base, suffix);
      if Free(config, candidate) {
        if ValidId(base) {
          CandidateIsValid(base, suffix);
        }
        assert forall n | 2 <= n < suffix :: Candidate(base, n) == base + "-" + DecimalText(n);
        return candidate, suffix;
      }
      SuffixIsBounded(base, config, suffix + 1);
      suffix := suffix + 1;
    }
  }

  /** From any display name to an id that is new and valid. */
  method IdForName(name: string, config: seq<ConnectionProfile>) returns (id: string, ghost tries: nat)
    ensures Allocated(Slug(name), config, id, tries) && ValidId(id)
  {
    var base := SlugifyProfileId(name);
    id, tries := AllocateProfileId(base, config);
  }
}

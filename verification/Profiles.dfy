/** Saved connection profiles and the part of one that identifies a connection. */
module Profiles {
  import opened Wrappers

  type ProfileId = string

  datatype DriverKind = MySql | Redis | MongoDb

  datatype TlsMode = Disabled | Preferred | Required

  datatype CredentialMode = NoCredential | Session | Environment

  datatype ConnectionProfile = ConnectionProfile(
    id: ProfileId,
    name: string,
    driver: DriverKind,
    host: string,
    port: nat,
    database: Option<string>,
    username: Option<string>,
    tls: TlsMode,
    credentialMode: CredentialMode,
    secretEnv: Option<string>,
    redisCaFile: Option<string>)

  /** Every profile field a connection depends on; the display name and the id are not among them. */
  datatype ConnectionFingerprint = ConnectionFingerprint(
    driver: DriverKind,
    host: string,
    port: nat,
    database: Option<string>,
    username: Option<string>,
    tls: TlsMode,
    credentialMode: CredentialMode,
    secretEnv: Option<string>,
    redisCaFile: Option<string>)

  function FingerprintOf(profile: ConnectionProfile): ConnectionFingerprint {
    ConnectionFingerprint(profile.driver, profile.host, profile.port, profile.database, profile.username,
                          profile.tls, profile.credentialMode, profile.secretEnv, profile.redisCaFile)
  }

  /** The first profile with this id. */
  function Find(config: seq<ConnectionProfile>, id: ProfileId): Option<ConnectionProfile> {
    if config == [] then None
    else if config[0].id == id then Some(config[0])
    else Find(config[1..], id)
  }

  function Ids(config: seq<ConnectionProfile>): set<ProfileId> {
    set p | p in config :: p.id
  }

  /** What `validate_config_identity` asks of a list of profiles, apart from the spelling of each id. */
  predicate UniqueIds(config: seq<ConnectionProfile>) {
    forall i, j | 0 <= i < j < |config| :: config[i].id != config[j].id
  }

  lemma FindMeaning(config: seq<ConnectionProfile>, id: ProfileId)
    ensures Find(config, id).Some? <==> id in Ids(config)
    ensures Find(config, id).Some? ==> Find(config, id).value in config && Find(config, id).value.id == id
    ensures UniqueIds(config) ==> forall p | p in config && p.id == id :: Find(config, id) == Some(p)
  {
    if config != [] {
      FindMeaning(config[1..], id);
      assert config == [config[0]] + config[1..];
    }
  }
}

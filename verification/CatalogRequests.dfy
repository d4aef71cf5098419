/** Requests for one page of a catalog level, and the pages that answer them. */
module CatalogRequests {
  import opened Wrappers
  import opened Catalog

  /** What is listed: all schemas, the relations of a schema, or the columns of a relation. */
  datatype BranchKey = Schemas | Relations(schema: string) | Columns(key: RelationKey)

  datatype Level = SchemaLevel | RelationLevel | ColumnLevel

  function LevelOf(branch: BranchKey): Level {
    match branch
    case Schemas => SchemaLevel
    case Relations(_) => RelationLevel
    case Columns(_) => ColumnLevel
  }

  function ParentOf(branch: BranchKey): Option<Identity> {
    match branch
    case Schemas => None
    case Relations(schema) => Some(SchemaId(schema))
    case Columns(key) => Some(RelationId(key))
  }

  /** The digest of the connection's profile stands for the profile, as do the other digests for what they digest. */
  datatype Request = Request(
    operationId: nat, profile: string, generation: nat, branch: BranchKey, prefix: Option<string>,
    pageToken: Option<string>, pageSize: nat)

  datatype Page = Page(
    operationId: nat, level: Level, parent: Option<Identity>, nodes: seq<Node>, nextToken: Option<string>,
    counts: Counts, bytes: nat, truncated: bool)
}

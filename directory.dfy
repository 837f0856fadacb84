/**
 The records the remote user directory returns for its users listing, as the
 route handlers see them.
 */
module Directory {
  import opened Wrappers

  /** A user's `app_metadata` object; only its `groups` list is ever read. */
  datatype Metadata = Metadata(groups: Option<seq<string>>)

  /**
   A user record. `groups` is the top-level membership list and `appMetadata`
   the nested one; `profile` stands for every other field, which the handlers
   pass through untouched.
   */
  datatype User = User(groups: Option<seq<string>>, appMetadata: Option<Metadata>, profile: string)

  /** An element of the users array: a JSON `null` or a user record. */
  datatype Entry = Null | Record(user: User)

  /**
   What the users request yields: the array of records, or an error (a network
   failure, a non-success status, or a payload that is not an array) with its detail.
   */
  datatype Upstream = FetchError(detail: string) | Fetched(entries: seq<Entry>)

  /** `user?.groups || []`: a `null` entry or a missing list gives no groups. */
  function TopLevelGroups(e: Entry): seq<string> {
    match e
    case Null => []
    case Record(u) => u.groups.GetOr([])
  }

  /** `user.app_metadata?.groups || []` for a user that is not `null`. */
  function MetadataGroups(u: User): seq<string> {
    match u.appMetadata
    case None => []
    case Some(m) => m.groups.GetOr([])
  }
}

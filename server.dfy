/**
 The `GET /unique` route of the application server: the distinct group names
 found under each user's `app_metadata.groups`. Unlike the API server it reads
 `user.app_metadata` without guarding against a `null` user, so a `null`
 entry throws inside the try block.
 */
module Server {
  import opened Wrappers
  import opened JsArray
  import opened JsString
  import opened Bearer
  import opened Directory
  import opened Routes

  const UniqueFailed := "Failed to fetch unique groups"

  /** The list a user contributes under `app_metadata.groups`; a `null` entry (which throws) contributes none. */
  function EntryMetadataGroups(e: Entry): seq<string> {
    match e
    case Null => []
    case Record(u) => MetadataGroups(u)
  }

  /**
   `users.flatMap(user => user.app_metadata?.groups || [])`, where `None` means
   the callback threw a TypeError on a `null` entry. When nothing throws it is
   the plain flatMap.
   */
  function CollectMetadataGroups(entries: seq<Entry>): (r: Option<seq<string>>)
    ensures r.None? <==> Null in entries
    ensures r.Some? ==> r.value == FlatMap(entries, EntryMetadataGroups)
  {
    if entries == [] then Some([])
    else
      assert forall i :: 1 <= i < |entries| ==> entries[i] == entries[1..][i - 1];
      assert entries == [entries[0]] + entries[1..];
      match entries[0]
      case Null => None
      case Record(u) =>
        match CollectMetadataGroups(entries[1..])
        case None => None
        case Some(rest) => Some(MetadataGroups(u) + rest)
  }

  /** `[...new Set(allGroups)]`, or `None` when collecting the groups threw. */
  function UniqueMetadataGroups(entries: seq<Entry>): (r: Option<seq<string>>)
    ensures r.None? <==> Null in entries
    ensures r.Some? ==> NoDuplicates(r.value)
    ensures r.Some? ==> forall g :: g in r.value <==>
      exists i :: 0 <= i < |entries| && entries[i].Record? && g in MetadataGroups(entries[i].user)
    ensures r.Some? ==> InFirstOccurrenceOrder(r.value, FlatMap(entries, EntryMetadataGroups))
  {
    match CollectMetadataGroups(entries)
    case None => None
    case Some(all) => Some(Distinct(all))
  }

  function UniqueBody(entries: seq<Entry>): Option<Body> {
    match UniqueMetadataGroups(entries)
    case None => None
    case Some(names) => Some(GroupNames(names))
  }

  function UniqueRoute(authorization: Option<string>, directory: string -> Upstream): (x: Exchange)
    ensures x.response.status == 401 <==> !Truthy(Token(authorization))
    ensures x.response.status == 401 <==> x.forwarded.None?
    ensures x.forwarded.Some? ==> x.forwarded.value == ForwardedAuthorization(Token(authorization).value)
    ensures x.response.status in {200, 401, 500}
    ensures x.response.status == 500 <==>
      x.forwarded.Some? && (directory(x.forwarded.value).FetchError? || Null in directory(x.forwarded.value).entries)
    ensures x.response.status == 500 ==> x.response.body == Error(UniqueFailed)
    ensures x.response.status == 200 ==>
      x.response.body == GroupNames(UniqueMetadataGroups(directory(x.forwarded.value).entries).value)
  {
    DirectoryRoute(authorization, directory, UniqueFailed, UniqueBody)
  }

  /** Deduplicating the answer again leaves it unchanged. */
  lemma UniqueMetadataGroupsIdempotent(entries: seq<Entry>)
    requires Null !in entries
    ensures Distinct(UniqueMetadataGroups(entries).value) == UniqueMetadataGroups(entries).value
  {
    DistinctIdempotent(FlatMap(entries, EntryMetadataGroups));
  }

  /**
   The answer is the flattened `app_metadata.groups` lists with every repeat
   after the first occurrence removed: any list with those properties is the answer.
   */
  lemma UniqueMetadataGroupsDetermined(entries: seq<Entry>, names: seq<string>)
    requires Null !in entries
    requires NoDuplicates(names)
    requires SameElements(names, FlatMap(entries, EntryMetadataGroups))
    requires InFirstOccurrenceOrder(names, FlatMap(entries, EntryMetadataGroups))
    ensures UniqueMetadataGroups(entries) == Some(names)
  {
    DistinctUnique(FlatMap(entries, EntryMetadataGroups), names);
  }

  /** Top-level `groups` are never read: dropping them from every user leaves the answer unchanged. */
  lemma UniqueIgnoresTopLevelGroups(entries: seq<Entry>, stripped: seq<Entry>)
    requires |stripped| == |entries|
    requires forall i :: 0 <= i < |entries| ==>
      stripped[i] == match entries[i] case Null => Null case Record(u) => Record(u.(groups := None))
    ensures UniqueMetadataGroups(stripped) == UniqueMetadataGroups(entries)
  {
    assert Null in stripped <==> Null in entries by {
      assert forall i :: 0 <= i < |entries| ==> (stripped[i] == Null <==> entries[i] == Null);
    }
    FlatMapSameLists(stripped, EntryMetadataGroups, entries, EntryMetadataGroups);
  }
}

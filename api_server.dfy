/**
 The directory routes and the startup configuration check of the API server:
 `GET /groups` lists the distinct top-level group names of all users, and
 `GET /groups/:groupId/users` lists the users whose top-level groups contain
 `groupId`.
 */
module ApiServer {
  import opened Wrappers
  import opened JsArray
  import opened JsString
  import opened Bearer
  import opened Directory
  import opened Routes

  // ---- Startup configuration ----

  /** The `domain` and `audience` values of the auth configuration file, `None` when absent. */
  datatype AuthConfig = AuthConfig(domain: Option<string>, audience: Option<string>)

  const PlaceholderAudience := "YOUR_API_IDENTIFIER"

  /** The server exits at startup unless domain and audience are set and the audience is not the placeholder. */
  predicate StartupRejected(config: AuthConfig) {
    || !Truthy(config.domain)
    || !Truthy(config.audience)
    || config.audience.value == PlaceholderAudience
  }

  /** The settings the JSON Web Token checker of `/api/external` is built with. */
  datatype JwtSettings = JwtSettings(audience: string, issuerBaseUrl: string, algorithms: seq<string>)

  /**
   Startup: `None` when the process exits, otherwise the checker settings,
   whose issuer is `https://<domain>/` and whose audience is the configured one.
   */
  function Startup(config: AuthConfig): (settings: Option<JwtSettings>)
    ensures settings.None? <==> StartupRejected(config)
    ensures settings.Some? ==>
      && settings.value.audience == config.audience.value != PlaceholderAudience
      && settings.value.issuerBaseUrl == "https://" + config.domain.value + "/"
      && settings.value.algorithms == ["RS256"]
  {
    if StartupRejected(config) then None
    else Some(JwtSettings(config.audience.value, "https://" + config.domain.value + "/", ["RS256"]))
  }

  /** The placeholder audience is refused whatever the domain, and so is an empty domain or audience. */
  lemma StartupRejectsIncompleteConfig(domain: Option<string>, audience: Option<string>)
    ensures Startup(AuthConfig(domain, Some(PlaceholderAudience))).None?
    ensures Startup(AuthConfig(Some(""), audience)).None? && Startup(AuthConfig(None, audience)).None?
    ensures Startup(AuthConfig(domain, Some(""))).None? && Startup(AuthConfig(domain, None)).None?
  {
  }

  // ---- GET /groups ----

  const GroupsFailed := "Failed to fetch unique groups"

  /** `[...new Set(users.flatMap(user => user?.groups || []))]` */
  function UniqueGroups(entries: seq<Entry>): (names: seq<string>)
    ensures NoDuplicates(names)
    ensures forall g :: g in names <==> exists i :: 0 <= i < |entries| && g in TopLevelGroups(entries[i])
    ensures InFirstOccurrenceOrder(names, FlatMap(entries, TopLevelGroups))
  {
    Distinct(FlatMap(entries, TopLevelGroups))
  }

  function GroupsRoute(authorization: Option<string>, directory: string -> Upstream): (x: Exchange)
    ensures x.response.status == 401 <==> !Truthy(Token(authorization))
    ensures x.response.status == 401 <==> x.forwarded.None?
    ensures x.forwarded.Some? ==> x.forwarded.value == ForwardedAuthorization(Token(authorization).value)
    ensures x.response.status in {200, 401, 500}
    ensures x.response.status == 500 <==> x.forwarded.Some? && directory(x.forwarded.value).FetchError?
    ensures x.response.status == 500 ==> x.response.body == Error(GroupsFailed)
    ensures x.response.status == 200 ==>
      x.response.body == GroupNames(UniqueGroups(directory(x.forwarded.value).entries))
  {
    DirectoryRoute(authorization, directory, GroupsFailed, entries => Some(GroupNames(UniqueGroups(entries))))
  }

  /** Deduplicating the answer again leaves it unchanged. */
  lemma UniqueGroupsIdempotent(entries: seq<Entry>)
    ensures Distinct(UniqueGroups(entries)) == UniqueGroups(entries)
  {
    DistinctIdempotent(FlatMap(entries, TopLevelGroups));
  }

  /**
   The answer is the flattened group lists with every repeat after the first
   occurrence removed: any list with those properties is the answer.
   */
  lemma UniqueGroupsDetermined(entries: seq<Entry>, names: seq<string>)
    requires NoDuplicates(names)
    requires SameElements(names, FlatMap(entries, TopLevelGroups))
    requires InFirstOccurrenceOrder(names, FlatMap(entries, TopLevelGroups))
    ensures names == UniqueGroups(entries)
  {
    DistinctUnique(FlatMap(entries, TopLevelGroups), names);
  }

  /** A `null` entry, or a user without a `groups` list, contributes nothing wherever it stands. */
  lemma UserWithoutGroupsIgnored(before: seq<Entry>, e: Entry, after: seq<Entry>)
    requires e.Null? || e.user.groups.None?
    ensures UniqueGroups(before + [e] + after) == UniqueGroups(before + after)
  {
    FlatMapAppend(before + [e], after, TopLevelGroups);
    FlatMapAppend(before, [e], TopLevelGroups);
    FlatMapAppend(before, after, TopLevelGroups);
    assert [e][1..] == [];
    assert FlatMap([e], TopLevelGroups) == [];
    assert FlatMap(before + [e], TopLevelGroups) == FlatMap(before, TopLevelGroups);
  }

  /** `app_metadata` is never read: dropping it from every user leaves the answer unchanged. */
  lemma UniqueGroupsIgnoreMetadata(entries: seq<Entry>, stripped: seq<Entry>)
    requires |stripped| == |entries|
    requires forall i :: 0 <= i < |entries| ==>
      stripped[i] == match entries[i] case Null => Null case Record(u) => Record(u.(appMetadata := None))
    ensures UniqueGroups(stripped) == UniqueGroups(entries)
  {
    FlatMapSameLists(stripped, TopLevelGroups, entries, TopLevelGroups);
  }

  // ---- GET /groups/:groupId/users ----

  const GroupUsersFailed := "Failed to fetch users for the specified group"

  /** `user?.groups?.includes(groupId)`: the filter agrees with the names `/groups` lists for the entry. */
  predicate InGroup(e: Entry, groupId: string)
    ensures InGroup(e, groupId) <==> groupId in TopLevelGroups(e)
  {
    e.Record? && e.user.groups.Some? && groupId in e.user.groups.value
  }

  /** `users.filter(user => user?.groups?.includes(groupId))` */
  function UsersInGroup(entries: seq<Entry>, groupId: string): (members: seq<Entry>)
    ensures forall i :: 0 <= i < |members| ==> InGroup(members[i], groupId)
    ensures forall e :: multiset(members)[e] == if InGroup(e, groupId) then multiset(entries)[e] else 0
    ensures IsSubsequence(members, entries)
    ensures members == [] <==> forall i :: 0 <= i < |entries| ==> !InGroup(entries[i], groupId)
    decreases |entries|
  {
    if entries == [] then []
    else
      var rest := UsersInGroup(entries[1..], groupId);
      FilterStep(entries, groupId, rest);
      if InGroup(entries[0], groupId) then [entries[0]] + rest else rest
  }

  /** One step of the filter: the first entry is kept exactly when it is in the group. */
  lemma FilterStep(entries: seq<Entry>, groupId: string, rest: seq<Entry>)
    requires entries != []
    requires forall i :: 0 <= i < |rest| ==> InGroup(rest[i], groupId)
    requires forall e :: multiset(rest)[e] == if InGroup(e, groupId) then multiset(entries[1..])[e] else 0
    requires IsSubsequence(rest, entries[1..])
    requires rest == [] <==> forall i :: 1 <= i < |entries| ==> !InGroup(entries[i], groupId)
    ensures var members := if InGroup(entries[0], groupId) then [entries[0]] + rest else rest;
      && (forall i :: 0 <= i < |members| ==> InGroup(members[i], groupId))
      && (forall e :: multiset(members)[e] == if InGroup(e, groupId) then multiset(entries)[e] else 0)
      && IsSubsequence(members, entries)
      && (members == [] <==> forall i :: 0 <= i < |entries| ==> !InGroup(entries[i], groupId))
  {
    assert entries == [entries[0]] + entries[1..];
    assert multiset(entries) == multiset{entries[0]} + multiset(entries[1..]);
    if InGroup(entries[0], groupId) {
      var members := [entries[0]] + rest;
      assert members[0] == entries[0] && members[1..] == rest;
    } else {
      assert rest != [] ==> rest[0] != entries[0];
    }
  }

  function GroupUsersRoute(authorization: Option<string>, groupId: string, directory: string -> Upstream): (x: Exchange)
    ensures x.response.status == 401 <==> !Truthy(Token(authorization))
    ensures x.response.status == 401 <==> x.forwarded.None?
    ensures x.forwarded.Some? ==> x.forwarded.value == ForwardedAuthorization(Token(authorization).value)
    ensures x.response.status in {200, 401, 500}
    ensures x.response.status == 500 <==> x.forwarded.Some? && directory(x.forwarded.value).FetchError?
    ensures x.response.status == 500 ==> x.response.body == Error(GroupUsersFailed)
    ensures x.response.status == 200 ==>
      x.response.body == UserRecords(UsersInGroup(directory(x.forwarded.value).entries, groupId))
  {
    DirectoryRoute(authorization, directory, GroupUsersFailed, entries => Some(UserRecords(UsersInGroup(entries, groupId))))
  }

  /** No matching user is not an error: the answer is 200 with an empty list. */
  lemma NoMemberIsEmptySuccess(authorization: Option<string>, groupId: string, directory: string -> Upstream)
    requires Truthy(Token(authorization))
    requires var upstream := directory(ForwardedAuthorization(Token(authorization).value));
      upstream.Fetched? && forall i :: 0 <= i < |upstream.entries| ==> !InGroup(upstream.entries[i], groupId)
    ensures GroupUsersRoute(authorization, groupId, directory).response == Response(200, UserRecords([]))
  {
  }
}

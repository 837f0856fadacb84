/**
 The two servers side by side: the same token handling, but different sources
 for group names and a different tolerance of `null` entries.
 */
module Variants {
  import opened Wrappers
  import opened JsString
  import opened Bearer
  import opened Directory
  import opened Routes
  import opened JsArray
  import ApiServer
  import Server

  /** All three directory routes guard and forward the token identically. */
  lemma SameTokenHandling(authorization: Option<string>, groupId: string, directory: string -> Upstream)
    ensures ApiServer.GroupsRoute(authorization, directory).forwarded
         == ApiServer.GroupUsersRoute(authorization, groupId, directory).forwarded
         == Server.UniqueRoute(authorization, directory).forwarded
    ensures !Truthy(Token(authorization)) ==>
      && ApiServer.GroupsRoute(authorization, directory).response == Unauthorized()
      && ApiServer.GroupUsersRoute(authorization, groupId, directory).response == Unauthorized()
      && Server.UniqueRoute(authorization, directory).response == Unauthorized()
  {
  }

  /** A `null` in the users array is skipped by `/groups` but makes `/unique` fail. */
  lemma NullEntryOnlyBreaksUnique(authorization: Option<string>, directory: string -> Upstream)
    requires Truthy(Token(authorization))
    requires var upstream := directory(ForwardedAuthorization(Token(authorization).value));
      upstream.Fetched? && Null in upstream.entries
    ensures ApiServer.GroupsRoute(authorization, directory).response.status == 200
    ensures Server.UniqueRoute(authorization, directory).response == Response(500, Error(Server.UniqueFailed))
  {
  }

  /** A user whose groups are stored at the top level. */
  const TopLevelUser := Record(User(Some(["a", "b"]), None, "1"))

  /** A user whose groups are stored under `app_metadata`. */
  const MetadataUser := Record(User(None, Some(Metadata(Some(["b", "c"]))), "2"))

  /** `/groups` sees only the top-level groups: `a, b`, not `a, b, c`. */
  lemma GroupsReadTopLevelOnly()
    ensures ApiServer.UniqueGroups([TopLevelUser, MetadataUser]) == ["a", "b"]
  {
    var users := [TopLevelUser, MetadataUser];
    assert users[1..] == [MetadataUser] && [MetadataUser][1..] == [];
    assert FlatMap([MetadataUser], TopLevelGroups) == [] + FlatMap([], TopLevelGroups);
    assert FlatMap(users, TopLevelGroups) == ["a", "b"] + FlatMap([MetadataUser], TopLevelGroups);
    assert FlatMap(users, TopLevelGroups) == ["a", "b"];
    DistinctOfDistinct(["a", "b"]);
    assert Distinct(["a", "b"]) == ["a", "b"];
  }

  /** `/unique` sees only the `app_metadata` groups: `b, c`. */
  lemma UniqueReadsMetadataOnly()
    ensures Server.UniqueMetadataGroups([TopLevelUser, MetadataUser]) == Some(["b", "c"])
  {
    var users := [TopLevelUser, MetadataUser];
    assert users[1..] == [MetadataUser] && [MetadataUser][1..] == [];
    assert FlatMap([MetadataUser], Server.EntryMetadataGroups) == ["b", "c"] + FlatMap([], Server.EntryMetadataGroups);
    assert FlatMap(users, Server.EntryMetadataGroups) == [] + FlatMap([MetadataUser], Server.EntryMetadataGroups);
    assert FlatMap(users, Server.EntryMetadataGroups) == ["b", "c"];
    assert Server.CollectMetadataGroups(users) == Some(["b", "c"]);
    DistinctOfDistinct(["b", "c"]);
    assert Distinct(["b", "c"]) == ["b", "c"];
  }

  /** `/groups/b/users` matches only the user with a top-level `b`. */
  lemma GroupUsersReadTopLevelOnly()
    ensures ApiServer.UsersInGroup([TopLevelUser, MetadataUser], "b") == [TopLevelUser]
  {
    var users := [TopLevelUser, MetadataUser];
    assert users[1..] == [MetadataUser] && [MetadataUser][1..] == [];
    assert ApiServer.InGroup(TopLevelUser, "b");
    assert !ApiServer.InGroup(MetadataUser, "b");
  }
}

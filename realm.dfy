/**
  The security realm that trusts a reverse proxy: it takes the user name from a configured
  HTTP header, attaches authorities to it (from an LDAP directory when a server is
  configured, otherwise only the "authenticated" authority), caches them per user, and
  resolves groups by an LDAP search.
 */
module Realm {
  import opened Nullable
  import opened JavaText
  import opened HudsonUtil
  import opened LdapUrls
  import opened RootDn

  /** A granted authority, compared by its role name. */
  datatype Authority = Authority(role: string)

  /** The authority every identified user carries. */
  const AUTHENTICATED := Authority("authenticated")

  /** The authentication the filter installs for the rest of the request. */
  datatype Authentication =
    | Anonymous
    | UsernamePassword(principal: string, credentials: string, authorities: set<Authority>)

  /** Why looking a user up in the directory failed. */
  datatype LookupError = UsernameNotFound(username: string) | DataAccessFailure

  /** What `loadUserByUsername` gave: the user's authorities, or an exception. */
  datatype UserLookup = Found(authorities: set<Authority>) | Failed(error: LookupError)

  /**
    How a request leaves the filter: either with an authentication installed and passed
    down the chain, or with the lookup's exception propagating out of the filter.
   */
  datatype FilterOutcome = Proceed(authentication: Authentication) | Raised(error: LookupError)

  /** The default LDAP filter for groups; `{0}` is the group name. */
  const GROUP_SEARCH :=
    "(& (cn={0}) (| (objectclass=groupOfNames) (objectclass=groupOfUniqueNames) (objectclass=posixGroup)))"

  /** The attribute a group search asks for. */
  const GroupNameAttribute := "cn"

  /** What a single-attribute LDAP search gave: the distinct values found, or an exception. */
  datatype SearchResult = Values(values: set<string>) | SearchFailed

  datatype GroupError = GroupNotFound(groupname: string) | GroupSearchFailed | NoLdapTemplate

  /**
    The user-details service behind `loadUserByUsername`, seen from the outside: a fixed
    answer per user name, and the list of names it has been asked for.
   */
  class UserDirectory {
    const answers: map<string, UserLookup>
    var lookups: seq<string>

    constructor (answers: map<string, UserLookup>)
      ensures this.answers == answers && lookups == []
    {
      this.answers := answers;
      lookups := [];
    }

    /** The answer for a user; an unknown user is not found. */
    function Answer(username: string): UserLookup {
      if username in answers then answers[username] else Failed(UsernameNotFound(username))
    }

    method LoadUserByUsername(username: string) returns (r: UserLookup)
      modifies this`lookups
      ensures r == Answer(username)
      ensures lookups == old(lookups) + [username]
    {
      r := Answer(username);
      lookups := lookups + [username];
    }
  }

  class ReverseProxySecurityRealm {
    /** The name of the header carrying the user name. */
    const forwardedUser: Option<string>
    /** The LDAP server entries; null when the realm runs without a directory. */
    const server: Option<string>
    const rootDN: Option<string>
    const inhibitInferRootDN: bool
    const userSearchBase: string
    const userSearch: string
    const groupSearchBase: Option<string>
    const groupSearchFilter: Option<string>
    const managerDN: Option<string>
    /**
      Kept unscrambled: scrambling is not part of this model. It maps null to null and a
      non-null password to a non-null one, which is all the constructor depends on.
     */
    const managerPassword: Option<string>

    /** The user name read from the header by the latest request. */
    var retrievedUsername: Option<string>
    /** The authorities granted by the latest identified request. */
    var authorities: set<Authority>
    /** The authority cache: user name to the authorities last granted to that user. */
    var authContext: map<string, set<Authority>>

    /**
      A realm has a root DN exactly when it has a server; every cached entry carries the
      "authenticated" authority, and without a directory it is the only one.
     */
    ghost predicate Valid()
      reads this
    {
      && (server.None? <==> rootDN.None?)
      && (forall u :: u in authContext ==> AUTHENTICATED in authContext[u])
      && (server.None? ==> forall u :: u in authContext ==> authContext[u] == {AUTHENTICATED})
    }

    /**
      The constructor's normalisation. `rootDse` is what reading the directory's root entry
      would give; it is consulted only when the root DN has to be inferred.
     */
    constructor (forwardedUser: Option<string>, server: Option<string>, rootDN: Option<string>,
                 inhibitInferRootDN: bool, userSearchBase: Option<string>, userSearch: Option<string>,
                 groupSearchBase: Option<string>, groupSearchFilter: Option<string>,
                 managerDN: Option<string>, managerPassword: Option<string>, rootDse: RootDse)
      requires ConfiguredRootDN(FixEmptyAndTrim(server), rootDN, inhibitInferRootDN, FixEmpty(managerDN), FixEmpty(managerPassword), rootDse).Returned?
      ensures Valid()
      ensures this.forwardedUser == FixEmptyAndTrim(forwardedUser)
      ensures this.server == FixEmptyAndTrim(server)
      ensures this.managerDN == FixEmpty(managerDN)
      ensures this.managerPassword == FixEmpty(managerPassword)
      ensures this.inhibitInferRootDN == inhibitInferRootDN
      ensures this.rootDN == ConfiguredRootDN(FixEmptyAndTrim(server), rootDN, inhibitInferRootDN, FixEmpty(managerDN), FixEmpty(managerPassword), rootDse).value
      ensures this.userSearchBase == Trim(FixNull(userSearchBase))
      ensures this.userSearch == FixEmptyAndTrim(userSearch).GetOr("uid={0}")
      ensures this.groupSearchBase == FixEmptyAndTrim(groupSearchBase)
      ensures this.groupSearchFilter == FixEmptyAndTrim(groupSearchFilter)
      ensures retrievedUsername.None? && authorities == {} && authContext == map[]
    {
      var trimmedServer := FixEmptyAndTrim(server);
      var configuredRootDN := ConfiguredRootDN(trimmedServer, rootDN, inhibitInferRootDN, FixEmpty(managerDN), FixEmpty(managerPassword), rootDse);
      this.forwardedUser := FixEmptyAndTrim(forwardedUser);
      this.server := trimmedServer;
      this.managerDN := FixEmpty(managerDN);
      this.managerPassword := FixEmpty(managerPassword);
      this.inhibitInferRootDN := inhibitInferRootDN;
      this.rootDN := configuredRootDN.value;
      this.userSearchBase := Trim(FixNull(userSearchBase));
      var search := FixEmptyAndTrim(userSearch);
      this.userSearch := if search.Some? then search.value else "uid={0}";
      this.groupSearchBase := FixEmptyAndTrim(groupSearchBase);
      this.groupSearchFilter := FixEmptyAndTrim(groupSearchFilter);
      retrievedUsername := None;
      authorities := {};
      authContext := map[];
    }

    /** `getServerUrl`: null without a server, else the entries with schemes, single-space separated. */
    method GetServerUrl() returns (r: Option<string>)
      ensures r.None? <==> server.None?
      ensures server.Some? ==> r == Some(NormalizedServer(server.value))
    {
      if server.None? {
        return None;
      }
      var tokens := Split(server.value);
      var buf := "";
      var first := true;
      for i := 0 to |tokens|
        invariant first <==> Kept(tokens[..i]) == []
        invariant buf == Join(Prefixed(Kept(tokens[..i])))
      {
        var s := tokens[i];
        ServerStep(tokens, i);
        if |Trim(s)| == 0 {
          continue;
        }
        if first {
          first := false;
        } else {
          buf := buf + " ";
        }
        buf := buf + AddPrefix(s);
      }
      assert tokens[..|tokens|] == tokens;
      r := Some(buf);
    }

    /** `getLDAPURL`: null exactly without a server, else the provider URL of the server string and root DN. */
    method GetLDAPURL() returns (r: Option<string>)
      ensures r.None? <==> server.None?
      ensures server.Some? ==> r == Some(ProviderUrl(server.value, FixNull(rootDN)))
    {
      var serverUrl := GetServerUrl();
      r := ToProviderUrl(serverUrl, Some(FixNull(rootDN)));
      if server.Some? {
        ProviderUrlOfNormalized(server.value, FixNull(rootDN));
      }
    }

    /** A directory-mode request for `username` would reuse the cached authorities. */
    predicate CacheHit(username: string)
      reads this
    {
      username in authContext && |authContext[username]| > 1
    }

    /**
      The filter's `doFilter` for one request whose trusted header holds `header`: an
      absent header leaves the request anonymous; otherwise the user's authorities come
      from the cache (directory mode, more than one cached authority), from a directory
      lookup plus "authenticated", or are just "authenticated" without a directory; they
      are cached under the user name and installed with the user name as principal.
     */
    method DoFilter(header: Option<string>, directory: UserDirectory) returns (outcome: FilterOutcome)
      requires Valid()
      modifies this`retrievedUsername, this`authorities, this`authContext, directory`lookups
      ensures Valid()
      ensures retrievedUsername == header
      ensures header.None? ==>
        && outcome == Proceed(Anonymous)
        && authorities == old(authorities) && authContext == old(authContext)
        && directory.lookups == old(directory.lookups)
      ensures header.Some? && server.None? ==>
        && authorities == {AUTHENTICATED}
        && authContext == old(authContext)[header.value := {AUTHENTICATED}]
        && outcome == Proceed(UsernamePassword(header.value, "", {AUTHENTICATED}))
        && directory.lookups == old(directory.lookups)
      ensures header.Some? && server.Some? && old(CacheHit(header.value)) ==>
        && authorities == old(authContext)[header.value]
        && authContext == old(authContext)
        && outcome == Proceed(UsernamePassword(header.value, "", authorities))
        && directory.lookups == old(directory.lookups)
      ensures header.Some? && server.Some? && !old(CacheHit(header.value)) ==>
        && directory.lookups == old(directory.lookups) + [header.value]
        && match directory.Answer(header.value)
           case Found(granted) =>
             && authorities == granted + {AUTHENTICATED}
             && authContext == old(authContext)[header.value := authorities]
             && outcome == Proceed(UsernamePassword(header.value, "", authorities))
           case Failed(error) =>
             && outcome == Raised(error)
             && authorities == old(authorities) && authContext == old(authContext)
      ensures header.Some? && outcome.Proceed? ==>
        && outcome.authentication == UsernamePassword(header.value, "", authorities)
        && AUTHENTICATED in authorities
        && authContext == old(authContext)[header.value := authorities]
    {
      retrievedUsername := header;
      var auth := Anonymous;
      if retrievedUsername.Some? {
        var username := retrievedUsername.value;
        var ldapUrl := GetLDAPURL();
        if ldapUrl.Some? {
          var storedGrants := if username in authContext then Some(authContext[username]) else None;
          if storedGrants.Some? && |storedGrants.value| > 1 {
            authorities := storedGrants.value;
          } else {
            var userDetails := directory.LoadUserByUsername(username);
            if userDetails.Failed? {
              return Raised(userDetails.error);
            }
            authorities := userDetails.authorities + {AUTHENTICATED};
          }
        } else {
          authorities := {AUTHENTICATED};
        }
        authContext := authContext[username := authorities];
        auth := UsernamePassword(username, "", authorities);
      }
      outcome := Proceed(auth);
    }

    /**
      `loadGroupByGroupname`: search `groupSearchBase` (default "") with `groupSearchFilter`
      (default GROUP_SEARCH) for the `cn` of groups matching the name; no match is "not
      found", otherwise the name is one of the values found. `search` stands for the LDAP
      template, which exists only when a server is configured.
     */
    method LoadGroupByGroupname(groupname: string, search: (string, string, seq<string>, string) -> SearchResult)
      returns (r: Result<string, GroupError>)
      ensures server.None? ==> r == Failure(NoLdapTemplate)
      ensures server.Some? ==>
        var found := search(FixNull(groupSearchBase), groupSearchFilter.GetOr(GROUP_SEARCH), [groupname], GroupNameAttribute);
        && (found.SearchFailed? ==> r == Failure(GroupSearchFailed))
        && (found.Values? ==> (r.Failure? <==> found.values == {}))
        && (found.Values? && r.Failure? ==> r.error == GroupNotFound(groupname))
        && (found.Values? && r.Success? ==> r.value in found.values)
    {
      if server.None? {
        return Failure(NoLdapTemplate);
      }
      var searchBase := if groupSearchBase.Some? then groupSearchBase.value else "";
      var searchFilter := if groupSearchFilter.Some? then groupSearchFilter.value else GROUP_SEARCH;
      var groups := search(searchBase, searchFilter, [groupname], GroupNameAttribute);
      if groups.SearchFailed? {
        return Failure(GroupSearchFailed);
      }
      if groups.values == {} {
        return Failure(GroupNotFound(groupname));
      }
      var name :| name in groups.values;
      r := Success(name);
    }
  }

  /**
    In directory mode, a first request for a user whose directory authorities include one
    besides "authenticated" looks the user up once; a second request for the same user is
    served from the cache with the same authentication and no further lookup.
   */
  method RepeatedRequestUsesCache(realm: ReverseProxySecurityRealm, directory: UserDirectory, username: string, role: Authority)
    returns (first: FilterOutcome, second: FilterOutcome)
    requires realm.Valid() && realm.server.Some? && !realm.CacheHit(username)
    requires directory.Answer(username).Found? && role in directory.Answer(username).authorities
    requires role != AUTHENTICATED
    modifies realm, directory
    ensures directory.lookups == old(directory.lookups) + [username]
    ensures first.Proceed? && first.authentication.UsernamePassword? && second == first
    ensures AUTHENTICATED in first.authentication.authorities && role in first.authentication.authorities
  {
    first := realm.DoFilter(Some(username), directory);
    var granted := realm.authContext[username];
    assert {role, AUTHENTICATED} <= granted;
    assert |{role, AUTHENTICATED}| == 2;
    SubsetCardinality({role, AUTHENTICATED}, granted);
    second := realm.DoFilter(Some(username), directory);
  }

  lemma SubsetCardinality<T>(a: set<T>, b: set<T>)
    requires a <= b
    ensures |a| <= |b|
  {
    assert b == a + (b - a);
  }
}

# Reverse-proxy security realm, modelled in Dafny

A Jenkins security realm that trusts an upstream reverse proxy: the proxy authenticates
the user and forwards the user name in a configured HTTP header. For each request the
realm's servlet filter reads that header and installs an authentication for the user,
with the "authenticated" authority and, when an LDAP server is configured ("directory
mode"), the authorities the directory grants. Those authorities are cached per user name.
The realm also turns the configured server string into LDAP URLs, infers the root DN
from the directory when none is configured, and resolves groups by an LDAP search.

The model has six modules:

- `Nullable`: `Option` for Java's null, `Outcome` for a call that may throw a
  NullPointerException or let another unchecked exception escape, and `Result`.
- `JavaText`: the string operations the realm depends on, with Java's definitions.
  `trim()` strips characters up to U+0020. `split("\\s+")` splits on `\s`, which is only
  space, tab, line feed, vertical tab, form feed and carriage return. The module also has
  `contains`, `endsWith`, and joining with single spaces.
- `HudsonUtil`: `fixNull`, `fixEmpty` and `fixEmptyAndTrim`.
- `LdapUrls`: `addPrefix`, and `toProviderUrl` as a loop-based method. Beside them are
  specification functions for the normalised server list and the provider URL, with
  lemmas about both.
- `RootDn`: the attribute choice of `inferRootDN`, and the constructor's decision about
  which root DN to store.
- `Realm`: the realm as a class. Its configuration fields are constants. Its mutable
  fields are `retrievedUsername`, `authorities` and the cache `authContext`. The class has
  the constructor, `getServerUrl`, `getLDAPURL`, the filter's `doFilter` and
  `loadGroupByGroupname`. A small `UserDirectory` class stands for `loadUserByUsername`.
  It records every user name it is asked about, so contracts can say when a lookup happens.

Inputs that come from outside are parameters:
- the header value (`Option<string>`);
- the root entry the directory returns (`RootDse`: a naming failure, a connect that throws an unchecked exception, or an
  attribute map);
- the group search (a function from base, filter, arguments and attribute to a result set
  or a failure);
- the user lookup (`UserDirectory`).

Behaviour worth noting:

- On a cache hit, `doFilter` reuses the stored authorities as they are. It does not add
  "authenticated" to them again (lines 332-333). `Valid()` proves that every cached
  entry already contains "authenticated", so the installed authorities always contain it.
- `toProviderUrl` returns `""`, not null, for a server string that is blank but not null.
  Only a null input gives null.
- A header whose value is the empty string still counts as an identity. Only a missing
  header (null) makes the request anonymous.
- An exception from the user lookup leaves the filter without installing an
  authentication and without calling the rest of the chain. The model returns `Raised`
  in that case. The cache and `authorities` stay unchanged, but `retrievedUsername` has
  already been set.

## Model

| member | source | states |
|---|---|---|
| `LdapUrls.AddPrefix` | src/main/java/org/jenkinsci/plugins/reverse_proxy_auth/ReverseProxySecurityRealm.java:504-511 | The result always contains `://`. It equals the entry exactly when the entry already contains `://`; otherwise it is `ldap://` + entry. It adds no whitespace, and a non-blank entry stays non-blank |
| `LdapUrls.AddPrefixIdempotent` | src/main/java/org/jenkinsci/plugins/reverse_proxy_auth/ReverseProxySecurityRealm.java:508-511 | `addPrefix(addPrefix(s)) == addPrefix(s)` |
| `Realm.ReverseProxySecurityRealm.GetServerUrl` | src/main/java/org/jenkinsci/plugins/reverse_proxy_auth/ReverseProxySecurityRealm.java:235-248 | The loop returns null exactly when `server` is null. Otherwise it returns the non-blank whitespace-separated tokens of `server`, each passed through `addPrefix`, in order, joined by single spaces |
| `LdapUrls.NormalizedServerTokens` | src/main/java/org/jenkinsci/plugins/reverse_proxy_auth/ReverseProxySecurityRealm.java:239-247 | The server list is canonical: no leading or trailing whitespace, and single spaces only. Splitting it again gives back exactly its entries. It is empty exactly when the input has no non-blank token. Every entry names a scheme |
| `LdapUrls.NormalizeIdempotent` | src/main/java/org/jenkinsci/plugins/reverse_proxy_auth/ReverseProxySecurityRealm.java:242-246 | Normalising an already normalised server list changes nothing |
| `LdapUrls.ToProviderUrl` | src/main/java/org/jenkinsci/plugins/reverse_proxy_auth/ReverseProxySecurityRealm.java:288-303 | The loop returns null exactly for a null server string. Otherwise it returns the provider URL: for each non-blank token, in order, `addPrefix(token)`, then `/` unless it already ends in `/`, then `fixNull(rootDN)`, space-joined |
| `LdapUrls.ProviderEntriesShape` | src/main/java/org/jenkinsci/plugins/reverse_proxy_auth/ReverseProxySecurityRealm.java:294-301 | For any root DN, there is one provider entry per server-list entry, and entry k is that entry with a slash added unless it ends in one, then the root DN |
| `LdapUrls.ProviderUrlEntries` | src/main/java/org/jenkinsci/plugins/reverse_proxy_auth/ReverseProxySecurityRealm.java:294-301 | For a root DN without whitespace, the URL is canonical and splits back into exactly its entries. A DN with a space in it breaks this, because the DN is not escaped |
| `LdapUrls.ProviderUrlEmpty` | src/main/java/org/jenkinsci/plugins/reverse_proxy_auth/ReverseProxySecurityRealm.java:292-302 | The provider URL is `""` exactly when the input has no non-blank token, so a blank input gives `""` and not null |
| `LdapUrls.ProviderUrlOfNormalized` | src/main/java/org/jenkinsci/plugins/reverse_proxy_auth/ReverseProxySecurityRealm.java:309-311 | `toProviderUrl(getServerUrl(), r) == toProviderUrl(server, r)`: the provider URL built from the normalised server list equals the one built from the raw server string |
| `Realm.ReverseProxySecurityRealm.GetLDAPURL` | src/main/java/org/jenkinsci/plugins/reverse_proxy_auth/ReverseProxySecurityRealm.java:309-311 | The result is null exactly when `server` is null. Otherwise it is the provider URL of the raw server string with `fixNull(rootDN)` |
| `HudsonUtil.FixEmptyAndTrim` | src/main/java/org/jenkinsci/plugins/reverse_proxy_auth/ReverseProxySecurityRealm.java:204-206 | The result is null exactly when the input is null or blank. A non-null result is the input's `trim()`, which is non-empty and neither starts nor ends with a trimmable character |
| `HudsonUtil.FixEmpty` | src/main/java/org/jenkinsci/plugins/reverse_proxy_auth/ReverseProxySecurityRealm.java:207-208 | The result is null exactly when the input is null or empty; otherwise it is the input unchanged |
| `HudsonUtil.FixNull` | src/main/java/org/jenkinsci/plugins/reverse_proxy_auth/ReverseProxySecurityRealm.java:212 | A non-null input is returned unchanged. The result is `""` exactly when the input is null or empty |
| `HudsonUtil.FixEmptyAndTrimIdempotent` | src/main/java/org/jenkinsci/plugins/reverse_proxy_auth/ReverseProxySecurityRealm.java:219-222 | Normalising an already normalised setting changes nothing |
| `JavaText.Trim` | src/main/java/org/jenkinsci/plugins/reverse_proxy_auth/ReverseProxySecurityRealm.java:218 | `trim()` gives a string that neither starts nor ends with a character up to U+0020. The result is empty exactly when every character is one |
| `JavaText.TrimSlice` | src/main/java/org/jenkinsci/plugins/reverse_proxy_auth/ReverseProxySecurityRealm.java:218 | The result of `trim()` is a slice `s[i..j]` of the input, where everything before `i` and everything from `j` on is a character up to U+0020 |
| `JavaText.Split` | src/main/java/org/jenkinsci/plugins/reverse_proxy_auth/ReverseProxySecurityRealm.java:242 | Every piece of `split("\\s+")` the model keeps is non-empty and free of `\s` characters |
| `JavaText.SplitAround` | src/main/java/org/jenkinsci/plugins/reverse_proxy_auth/ReverseProxySecurityRealm.java:242 | A `\s` character always separates pieces: splitting `a + c + b` for a `\s` character `c` gives the pieces of `a` followed by those of `b`. With `SplitJoin` on a single word, this makes the pieces exactly the maximal runs of non-`\s` characters, on any input |
| `JavaText.SplitConcat` | src/main/java/org/jenkinsci/plugins/reverse_proxy_auth/ReverseProxySecurityRealm.java:242 | The pieces, glued together, are the input with exactly its `\s` characters deleted |
| `JavaText.JoinSplit` | src/main/java/org/jenkinsci/plugins/reverse_proxy_auth/ReverseProxySecurityRealm.java:294 | Splitting canonical text and joining the pieces with single spaces gives the text back |
| `JavaText.ContainsOccurrence` | src/main/java/org/jenkinsci/plugins/reverse_proxy_auth/ReverseProxySecurityRealm.java:509 | `contains(part)` holds exactly when `part` occurs in the string at some index |
| `JavaText.EndsWithConcat` | src/main/java/org/jenkinsci/plugins/reverse_proxy_auth/ReverseProxySecurityRealm.java:299 | `endsWith(suffix)` holds exactly when the string is some string followed by `suffix` |
| `JavaText.SplitJoin` | src/main/java/org/jenkinsci/plugins/reverse_proxy_auth/ReverseProxySecurityRealm.java:242-246 | Splitting on `\s+` undoes joining non-empty, whitespace-free entries with single spaces |
| `JavaText.JoinCanonical` | src/main/java/org/jenkinsci/plugins/reverse_proxy_auth/ReverseProxySecurityRealm.java:244-245 | Joining non-empty, whitespace-free entries with single spaces gives canonical text, which is empty exactly when there are no entries |
| `RootDn.InferRootDN` | src/main/java/org/jenkinsci/plugins/reverse_proxy_auth/ReverseProxySecurityRealm.java:259-286 | A manager DN without a manager password throws a NullPointerException before the directory is read. Otherwise: an unchecked exception from the connect (such as a NumberFormatException for an unparsable port) escapes. A naming failure gives null. A non-null `defaultNamingContext` wins. Otherwise the result is the value of `namingcontexts`, or null when that attribute is missing. A `namingcontexts` attribute with a null value dereferences null |
| `RootDn.ConfiguredRootDN` | src/main/java/org/jenkinsci/plugins/reverse_proxy_auth/ReverseProxySecurityRealm.java:211-216 | With no server, the root DN is null. With a server, it is non-null and trimmed, and a non-blank explicit DN is used (trimmed). When inference runs and returns, the stored DN is the inferred one, trimmed, or `""` if it is null. With inference inhibited, a non-null DN is stored trimmed, so a blank one gives `""`. The constructor throws a NullPointerException exactly when there is a server, the DN is blank, and either inference is inhibited and the DN is null, or inference throws one (a manager DN without a password, or a null `namingcontexts` value). It lets another unchecked exception escape exactly when inference runs and the connect throws one |
| `RootDn.UnreachableDirectoryGivesEmptyRootDN` | src/main/java/org/jenkinsci/plugins/reverse_proxy_auth/ReverseProxySecurityRealm.java:282-285 | If inference is allowed, the explicit DN is blank, the manager credentials are complete and the directory cannot be reached, the stored root DN is `""`: a naming failure never makes construction fail |
| `RootDn.ExplicitRootDNIgnoresDirectory` | src/main/java/org/jenkinsci/plugins/reverse_proxy_auth/ReverseProxySecurityRealm.java:212-213 | A non-blank explicit root DN is stored trimmed, whatever the directory would answer and whatever the manager credentials are |
| `RootDn.RejectedConnectFailsConstruction` | src/main/java/org/jenkinsci/plugins/reverse_proxy_auth/ReverseProxySecurityRealm.java:268-269 | When the root DN has to be inferred and the credentials are complete, a connect that throws an unchecked exception (not a `NamingException`, so the catch at line 282 misses it) makes construction throw |
| `RootDn.ManagerWithoutPasswordFailsInference` | src/main/java/org/jenkinsci/plugins/reverse_proxy_auth/ReverseProxySecurityRealm.java:261-264 | When the root DN has to be inferred, a manager DN without a password makes construction throw, whatever the directory would answer |
| `Realm.ReverseProxySecurityRealm.constructor` | src/main/java/org/jenkinsci/plugins/reverse_proxy_auth/ReverseProxySecurityRealm.java:204-225 | `forwardedUser`, `server`, `groupSearchBase` and `groupSearchFilter` are trimmed, or null if blank. `userSearch` is trimmed, or `uid={0}` if blank. `userSearchBase` is `""` if null, otherwise trimmed. `managerDN` and `managerPassword` are null if empty. `rootDN` is as `ConfiguredRootDN` says, given those two. The cache and `authorities` start empty, and the invariant `Valid()` holds |
| `Realm.ReverseProxySecurityRealm.DoFilter` | src/main/java/org/jenkinsci/plugins/reverse_proxy_auth/ReverseProxySecurityRealm.java:319-356 | A null header gives `ANONYMOUS` and leaves the cache and `authorities` unchanged. With no directory, the authorities are exactly `{authenticated}`. In directory mode, a cached entry with more than one authority is reused without a lookup. Otherwise there is exactly one lookup, and the authorities are its authorities plus "authenticated", or its exception propagates. After any identified request, `authContext[user]` equals the installed authorities, which contain "authenticated", and every other key is unchanged. `Valid()` is preserved |
| `Realm.RepeatedRequestUsesCache` | src/main/java/org/jenkinsci/plugins/reverse_proxy_auth/ReverseProxySecurityRealm.java:329-350 | In directory mode, two requests for a user whose directory authorities include a role other than "authenticated" cause exactly one lookup, and both install the same authentication |
| `Realm.ReverseProxySecurityRealm.LoadGroupByGroupname` | src/main/java/org/jenkinsci/plugins/reverse_proxy_auth/ReverseProxySecurityRealm.java:420-436 | The search uses `groupSearchBase`, or `""` if null, and `groupSearchFilter`, or `GROUP_SEARCH` if null, with attribute `cn`. A failed search propagates. An empty result is "not found" for that group name. Otherwise the name returned is one of the values found. Without a server the LDAP template is null |
| `Realm.UserDirectory.LoadUserByUsername` | src/main/java/org/jenkinsci/plugins/reverse_proxy_auth/ReverseProxySecurityRealm.java:414-416 | Returns the directory's answer for the user (authorities or an exception) and records the lookup |

## Left out

- `ProxyLDAPDescriptor.doServerCheck` (lines 451-501) is not modelled. It is an
  administrative diagnosis made of JNDI binds, DNS resolution and socket connects. Its
  regular-expression check only runs after a network failure.
- `createSecurityComponents`, `findBean` and `extractBean` (lines 369-408, 438-441) are
  not modelled. They load Groovy and Spring bean definitions from disk or from resources.
  Only their effect on the rest of the core is kept: the LDAP template exists only in
  directory mode (see `LoadGroupByGroupname`).
- The Scrambler is not modelled. The manager password is stored as `fixEmpty(password)`
  and `getManagerPassword` is left out, because scrambling is a foreign, reversible
  encoding. Scrambling and descrambling keep null as null and a non-null password
  non-null. That is all root-DN inference depends on.
- Reading the root entry over JNDI and the LDAP group search are foreign I/O. They are
  inputs: a `RootDse` value and a search function. The model does not say which provider
  URL is contacted, or with which manager credentials. Which server strings make JNDI's
  connect throw an unchecked exception (such as a port that is not a number) is JNDI's
  own parsing, so it is not modelled either. The `ConnectRejected` input stands for that
  outcome.
- Attribute ids are keyed in lower case in the `RootDse` map, because JNDI's LDAP
  attribute sets ignore case. Each attribute is reduced to the one value `Attribute.get()`
  returns (or null). For a multi-valued attribute with no order, `get()` may return any of
  its values. The model takes that value as given and does not say which one it is.
- `RootDn.InferRootDN`: an attribute that is present but has no values is not modelled.
  On it, `Attribute.get()` throws `NoSuchElementException`, which the
  `catch (NamingException e)` at line 282 does not catch. `RootDse` has no way to express
  such an attribute.
- `loadUserByUsername` and the user-details service are not part of this model. They are
  the `UserDirectory` oracle, which gives authorities or an exception.
- The `LdapUserDetails` cast and a null authority array from the directory are left out,
  because both depend on code outside this model.
- Concurrency is left out. This covers the races between requests on the shared fields
  `retrievedUsername` and `authorities`, the `Hashtable`'s locking, the thread-local
  `SecurityContextHolder`, and `chain.doFilter`. The model runs one request at a time.
  Installing the authentication and continuing the chain is the `Proceed` outcome.
- The order of `HashSet.toArray` is unspecified. Authorities are sets, and the arrays
  the filter stores have no duplicates, so an array's length is the set's size.
- The system property that can override `GROUP_SEARCH` is left out. The constant has
  its default value.
- Logging, `Messages`, and the trivial getters `getForwardedUser`,
  `getGroupSearchFilter` and `canLogOut` are left out.
- `JavaText.Split` returns only the non-empty pieces of Java's `split("\\s+")`. Java
  can also yield one leading empty piece. The loops skip every blank piece, so the
  output is the same.
- `Realm.ReverseProxySecurityRealm.constructor`: it requires that
  `ConfiguredRootDN` does not throw. So it excludes the inputs on which the source
  throws a NullPointerException from its constructor:
  - inference is inhibited and the root DN is null;
  - inference runs with a manager DN but no manager password (`Hashtable.put` of a null
    password at line 264);
  - inference runs and the `namingcontexts` value is null.

  `RootDn.ConfiguredRootDN` models all three cases as `ThrewNullPointer`. The
  constructor's requires also excludes a fourth failure: inference runs and JNDI's
  connect throws an unchecked exception, such as the NumberFormatException for a port
  that is not a number. `ConfiguredRootDN` models it as `ThrewUnchecked`.

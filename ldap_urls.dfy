/**
  Turning the configured LDAP server string (host entries separated by whitespace, each
  optionally with a scheme and a port) into the space-separated list of server URLs and
  into the JNDI provider URL, which gives every entry the root DN as its path. The DN is
  appended as it is: no escaping of the kind section 2 of RFC 4516 describes is done.
 */
module LdapUrls {
  import opened Nullable
  import opened JavaText
  import opened HudsonUtil

  /** The scheme given to an entry that names none. */
  const DefaultScheme := "ldap://"

  /** `addPrefix`: a host entry without `://` gets the `ldap://` scheme; any other is kept intact. */
  function AddPrefix(server: string): (r: string)
    ensures Contains(r, "://")
    ensures r == server <==> Contains(server, "://")
    ensures r != server ==> r == DefaultScheme + server
    ensures NoSpace(server) ==> NoSpace(r)
    ensures !IsBlank(server) ==> !IsBlank(r)
  {
    if Contains(server, "://") then server
    else
      var r := DefaultScheme + server;
      assert r[4..7] == "://";
      ContainsAt(r, "://", 4);
      assert forall i :: |DefaultScheme| <= i < |r| ==> r[i] == server[i - |DefaultScheme|];
      assert !IsTrimmable(r[0]);
      r
  }

  /** Adding the scheme twice is adding it once. */
  lemma AddPrefixIdempotent(server: string)
    ensures AddPrefix(AddPrefix(server)) == AddPrefix(server)
  {
  }

  /** The tokens the loops do not skip (those whose `trim()` is non-empty), in order. */
  function Kept(tokens: seq<string>): (r: seq<string>)
    ensures |r| <= |tokens|
    ensures forall k :: 0 <= k < |r| ==> !IsBlank(r[k])
    ensures Words(tokens) ==> Words(r)
  {
    if tokens == [] then []
    else (if IsBlank(tokens[0]) then [] else [tokens[0]]) + Kept(tokens[1..])
  }

  lemma {:induction false} KeptSnoc(tokens: seq<string>, t: string)
    ensures Kept(tokens + [t]) == Kept(tokens) + (if IsBlank(t) then [] else [t])
  {
    if tokens == [] {
      assert [t][1..] == [];
    } else {
      var head := if IsBlank(tokens[0]) then [] else [tokens[0]];
      var last := if IsBlank(t) then [] else [t];
      KeptSnoc(tokens[1..], t);
      assert (tokens + [t])[0] == tokens[0];
      assert (tokens + [t])[1..] == tokens[1..] + [t];
      calc {
        Kept(tokens + [t]);
        head + Kept(tokens[1..] + [t]);
        head + (Kept(tokens[1..]) + last);
        (head + Kept(tokens[1..])) + last;
      }
    }
  }

  /** Tokens that are all non-blank are all kept. */
  lemma {:induction false} KeptNonBlank(tokens: seq<string>)
    requires forall k :: 0 <= k < |tokens| ==> !IsBlank(tokens[k])
    ensures Kept(tokens) == tokens
  {
    if tokens != [] {
      KeptNonBlank(tokens[1..]);
      assert tokens == [tokens[0]] + tokens[1..];
    }
  }

  /** A blank string has no token worth keeping. */
  lemma {:induction false} KeptOfBlank(tokens: seq<string>)
    requires forall k :: 0 <= k < |tokens| ==> IsBlank(tokens[k])
    ensures Kept(tokens) == []
  {
    if tokens != [] {
      KeptOfBlank(tokens[1..]);
    }
  }

  function Prefixed(hosts: seq<string>): seq<string> {
    seq(|hosts|, i requires 0 <= i < |hosts| => AddPrefix(hosts[i]))
  }

  /** The host entries of a server string: each non-blank token with its scheme, in order. */
  function ServerEntries(server: string): seq<string> {
    Prefixed(Kept(Split(server)))
  }

  /** What `getServerUrl` returns for a non-null server string. */
  function NormalizedServer(server: string): string {
    Join(ServerEntries(server))
  }

  /** An entry followed by `/`, unless it already ends with one. */
  function WithSlash(url: string): (r: string)
    ensures EndsWith(r, "/")
    ensures r == url || r == url + "/"
  {
    if EndsWith(url, "/") then url else url + "/"
  }

  function ProviderEntry(host: string, rootDN: string): string {
    WithSlash(AddPrefix(host)) + rootDN
  }

  function ProviderEntriesOf(hosts: seq<string>, rootDN: string): seq<string> {
    seq(|hosts|, i requires 0 <= i < |hosts| => ProviderEntry(hosts[i], rootDN))
  }

  /** One provider URL per non-blank token of the server string. */
  function ProviderEntries(serverUrl: string, rootDN: string): seq<string> {
    ProviderEntriesOf(Kept(Split(serverUrl)), rootDN)
  }

  /** What `toProviderUrl` returns for a non-null server string. */
  function ProviderUrl(serverUrl: string, rootDN: string): string {
    Join(ProviderEntries(serverUrl, rootDN))
  }

  /** What one more token does to the server list built so far. */
  lemma ServerStep(tokens: seq<string>, i: nat)
    requires i < |tokens|
    ensures IsBlank(tokens[i]) ==> Kept(tokens[..i + 1]) == Kept(tokens[..i])
    ensures !IsBlank(tokens[i]) ==>
      Join(Prefixed(Kept(tokens[..i + 1])))
        == Join(Prefixed(Kept(tokens[..i]))) + (if Kept(tokens[..i]) == [] then "" else " ") + AddPrefix(tokens[i])
  {
    var t := tokens[i];
    assert tokens[..i + 1] == tokens[..i] + [t];
    KeptSnoc(tokens[..i], t);
    assert Kept(tokens[..i]) + [] == Kept(tokens[..i]);
    if !IsBlank(t) {
      var done := Kept(tokens[..i]);
      assert Prefixed(done + [t]) == Prefixed(done) + [AddPrefix(t)];
      JoinSnoc(Prefixed(done), AddPrefix(t));
      if done == [] {
        assert Join(Prefixed(done)) == [];
      }
    }
  }

  /** What one more token does to the provider URL built so far. */
  lemma ProviderStep(tokens: seq<string>, i: nat, rootDN: string)
    requires i < |tokens|
    ensures IsBlank(tokens[i]) ==> Kept(tokens[..i + 1]) == Kept(tokens[..i])
    ensures !IsBlank(tokens[i]) ==> Kept(tokens[..i + 1]) == Kept(tokens[..i]) + [tokens[i]]
    ensures !IsBlank(tokens[i]) ==>
      Join(ProviderEntriesOf(Kept(tokens[..i + 1]), rootDN))
        == Join(ProviderEntriesOf(Kept(tokens[..i]), rootDN))
           + (if Kept(tokens[..i]) == [] then "" else " ") + ProviderEntry(tokens[i], rootDN)
  {
    var t := tokens[i];
    assert tokens[..i + 1] == tokens[..i] + [t];
    KeptSnoc(tokens[..i], t);
    assert Kept(tokens[..i]) + [] == Kept(tokens[..i]);
    if !IsBlank(t) {
      var done := Kept(tokens[..i]);
      assert ProviderEntriesOf(done + [t], rootDN) == ProviderEntriesOf(done, rootDN) + [ProviderEntry(t, rootDN)];
      JoinSnoc(ProviderEntriesOf(done, rootDN), ProviderEntry(t, rootDN));
      if done == [] {
        assert Join(ProviderEntriesOf(done, rootDN)) == [];
      }
    }
  }

  /**
    Appending to the buffer piece by piece builds the same string as appending the whole
    entry; stated once here so the loop's proof does not have to search for it.
   */
  lemma Appended(a: string, b: string, c: string)
    ensures a + b + c == a + (b + c)
  {
  }

  /** `toProviderUrl`: null stays null; otherwise every non-blank token becomes `scheme://entry/` + root DN. */
  method ToProviderUrl(serverUrl: Option<string>, rootDN: Option<string>) returns (r: Option<string>)
    ensures r.None? <==> serverUrl.None?
    ensures serverUrl.Some? ==> r == Some(ProviderUrl(serverUrl.value, FixNull(rootDN)))
  {
    if serverUrl.None? {
      return None;
    }
    var tokens := Split(serverUrl.value);
    var dn := FixNull(rootDN);
    var buf := "";
    var first := true;
    for i := 0 to |tokens|
      invariant first <==> Kept(tokens[..i]) == []
      invariant buf == Join(ProviderEntriesOf(Kept(tokens[..i]), dn))
    {
      var s := tokens[i];
      ProviderStep(tokens, i, dn);
      if |Trim(s)| == 0 {
        continue;
      }
      if first {
        first := false;
      } else {
        buf := buf + " ";
      }
      ghost var head := buf;
      s := AddPrefix(s);
      buf := buf + s;
      if !EndsWith(s, "/") {
        Appended(head, s, "/");
        buf := buf + "/";
      }
      assert buf == head + WithSlash(s);
      Appended(head, WithSlash(s), dn);
      buf := buf + dn;
    }
    assert tokens[..|tokens|] == tokens;
    r := Some(buf);
  }

  /**
    The normalised server string is canonical (single spaces, no leading or trailing
    whitespace), splits back into exactly its entries, and every entry names a scheme.
   */
  lemma NormalizedServerTokens(server: string)
    ensures Canonical(NormalizedServer(server))
    ensures Split(NormalizedServer(server)) == ServerEntries(server)
    ensures NormalizedServer(server) == [] <==> Kept(Split(server)) == []
    ensures forall k :: 0 <= k < |ServerEntries(server)| ==> Contains(ServerEntries(server)[k], "://")
  {
    var entries := ServerEntries(server);
    assert Words(entries);
    JoinCanonical(entries);
    SplitJoin(entries);
  }

  /** Re-reading a normalised server string yields the same entries, scheme already present. */
  lemma ReSplitNormalized(server: string)
    ensures Kept(Split(NormalizedServer(server))) == ServerEntries(server)
  {
    var entries := ServerEntries(server);
    NormalizedServerTokens(server);
    KeptNonBlank(entries);
  }

  /** Normalising the server string twice is normalising it once. */
  lemma NormalizeIdempotent(server: string)
    ensures NormalizedServer(NormalizedServer(server)) == NormalizedServer(server)
  {
    var entries := ServerEntries(server);
    ReSplitNormalized(server);
    forall k | 0 <= k < |entries|
      ensures AddPrefix(entries[k]) == entries[k]
    {
      AddPrefixIdempotent(Kept(Split(server))[k]);
    }
    assert Prefixed(entries) == entries;
  }

  /** Building the provider URL from the normalised server string or from the raw one gives the same URL. */
  lemma ProviderUrlOfNormalized(server: string, rootDN: string)
    ensures ProviderUrl(NormalizedServer(server), rootDN) == ProviderUrl(server, rootDN)
  {
    var hosts := Kept(Split(server));
    ReSplitNormalized(server);
    forall k | 0 <= k < |hosts|
      ensures ProviderEntry(AddPrefix(hosts[k]), rootDN) == ProviderEntry(hosts[k], rootDN)
    {
      AddPrefixIdempotent(hosts[k]);
    }
    assert ProviderEntriesOf(Prefixed(hosts), rootDN) == ProviderEntriesOf(hosts, rootDN);
  }

  /**
    The provider URL is empty exactly when the server string has no non-blank token; in
    particular a blank (but non-null) server string gives "" rather than null.
   */
  lemma ProviderUrlEmpty(serverUrl: string, rootDN: string)
    ensures ProviderUrl(serverUrl, rootDN) == [] <==> Kept(Split(serverUrl)) == []
    ensures IsBlank(serverUrl) ==> ProviderUrl(serverUrl, rootDN) == []
  {
    var entries := ProviderEntries(serverUrl, rootDN);
    if entries != [] {
      assert |entries[0]| > 0;
      if |entries| > 1 {
        assert Join(entries) == entries[0] + " " + Join(entries[1..]);
      }
    }
    if IsBlank(serverUrl) {
      SplitBlank(serverUrl);
      KeptOfBlank(Split(serverUrl));
    }
  }

  /**
    One provider entry per host entry of the server string: that entry, a `/` unless it
    already ends with one, then the root DN, whatever the root DN holds.
   */
  lemma ProviderEntriesShape(serverUrl: string, rootDN: string)
    ensures |ProviderEntries(serverUrl, rootDN)| == |ServerEntries(serverUrl)|
    ensures forall k :: 0 <= k < |ServerEntries(serverUrl)| ==>
      ProviderEntries(serverUrl, rootDN)[k] == WithSlash(ServerEntries(serverUrl)[k]) + rootDN
  {
  }

  /**
    For a root DN without whitespace the provider URL is canonical and splits back into
    exactly its entries. A root DN with a space in it (`o=My Org`) breaks this, since the
    DN is not escaped.
   */
  lemma ProviderUrlEntries(serverUrl: string, rootDN: string)
    requires NoSpace(rootDN)
    ensures Canonical(ProviderUrl(serverUrl, rootDN))
    ensures Split(ProviderUrl(serverUrl, rootDN)) == ProviderEntries(serverUrl, rootDN)
  {
    var entries := ProviderEntries(serverUrl, rootDN);
    forall k | 0 <= k < |entries|
      ensures entries[k] != [] && NoSpace(entries[k])
    {
      var p := AddPrefix(Kept(Split(serverUrl))[k]);
      var e := WithSlash(p) + rootDN;
      assert forall i :: 0 <= i < |e| ==> e[i] == (if i < |p| then p[i] else if i < |WithSlash(p)| then '/' else rootDN[i - |WithSlash(p)|]);
    }
    JoinCanonical(entries);
    SplitJoin(entries);
  }
}

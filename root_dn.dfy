/**
  The realm's root DN: taken from the configuration when one is given, otherwise inferred
  (at construction time, once) from the attributes of the directory's root entry.
 */
module RootDn {
  import opened Nullable
  import opened JavaText
  import opened HudsonUtil

  /**
    What reading the root entry over JNDI produced: a NamingException (the bind or the read
    failed); an unchecked exception from creating the context, which no handler catches
    (JNDI's NumberFormatException for a port it cannot parse); or the entry's attributes. JNDI's LDAP attribute sets ignore the case of
    attribute ids, so ids are keyed here in lower case; each maps to the attribute's first
    value, `None` standing for a null value.
   */
  datatype RootDse = NamingFailure | ConnectRejected | RootEntry(attributes: map<string, Option<string>>)

  /** The Active Directory attribute naming the domain's DN. */
  const DefaultNamingContext := "defaultnamingcontext"
  /** The standard attribute listing the naming contexts the server holds. */
  const NamingContexts := "namingcontexts"

  /** The root entry has the attribute `id` with a non-null value. */
  predicate HasValue(dse: RootDse, id: string) {
    dse.RootEntry? && id in dse.attributes && dse.attributes[id].Some?
  }

  /**
    Whether `inferRootDN` can fill its JNDI environment: a manager DN needs a password,
    because `Hashtable.put` refuses the null that `getManagerPassword` gives without one.
   */
  predicate CredentialsComplete(managerDN: Option<string>, managerPassword: Option<string>) {
    managerDN.None? || managerPassword.Some?
  }

  /**
    `inferRootDN`, given the realm's (normalised) manager DN and password: a manager DN
    without a password makes the source dereference null before the directory is read.
    Otherwise an unchecked exception from the connect escapes; a non-null
    `defaultNamingContext` wins; then the value of `namingcontexts`, null when that
    attribute is missing; null on any naming failure. A `namingcontexts` attribute whose
    value is null makes the source dereference null.
   */
  function InferRootDN(managerDN: Option<string>, managerPassword: Option<string>, dse: RootDse)
    : (r: Outcome<Option<string>>)
    ensures !CredentialsComplete(managerDN, managerPassword) ==> r == ThrewNullPointer
    ensures CredentialsComplete(managerDN, managerPassword) && dse.NamingFailure? ==> r == Returned(None)
    ensures r.ThrewUnchecked? <==> CredentialsComplete(managerDN, managerPassword) && dse.ConnectRejected?
    ensures CredentialsComplete(managerDN, managerPassword) && HasValue(dse, DefaultNamingContext) ==>
      r == Returned(dse.attributes[DefaultNamingContext])
    ensures r.Returned? && r.value.Some? ==>
      HasValue(dse, DefaultNamingContext)
      || (NamingContexts in dse.attributes && dse.attributes[NamingContexts] == r.value)
    ensures r == Returned(None) <==>
      CredentialsComplete(managerDN, managerPassword)
      && (dse.NamingFailure? || (dse.RootEntry? && !HasValue(dse, DefaultNamingContext) && NamingContexts !in dse.attributes))
    ensures r.ThrewNullPointer? <==>
      !CredentialsComplete(managerDN, managerPassword)
      || (dse.RootEntry? && !HasValue(dse, DefaultNamingContext)
          && NamingContexts in dse.attributes && dse.attributes[NamingContexts].None?)
  {
    if !CredentialsComplete(managerDN, managerPassword) then ThrewNullPointer
    else
      match dse
      case NamingFailure => Returned(None)
      case ConnectRejected => ThrewUnchecked
      case RootEntry(attributes) =>
        if HasValue(dse, DefaultNamingContext) then Returned(attributes[DefaultNamingContext])
        else if NamingContexts !in attributes then Returned(None)
        else if attributes[NamingContexts].None? then ThrewNullPointer
        else Returned(attributes[NamingContexts])
  }

  /**
    The root DN the constructor stores, given the already normalised server, manager DN
    and manager password and the constructor's own arguments: null without a server;
    otherwise the trimmed explicit DN, or, when that is blank and inference is allowed,
    the trimmed inferred one ("" if none). With inference inhibited a null DN is
    dereferenced.
   */
  function ConfiguredRootDN(server: Option<string>, rootDN: Option<string>, inhibitInferRootDN: bool,
                            managerDN: Option<string>, managerPassword: Option<string>, dse: RootDse)
    : (r: Outcome<Option<string>>)
    ensures server.None? ==> r == Returned(None)
    ensures server.Some? && r.Returned? ==> r.value.Some? && Trim(r.value.value) == r.value.value
    ensures server.Some? && FixEmptyAndTrim(rootDN).Some? ==> r == Returned(FixEmptyAndTrim(rootDN))
    ensures server.Some? && !inhibitInferRootDN && FixEmptyAndTrim(rootDN).None?
            && InferRootDN(managerDN, managerPassword, dse).Returned? ==>
      r == Returned(Some(Trim(FixNull(InferRootDN(managerDN, managerPassword, dse).value))))
    ensures server.Some? && inhibitInferRootDN && rootDN.Some? ==> r == Returned(Some(Trim(rootDN.value)))
    ensures r.ThrewNullPointer? <==>
      server.Some? && FixEmptyAndTrim(rootDN).None?
      && (if inhibitInferRootDN then rootDN.None? else InferRootDN(managerDN, managerPassword, dse).ThrewNullPointer?)
    ensures r.ThrewUnchecked? <==>
      server.Some? && !inhibitInferRootDN && FixEmptyAndTrim(rootDN).None?
      && InferRootDN(managerDN, managerPassword, dse).ThrewUnchecked?
  {
    if server.None? then Returned(None)
    else if !inhibitInferRootDN && FixEmptyAndTrim(rootDN).None? then
      match InferRootDN(managerDN, managerPassword, dse)
      case ThrewNullPointer => ThrewNullPointer
      case ThrewUnchecked => ThrewUnchecked
      case Returned(inferred) => Returned(Some(Trim(FixNull(inferred))))
    else if rootDN.None? then ThrewNullPointer
    else Returned(Some(Trim(rootDN.value)))
  }

  /**
    A naming failure never fails construction: when the directory cannot be reached,
    inference is allowed and the manager credentials are complete, a blank explicit DN
    gives the empty root DN.
   */
  lemma UnreachableDirectoryGivesEmptyRootDN(server: string, rootDN: Option<string>,
                                             managerDN: Option<string>, managerPassword: Option<string>)
    requires FixEmptyAndTrim(rootDN).None?
    requires CredentialsComplete(managerDN, managerPassword)
    ensures ConfiguredRootDN(Some(server), rootDN, false, managerDN, managerPassword, NamingFailure) == Returned(Some([]))
  {
  }

  /**
    A connect that JNDI rejects with an unchecked exception fails construction whenever
    the root DN has to be inferred and the manager credentials are complete: the handler
    for naming failures does not catch it.
   */
  lemma RejectedConnectFailsConstruction(server: string, rootDN: Option<string>,
                                         managerDN: Option<string>, managerPassword: Option<string>)
    requires FixEmptyAndTrim(rootDN).None?
    requires CredentialsComplete(managerDN, managerPassword)
    ensures ConfiguredRootDN(Some(server), rootDN, false, managerDN, managerPassword, ConnectRejected) == ThrewUnchecked
  {
  }

  /**
    A manager DN without a password fails construction whenever the root DN has to be
    inferred, whatever the directory would answer.
   */
  lemma ManagerWithoutPasswordFailsInference(server: string, rootDN: Option<string>, managerDN: string, dse: RootDse)
    requires FixEmptyAndTrim(rootDN).None?
    ensures ConfiguredRootDN(Some(server), rootDN, false, Some(managerDN), None, dse) == ThrewNullPointer
  {
  }

  /**
    An explicit, non-blank root DN is used as given (trimmed), whatever the directory holds
    and whatever the manager credentials are: no inference takes place.
   */
  lemma ExplicitRootDNIgnoresDirectory(server: string, rootDN: string, inhibit: bool,
                                       managerDN: Option<string>, managerPassword: Option<string>,
                                       dse1: RootDse, dse2: RootDse)
    requires !IsBlank(rootDN)
    ensures ConfiguredRootDN(Some(server), Some(rootDN), inhibit, managerDN, managerPassword, dse1)
         == ConfiguredRootDN(Some(server), Some(rootDN), inhibit, None, None, dse2)
         == Returned(Some(Trim(rootDN)))
  {
  }
}

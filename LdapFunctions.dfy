/**
 * The pure helpers of LDAP_DLL's directory layer: the `LDAP://` prefixing done before every
 * directory call, the text a successful ping reports, the group name taken from each
 * `memberOf` distinguished name, and the `key=value;` summaries of a found entry. The
 * directory itself is an oracle: a function from the call's arguments to what the search
 * returned.
 */
module LdapFunctions {
  import opened Wrappers
  import opened Strings

  const LdapScheme := "LDAP://"

  /** `if (!ldapPath.StartsWith("LDAP://", OrdinalIgnoreCase)) ldapPath = "LDAP://" + ldapPath;` */
  function WithLdapScheme(path: string): (r: string)
    ensures StartsWith(r, LdapScheme, OrdinalIgnoreCase)
    ensures r == path <==> StartsWith(path, LdapScheme, OrdinalIgnoreCase)
    ensures r != path ==> r == LdapScheme + path
  {
    if StartsWith(path, LdapScheme, OrdinalIgnoreCase) then path else LdapScheme + path
  }

  /** Prefixing twice is prefixing once. */
  lemma WithLdapSchemeIdempotent(path: string)
    ensures WithLdapScheme(WithLdapScheme(path)) == WithLdapScheme(path)
  {
  }

  /** The outcome of PingServerSimple: whether the host answered, and the text it reported. */
  datatype PingReply = PingReply(success: bool, info: string)

  /** The message of a successful ping, with the resolved addresses and host name. */
  function PingSucceededText(ips: string, hostName: string): string {
    "Ping succeeded. IPs: " + ips + ", HostName: " + hostName
  }

  const CnPrefix := "CN="

  /**
   * The group name GetGroupsForUserArray takes from one `memberOf` value: the text after
   * the first "CN=" (in any case) up to the next ',' or to the end. Escaped commas of
   * RFC 4514 section 2.4 are not honoured, exactly as in the source.
   */
  function GroupFromDn(dn: string): (r: Option<string>)
    ensures r.None? <==> forall i: nat :: !OccursAt(dn, CnPrefix, i, OrdinalIgnoreCase)
    ensures r.Some? ==>
      var s := IndexOf(dn, CnPrefix, OrdinalIgnoreCase).value;
      var e := s + 3 + |r.value|;
      && e <= |dn|
      && r.value == dn[s + 3..e]
      && ',' !in r.value
      && (e == |dn| || dn[e] == ',')
  {
    match IndexOf(dn, CnPrefix, OrdinalIgnoreCase)
    case None => None
    case Some(s) =>
      assert dn[s] != ',' && dn[s + 1] != ',' && dn[s + 2] != ',' by {
        assert FoldCase(dn[s..s + 3][0]) == 'C' && FoldCase(dn[s..s + 3][1]) == 'N' && FoldCase(dn[s..s + 3][2]) == '=';
      }
      match IndexOfChar(dn, ',', s)
      case Some(e) =>
        // the source's `cnEnd > cnStart` guard always holds: "CN=" itself has no ','
        if e > s then Some(dn[s + 3..e]) else assert false; None
      case None => Some(dn[s + 3..])
  }

  /** The names one `memberOf` value contributes: its group, if it has one. */
  function DnGroups(dn: string): (r: seq<string>)
    ensures |r| <= 1
    ensures r == [] <==> GroupFromDn(dn).None?
    ensures r != [] ==> r == [GroupFromDn(dn).value]
  {
    match GroupFromDn(dn)
    case None => []
    case Some(g) => [g]
  }

  /** The names collected from a user's `memberOf` values, in their order. */
  function GroupsFromMemberOf(dns: seq<string>): (r: seq<string>)
    ensures |r| <= |dns|
  {
    if dns == [] then [] else DnGroups(dns[0]) + GroupsFromMemberOf(dns[1..])
  }

  /** Every collected name was extracted from one of the values. */
  lemma {:induction false} GroupsFromMemberOfSources(dns: seq<string>)
    ensures forall x :: x in GroupsFromMemberOf(dns) ==> exists i :: 0 <= i < |dns| && GroupFromDn(dns[i]) == Some(x)
  {
    if dns != [] {
      GroupsFromMemberOfSources(dns[1..]);
      forall x | x in GroupsFromMemberOf(dns)
        ensures exists i :: 0 <= i < |dns| && GroupFromDn(dns[i]) == Some(x)
      {
        if x in DnGroups(dns[0]) {
          assert GroupFromDn(dns[0]) == Some(x);
        } else {
          var i :| 0 <= i < |dns[1..]| && GroupFromDn(dns[1..][i]) == Some(x);
          assert GroupFromDn(dns[i + 1]) == Some(x);
        }
      }
    }
  }

  /** Collecting over two runs of values is collecting over each, in order. */
  lemma {:induction false} GroupsFromMemberOfConcat(a: seq<string>, b: seq<string>)
    ensures GroupsFromMemberOf(a + b) == GroupsFromMemberOf(a) + GroupsFromMemberOf(b)
    decreases |a|
  {
    if a != [] {
      assert (a + b)[0] == a[0];
      assert (a + b)[1..] == a[1..] + b;
      GroupsFromMemberOfConcat(a[1..], b);
    } else {
      assert a + b == b;
    }
  }

  /** Every value that names a CN contributes exactly one group. */
  lemma {:induction false} GroupsFromMemberOfOnePerDn(dns: seq<string>)
    requires forall i :: 0 <= i < |dns| ==> GroupFromDn(dns[i]).Some?
    ensures |GroupsFromMemberOf(dns)| == |dns|
    ensures forall i :: 0 <= i < |dns| ==> GroupsFromMemberOf(dns)[i] == GroupFromDn(dns[i]).value
  {
    if dns != [] {
      assert forall i :: 0 <= i < |dns[1..]| ==> dns[1..][i] == dns[i + 1];
      GroupsFromMemberOfOnePerDn(dns[1..]);
    }
  }

  /** What the directory search for a user by sAMAccountName returned. */
  datatype UserSearch = UserSearchThrew(message: string) | NoSuchUser | UserFound(memberOf: seq<string>)

  /** The directory, queried as (ldapPath, userName, bind username, bind password). */
  type UserDirectory = (string, string, string, string) -> UserSearch

  /** The array and the `out errorMessage` of GetGroupsForUserArray. */
  datatype GroupLookup = GroupLookup(groups: seq<string>, errorMessage: Option<string>)

  function UserNotFoundText(userName: string): string {
    "User '" + userName + "' not found."
  }

  /** GetGroupsForUserArray, as the value the engine consumes. */
  function GroupsForUser(directory: UserDirectory, ldapPath: string, userName: string, username: string, password: string): (r: GroupLookup)
    ensures |r.groups| > 0 ==> r.errorMessage == None
    ensures r.errorMessage == None <==> directory(WithLdapScheme(ldapPath), userName, username, password).UserFound?
    ensures directory(WithLdapScheme(ldapPath), userName, username, password).UserFound? ==>
      r == GroupLookup(GroupsFromMemberOf(directory(WithLdapScheme(ldapPath), userName, username, password).memberOf), None)
    ensures directory(WithLdapScheme(ldapPath), userName, username, password) == NoSuchUser ==>
      r == GroupLookup([], Some(UserNotFoundText(userName)))
    ensures directory(WithLdapScheme(ldapPath), userName, username, password).UserSearchThrew? ==>
      r == GroupLookup([], Some(directory(WithLdapScheme(ldapPath), userName, username, password).message))
  {
    match directory(WithLdapScheme(ldapPath), userName, username, password)
    case UserSearchThrew(m) => GroupLookup([], Some(m))
    case NoSuchUser => GroupLookup([], Some(UserNotFoundText(userName)))
    case UserFound(dns) => GroupLookup(GroupsFromMemberOf(dns), None)
  }

  /**
   * GetGroupsForUserArray as the source runs it: prefix the path, search, and on a hit walk
   * the `memberOf` values, adding one name per value that holds a "CN=".
   */
  method GetGroupsForUserArray(directory: UserDirectory, ldapPath: string, userName: string, username: string, password: string)
    returns (groups: seq<string>, errorMessage: Option<string>)
    ensures GroupLookup(groups, errorMessage) == GroupsForUser(directory, ldapPath, userName, username, password)
  {
    var path := WithLdapScheme(ldapPath);
    var result := directory(path, userName, username, password);
    if result.UserSearchThrew? {
      return [], Some(result.message);
    }
    if result.NoSuchUser? {
      return [], Some(UserNotFoundText(userName));
    }
    groups, errorMessage := [], None;
    var dns := result.memberOf;
    var i := 0;
    while i < |dns|
      invariant 0 <= i <= |dns|
      invariant groups == GroupsFromMemberOf(dns[..i])
    {
      var g := GroupFromDn(dns[i]);
      GroupsFromMemberOfStep(dns, i);
      if g.Some? {
        groups := groups + [g.value];
      }
      i := i + 1;
    }
    assert dns[..i] == dns;
  }

  /** One more `memberOf` value adds its group, if it has one, at the end. */
  lemma GroupsFromMemberOfStep(dns: seq<string>, i: nat)
    requires i < |dns|
    ensures GroupsFromMemberOf(dns[..i + 1])
      == GroupsFromMemberOf(dns[..i]) + DnGroups(dns[i])
  {
    assert GroupsFromMemberOf([dns[i]]) == DnGroups(dns[i]);
    assert dns[..i + 1] == dns[..i] + [dns[i]];
    GroupsFromMemberOfConcat(dns[..i], [dns[i]]);
  }

  /**
   * A directory property as DirectoryEntry.Properties holds it: absent, or a list of values
   * each of which may be null.
   */
  type Properties = map<string, seq<Option<string>>>

  /** GetProperty: the first value as a string, or "" when absent, empty or null. */
  function GetProperty(entry: Properties, name: string): (r: string)
    ensures r != "" ==> name in entry && |entry[name]| > 0 && entry[name][0] == Some(r)
    ensures name in entry && |entry[name]| > 0 && entry[name][0].Some? ==> r == entry[name][0].value
  {
    if name in entry && |entry[name]| > 0 then
      match entry[name][0]
      case Some(v) => v
      case None => ""
    else ""
  }

  /** The five `key=value` pairs of a user summary, in the order they are written. */
  function UserSummaryFields(entry: Properties): seq<string> {
    [ "sAMAccountName=" + GetProperty(entry, "sAMAccountName"),
      "displayName=" + GetProperty(entry, "displayName"),
      "mail=" + GetProperty(entry, "mail"),
      "givenName=" + GetProperty(entry, "givenName"),
      "sn=" + GetProperty(entry, "sn") ]
  }

  /** The StringBuilder text of GetUserByUserNameSimple: the five pairs, ';' after all but the last. */
  function UserSummary(entry: Properties): string {
    var f := UserSummaryFields(entry);
    f[0] + ";" + f[1] + ";" + f[2] + ";" + f[3] + ";" + f[4]
  }

  /** None of the five values holds the ';' separator. */
  predicate PlainSummaryValues(entry: Properties) {
    && ';' !in GetProperty(entry, "sAMAccountName")
    && ';' !in GetProperty(entry, "displayName")
    && ';' !in GetProperty(entry, "mail")
    && ';' !in GetProperty(entry, "givenName")
    && ';' !in GetProperty(entry, "sn")
  }

  /** Splitting a user summary on ';' gives back its five pairs, in order. */
  lemma UserSummaryRoundTrip(entry: Properties)
    requires PlainSummaryValues(entry)
    ensures Split(UserSummary(entry), ';') == UserSummaryFields(entry)
  {
    var f := UserSummaryFields(entry);
    UserSummaryIsJoin(entry);
    PairHasNoSeparator("sAMAccountName=", GetProperty(entry, "sAMAccountName"));
    PairHasNoSeparator("displayName=", GetProperty(entry, "displayName"));
    PairHasNoSeparator("mail=", GetProperty(entry, "mail"));
    PairHasNoSeparator("givenName=", GetProperty(entry, "givenName"));
    PairHasNoSeparator("sn=", GetProperty(entry, "sn"));
    SplitOfJoin(f, ';');
  }

  /** A user summary starts with its account-name key. */
  lemma SummaryStartsWithKey(entry: Properties)
    ensures StartsWith(UserSummary(entry), "sAMAccountName=")
  {
    var f := UserSummaryFields(entry);
    var key := "sAMAccountName=";
    PrefixStartsWith(key, GetProperty(entry, "sAMAccountName"));
    StartsWithExtend(f[0], ";" + f[1], key);
    StartsWithExtend(f[0] + ";" + f[1], ";" + f[2], key);
    StartsWithExtend(f[0] + ";" + f[1] + ";" + f[2], ";" + f[3], key);
    StartsWithExtend(f[0] + ";" + f[1] + ";" + f[2] + ";" + f[3], ";" + f[4], key);
  }

  /** Text appended after a prefixed string leaves it prefixed. */
  lemma StartsWithExtend(s: string, t: string, p: string)
    requires StartsWith(s, p)
    ensures StartsWith(s + t, p)
  {
    assert (s + t)[..|p|] == s[..|p|];
  }

  lemma PrefixStartsWith(p: string, s: string)
    ensures StartsWith(p + s, p)
  {
    assert (p + s)[..|p|] == p;
  }

  lemma UserSummaryIsJoin(entry: Properties)
    ensures UserSummary(entry) == Join(UserSummaryFields(entry), ';')
  {
    var f := UserSummaryFields(entry);
    JoinFive(f[0], f[1], f[2], f[3], f[4]);
    assert f == [f[0], f[1], f[2], f[3], f[4]];
  }

  lemma JoinFive(a: string, b: string, c: string, d: string, e: string)
    ensures Join([a, b, c, d, e], ';') == a + ";" + b + ";" + c + ";" + d + ";" + e
  {
    var f := [a, b, c, d, e];
    assert f[1..] == [b, c, d, e] && f[2..] == [c, d, e] && f[3..] == [d, e] && f[4..] == [e];
    assert Join([d, e], ';') == d + ";" + e;
    assert Join([c, d, e], ';') == c + ";" + (d + ";" + e);
    assert Join([b, c, d, e], ';') == b + ";" + (c + ";" + (d + ";" + e));
  }

  lemma PairHasNoSeparator(key: string, value: string)
    requires forall i :: 0 <= i < |key| ==> key[i] != ';'
    requires ';' !in value
    ensures ';' !in key + value
  {
  }

  /** What the directory search for one entry returned. */
  datatype EntrySearch = EntrySearchThrew(message: string) | NoSuchEntry | EntryFound(properties: Properties)

  /** The directory, queried as (ldapPath, name searched for, bind username, bind password). */
  type EntryDirectory = (string, string, string, string) -> EntrySearch

  /** A found summary or "" with the `out errorMessage`. */
  datatype TextLookup = TextLookup(result: string, errorMessage: Option<string>)

  /** GetUserByUserNameSimple. */
  function GetUserByUserNameSimple(directory: EntryDirectory, ldapPath: string, userName: string, username: string, password: string): (r: TextLookup)
    ensures r.errorMessage == None <==> directory(WithLdapScheme(ldapPath), userName, username, password).EntryFound?
    ensures r.errorMessage != None ==> r.result == ""
    ensures directory(WithLdapScheme(ldapPath), userName, username, password).EntrySearchThrew? ==>
      r.errorMessage == Some(directory(WithLdapScheme(ldapPath), userName, username, password).message)
    ensures directory(WithLdapScheme(ldapPath), userName, username, password) == NoSuchEntry ==> r.errorMessage == Some(UserNotFoundText(userName))
    ensures r.errorMessage == None ==> StartsWith(r.result, "sAMAccountName=")
    ensures directory(WithLdapScheme(ldapPath), userName, username, password).EntryFound? ==>
      r.result == UserSummary(directory(WithLdapScheme(ldapPath), userName, username, password).properties)
  {
    match directory(WithLdapScheme(ldapPath), userName, username, password)
    case EntrySearchThrew(m) => TextLookup("", Some(m))
    case NoSuchEntry => TextLookup("", Some(UserNotFoundText(userName)))
    case EntryFound(props) => SummaryStartsWithKey(props); TextLookup(UserSummary(props), None)
  }

  /** GetGroupByNameSimple: just the group's sAMAccountName pair. */
  function GetGroupByNameSimple(directory: EntryDirectory, ldapPath: string, groupName: string, username: string, password: string): (r: TextLookup)
    ensures r.errorMessage == None <==> directory(WithLdapScheme(ldapPath), groupName, username, password).EntryFound?
    ensures r.errorMessage != None ==> r.result == ""
    ensures directory(WithLdapScheme(ldapPath), groupName, username, password).EntrySearchThrew? ==>
      r.errorMessage == Some(directory(WithLdapScheme(ldapPath), groupName, username, password).message)
    ensures directory(WithLdapScheme(ldapPath), groupName, username, password) == NoSuchEntry ==>
      r.errorMessage == Some("Group '" + groupName + "' not found.")
    ensures r.errorMessage == None ==> r.result == "sAMAccountName=" + GetProperty(directory(WithLdapScheme(ldapPath), groupName, username, password).properties, "sAMAccountName")
  {
    match directory(WithLdapScheme(ldapPath), groupName, username, password)
    case EntrySearchThrew(m) => TextLookup("", Some(m))
    case NoSuchEntry => TextLookup("", Some("Group '" + groupName + "' not found."))
    case EntryFound(props) => TextLookup("sAMAccountName=" + GetProperty(props, "sAMAccountName"), None)
  }
}

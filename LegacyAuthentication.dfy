/**
 * Authentication: the older snapshot of the engine. The bind check and the two ACL checks are
 * separate entry points; rows are the four-field `User`/`Group` rows of the older store.
 */
module LegacyAuthentication {
  import opened Wrappers
  import opened Strings
  import opened RowScan
  import opened LdapFunctions
  import opened LegacySetup
  import LdapSetup
  import LdapAuthentication

  /**
   * AuthenticateUser of this snapshot only binds, with the path exactly as given: success
   * leaves the message empty, a failure reports the bind's message.
   */
  function AuthenticateUser(bind: LdapAuthentication.Binder, ldapPath: string, username: string, password: string): (r: Answer)
    ensures r.ok <==> bind(ldapPath, username, password).Bound?
    ensures r.message.Some?
    ensures r.ok ==> r.message == Some("")
    ensures !r.ok ==> r.message == Some(bind(ldapPath, username, password).message)
  {
    match bind(ldapPath, username, password)
    case Bound => Answer(true, Some(""))
    case BindThrew(m) => Answer(false, Some(m))
  }

  /** IsUserRegistered of this snapshot: the first four-field `User` row of the user decides. */
  function IsUserRegistered(ini: Option<seq<string>>, userName: string, expected: string): (r: Answer)
    ensures ini.None? ==> r == Answer(false, Some(MissingFileMessage))
    ensures ini.Some? ==> (r.ok <==> && FindRow(LegacyFormat, ini.value, userName, UserTag).Some?
                                      && EqualsIgnoreCase(Permission(ini.value[FindRow(LegacyFormat, ini.value, userName, UserTag).value]), expected))
    ensures r.ok ==> r.message == None
    ensures ini.Some? && FindRow(LegacyFormat, ini.value, userName, UserTag).None? ==> r == Answer(false, Some(UserNotFoundMessage))
    ensures ini.Some? && FindRow(LegacyFormat, ini.value, userName, UserTag).Some? && !r.ok ==>
      r.message == Some(MismatchMessage(expected, Permission(ini.value[FindRow(LegacyFormat, ini.value, userName, UserTag).value])))
  {
    CheckUser(LegacyFormat, UserTag, ini, userName, expected)
  }

  /**
   * IsUserInRegisteredGroup of this snapshot, with the directory path supplied by the caller:
   * without groups it refuses with the lookup's message, or the default when there is none;
   * with groups it admits exactly when one of them has a granting `Group` row.
   */
  function IsUserInRegisteredGroup(ldapPath: string, ini: Option<seq<string>>, directory: UserDirectory, userName: string,
                                   username: string, password: string, perm: string): (r: Answer)
    ensures var lookup := GroupsForUser(directory, ldapPath, userName, username, password);
      && (lookup.groups == [] ==> !r.ok && r.message == (if IsNullOrEmpty(lookup.errorMessage) then Some(NoGroupsMessage) else lookup.errorMessage))
      && (lookup.groups != [] && ini.None? ==> r == Answer(false, Some(MissingFileMessage)))
      && (r.ok <==> lookup.groups != [] && ini.Some? && SomeGroupGrants(LegacyFormat, GroupTag, ini.value, lookup.groups, perm))
    ensures !r.ok ==> r.message.Some? && r.message.value != ""
    ensures var lookup := GroupsForUser(directory, ldapPath, userName, username, password);
      lookup.groups != [] && ini.Some? && !r.ok ==> r.message == Some(NoRegisteredGroupMessage(perm))
  {
    var lookup := GroupsForUser(directory, ldapPath, userName, username, password);
    CheckGroups(LegacyFormat, GroupTag, ini, lookup.groups, lookup.errorMessage, perm)
  }

  /**
   * An entry recorded with RecordLdapEntry on a store without a row for the user registers it
   * with the recorded permission, in any letter case.
   */
  lemma RecordThenRegistered(lines: seq<string>, name: string, perm: string, timestamp: string, asked: string)
    requires ',' !in name && ',' !in perm && ',' !in timestamp
    requires !StartsWith(name, "#") && name != "Name"
    requires FindRow(LegacyFormat, lines, name, UserTag).None?
    requires EqualsIgnoreCase(perm, asked)
    ensures IsUserRegistered(Some(lines + [EntryLine(name, UserTag, perm, timestamp)]), name, asked) == Answer(true, None)
  {
    var r := lines + [EntryLine(name, UserTag, perm, timestamp)];
    EntryIsRow(name, UserTag, perm, timestamp);
    forall j | 0 <= j < |lines|
      ensures !IsRow(LegacyFormat, r[j], name, UserTag)
    {
      assert r[j] == lines[j];
    }
    var f := FindRow(LegacyFormat, r, name, UserTag);
    assert f == Some(|lines|) by {
      assert r[|lines|] == EntryLine(name, UserTag, perm, timestamp);
      assert f.Some? && f.value <= |lines|;
    }
    assert Permission(r[|lines|]) == perm;
  }

  /**
   * The two snapshots do not read each other's rows: a `name,U,perm` row that LDAP_Setup saves
   * is never a row for the older scans, and a four-field `User` entry of the older store is
   * never a `U` row for the current engine.
   */
  lemma SnapshotsDisjoint(name: string, perm: string, timestamp: string, n: string)
    requires ',' !in name && ',' !in perm && ',' !in timestamp
    ensures !IsRow(LegacyFormat, RowLine([name, "U", perm]), n, UserTag)
    ensures !IsRow(LdapAuthentication.CurrentFormat, EntryLine(name, UserTag, perm, timestamp), n, "U")
  {
    ThreeFieldRowIgnored(name, "U", perm, n, UserTag);
    EntryShape(name, UserTag, perm, timestamp);
  }
}

/**
 * LDAP_Authentication: the decision engine. It reads the directory address from the store's
 * server line, binds with the caller's credentials, and admits the caller when a `U` row of
 * the user, or else a `G` row of one of the user's directory groups, grants the requested
 * permission.
 */
module LdapAuthentication {
  import opened Wrappers
  import opened Strings
  import opened RowScan
  import opened IniFiles
  import opened LdapFunctions
  import opened LdapSetup

  /** The engine skips comment lines and the server line; a row has at least three fields. */
  const CurrentFormat := RowFormat(["#", ServerPrefix], false, 3)

  const ServerIpsPrefix := "Server: IPs="
  const IpsAssign := "IPs="
  const IpNotFoundMessage := "LDAP IP not found in INI file header."
  const NoPermissionMessage := "User does not have the required permission type."

  /** The address a header line names: its first comma chunk after "Server: IPs=", trimmed. */
  function HeaderIps(line: string): string
    requires StartsWith(line, ServerIpsPrefix)
  {
    FirstFieldKeepsPrefix(line, ServerIpsPrefix);
    Trim(Fields(line)[0][|ServerIpsPrefix|..])
  }

  /**
   * One step of GetLdapPathFromIni's loop: a line starting with "Server: IPs=" yields the
   * trimmed text after "IPs=" in its first comma chunk; `None` lets the loop go on.
   */
  function LinePath(line: string): Option<string>
  {
    if !StartsWith(line, ServerIpsPrefix) then None
    else
      var ipPart := Fields(line)[0];
      match IndexOf(ipPart, IpsAssign)
      case Some(e) => Some(Trim(ipPart[e + 4..]))
      case None => None
  }

  /**
   * The `IPEq >= 0` test always passes: "IPs=" is found at index 8 of every chunk that starts
   * with "Server: IPs=", so a line yields an address exactly when it starts with that prefix.
   */
  lemma LinePathDecided(line: string)
    ensures LinePath(line).Some? <==> StartsWith(line, ServerIpsPrefix)
    ensures LinePath(line).Some? ==> LinePath(line).value == HeaderIps(line)
  {
    if StartsWith(line, ServerIpsPrefix) {
      FirstFieldKeepsPrefix(line, ServerIpsPrefix);
      var f0 := Fields(line)[0];
      assert f0[..12] == ServerIpsPrefix;
      assert f0[8..12] == f0[..12][8..12] == IpsAssign;
      assert OccursAt(f0, IpsAssign, 8, Ordinal);
      forall j: nat | j < 8
        ensures !OccursAt(f0, IpsAssign, j, Ordinal)
      {
        assert f0[j] == f0[..12][j] != 'I';
        if j + 4 <= |f0| {
          assert f0[j..j + 4][0] == f0[j];
        }
      }
      assert IndexOf(f0, IpsAssign) == Some(8);
    }
  }

  /** GetLdapPathFromIni's loop: the address of the first line that yields one. */
  function ServerPath(lines: seq<string>): (r: Option<string>)
    ensures FirstLineWith(lines, ServerIpsPrefix).None? ==> r.None?
    ensures FirstLineWith(lines, ServerIpsPrefix).Some? ==> r == Some(HeaderIps(lines[FirstLineWith(lines, ServerIpsPrefix).value]))
  {
    if lines == [] then None
    else
      LinePathDecided(lines[0]);
      match LinePath(lines[0])
      case Some(p) => Some(p)
      case None => ServerPath(lines[1..])
  }

  /**
   * GetLdapPathFromIni: the missing store and the store without a "Server: IPs=" line are
   * errors carrying the messages of the exceptions the source throws; otherwise the address
   * comes from the first such line.
   */
  function GetLdapPathFromIni(ini: Option<seq<string>>): (r: Result<string, string>)
    ensures ini.None? ==> r == Err(MissingFileMessage)
    ensures ini.Some? ==> (r.Ok? <==> exists k :: 0 <= k < |ini.value| && StartsWith(ini.value[k], ServerIpsPrefix))
    ensures ini.Some? && r.Err? ==> r.error == IpNotFoundMessage
    ensures r.Ok? ==> && ini.Some? && FirstLineWith(ini.value, ServerIpsPrefix).Some?
                      && r.value == HeaderIps(ini.value[FirstLineWith(ini.value, ServerIpsPrefix).value])
  {
    if ini.None? then Err(MissingFileMessage)
    else
      match ServerPath(ini.value)
      case Some(p) => Ok(p)
      case None => Err(IpNotFoundMessage)
  }

  /** IsUserRegistered: the first `U` row of the user decides (see RowScan.CheckUser). */
  function IsUserRegistered(ini: Option<seq<string>>, userName: string, expected: string): (r: Answer)
    ensures ini.None? ==> r == Answer(false, Some(MissingFileMessage))
    ensures ini.Some? ==> (r.ok <==> && FindRow(CurrentFormat, ini.value, userName, "U").Some?
                                      && EqualsIgnoreCase(Permission(ini.value[FindRow(CurrentFormat, ini.value, userName, "U").value]), expected))
    ensures r.ok ==> r.message == None
    ensures ini.Some? && FindRow(CurrentFormat, ini.value, userName, "U").None? ==> r == Answer(false, Some(UserNotFoundMessage))
    ensures ini.Some? && FindRow(CurrentFormat, ini.value, userName, "U").Some? && !r.ok ==>
      r.message == Some(MismatchMessage(expected, Permission(ini.value[FindRow(CurrentFormat, ini.value, userName, "U").value])))
  {
    CheckUser(CurrentFormat, "U", ini, userName, expected)
  }

  /**
   * IsUserInRegisteredGroup: read the address, ask the directory for the user's groups, and
   * admit when a `G` row of one of them grants the permission; a failure to read the address
   * is reported with its message.
   */
  function IsUserInRegisteredGroup(ini: Option<seq<string>>, directory: UserDirectory, userName: string,
                                   username: string, password: string, perm: string): (r: Answer)
    ensures GetLdapPathFromIni(ini).Err? ==> r == Answer(false, Some(GetLdapPathFromIni(ini).error))
    ensures r.ok <==> && GetLdapPathFromIni(ini).Ok?
                      && SomeGroupGrants(CurrentFormat, "G", ini.value,
                           GroupsForUser(directory, GetLdapPathFromIni(ini).value, userName, username, password).groups, perm)
    ensures !r.ok ==> r.message.Some? && r.message.value != ""
    ensures GetLdapPathFromIni(ini).Ok? ==>
      var lookup := GroupsForUser(directory, GetLdapPathFromIni(ini).value, userName, username, password);
      && (lookup.groups == [] ==> r.message == (if IsNullOrEmpty(lookup.errorMessage) then Some(NoGroupsMessage) else lookup.errorMessage))
      && (lookup.groups != [] && !r.ok ==> r.message == Some(NoRegisteredGroupMessage(perm)))
  {
    match GetLdapPathFromIni(ini)
    case Err(m) => Answer(false, Some(m))
    case Ok(path) =>
      var lookup := GroupsForUser(directory, path, userName, username, password);
      CheckGroups(CurrentFormat, "G", ini, lookup.groups, lookup.errorMessage, perm)
  }

  /** What binding to the directory with a path and credentials did. */
  datatype BindOutcome = Bound | BindThrew(message: string)

  /** The directory bind (`new DirectoryEntry(path, user, password).NativeObject`). */
  type Binder = (string, string, string) -> BindOutcome

  /**
   * The decision AuthenticateUser reaches: a failure to read the address or to bind ends it
   * with that message; then the user's own row, and only if that does not admit, the groups.
   */
  function Authorization(ini: Option<seq<string>>, bind: Binder, directory: UserDirectory,
                         username: string, password: string, perm: string): (r: Answer)
    ensures GetLdapPathFromIni(ini).Err? ==> r == Answer(false, Some(GetLdapPathFromIni(ini).error))
    ensures GetLdapPathFromIni(ini).Ok? && bind(WithLdapScheme(GetLdapPathFromIni(ini).value), username, password).BindThrew? ==>
      r == Answer(false, Some(bind(WithLdapScheme(GetLdapPathFromIni(ini).value), username, password).message))
    ensures r.ok <==> && GetLdapPathFromIni(ini).Ok?
                      && bind(WithLdapScheme(GetLdapPathFromIni(ini).value), username, password) == Bound
                      && (IsUserRegistered(ini, username, perm).ok
                          || IsUserInRegisteredGroup(ini, directory, username, username, password, perm).ok)
    ensures IsUserRegistered(ini, username, perm).ok && r.ok ==> r.message == None
    ensures !r.ok && GetLdapPathFromIni(ini).Ok? ==> r.message.Some?
    ensures && GetLdapPathFromIni(ini).Ok?
            && bind(WithLdapScheme(GetLdapPathFromIni(ini).value), username, password) == Bound
            && !r.ok
            ==> r.message == IsUserInRegisteredGroup(ini, directory, username, username, password, perm).message
  {
    match GetLdapPathFromIni(ini)
    case Err(m) => Answer(false, Some(m))
    case Ok(path) =>
      match bind(WithLdapScheme(path), username, password)
      case BindThrew(m) => Answer(false, Some(m))
      case Bound =>
        var user := IsUserRegistered(ini, username, perm);
        if user.ok then user
        else
          var group := IsUserInRegisteredGroup(ini, directory, username, username, password, perm);
          if group.ok then group
          else Answer(false, if IsNullOrEmpty(group.message) then Some(NoPermissionMessage) else group.message)
  }

  /**
   * AuthenticateUser as the source runs it: each step overwrites `errorMessage`, and the
   * default text is put in only when the group step left it empty.
   */
  method AuthenticateUser(file: IniFile, bind: Binder, directory: UserDirectory, username: string, password: string, perm: string)
    returns (ok: bool, errorMessage: Option<string>)
    ensures Answer(ok, errorMessage) == Authorization(file.Contents(), bind, directory, username, password, perm)
  {
    errorMessage := Some("");
    var ini := file.Contents();
    var path := GetLdapPathFromIni(ini);
    if path.Err? {
      return false, Some(path.error);
    }
    var ldapPath := WithLdapScheme(path.value);
    var bound := bind(ldapPath, username, password);
    if bound.BindThrew? {
      return false, Some(bound.message);
    }
    var user := IsUserRegistered(ini, username, perm);
    errorMessage := user.message;
    if user.ok {
      return true, errorMessage;
    }
    var group := IsUserInRegisteredGroup(ini, directory, username, username, password, perm);
    errorMessage := group.message;
    if group.ok {
      return true, errorMessage;
    }
    if IsNullOrEmpty(errorMessage) {
      errorMessage := Some(NoPermissionMessage);
    }
    return false, errorMessage;
  }

  /** The first comma chunk of the text after "IPs=" ends where the address list's first chunk ends. */
  lemma FirstChunkOfIps(ips: string, hostName: string)
    ensures Split(ips + ", HostName=" + hostName, ',')[0] == Split(ips, ',')[0]
  {
    var tail := ", HostName=" + hostName;
    assert ips + ", HostName=" + hostName == ips + tail;
    if ',' in ips {
      SplitHeadOfPrefix(ips, tail, ',');
    } else {
      assert ips + tail == ips + [','] + (" HostName=" + hostName);
      SplitHeadOfConcat(ips, " HostName=" + hostName, ',');
      SplitOfPlain(ips, ',');
    }
  }

  /** The header line of a store names its server's first recorded address. */
  lemma ServerLineHeaderIps(d: ServerDetails)
    ensures StartsWith(ServerLine(d), ServerIpsPrefix)
    ensures HeaderIps(ServerLine(d)) == Trim(Split(d.ips, ',')[0])
  {
    var rest := d.ips + ", HostName=" + d.hostName;
    var line := ServerLine(d);
    assert line == ServerIpsPrefix + rest;
    assert line[..12] == ServerIpsPrefix;
    SplitHeadAfter(ServerIpsPrefix, rest, ',');
    FirstChunkOfIps(d.ips, d.hostName);
    assert Fields(line)[0] == ServerIpsPrefix + Split(d.ips, ',')[0];
    assert Fields(line)[0][12..] == Split(d.ips, ',')[0];
  }

  /** A store created by RecordLdapServerDetailsSimple points the engine at the first recorded address. */
  lemma NewStorePath(d: ServerDetails)
    ensures GetLdapPathFromIni(Some(Banner(ServerLine(d)))) == Ok(Trim(Split(d.ips, ',')[0]))
  {
    var b := Banner(ServerLine(d));
    ServerLineHeaderIps(d);
    BannerLineKinds(ServerLine(d));
    forall j | 0 <= j < 5
      ensures !StartsWith(b[j], ServerIpsPrefix)
    {
      if |b[j]| >= 12 {
        assert b[j][..12][0] == b[j][0] == '#';
      }
    }
    assert FirstLineWith(b, ServerIpsPrefix) == Some(5);
  }

  /** A store whose server line was just rewritten points the engine at the new first address. */
  lemma EditedStorePath(lines: seq<string>, d: ServerDetails)
    requires ServerLineEdit(lines, ServerLine(d)).Some?
    ensures GetLdapPathFromIni(Some(ServerLineEdit(lines, ServerLine(d)).value)) == Ok(Trim(Split(d.ips, ',')[0]))
  {
    var nl := ServerLine(d);
    var k := FirstLineWith(lines, ServerPrefix).value;
    var edited := lines[k := nl];
    ServerLineHeaderIps(d);
    forall j | 0 <= j < k
      ensures !StartsWith(edited[j], ServerIpsPrefix)
    {
      assert edited[j] == lines[j];
      assert !StartsWith(lines[j], ServerPrefix);
      if |lines[j]| >= 12 {
        assert lines[j][..12][..7] == lines[j][..7];
      }
    }
    assert edited[k] == nl;
    assert FirstLineWith(edited, ServerIpsPrefix) == Some(k) by {
      var f := FirstLineWith(edited, ServerIpsPrefix);
      assert f.Some? && f.value <= k;
    }
  }

  /** The engine passes over exactly the lines that start with "#" or "Server:". */
  lemma CurrentSkips(line: string)
    ensures SkipsLine(CurrentFormat, line) <==> StartsWith(line, "#") || StartsWith(line, ServerPrefix)
  {
    var ps := CurrentFormat.skipPrefixes;
    assert ps[1..] == [ServerPrefix];
    assert StartsWithAny(line, ps[1..]) <==> StartsWith(line, ServerPrefix) by {
      assert ps[1..][1..] == [];
    }
  }

  /** A row of the engine's format is a row of SaveLdapPermission's format, for names that neither scan skips. */
  lemma FormatsAgree(line: string, name: string, tag: string)
    requires ',' !in name
    requires !StartsWith(name, "#") && !StartsWith(name, ServerPrefix)
    ensures IsRow(UpsertFormat, line, name, tag) <==> IsRow(CurrentFormat, line, name, tag)
  {
    CurrentSkips(line);
    UpsertSkips(line);
    if |Fields(line)| >= 3 && Fields(line)[0] == name {
      RowLineShape(line);
      var rest := Join(Fields(line)[1..], ',');
      CommaFreePrefixOfRow(name, rest, "#");
      CommaFreePrefixOfRow(name, rest, ServerPrefix);
      assert line[|name|] == ',';
      CommaLineNotBlank(line);
    }
  }

  /**
   * After SaveLdapPermission(n, "U", p) the engine admits n for p, for names the engine does
   * not skip and a comma-free name and permission.
   */
  lemma UpsertThenLookup(lines: seq<string>, name: string, perm: string)
    requires ',' !in name && ',' !in perm
    requires !StartsWith(name, "#") && !StartsWith(name, ServerPrefix)
    ensures IsUserRegistered(Some(Upserted(lines, name, "U", perm)), name, perm) == Answer(true, None)
  {
    var r := Upserted(lines, name, "U", perm);
    UpsertedRow(lines, name, "U", perm);
    forall j | 0 <= j < |r|
      ensures IsRow(UpsertFormat, r[j], name, "U") <==> IsRow(CurrentFormat, r[j], name, "U")
    {
      FormatsAgree(r[j], name, "U");
    }
    FindRowAgrees(UpsertFormat, CurrentFormat, r, name, "U");
  }

  /**
   * A line that ClearLdapPermissions keeps is never an engine row of a name that does not
   * start with white space.
   */
  lemma RowNotKept(line: string, name: string, tag: string)
    requires name == [] || name[0] !in WhiteSpace
    ensures IsRow(CurrentFormat, line, name, tag) ==> !KeptByClear(line)
  {
    if IsRow(CurrentFormat, line, name, tag) {
      CurrentSkips(line);
      RowLineShape(line);
      assert line[|name|] == ',';
      assert line[0] !in WhiteSpace;
      CommaLineNotBlank(line);
      var t := Trim(line);
      TrimCharsIsPrefix(line, WhiteSpace);
      if StartsWith(t, "#") {
        StartsWithOfPrefix(line, t, "#");
      }
      if StartsWith(t, ServerPrefix) {
        StartsWithOfPrefix(line, t, ServerPrefix);
      }
    }
  }

  /** After ClearLdapPermissions the engine finds no row of a name that does not start with white space. */
  lemma ClearThenNoRows(lines: seq<string>, name: string, tag: string)
    requires name == [] || name[0] !in WhiteSpace
    ensures FindRow(CurrentFormat, Cleared(lines), name, tag).None?
  {
    var c := Cleared(lines);
    forall j | 0 <= j < |c|
      ensures !IsRow(CurrentFormat, c[j], name, tag)
    {
      RowNotKept(c[j], name, tag);
    }
  }

  /** So a cleared store refuses every user, and every group of such names, whatever the permission. */
  lemma ClearThenDenied(lines: seq<string>, name: string, perm: string, groups: seq<string>)
    requires name == [] || name[0] !in WhiteSpace
    requires forall g :: 0 <= g < |groups| ==> groups[g] == [] || groups[g][0] !in WhiteSpace
    ensures IsUserRegistered(Some(Cleared(lines)), name, perm) == Answer(false, Some(UserNotFoundMessage))
    ensures !SomeGroupGrants(CurrentFormat, "G", Cleared(lines), groups, perm)
  {
    ClearThenNoRows(lines, name, "U");
    var c := Cleared(lines);
    forall g, j | 0 <= g < |groups| && 0 <= j < |c|
      ensures !Grants(CurrentFormat, c[j], groups[g], "G", perm)
    {
      RowNotKept(c[j], groups[g], "G");
    }
  }
}

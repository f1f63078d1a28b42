/**
 * Setup: the older snapshot of the ACL store. Rows are `name,User|Group,permission,timestamp`;
 * comment lines start with "#" or "Name,"; entries are only ever appended, a permission is
 * only ever changed in place, and the server header is written once, when the store is made.
 */
module LegacySetup {
  import opened Wrappers
  import opened Strings
  import opened RowScan
  import opened IniFiles
  import opened LdapFunctions
  import opened LdapSetup

  const LegacyHeaderPrefix := "Name,"

  /** The older scans skip "#" and "Name," lines and need four fields. */
  const LegacyFormat := RowFormat(["#", LegacyHeaderPrefix], false, 4)

  const UserTag := "User"
  const GroupTag := "Group"

  /** The permission the two Record...DetailsSimple helpers always store. */
  const DefaultPermission := "O"

  /** The header line of this snapshot, whose second key is spelt "HostMame". */
  function LegacyServerLine(d: ServerDetails): string {
    "Server: IPs=" + d.ips + ", HostMame=" + d.hostName
  }

  /**
   * RecordLdapServerDetailsSimple of this snapshot: a failed ping reports its text; otherwise
   * the banner is written when the store is missing, and an existing store is never touched.
   * The `username` argument of the source is not used by it.
   */
  method LegacyRecordServer(file: IniFile, ping: PingReply) returns (ok: bool, errorMessage: Option<string>)
    modifies file
    ensures ok == ping.success
    ensures !ping.success ==> errorMessage == Some(PingFailedPrefix + ping.info) && unchanged(file)
    ensures ping.success && old(file.present) ==> errorMessage == None && unchanged(file)
    ensures ping.success && !old(file.present) ==>
      && errorMessage == None && file.present
      && file.lines == Banner(LegacyServerLine(ParsePingInfo(ping.info)))
      && file.writes == old(file.writes) + 1
  {
    if !ping.success {
      return false, Some(PingFailedPrefix + ping.info);
    }
    var d := ParsePingInfo(ping.info);
    if !file.present {
      file.WriteAllLines(Banner(LegacyServerLine(d)));
    }
    return true, None;
  }

  /**
   * The typo is visible to the current snapshot: recording the same server with
   * LDAP_Setup over a store this snapshot created rewrites the header line.
   */
  lemma LegacyHeaderRewritten(d: ServerDetails)
    ensures ServerLineEdit(Banner(LegacyServerLine(d)), ServerLine(d)) == Some(Banner(ServerLine(d)))
  {
    var line := LegacyServerLine(d);
    assert line[..7] == ServerPrefix;
    BannerServerLineFirst(line);
    LegacyLineNotCurrent(d);
    assert Banner(line)[5 := ServerLine(d)] == Banner(ServerLine(d));
  }

  /** Trimming the older header line never yields the current one: they differ at "HostMame". */
  lemma LegacyLineNotCurrent(d: ServerDetails)
    ensures Trim(LegacyServerLine(d)) != ServerLine(d)
  {
    var line := LegacyServerLine(d);
    var n := 12 + |d.ips| + 6;
    assert ServerLine(d)[n] == 'N' by {
      assert ServerLine(d) == ("Server: IPs=" + d.ips + ", Host") + "Name=" + d.hostName;
    }
    assert line[n] == 'M' && line[0] == 'S' by {
      assert line == ("Server: IPs=" + d.ips + ", Host") + "Mame=" + d.hostName;
    }
    TrimKeepsChar(line, n, WhiteSpace);
  }

  /** The line RecordLdapEntry appends. */
  function EntryLine(name: string, type_: string, perm: string, timestamp: string): string {
    RowLine([name, type_, perm, timestamp])
  }

  lemma JoinFour(a: string, b: string, c: string, d: string)
    ensures RowLine([a, b, c, d]) == a + "," + b + "," + c + "," + d
  {
    assert [a, b, c, d][1..] == [b, c, d];
    assert [b, c, d][1..] == [c, d];
    assert [c, d][1..] == [d];
    assert Join([c, d], ',') == c + [','] + d;
    assert Join([b, c, d], ',') == b + [','] + (c + [','] + d);
    assert Join([a, b, c, d], ',') == a + [','] + (b + [','] + (c + [','] + d));
  }

  /**
   * RecordLdapEntry: one `name,type,permission,timestamp` line is appended, creating the store
   * if needed. The clock is the `timestamp` argument.
   */
  method RecordLdapEntry(file: IniFile, name: string, type_: string, perm: string, timestamp: string)
    returns (ok: bool, errorMessage: Option<string>)
    modifies file
    ensures ok && errorMessage == None && file.present
    ensures file.lines == old(if file.present then file.lines else []) + [EntryLine(name, type_, perm, timestamp)]
    ensures file.writes == old(file.writes) + 1
  {
    var entry := name + "," + type_ + "," + perm + "," + timestamp;
    JoinFour(name, type_, perm, timestamp);
    file.AppendLine(entry);
    return true, None;
  }

  /** RecordLdapUserDetailsSimple: a `User` entry with permission "O"; display name and e-mail are ignored. */
  method RecordLdapUserDetailsSimple(file: IniFile, userName: string, displayName: string, email: string, timestamp: string)
    returns (ok: bool, errorMessage: Option<string>)
    modifies file
    ensures ok && errorMessage == None && file.present
    ensures file.lines == old(if file.present then file.lines else []) + [EntryLine(userName, UserTag, DefaultPermission, timestamp)]
    ensures file.writes == old(file.writes) + 1
  {
    ok, errorMessage := RecordLdapEntry(file, userName, UserTag, DefaultPermission, timestamp);
  }

  /** RecordLdapGroupDetailsSimple: a `Group` entry with permission "O"; the description is ignored. */
  method RecordLdapGroupDetailsSimple(file: IniFile, groupName: string, description: string, timestamp: string)
    returns (ok: bool, errorMessage: Option<string>)
    modifies file
    ensures ok && errorMessage == None && file.present
    ensures file.lines == old(if file.present then file.lines else []) + [EntryLine(groupName, GroupTag, DefaultPermission, timestamp)]
    ensures file.writes == old(file.writes) + 1
  {
    ok, errorMessage := RecordLdapEntry(file, groupName, GroupTag, DefaultPermission, timestamp);
  }

  function NotFoundMessage(type_: string, name: string): string {
    type_ + " '" + name + "' not found in INI file."
  }

  /**
   * The lines MarkPermission writes: the first row of (name, type) with its permission field
   * replaced, or `None` when there is no such row and nothing is written.
   */
  function Marked(lines: seq<string>, name: string, type_: string, perm: string): Option<seq<string>>
  {
    match FindRow(LegacyFormat, lines, name, type_)
    case Some(k) => Some(lines[k := WithPermission(lines[k], perm)])
    case None => None
  }

  /** The older scans pass over exactly the lines that start with "#" or "Name,". */
  lemma LegacySkips(line: string)
    ensures SkipsLine(LegacyFormat, line) <==> StartsWith(line, "#") || StartsWith(line, LegacyHeaderPrefix)
  {
    var ps := LegacyFormat.skipPrefixes;
    assert ps[1..] == [LegacyHeaderPrefix];
    assert StartsWithAny(line, ps[1..]) <==> StartsWith(line, LegacyHeaderPrefix) by {
      assert ps[1..][1..] == [];
    }
  }

  /**
   * MarkPermission as the source runs it: walk a copy of the lines, rewrite the first matching
   * row and stop; write back only when a row was found.
   */
  method MarkPermission(file: IniFile, name: string, type_: string, perm: string) returns (ok: bool, errorMessage: Option<string>)
    modifies file
    ensures ok <==> old(file.present) && Marked(old(file.lines), name, type_, perm).Some?
    ensures !old(file.present) ==> errorMessage == Some(MissingFileMessage) && unchanged(file)
    ensures old(file.present) && !ok ==> errorMessage == Some(NotFoundMessage(type_, name)) && unchanged(file)
    ensures ok ==> && errorMessage == None && file.present
                   && file.lines == Marked(old(file.lines), name, type_, perm).value
                   && file.writes == old(file.writes) + 1
  {
    if !file.present {
      return false, Some(MissingFileMessage);
    }
    var lines := file.lines;
    var found := false;
    var i := 0;
    while i < |lines|
      invariant 0 <= i <= |lines|
      invariant !found && lines == file.lines && unchanged(file)
      invariant forall j :: 0 <= j < i ==> !IsRow(LegacyFormat, lines[j], name, type_)
    {
      var line := lines[i];
      LegacySkips(line);
      if !(StartsWith(line, "#") || StartsWith(line, LegacyHeaderPrefix)) {
        var parts := Split(line, ',');
        if |parts| >= 4 && parts[0] == name && parts[1] == type_ {
          assert FindRow(LegacyFormat, lines, name, type_) == Some(i);
          parts := parts[2 := perm];
          lines := lines[i := RowLine(parts)];
          found := true;
          break;
        }
      }
      i := i + 1;
    }
    if !found {
      assert FindRow(LegacyFormat, lines, name, type_) == None;
      return false, Some(NotFoundMessage(type_, name));
    }
    file.WriteAllLines(lines);
    return true, None;
  }

  method MarkUserPermission(file: IniFile, userName: string, perm: string) returns (ok: bool, errorMessage: Option<string>)
    modifies file
    ensures ok <==> old(file.present) && Marked(old(file.lines), userName, UserTag, perm).Some?
    ensures !old(file.present) ==> errorMessage == Some(MissingFileMessage) && unchanged(file)
    ensures old(file.present) && !ok ==> errorMessage == Some(NotFoundMessage(UserTag, userName)) && unchanged(file)
    ensures ok ==> && errorMessage == None && file.present
                   && file.lines == Marked(old(file.lines), userName, UserTag, perm).value
                   && file.writes == old(file.writes) + 1
  {
    ok, errorMessage := MarkPermission(file, userName, UserTag, perm);
  }

  method MarkGroupPermission(file: IniFile, groupName: string, perm: string) returns (ok: bool, errorMessage: Option<string>)
    modifies file
    ensures ok <==> old(file.present) && Marked(old(file.lines), groupName, GroupTag, perm).Some?
    ensures !old(file.present) ==> errorMessage == Some(MissingFileMessage) && unchanged(file)
    ensures old(file.present) && !ok ==> errorMessage == Some(NotFoundMessage(GroupTag, groupName)) && unchanged(file)
    ensures ok ==> && errorMessage == None && file.present
                   && file.lines == Marked(old(file.lines), groupName, GroupTag, perm).value
                   && file.writes == old(file.writes) + 1
  {
    ok, errorMessage := MarkPermission(file, groupName, GroupTag, perm);
  }

  /** Only the first row of the principal changes, and only in its permission field; nothing is ever appended. */
  lemma MarkShape(lines: seq<string>, name: string, type_: string, perm: string)
    requires ',' !in perm
    ensures var r := Marked(lines, name, type_, perm);
      && (r.Some? <==> exists j :: 0 <= j < |lines| && IsRow(LegacyFormat, lines[j], name, type_))
      && (r.Some? ==> && |r.value| == |lines|
                      && var k := FindRow(LegacyFormat, lines, name, type_).value;
                         && Fields(r.value[k]) == Fields(lines[k])[2 := perm]
                         && IsRow(LegacyFormat, r.value[k], name, type_)
                         && forall j :: 0 <= j < |lines| && j != k ==> r.value[j] == lines[j])
  {
    match FindRow(LegacyFormat, lines, name, type_)
    case Some(k) =>
      LegacyPrefixes();
      WithPermissionKeepsRow(LegacyFormat, lines[k], name, type_, perm);
    case None =>
  }

  /** "#" and "Name," can only be matched inside a line's first field. */
  lemma LegacyPrefixes()
    ensures FieldPrefixes(LegacyFormat.skipPrefixes)
  {
    assert FieldPrefix(LegacyHeaderPrefix) by {
      assert LegacyHeaderPrefix[..4] == "Name";
    }
  }

  /** Marking with the same permission a second time leaves the store as after the first. */
  lemma MarkIdempotent(lines: seq<string>, name: string, type_: string, perm: string)
    requires ',' !in perm
    requires Marked(lines, name, type_, perm).Some?
    ensures Marked(Marked(lines, name, type_, perm).value, name, type_, perm) == Marked(lines, name, type_, perm)
  {
    var k := FindRow(LegacyFormat, lines, name, type_).value;
    var edited := WithPermission(lines[k], perm);
    LegacyPrefixes();
    WithPermissionKeepsRow(LegacyFormat, lines[k], name, type_, perm);
    FindRowAfterRewrite(LegacyFormat, lines, k, name, type_, edited);
    var m := lines[k := edited];
    assert m[k] == edited;
    assert Fields(edited)[2 := perm] == Fields(edited);
    assert WithPermission(edited, perm) == edited;
    assert m[k := edited] == m;
  }

  /** A comma-free name other than "Name" never makes its row a "Name," header line. */
  lemma NotHeaderRow(name: string, rest: string)
    requires ',' !in name && name != "Name"
    ensures !StartsWith(name + [','] + rest, LegacyHeaderPrefix)
  {
    var line := name + [','] + rest;
    if |line| >= 5 {
      var w := line[..5];
      if |name| < 4 {
        assert w[|name|] == ',' && LegacyHeaderPrefix[|name|] != ',';
      } else if |name| == 4 {
        assert w[..4] == name && LegacyHeaderPrefix[..4] == "Name";
      } else {
        assert w[4] == name[4] != ',' && LegacyHeaderPrefix[4] == ',';
      }
    }
  }

  /** An entry line is its name, a ',' and the other three fields, and splits back into the four. */
  lemma EntryShape(name: string, type_: string, perm: string, timestamp: string)
    requires ',' !in name && ',' !in type_ && ',' !in perm && ',' !in timestamp
    ensures Fields(EntryLine(name, type_, perm, timestamp)) == [name, type_, perm, timestamp]
    ensures EntryLine(name, type_, perm, timestamp) == name + [','] + (type_ + "," + perm + "," + timestamp)
  {
    EntryFields(name, type_, perm, timestamp);
    JoinFour(name, type_, perm, timestamp);
    assert name + "," + type_ + "," + perm + "," + timestamp == name + [','] + (type_ + "," + perm + "," + timestamp);
  }

  lemma EntryFields(name: string, type_: string, perm: string, timestamp: string)
    requires ',' !in name && ',' !in type_ && ',' !in perm && ',' !in timestamp
    ensures Fields(EntryLine(name, type_, perm, timestamp)) == [name, type_, perm, timestamp]
  {
    var f := [name, type_, perm, timestamp];
    assert forall k :: 0 <= k < |f| ==> ',' !in f[k];
    SplitOfJoin(f, ',');
  }

  /** The entry RecordLdapEntry appends is a row of its principal, for the older scans. */
  lemma EntryIsRow(name: string, type_: string, perm: string, timestamp: string)
    requires ',' !in name && ',' !in type_ && ',' !in perm && ',' !in timestamp
    requires !StartsWith(name, "#") && name != "Name"
    ensures Fields(EntryLine(name, type_, perm, timestamp)) == [name, type_, perm, timestamp]
    ensures IsRow(LegacyFormat, EntryLine(name, type_, perm, timestamp), name, type_)
  {
    var line := EntryLine(name, type_, perm, timestamp);
    EntryShape(name, type_, perm, timestamp);
    var rest := type_ + "," + perm + "," + timestamp;
    CommaFreePrefixOfRow(name, rest, "#");
    NotHeaderRow(name, rest);
    LegacySkips(line);
  }

  /**
   * After RecordLdapEntry, MarkPermission finds a row for the same principal, whatever the
   * store held before.
   */
  lemma RecordThenMark(lines: seq<string>, name: string, type_: string, perm0: string, timestamp: string, perm: string)
    requires ',' !in name && ',' !in type_ && ',' !in perm0 && ',' !in timestamp
    requires !StartsWith(name, "#") && name != "Name"
    ensures Marked(lines + [EntryLine(name, type_, perm0, timestamp)], name, type_, perm).Some?
  {
    var r := lines + [EntryLine(name, type_, perm0, timestamp)];
    EntryIsRow(name, type_, perm0, timestamp);
    assert IsRow(LegacyFormat, r[|lines|], name, type_);
  }

  /** A three-field row, as LDAP_Setup writes them, is never a row for the older scans. */
  lemma ThreeFieldRowIgnored(name: string, type_: string, perm: string, n: string, t: string)
    requires ',' !in name && ',' !in type_ && ',' !in perm
    ensures !IsRow(LegacyFormat, RowLine([name, type_, perm]), n, t)
  {
    SplitOfJoin([name, type_, perm], ',');
  }
}

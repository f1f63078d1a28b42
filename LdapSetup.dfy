/**
 * LDAP_Setup: the ACL store LDAP.ini. A new store is the fixed banner with one
 * `Server: IPs=..., HostName=...` line; SaveLdapPermission edits or appends
 * `name,type,permission` rows; ClearLdapPermissions keeps only comments, blank lines and
 * the server line.
 */
module LdapSetup {
  import opened Wrappers
  import opened Strings
  import opened RowScan
  import opened IniFiles
  import opened LdapFunctions

  const NotAvailable := "N/A"
  const IpsKey := "IPs:"
  const HostNameKey := "HostName:"
  const ServerPrefix := "Server:"

  /** The characters `Trim(' ', ',')` strips from the address list. */
  const IpTrimChars: set<char> := {' ', ','}

  /** What the server line records about the host. */
  datatype ServerDetails = ServerDetails(ips: string, hostName: string)

  /** "IPs:" occurs and the first "HostName:" comes after the first "IPs:". */
  predicate PingInfoParses(pingInfo: string) {
    && IndexOf(pingInfo, IpsKey).Some?
    && IndexOf(pingInfo, HostNameKey).Some?
    && IndexOf(pingInfo, HostNameKey).value > IndexOf(pingInfo, IpsKey).value
  }

  /**
   * The pingInfo parse of RecordLdapServerDetailsSimple: the text between "IPs:" and
   * "HostName:" stripped of spaces and commas, and the rest after "HostName:" stripped of
   * white space; "N/A" for both when the two keys are not found in that order.
   */
  function ParsePingInfo(pingInfo: string): (r: ServerDetails)
    ensures !PingInfoParses(pingInfo) ==> r == ServerDetails(NotAvailable, NotAvailable)
    ensures PingInfoParses(pingInfo) ==> Trimmed(r.ips, IpTrimChars) && Trimmed(r.hostName, WhiteSpace)
  {
    var ipIndex := IndexOf(pingInfo, IpsKey);
    var hostIndex := IndexOf(pingInfo, HostNameKey);
    if ipIndex.Some? && hostIndex.Some? && hostIndex.value > ipIndex.value then
      var i, h := ipIndex.value, hostIndex.value;
      KeysApart(pingInfo, i, h);
      ServerDetails(TrimChars(pingInfo[i + 4..h], IpTrimChars), Trim(pingInfo[h + 9..]))
    else
      ServerDetails(NotAvailable, NotAvailable)
  }

  /**
   * What the parse keeps: the addresses are the text between "IPs:" and "HostName:" with only
   * spaces and commas removed around them, and the host name is the text after "HostName:"
   * with only white space removed around it.
   */
  lemma ParsePingInfoWindows(pingInfo: string)
    requires PingInfoParses(pingInfo)
    ensures var i, h := IndexOf(pingInfo, IpsKey).value, IndexOf(pingInfo, HostNameKey).value;
      && i + 4 <= h <= |pingInfo| - 9
      && PaddedBy(pingInfo[i + 4..h], ParsePingInfo(pingInfo).ips, IpTrimChars)
      && PaddedBy(pingInfo[h + 9..], ParsePingInfo(pingInfo).hostName, WhiteSpace)
  {
    var i, h := IndexOf(pingInfo, IpsKey).value, IndexOf(pingInfo, HostNameKey).value;
    KeysApart(pingInfo, i, h);
    ParsePingInfoAt(pingInfo, i, h);
    TrimCharsPadding(pingInfo[i + 4..h], IpTrimChars);
    TrimCharsPadding(pingInfo[h + 9..], WhiteSpace);
  }

  /** "HostName:" cannot start inside an occurrence of "IPs:". */
  lemma KeysApart(s: string, i: nat, h: nat)
    requires OccursAt(s, IpsKey, i, Ordinal) && OccursAt(s, HostNameKey, h, Ordinal)
    requires h > i
    ensures h >= i + 4 && h + 9 <= |s|
  {
    var w := s[i..i + 4];
    assert w == IpsKey;
    assert s[i + 1] == w[1] == 'P' && s[i + 2] == w[2] == 's' && s[i + 3] == w[3] == ':';
    var v := s[h..h + 9];
    assert v == HostNameKey;
    assert s[h] == v[0] == 'H';
  }

  /** The header line recording the server. */
  function ServerLine(d: ServerDetails): string {
    "Server: IPs=" + d.ips + ", HostName=" + d.hostName
  }

  /** The rule above and below the title (its '#' kept apart so that its first character is plain to see). */
  const BannerRule := "#" + " ======================================================"

  /** The eleven lines of a new store, with `serverLine` at index 5. */
  function Banner(serverLine: string): (b: seq<string>)
    ensures |b| == 11 && b[5] == serverLine
  {
    [ BannerRule,
      "# LDAP Configuration File",
      BannerRule,
      "",
      "# --------- Server Information ---------",
      serverLine,
      "",
      "# --------- Access Control List ---------",
      "# Columns: name,type,permission",
      "# type: U= user, G= group",
      "# permission: A = Admin, O = Operator" ]
  }

  /** Every banner line but the server line is blank or a '#' comment. */
  lemma BannerLineKinds(serverLine: string)
    ensures forall i :: 0 <= i < 11 && i != 5 ==> Banner(serverLine)[i] == "" || Banner(serverLine)[i][0] == '#'
  {
    var b := Banner(serverLine);
    assert b[0] == BannerRule && b[2] == BannerRule;
    assert b[0][0] == '#' && b[1][0] == '#' && b[2][0] == '#' && b[3] == "" && b[4][0] == '#';
    assert b[6] == "" && b[7][0] == '#' && b[8][0] == '#' && b[9][0] == '#' && b[10][0] == '#';
  }

  const PingFailedPrefix := "Failed to ping server: "

  /** Line `k` is the first line that starts with "Server:". */
  predicate FirstServerLineAt(lines: seq<string>, k: int) {
    && 0 <= k < |lines|
    && StartsWith(lines[k], ServerPrefix)
    && forall j :: 0 <= j < k ==> !StartsWith(lines[j], ServerPrefix)
  }

  /**
   * The update of an existing store: `None` when nothing is written, which is when no line
   * starts with "Server:" or the first such line already reads `newLine` once trimmed;
   * otherwise the lines with just that first server line replaced.
   */
  function ServerLineEdit(lines: seq<string>, newLine: string): Option<seq<string>>
  {
    match FirstLineWith(lines, ServerPrefix)
    case None => None
    case Some(k) => if Trim(lines[k]) == newLine then None else Some(lines[k := newLine])
  }

  /**
   * Only the first "Server:" line is ever rewritten, and only when it differs from the new
   * line once trimmed; every other line, later server lines included, stays where it was.
   */
  lemma ServerLineEditSpec(lines: seq<string>, newLine: string)
    ensures var r := ServerLineEdit(lines, newLine);
      && (r.Some? ==> exists k :: FirstServerLineAt(lines, k) && Trim(lines[k]) != newLine && r.value == lines[k := newLine])
      && (r.None? ==> forall k :: FirstServerLineAt(lines, k) ==> Trim(lines[k]) == newLine)
  {
    match FirstLineWith(lines, ServerPrefix)
    case None =>
    case Some(k) =>
      assert FirstServerLineAt(lines, k);
      forall k' | FirstServerLineAt(lines, k')
        ensures k' == k
      {
        assert !(k' < k);
        assert !(k < k');
      }
  }

  /**
   * RecordLdapServerDetailsSimple with the ping done: a failed ping reports its text and
   * leaves the store alone; a missing store is created as the banner; an existing store gets
   * its first server line rewritten, and only when it differs.
   */
  method RecordLdapServerDetailsSimple(file: IniFile, ping: PingReply) returns (ok: bool, errorMessage: Option<string>)
    modifies file
    ensures ok == ping.success
    ensures !ping.success ==> errorMessage == Some(PingFailedPrefix + ping.info) && unchanged(file)
    ensures ping.success ==> errorMessage == None && file.present
    ensures ping.success && !old(file.present) ==>
      file.lines == Banner(ServerLine(ParsePingInfo(ping.info))) && file.writes == old(file.writes) + 1
    ensures ping.success && old(file.present) ==>
      match ServerLineEdit(old(file.lines), ServerLine(ParsePingInfo(ping.info)))
      case None => file.lines == old(file.lines) && file.writes == old(file.writes)
      case Some(edited) => file.lines == edited && file.writes == old(file.writes) + 1
  {
    if !ping.success {
      return false, Some(PingFailedPrefix + ping.info);
    }
    var newServerLine := ServerLine(ParsePingInfo(ping.info));
    if !file.present {
      file.WriteAllLines(Banner(newServerLine));
      return true, None;
    }
    var lines := file.lines;
    var i := 0;
    while i < |lines|
      invariant 0 <= i <= |lines|
      invariant lines == file.lines
      invariant forall j :: 0 <= j < i ==> !StartsWith(lines[j], ServerPrefix)
    {
      if StartsWith(lines[i], ServerPrefix) {
        assert FirstLineWith(lines, ServerPrefix) == Some(i);
        if Trim(lines[i]) == newServerLine {
          return true, None;
        }
        lines := lines[i := newServerLine];
        file.WriteAllLines(lines);
        return true, None;
      }
      i := i + 1;
    }
    assert FirstLineWith(lines, ServerPrefix) == None;
    return true, None;
  }

  /** A server line whose host name is trimmed never changes under Trim. */
  lemma ServerLineTrimmed(d: ServerDetails)
    requires Trimmed(d.hostName, WhiteSpace)
    ensures Trim(ServerLine(d)) == ServerLine(d)
  {
    var pre, mid := "Server: IPs=", ", HostName=";
    var line := ServerLine(d);
    assert line == pre + d.ips + mid + d.hostName;
    assert line[0] == pre[0];
    if d.hostName == [] {
      assert line[|line| - 1] == mid[|mid| - 1];
    } else {
      assert line[|line| - 1] == d.hostName[|d.hostName| - 1];
    }
    TrimCharsOfPadded([], line, [], WhiteSpace);
    assert [] + line + [] == line;
  }

  /** Whatever the ping text, the host name that gets recorded is trimmed. */
  lemma ParsedHostNameTrimmed(pingInfo: string)
    ensures Trimmed(ParsePingInfo(pingInfo).hostName, WhiteSpace)
  {
    if !PingInfoParses(pingInfo) {
      assert ParsePingInfo(pingInfo).hostName == NotAvailable;
      assert NotAvailable[0] == 'N' && NotAvailable[2] == 'A';
    }
  }

  /** A server line is the first line of the new store that starts with "Server:". */
  lemma BannerServerLineFirst(serverLine: string)
    requires StartsWith(serverLine, ServerPrefix)
    ensures FirstLineWith(Banner(serverLine), ServerPrefix) == Some(5)
  {
    var b := Banner(serverLine);
    BannerLineKinds(serverLine);
    forall j | 0 <= j < 5
      ensures !StartsWith(b[j], ServerPrefix)
    {
      assert b[j] == "" || b[j][0] == '#';
      if |b[j]| >= 7 {
        assert b[j][..7][0] == b[j][0];
      }
    }
  }

  /** Recording the same server again writes nothing, whether the store was just created or just updated. */
  lemma RecordServerTwiceWritesOnce(lines: seq<string>, pingInfo: string)
    ensures ServerLineEdit(Banner(ServerLine(ParsePingInfo(pingInfo))), ServerLine(ParsePingInfo(pingInfo))).None?
    ensures ServerLineEdit(lines, ServerLine(ParsePingInfo(pingInfo))).Some? ==>
      ServerLineEdit(ServerLineEdit(lines, ServerLine(ParsePingInfo(pingInfo))).value, ServerLine(ParsePingInfo(pingInfo))).None?
  {
    var d := ParsePingInfo(pingInfo);
    ParsedHostNameTrimmed(pingInfo);
    ServerLineTrimmed(d);
    var nl := ServerLine(d);
    assert StartsWith(nl, ServerPrefix) by {
      assert nl[..7] == ServerPrefix;
    }
    ServerLineEditSettles(lines, nl);
  }

  /** Once a trimmed server line is in place, writing it again is skipped. */
  lemma ServerLineEditSettles(lines: seq<string>, newLine: string)
    requires StartsWith(newLine, ServerPrefix) && Trim(newLine) == newLine
    ensures ServerLineEdit(Banner(newLine), newLine).None?
    ensures ServerLineEdit(lines, newLine).Some? ==> ServerLineEdit(ServerLineEdit(lines, newLine).value, newLine).None?
  {
    BannerSettled(newLine);
    if ServerLineEdit(lines, newLine).Some? {
      EditedSettled(lines, newLine);
    }
  }

  lemma BannerSettled(newLine: string)
    requires StartsWith(newLine, ServerPrefix) && Trim(newLine) == newLine
    ensures ServerLineEdit(Banner(newLine), newLine).None?
  {
    var b := Banner(newLine);
    BannerServerLineFirst(newLine);
    assert Trim(b[5]) == newLine;
  }

  /** After an edit, the new server line is the first "Server:" line, so a second edit is skipped. */
  lemma EditedSettled(lines: seq<string>, newLine: string)
    requires StartsWith(newLine, ServerPrefix) && Trim(newLine) == newLine
    requires ServerLineEdit(lines, newLine).Some?
    ensures ServerLineEdit(ServerLineEdit(lines, newLine).value, newLine).None?
  {
    var k := FirstLineWith(lines, ServerPrefix).value;
    FirstLineWithAfterUpdate(lines, ServerPrefix, k, newLine);
    assert lines[k := newLine][k] == newLine;
  }

  /** A ping text in the form PingServerSimple reports parses back to its addresses and host name. */
  lemma {:induction false} ParsePingInfoRoundTrip(ips: string, hostName: string)
    requires !Contains(ips, HostNameKey)
    requires Trimmed(ips, IpTrimChars)
    requires Trimmed(hostName, WhiteSpace)
    ensures ParsePingInfo(PingSucceededText(ips, hostName)) == ServerDetails(ips, hostName)
  {
    var head := "Ping succeeded. IPs: ";
    var s := PingSucceededText(ips, hostName);
    var h := |head| + |ips| + 2;
    assert s == head + ips + ", HostName: " + hostName;
    assert s[..|head|] == head;
    IpsKeyAfterHead(s, head);
    HostNameKeyAfterIps(s, head, ips, hostName);
    IpsWindow(s, head, ips, hostName);
    HostNameWindow(s, head, ips, hostName);
    TrimCharsOfPadded([' '], ips, [',', ' '], IpTrimChars);
    TrimCharsOfPadded([' '], hostName, [], WhiteSpace);
    ParsePingInfoAt(s, 16, h);
  }

  /** With the two keys found in order, the parse is the two trimmed windows. */
  lemma ParsePingInfoAt(s: string, i: nat, h: nat)
    requires IndexOf(s, IpsKey) == Some(i) && IndexOf(s, HostNameKey) == Some(h) && h > i
    requires i + 4 <= h <= |s| - 9
    ensures ParsePingInfo(s) == ServerDetails(TrimChars(s[i + 4..h], IpTrimChars), Trim(s[h + 9..]))
  {
  }

  /** The window the parse strips of spaces and commas: a space, the addresses, ", ". */
  lemma IpsWindow(s: string, head: string, ips: string, hostName: string)
    requires head == "Ping succeeded. IPs: "
    requires s == head + ips + ", HostName: " + hostName
    ensures s[20..|head| + |ips| + 2] == [' '] + ips + [',', ' ']
  {
    var mid := ", HostName: ";
    var h := |head| + |ips| + 2;
    forall i | 0 <= i < |ips| + 3
      ensures s[20..h][i] == ([' '] + ips + [',', ' '])[i]
    {
      if i == 0 {
        assert s[20] == head[20];
      } else if i <= |ips| {
        assert s[20 + i] == (head + ips)[20 + i];
      } else if i == |ips| + 1 {
        assert s[h - 2] == mid[0];
      } else {
        assert s[h - 1] == mid[1];
      }
    }
  }

  /** The window the parse trims of white space: a space and the host name. */
  lemma HostNameWindow(s: string, head: string, ips: string, hostName: string)
    requires head == "Ping succeeded. IPs: "
    requires s == head + ips + ", HostName: " + hostName
    ensures s[|head| + |ips| + 11..] == [' '] + hostName + []
  {
    var mid := ", HostName: ";
    var p := head + ips + mid;
    assert s == p + hostName;
    assert s[|p|..] == hostName;
    assert s[|p| - 1] == mid[11];
    assert s[|p| - 1..] == [s[|p| - 1]] + s[|p|..];
    assert [' '] + hostName + [] == [' '] + hostName;
  }

  lemma IpsKeyAfterHead(s: string, head: string)
    requires head == "Ping succeeded. IPs: "
    requires |head| <= |s| && s[..|head|] == head
    ensures IndexOf(s, IpsKey) == Some(16)
  {
    assert s[16..20] == head[16..20];
    assert head[16..20] == IpsKey;
    forall j: nat | j < 16
      ensures !OccursAt(s, IpsKey, j, Ordinal)
    {
      NotIpsAt(s, head, j);
    }
    assert OccursAt(s, IpsKey, 16, Ordinal);
  }

  lemma NotIpsAt(s: string, head: string, j: nat)
    requires head == "Ping succeeded. IPs: "
    requires |head| <= |s| && s[..|head|] == head
    requires j < 16
    ensures !OccursAt(s, IpsKey, j, Ordinal)
  {
    assert s[j] == head[j];
    assert head[j] != 'I';
    if j + 4 <= |s| {
      assert s[j..j + 4][0] == s[j];
    }
  }

  lemma HostNameKeyAfterIps(s: string, head: string, ips: string, hostName: string)
    requires head == "Ping succeeded. IPs: "
    requires s == head + ips + ", HostName: " + hostName
    requires !Contains(ips, HostNameKey)
    ensures IndexOf(s, HostNameKey) == Some(|head| + |ips| + 2)
  {
    var h := |head| + |ips| + 2;
    assert s[h..h + 9] == HostNameKey;
    forall j: nat | j < h
      ensures !OccursAt(s, HostNameKey, j, Ordinal)
    {
      NotHostNameAt(s, head, ips, hostName, j);
    }
    assert OccursAt(s, HostNameKey, h, Ordinal);
  }

  lemma NotHostNameAt(s: string, head: string, ips: string, hostName: string, j: nat)
    requires head == "Ping succeeded. IPs: "
    requires s == head + ips + ", HostName: " + hostName
    requires !Contains(ips, HostNameKey)
    requires j < |head| + |ips| + 2
    ensures !OccursAt(s, HostNameKey, j, Ordinal)
  {
    var c := |head| + |ips|;
    if j + 9 <= |s| {
      var w := s[j..j + 9];
      if j < |head| {
        assert w[0] == s[j] == head[j] != 'H';
      } else if j + 9 <= c {
        var k: nat := j - |head|;
        assert k <= |ips|;
        assert !OccursAt(ips, HostNameKey, k, Ordinal);
        assert ips[k..k + 9] == w;
      } else if j <= c {
        assert s[c] == ',';
        assert w[c - j] == s[c];
        assert w[c - j] != HostNameKey[c - j] by {
          assert forall x :: 0 <= x < 9 ==> HostNameKey[x] != ',';
        }
      } else {
        assert s[c + 1] == ' ';
        assert w[0] == s[j] == ' ';
      }
    }
  }

  /** SaveLdapPermission skips comment lines and blank lines. */
  const UpsertFormat := RowFormat(["#"], true, 3)

  /** SaveLdapPermission passes over exactly the comment lines and the blank lines. */
  lemma UpsertSkips(line: string)
    ensures SkipsLine(UpsertFormat, line) <==> StartsWith(line, "#") || IsBlank(line)
  {
    assert UpsertFormat.skipPrefixes[1..] == [];
  }

  /**
   * The lines SaveLdapPermission writes: the first row of (name, type) gets its permission
   * field replaced, or, when there is none, one `name,type,permission` row is appended.
   */
  function Upserted(lines: seq<string>, name: string, type_: string, perm: string): seq<string>
  {
    match FindRow(UpsertFormat, lines, name, type_)
    case Some(k) => lines[k := WithPermission(lines[k], perm)]
    case None => lines + [RowLine([name, type_, perm])]
  }

  /**
   * SaveLdapPermission as the source runs it: walk the lines, rewrite the first matching row
   * in place and stop, append when the walk finds none, then write the file back.
   */
  method SaveLdapPermission(file: IniFile, name: string, type_: string, perm: string) returns (ok: bool, errorMessage: Option<string>)
    modifies file
    ensures ok == old(file.present)
    ensures !ok ==> errorMessage == Some(MissingFileMessage) && unchanged(file)
    ensures ok ==> && errorMessage == None && file.present
                   && file.lines == Upserted(old(file.lines), name, type_, perm)
                   && file.writes == old(file.writes) + 1
  {
    if !file.present {
      return false, Some(MissingFileMessage);
    }
    var lines := file.lines;
    var found := false;
    var i := 0;
    while i < |lines|
      invariant 0 <= i <= |lines|
      invariant !found && lines == file.lines && unchanged(file)
      invariant forall j :: 0 <= j < i ==> !IsRow(UpsertFormat, lines[j], name, type_)
    {
      var line := lines[i];
      UpsertSkips(line);
      if !(StartsWith(line, "#") || IsBlank(line)) {
        var parts := Split(line, ',');
        if |parts| >= 3 && parts[0] == name && parts[1] == type_ {
          assert FindRow(UpsertFormat, lines, name, type_) == Some(i);
          parts := parts[2 := perm];
          lines := lines[i := RowLine(parts)];
          found := true;
          break;
        }
      }
      i := i + 1;
    }
    if !found {
      assert FindRow(UpsertFormat, lines, name, type_) == None;
      lines := lines + [name + "," + type_ + "," + perm];
      assert name + "," + type_ + "," + perm == RowLine([name, type_, perm]) by {
        JoinThree(name, type_, perm);
      }
    }
    file.WriteAllLines(lines);
    return true, None;
  }

  lemma JoinThree(a: string, b: string, c: string)
    ensures RowLine([a, b, c]) == a + "," + b + "," + c
  {
    assert [a, b, c][1..] == [b, c];
    assert [b, c][1..] == [c];
    assert Join([b, c], ',') == b + [','] + c;
    assert Join([a, b, c], ',') == a + [','] + (b + [','] + c);
  }

  /** The first row of the principal is edited in field 2 alone, or a fresh row is appended; no other line moves. */
  lemma UpsertShape(lines: seq<string>, name: string, type_: string, perm: string)
    requires ',' !in perm
    ensures var r := Upserted(lines, name, type_, perm);
      match FindRow(UpsertFormat, lines, name, type_)
      case Some(k) =>
        && |r| == |lines|
        && Fields(r[k]) == Fields(lines[k])[2 := perm]
        && (forall j :: 0 <= j < |lines| && j != k ==> r[j] == lines[j])
      case None =>
        && |r| == |lines| + 1
        && r[..|lines|] == lines
        && (',' !in name && ',' !in type_ ==> Fields(r[|lines|]) == [name, type_, perm])
  {
    match FindRow(UpsertFormat, lines, name, type_)
    case Some(k) =>
      WithPermissionKeepsRow(UpsertFormat, lines[k], name, type_, perm);
    case None =>
      if ',' !in name && ',' !in type_ {
        SplitOfJoin([name, type_, perm], ',');
      }
  }

  /** The row SaveLdapPermission appends is a row of its principal. */
  lemma AppendedRowIsRow(name: string, type_: string, perm: string)
    requires ',' !in name && ',' !in type_ && ',' !in perm
    requires !StartsWith(name, "#")
    ensures Fields(RowLine([name, type_, perm])) == [name, type_, perm]
    ensures IsRow(UpsertFormat, RowLine([name, type_, perm]), name, type_)
  {
    var line := RowLine([name, type_, perm]);
    SplitOfJoin([name, type_, perm], ',');
    JoinThree(name, type_, perm);
    assert line == name + [','] + (type_ + "," + perm);
    CommaFreePrefixOfRow(name, type_ + "," + perm, "#");
    assert line[|name|] == ',';
    CommaLineNotBlank(line);
    assert UpsertFormat.skipPrefixes[1..] == [];
  }

  /** Saving the same permission twice leaves the store as after the first save. */
  lemma UpsertIdempotent(lines: seq<string>, name: string, type_: string, perm: string)
    requires ',' !in name && ',' !in type_ && ',' !in perm
    requires !StartsWith(name, "#")
    ensures Upserted(Upserted(lines, name, type_, perm), name, type_, perm) == Upserted(lines, name, type_, perm)
  {
    var once := Upserted(lines, name, type_, perm);
    match FindRow(UpsertFormat, lines, name, type_)
    case Some(k) =>
      var edited := WithPermission(lines[k], perm);
      WithPermissionKeepsRow(UpsertFormat, lines[k], name, type_, perm);
      FindRowAfterRewrite(UpsertFormat, lines, k, name, type_, edited);
      assert Fields(edited)[2 := perm] == Fields(edited);
    case None =>
      var row := RowLine([name, type_, perm]);
      AppendedRowIsRow(name, type_, perm);
      assert once == lines + [row];
      assert FindRow(UpsertFormat, once, name, type_) == Some(|lines|) by {
        assert once[|lines|] == row;
        forall j | 0 <= j < |lines|
          ensures !IsRow(UpsertFormat, once[j], name, type_)
        {
          assert once[j] == lines[j];
        }
        var f := FindRow(UpsertFormat, once, name, type_);
        assert f.Some? && f.value <= |lines|;
      }
      assert [name, type_, perm][2 := perm] == [name, type_, perm];
  }

  /** After a save, the first row of the principal carries the saved permission. */
  lemma UpsertedRow(lines: seq<string>, name: string, type_: string, perm: string)
    requires ',' !in name && ',' !in type_ && ',' !in perm
    requires !StartsWith(name, "#")
    ensures var r := Upserted(lines, name, type_, perm);
      && FindRow(UpsertFormat, r, name, type_).Some?
      && Permission(r[FindRow(UpsertFormat, r, name, type_).value]) == perm
  {
    var once := Upserted(lines, name, type_, perm);
    match FindRow(UpsertFormat, lines, name, type_)
    case Some(k) =>
      var edited := WithPermission(lines[k], perm);
      WithPermissionKeepsRow(UpsertFormat, lines[k], name, type_, perm);
      FindRowAfterRewrite(UpsertFormat, lines, k, name, type_, edited);
    case None =>
      var row := RowLine([name, type_, perm]);
      AppendedRowIsRow(name, type_, perm);
      assert once[|lines|] == row;
      forall j | 0 <= j < |lines|
        ensures !IsRow(UpsertFormat, once[j], name, type_)
      {
        assert once[j] == lines[j];
      }
      var f := FindRow(UpsertFormat, once, name, type_);
      assert f.Some? && f.value <= |lines|;
  }

  /** ClearLdapPermissions keeps a line that, trimmed, starts with "#" or "Server:", or that is blank. */
  predicate KeptByClear(line: string) {
    StartsWith(Trim(line), "#") || IsBlank(line) || StartsWith(Trim(line), ServerPrefix)
  }

  /** The `Where` filter of ClearLdapPermissions. */
  function Cleared(lines: seq<string>): (r: seq<string>)
    ensures |r| <= |lines|
    ensures forall j :: 0 <= j < |r| ==> KeptByClear(r[j])
  {
    if lines == [] then []
    else
      var rest := Cleared(lines[1..]);
      if KeptByClear(lines[0]) then [lines[0]] + rest else rest
  }

  /** One line is kept exactly when the filter accepts it. */
  lemma ClearedSingle(line: string)
    ensures Cleared([line]) == if KeptByClear(line) then [line] else []
  {
    assert [line][1..] == [];
  }

  /** The filter works line by line: the result is in the order of the input. */
  lemma {:induction false} ClearedConcat(a: seq<string>, b: seq<string>)
    ensures Cleared(a + b) == Cleared(a) + Cleared(b)
    decreases |a|
  {
    if a == [] {
      assert a + b == b;
    } else {
      assert (a + b)[0] == a[0];
      assert (a + b)[1..] == a[1..] + b;
      ClearedConcat(a[1..], b);
    }
  }

  /** Clearing a cleared store changes nothing. */
  lemma {:induction false} ClearedIdempotent(lines: seq<string>)
    ensures Cleared(Cleared(lines)) == Cleared(lines)
    decreases |lines|
  {
    if lines != [] {
      ClearedIdempotent(lines[1..]);
      if KeptByClear(lines[0]) {
        ClearedConcat([lines[0]], Cleared(lines[1..]));
        ClearedSingle(lines[0]);
      }
    }
  }

  /** A freshly created store survives ClearLdapPermissions whole. */
  lemma ClearedKeepsBanner(d: ServerDetails)
    ensures Cleared(Banner(ServerLine(d))) == Banner(ServerLine(d))
  {
    var b := Banner(ServerLine(d));
    BannerLineKinds(ServerLine(d));
    forall i | 0 <= i < |b|
      ensures KeptByClear(b[i])
    {
      if i == 5 {
        assert b[5][..7] == ServerPrefix;
        TrimKeepsPrefix(b[5], ServerPrefix, WhiteSpace);
      } else if b[i] != "" {
        TrimKeepsPrefix(b[i], "#", WhiteSpace);
      }
    }
    AllKeptIsIdentity(b);
  }

  lemma {:induction false} AllKeptIsIdentity(lines: seq<string>)
    requires forall j :: 0 <= j < |lines| ==> KeptByClear(lines[j])
    ensures Cleared(lines) == lines
    decreases |lines|
  {
    if lines != [] {
      AllKeptIsIdentity(lines[1..]);
      assert lines == [lines[0]] + lines[1..];
    }
  }

  /** ClearLdapPermissions: the filtered lines are written back; a missing store is reported and left alone. */
  method ClearLdapPermissions(file: IniFile) returns (ok: bool, errorMessage: Option<string>)
    modifies file
    ensures ok == old(file.present)
    ensures !ok ==> errorMessage == Some(MissingFileMessage) && unchanged(file)
    ensures ok ==> && errorMessage == None && file.present
                   && file.lines == Cleared(old(file.lines))
                   && file.writes == old(file.writes) + 1
  {
    if !file.present {
      return false, Some(MissingFileMessage);
    }
    file.WriteAllLines(Cleared(file.lines));
    return true, None;
  }
}

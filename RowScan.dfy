/**
 * The ACL row scan that every snapshot of the store and of the engine repeats: walk the lines
 * of LDAP.ini, skip the lines that start with one of a few prefixes (and, for some scans,
 * blank lines), split the rest on ',' and take the first line with enough fields whose
 * field 0 is the principal name and field 1 the type tag. Field 2 is the permission.
 */
module RowScan {
  import opened Wrappers
  import opened Strings

  /** A row has at least name, type and permission. */
  type FieldCount = n: nat | 3 <= n witness 3

  /** How one snapshot of the code recognises an ACL row. */
  datatype RowFormat = RowFormat(skipPrefixes: seq<string>, skipBlank: bool, minFields: FieldCount)

  /** A boolean outcome with the `out string errorMessage` the source pairs it with. */
  datatype Answer = Answer(ok: bool, message: Option<string>)

  const MissingFileMessage := "INI file does not exist."
  const UserNotFoundMessage := "User not found in INI file."

  function MismatchMessage(expected: string, found: string): string {
    "User found, but permission type does not match. Expected: " + expected + ", Found: " + found
  }

  predicate StartsWithAny(line: string, prefixes: seq<string>)
    decreases |prefixes|
  {
    |prefixes| > 0 && (StartsWith(line, prefixes[0]) || StartsWithAny(line, prefixes[1..]))
  }

  /** The line is passed over by the scan (`continue` in the source). */
  predicate SkipsLine(fmt: RowFormat, line: string) {
    StartsWithAny(line, fmt.skipPrefixes) || (fmt.skipBlank && IsBlank(line))
  }

  function Fields(line: string): (f: seq<string>)
    ensures |f| >= 1
  {
    Split(line, ',')
  }

  /** `line` is an ACL row of `name` with type tag `tag`. */
  predicate IsRow(fmt: RowFormat, line: string, name: string, tag: string) {
    && !SkipsLine(fmt, line)
    && |Fields(line)| >= fmt.minFields
    && Fields(line)[0] == name
    && Fields(line)[1] == tag
  }

  function Permission(line: string): string
    requires |Fields(line)| >= 3
  {
    Fields(line)[2]
  }

  /** `line` is a row of `name`/`tag` whose permission equals `perm`, ignoring case. */
  predicate Grants(fmt: RowFormat, line: string, name: string, tag: string, perm: string) {
    IsRow(fmt, line, name, tag) && EqualsIgnoreCase(Permission(line), perm)
  }

  function FindRowFrom(fmt: RowFormat, lines: seq<string>, name: string, tag: string, from: nat): (r: Option<nat>)
    ensures r.Some? ==> from <= r.value < |lines| && IsRow(fmt, lines[r.value], name, tag)
    ensures forall j :: from <= j < |lines| && (r.None? || j < r.value) ==> !IsRow(fmt, lines[j], name, tag)
    decreases |lines| - from
  {
    if from >= |lines| then None
    else if IsRow(fmt, lines[from], name, tag) then Some(from)
    else FindRowFrom(fmt, lines, name, tag, from + 1)
  }

  /** The index of the first row of `name`/`tag`, the one every scan acts on. */
  function FindRow(fmt: RowFormat, lines: seq<string>, name: string, tag: string): (r: Option<nat>)
    ensures r.Some? ==> r.value < |lines| && IsRow(fmt, lines[r.value], name, tag)
    ensures forall j :: 0 <= j < |lines| && (r.None? || j < r.value) ==> !IsRow(fmt, lines[j], name, tag)
  {
    FindRowFrom(fmt, lines, name, tag, 0)
  }

  /**
   * IsUserRegistered, for either snapshot: the first row of the user decides; a permission
   * equal up to case grants, any other permission refuses without looking further.
   */
  function CheckUser(fmt: RowFormat, tag: string, ini: Option<seq<string>>, userName: string, expected: string): (r: Answer)
    ensures ini.None? ==> r == Answer(false, Some(MissingFileMessage))
    ensures ini.Some? ==> (r.ok <==> exists k :: 0 <= k < |ini.value| && Grants(fmt, ini.value[k], userName, tag, expected)
                                                 && forall j :: 0 <= j < k ==> !IsRow(fmt, ini.value[j], userName, tag))
    ensures r.ok ==> r.message == None
    ensures ini.Some? && FindRow(fmt, ini.value, userName, tag).None? ==> r == Answer(false, Some(UserNotFoundMessage))
    ensures ini.Some? && FindRow(fmt, ini.value, userName, tag).Some? && !r.ok ==>
      r.message == Some(MismatchMessage(expected, Permission(ini.value[FindRow(fmt, ini.value, userName, tag).value])))
  {
    if ini.None? then Answer(false, Some(MissingFileMessage))
    else
      var lines := ini.value;
      match FindRow(fmt, lines, userName, tag)
      case None => Answer(false, Some(UserNotFoundMessage))
      case Some(k) =>
        if EqualsIgnoreCase(Permission(lines[k]), expected) then Answer(true, None)
        else Answer(false, Some(MismatchMessage(expected, Permission(lines[k]))))
  }

  /** Some line grants `perm` to `group` (the inner `foreach` over lines). */
  function GroupGrantedFrom(fmt: RowFormat, tag: string, lines: seq<string>, group: string, perm: string, from: nat): (r: bool)
    ensures r <==> exists j :: from <= j < |lines| && Grants(fmt, lines[j], group, tag, perm)
    decreases |lines| - from
  {
    if from >= |lines| then false
    else Grants(fmt, lines[from], group, tag, perm) || GroupGrantedFrom(fmt, tag, lines, group, perm, from + 1)
  }

  /** Some group of `groups` has a row, anywhere in `lines`, that grants `perm`. */
  predicate SomeGroupGrants(fmt: RowFormat, tag: string, lines: seq<string>, groups: seq<string>, perm: string) {
    exists g, j :: 0 <= g < |groups| && 0 <= j < |lines| && Grants(fmt, lines[j], groups[g], tag, perm)
  }

  /**
   * The nested scan of IsUserInRegisteredGroup: groups in order, lines in order, stopping at
   * the first granting row; a row with another permission does not stop the scan.
   */
  function AnyGroupGranted(fmt: RowFormat, tag: string, lines: seq<string>, groups: seq<string>, perm: string): (r: bool)
    ensures r <==> SomeGroupGrants(fmt, tag, lines, groups, perm)
  {
    if |groups| == 0 then false
    else
      var head := GroupGrantedFrom(fmt, tag, lines, groups[0], perm, 0);
      var tail := AnyGroupGranted(fmt, tag, lines, groups[1..], perm);
      assert tail ==> SomeGroupGrants(fmt, tag, lines, groups, perm) by {
        if tail {
          var g, j :| 0 <= g < |groups[1..]| && 0 <= j < |lines| && Grants(fmt, lines[j], groups[1..][g], tag, perm);
          assert groups[1..][g] == groups[g + 1];
        }
      }
      assert SomeGroupGrants(fmt, tag, lines, groups, perm) ==> head || tail by {
        if SomeGroupGrants(fmt, tag, lines, groups, perm) {
          var g, j :| 0 <= g < |groups| && 0 <= j < |lines| && Grants(fmt, lines[j], groups[g], tag, perm);
          if g > 0 {
            assert groups[1..][g - 1] == groups[g];
          }
        }
      }
      head || tail
  }

  const NoGroupsMessage := "User does not belong to any groups or failed to retrieve groups."

  function NoRegisteredGroupMessage(perm: string): string {
    "No registered group found for user in INI file with permission type '" + perm + "'."
  }

  /**
   * IsUserInRegisteredGroup after the group lookup, for either snapshot: without groups it
   * refuses with the lookup's message, or a default when that is null or empty; otherwise it
   * admits exactly when some group row grants the permission.
   */
  function CheckGroups(fmt: RowFormat, tag: string, ini: Option<seq<string>>, groups: seq<string>, lookupMessage: Option<string>, perm: string): (r: Answer)
    ensures |groups| == 0 ==> !r.ok && r.message == (if IsNullOrEmpty(lookupMessage) then Some(NoGroupsMessage) else lookupMessage)
    ensures |groups| > 0 && ini.None? ==> r == Answer(false, Some(MissingFileMessage))
    ensures r.ok <==> |groups| > 0 && ini.Some? && SomeGroupGrants(fmt, tag, ini.value, groups, perm)
    ensures r.ok ==> r.message == lookupMessage
    ensures !r.ok ==> r.message.Some? && r.message.value != ""
    ensures |groups| > 0 && ini.Some? && !r.ok ==> r.message == Some(NoRegisteredGroupMessage(perm))
  {
    if |groups| == 0 then
      Answer(false, if IsNullOrEmpty(lookupMessage) then Some(NoGroupsMessage) else lookupMessage)
    else if ini.None? then Answer(false, Some(MissingFileMessage))
    else if AnyGroupGranted(fmt, tag, ini.value, groups, perm) then Answer(true, lookupMessage)
    else Answer(false, Some(NoRegisteredGroupMessage(perm)))
  }

  /** Two formats that recognise the same rows of `name` find the same first row. */
  lemma FindRowAgrees(f1: RowFormat, f2: RowFormat, lines: seq<string>, name: string, tag: string)
    requires forall j :: 0 <= j < |lines| ==> (IsRow(f1, lines[j], name, tag) <==> IsRow(f2, lines[j], name, tag))
    ensures FindRow(f1, lines, name, tag) == FindRow(f2, lines, name, tag)
  {
    var r1, r2 := FindRow(f1, lines, name, tag), FindRow(f2, lines, name, tag);
    if r1.Some? && r2.Some? {
      assert !(r1.value < r2.value) && !(r2.value < r1.value);
    }
  }

  /** A line of at least two fields is its first field, a ',' and the rest. */
  lemma RowLineShape(line: string)
    requires |Fields(line)| >= 2
    ensures line == Fields(line)[0] + [','] + Join(Fields(line)[1..], ',')
    ensures ',' !in Fields(line)[0]
  {
    JoinHead(Fields(line), ',');
  }

  /** A prefix without ',' starts a row exactly when it starts the row's first field. */
  lemma {:induction false} CommaFreePrefixOfRow(f0: string, rest: string, p: string)
    requires ',' !in f0 && ',' !in p
    ensures StartsWith(f0 + [','] + rest, p) <==> StartsWith(f0, p)
  {
    var line := f0 + [','] + rest;
    if |p| <= |f0| {
      assert line[..|p|] == f0[..|p|];
    } else {
      assert !StartsWith(line, p) by {
        if |p| <= |line| {
          assert line[..|p|][|f0|] == ',' != p[|f0|];
        }
      }
    }
  }

  /** The first field of a line that starts with a comma-free prefix starts with it too. */
  lemma FirstFieldKeepsPrefix(line: string, p: string)
    requires ',' !in p
    requires StartsWith(line, p)
    ensures StartsWith(Fields(line)[0], p)
  {
    if |Fields(line)| >= 2 {
      RowLineShape(line);
      var f0 := Fields(line)[0];
      assert line[|f0|] == ',';
      assert forall i :: 0 <= i < |p| ==> line[i] == p[i];
      assert line[..|p|] == f0[..|p|];
    }
  }

  /**
   * A prefix that can only be matched inside a line's first field: it holds no ',' except
   * perhaps as its last character ("#", "Server:", "Name,").
   */
  predicate FieldPrefix(p: string) {
    |p| >= 1 && ',' !in p[..|p| - 1]
  }

  /** Every skip prefix is a field prefix. */
  predicate FieldPrefixes(prefixes: seq<string>) {
    forall i :: 0 <= i < |prefixes| ==> FieldPrefix(prefixes[i])
  }

  /** Whether a field prefix starts a line is decided by the line's first field. */
  lemma {:induction false} FieldPrefixDecided(f0: string, a: string, b: string, p: string)
    requires ',' !in f0
    requires FieldPrefix(p)
    ensures StartsWith(f0 + [','] + a, p) <==> StartsWith(f0 + [','] + b, p)
  {
    var la, lb := f0 + [','] + a, f0 + [','] + b;
    var n := |f0| + 1;
    if |p| <= n {
      assert la[..|p|] == (f0 + [','])[..|p|] == lb[..|p|];
    } else {
      assert p[|f0|] in p[..|p| - 1];
      assert !StartsWith(la, p) by {
        if |p| <= |la| {
          assert la[..|p|][|f0|] == ',' != p[|f0|];
        }
      }
      assert !StartsWith(lb, p) by {
        if |p| <= |lb| {
          assert lb[..|p|][|f0|] == ',' != p[|f0|];
        }
      }
    }
  }

  lemma {:induction false} StartsWithAnyDecided(f0: string, a: string, b: string, prefixes: seq<string>)
    requires ',' !in f0
    requires FieldPrefixes(prefixes)
    ensures StartsWithAny(f0 + [','] + a, prefixes) <==> StartsWithAny(f0 + [','] + b, prefixes)
    decreases |prefixes|
  {
    if |prefixes| > 0 {
      FieldPrefixDecided(f0, a, b, prefixes[0]);
      StartsWithAnyDecided(f0, a, b, prefixes[1..]);
    }
  }

  /** A line that holds a ',' is never blank. */
  lemma CommaLineNotBlank(line: string)
    requires ',' in line
    ensures !IsBlank(line)
  {
    var k :| 0 <= k < |line| && line[k] == ',';
    assert line[k] !in WhiteSpace;
  }

  /** Two lines whose first fields agree are skipped alike. */
  lemma SkipsAlike(fmt: RowFormat, f0: string, a: string, b: string)
    requires ',' !in f0
    requires FieldPrefixes(fmt.skipPrefixes)
    ensures SkipsLine(fmt, f0 + [','] + a) <==> SkipsLine(fmt, f0 + [','] + b)
  {
    StartsWithAnyDecided(f0, a, b, fmt.skipPrefixes);
    assert (f0 + [','] + a)[|f0|] == ',';
    assert (f0 + [','] + b)[|f0|] == ',';
    CommaLineNotBlank(f0 + [','] + a);
    CommaLineNotBlank(f0 + [','] + b);
  }

  /** The line `fields[0],fields[1],...`. */
  function RowLine(fields: seq<string>): string {
    Join(fields, ',')
  }

  /**
   * `parts[2] = permissionType; lines[i] = string.Join(",", parts)`: the row's permission
   * field replaced, every other field kept.
   */
  function WithPermission(line: string, perm: string): string
    requires |Fields(line)| >= 3
  {
    RowLine(Fields(line)[2 := perm])
  }

  /**
   * Rewriting the permission of a row keeps it a row of the same principal, now with the
   * new permission, and leaves its other fields as they were.
   */
  lemma {:induction false} WithPermissionKeepsRow(fmt: RowFormat, line: string, name: string, tag: string, perm: string)
    requires FieldPrefixes(fmt.skipPrefixes)
    requires IsRow(fmt, line, name, tag)
    requires ',' !in perm
    ensures Fields(WithPermission(line, perm)) == Fields(line)[2 := perm]
    ensures IsRow(fmt, WithPermission(line, perm), name, tag)
    ensures Permission(WithPermission(line, perm)) == perm
  {
    var f := Fields(line);
    var g := f[2 := perm];
    assert forall k :: 0 <= k < |g| ==> ',' !in g[k];
    SplitOfJoin(g, ',');
    JoinHead(f, ',');
    JoinHead(g, ',');
    SkipsAlike(fmt, f[0], Join(f[1..], ','), Join(g[1..], ','));
  }

  /** Only a row changes when one row's permission is rewritten in place. */
  lemma FindRowAfterRewrite(fmt: RowFormat, lines: seq<string>, k: nat, name: string, tag: string, newLine: string)
    requires FindRow(fmt, lines, name, tag) == Some(k)
    requires IsRow(fmt, newLine, name, tag)
    ensures FindRow(fmt, lines[k := newLine], name, tag) == Some(k)
  {
    var l2 := lines[k := newLine];
    assert l2[k] == newLine;
    forall j | 0 <= j < k
      ensures !IsRow(fmt, l2[j], name, tag)
    {
      assert l2[j] == lines[j];
    }
    var r := FindRow(fmt, l2, name, tag);
    assert r.Some? && r.value <= k;
  }
}

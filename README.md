# LDAP access-control store and authorization engine, modelled in Dafny

The repository is a .NET library that keeps an access-control list for LDAP users and groups in a
plain-text `LDAP.ini` file and decides whether a directory user may act with a given permission
(`A` = Admin, `O` = Operator). This project models its core:

- **The store, current snapshot** (`LDAP_Setup`), in modules `LdapSetup` and `IniFiles`:
  - `RecordLdapServerDetailsSimple` creates the file as an eleven-line banner holding a
    `Server: IPs=…, HostName=…` line, or rewrites the first `Server:` line when it changed.
  - `SaveLdapPermission` updates the first `name,type,…` row of a principal, or appends
    `name,type,permission`.
  - `ClearLdapPermissions` keeps only comments, blank lines and server lines.
- **The engine, current snapshot** (`LDAP_Authentication`), in `LdapAuthentication`:
  - It reads the directory address from the first `Server: IPs=` line and binds.
  - The user's first `U` row decides. Failing that, any of the user's directory groups with a
    granting `G` row admits the user.
- **The older snapshot** (`Setup`, `Authentication`), in `LegacySetup` and
  `LegacyAuthentication`. It uses four-field `name,User|Group,permission,timestamp` rows, a
  `Name,` header, a create-only server record, `MarkPermission`, and a bind-only
  `AuthenticateUser`.
- **Shared pieces**:
  - `RowScan` is the row scan common to both snapshots, parameterised by the lines it skips and
    the minimum field count.
  - `LdapFunctions` holds the directory helpers: the `LDAP://` prefixing, the `CN=` extraction
    from `memberOf`, and the lookup summaries.
  - `LdapExceptions` holds the exception table 4000–4009.
  - `LdapResponse` is the result envelope.
- **The two console programs' services**:
  - `Authenticator` is the .NET Framework `LdapAuthenticator`. An explicit user list takes
    precedence over admitted groups, and the outcomes are the five `AuthStatus` values.
  - `LdapService` is the newer console's service. Login sets the admin and user flags by a
    case-insensitive overlap of group names.

Modelling choices:

- The file on disk is the class `IniFiles.IniFile`. It has a presence flag, the list of lines,
  and a ghost count of writes. The methods that write it are imperative and proved against
  functions on line sequences (`Upserted`, `Cleared`, `Marked`, `ServerLineEdit`). The
  properties of those functions are proved as lemmas.
- C# `null` is `Option.None`.
- The directory, the bind, the ping and the domain context are function-typed parameters
  (oracles). A call that throws is an `Attempt.Threw` or a `BindThrew(message)`.
- `string.Split`, `Join`, `Trim`, `IndexOf` and `StartsWith` are written out in module
  `Strings`. `OrdinalIgnoreCase` is ASCII case folding. Culture-sensitive `StartsWith` and
  `IndexOf` are modelled as ordinal comparisons.

## Model

| member | source | states |
|---|---|---|
| IniFiles.IniFile.constructor | LDAP_DLL/LDAP_Setup.cs:112-118 | a store is either absent (no lines) or present with its lines; nothing has been written yet |
| IniFiles.IniFile.Contents | LDAP_DLL/LDAP_Authentication.cs:81-86 | reading gives the lines exactly when the file exists, and null-like `None` otherwise |
| IniFiles.IniFile.WriteAllLines | LDAP_DLL/LDAP_Setup.cs:143 | after a write the file exists and holds exactly the written lines; one write is counted |
| IniFiles.IniFile.AppendLine | LDAP_DLL/Setup.cs:87-89 | appending creates a missing file; the old lines (none if missing) are followed by the new line |
| IniFiles.FirstLineWith | LDAP_DLL/LDAP_Setup.cs:71-73 | returns the index of the first line with the prefix, and no earlier line has it |
| IniFiles.FirstLineWithAfterUpdate | LDAP_DLL/LDAP_Setup.cs:71-88 | replacing the first prefixed line by another prefixed line keeps it the first |
| RowScan.FindRow | LDAP_DLL/LDAP_Authentication.cs:87-91 | the first line that is not skipped, has enough fields and names the principal with the type tag; none before it qualifies |
| RowScan.CheckUser | LDAP_DLL/LDAP_Authentication.cs:75-112 | missing file → "INI file does not exist."; true iff the first row of the user grants the permission ignoring case; no row → "User not found in INI file."; a mismatch reports expected and found |
| RowScan.GroupGrantedFrom | LDAP_DLL/LDAP_Authentication.cs:136-147 | true iff some later line grants the permission to the group; mismatching rows do not stop the scan |
| RowScan.AnyGroupGranted | LDAP_DLL/LDAP_Authentication.cs:134-148 | true iff some group of the list has some granting row, in any position |
| RowScan.CheckGroups | LDAP_DLL/LDAP_Authentication.cs:121-150 | no groups → false with the lookup's message or the default; missing file → its message; true iff some group row grants; a refusal always carries a non-empty message |
| RowScan.WithPermissionKeepsRow | LDAP_DLL/LDAP_Setup.cs:130-131 | rewriting field 2 of a row with a comma-free permission keeps every other field and keeps the line a row of the same principal |
| RowScan.FindRowAfterRewrite | LDAP_DLL/LDAP_Setup.cs:121-134 | after the first row of a principal is replaced by another row of that principal, it is still the first |
| LdapFunctions.WithLdapScheme | LDAP_DLL/LDAP_Functions.cs:142-143 | the result starts with `LDAP://` ignoring case; the path is kept iff it already did, else the prefix is prepended |
| LdapFunctions.WithLdapSchemeIdempotent | LDAP_DLL/LDAP_Functions.cs:195-196 | prefixing twice is prefixing once |
| LdapFunctions.GroupFromDn | LDAP_DLL/LDAP_Functions.cs:159-174 | no group iff `CN=` never occurs (ignoring case); otherwise the text after the first `CN=` up to the next comma, or to the end |
| LdapFunctions.DnGroups | LDAP_DLL/LDAP_Functions.cs:161-174 | a DN contributes one group when it holds a `CN=`, and none otherwise |
| LdapFunctions.GroupsFromMemberOf | LDAP_DLL/LDAP_Functions.cs:155-176 | at most one group per DN |
| LdapFunctions.GroupsFromMemberOfSources | LDAP_DLL/LDAP_Functions.cs:157-175 | every collected group was extracted from some DN of the list |
| LdapFunctions.GroupsFromMemberOfConcat | LDAP_DLL/LDAP_Functions.cs:157-175 | the extraction works DN by DN, in enumeration order |
| LdapFunctions.GroupsFromMemberOfOnePerDn | LDAP_DLL/LDAP_Functions.cs:162-173 | when every DN has a `CN=`, the i-th group comes from the i-th DN |
| LdapFunctions.GroupsForUser | LDAP_DLL/LDAP_Functions.cs:136-185 | a found user gets the groups GroupsFromMemberOf extracts from its `memberOf` values and no message; a missing user → no groups and "User '…' not found."; a throwing search → no groups and the exception's message |
| LdapFunctions.GetGroupsForUserArray | LDAP_DLL/LDAP_Functions.cs:136-185 | the `foreach`/`Add` loop returns exactly the groups and message of GroupsForUser |
| LdapFunctions.GetProperty | LDAP_DLL/LDAP_Functions.cs:263-268 | the first value of a present, non-empty property, and the empty string otherwise |
| LdapFunctions.UserSummaryRoundTrip | LDAP_DLL/LDAP_Functions.cs:213-219 | splitting the user summary at `;` gives back its five `key=value` fields when values hold no `;` |
| LdapFunctions.UserSummaryIsJoin | LDAP_DLL/LDAP_Functions.cs:214-218 | the StringBuilder summary is the `;`-join of the five fields |
| LdapFunctions.GetUserByUserNameSimple | LDAP_DLL/LDAP_Functions.cs:190-227 | no error iff an entry was found; errors leave the result empty; a throwing search → the exception's message; a missing user → "User '…' not found."; a found entry yields exactly UserSummary of its properties, which starts with `sAMAccountName=` |
| LdapFunctions.GetGroupByNameSimple | LDAP_DLL/LDAP_Functions.cs:229-258 | no error iff an entry was found; errors leave the result empty; a throwing search → the exception's message; a missing group → "Group '…' not found."; a result is `sAMAccountName=` and the property |
| LdapSetup.ParsePingInfo | LDAP_DLL/LDAP_Setup.cs:39-48 | "N/A" for both fields unless "IPs:" is followed by "HostName:"; otherwise both fields are trimmed (of spaces and commas, and of white space) |
| LdapSetup.ParsePingInfoWindows | LDAP_DLL/LDAP_Setup.cs:42-47 | when both keys are found in order, the addresses are the text between "IPs:" and "HostName:" with only spaces and commas removed around them, and the host name is the text after "HostName:" with only white space removed around it |
| Strings.TrimCharsPadding | LDAP_DLL/LDAP_Setup.cs:46-47 | a trimmed string is its input with only trimmed characters removed before and after it |
| LdapSetup.Banner | LDAP_DLL/LDAP_Setup.cs:54-65 | a new store has eleven lines with the server line at index 5 |
| LdapSetup.BannerLineKinds | LDAP_DLL/LDAP_Setup.cs:54-65 | every other banner line is blank or a `#` comment |
| LdapSetup.ServerLineEditSpec | LDAP_DLL/LDAP_Setup.cs:70-93 | nothing is written when no line starts with `Server:` or the first one already reads the new line once trimmed; otherwise only that line is replaced |
| LdapSetup.RecordLdapServerDetailsSimple | LDAP_DLL/LDAP_Setup.cs:25-103 | a failed ping reports "Failed to ping server: …" and writes nothing; a missing store becomes the banner; an existing store gets ServerLineEdit's lines, written at most once |
| LdapSetup.ServerLineTrimmed | LDAP_DLL/LDAP_Setup.cs:51-75 | a server line with a trimmed host name is unchanged by Trim |
| LdapSetup.ParsedHostNameTrimmed | LDAP_DLL/LDAP_Setup.cs:47 | whatever the ping text, the recorded host name is trimmed |
| LdapSetup.BannerServerLineFirst | LDAP_DLL/LDAP_Setup.cs:54-66 | in a new store the server line is the first line starting with `Server:` |
| LdapSetup.RecordServerTwiceWritesOnce | LDAP_DLL/LDAP_Setup.cs:51-88 | recording the same ping again writes nothing, after a create and after an update |
| LdapSetup.ServerLineEditSettles | LDAP_DLL/LDAP_Setup.cs:73-88 | once a trimmed server line is in place, the edit is skipped |
| LdapSetup.BannerSettled | LDAP_DLL/LDAP_Setup.cs:54-79 | a just-created store needs no edit for the same line |
| LdapSetup.EditedSettled | LDAP_DLL/LDAP_Setup.cs:73-88 | an edited store needs no second edit for the same line |
| LdapSetup.ParsePingInfoRoundTrip | LDAP_DLL/LDAP_Setup.cs:42-47 | the text `Ping succeeded. IPs: …, HostName: …` that the ping reports parses back to its trimmed addresses and host name |
| LdapSetup.UpsertSkips | LDAP_DLL/LDAP_Setup.cs:124 | the save passes over exactly the `#` lines and the blank lines |
| LdapSetup.SaveLdapPermission | LDAP_DLL/LDAP_Setup.cs:107-153 | a missing store → "INI file does not exist." and no write; otherwise the walk writes once, and the lines written are Upserted's |
| LdapSetup.UpsertShape | LDAP_DLL/LDAP_Setup.cs:121-141 | the first row of the principal has only field 2 replaced, or one `name,type,permission` row is appended; no other line changes |
| LdapSetup.AppendedRowIsRow | LDAP_DLL/LDAP_Setup.cs:140 | an appended row splits into its three fields and is a row of its principal |
| LdapSetup.UpsertIdempotent | LDAP_DLL/LDAP_Setup.cs:107-153 | saving the same permission twice leaves the store as after the first save |
| LdapSetup.UpsertedRow | LDAP_DLL/LDAP_Setup.cs:121-141 | after a save, the first row of the principal carries the saved permission |
| LdapSetup.Cleared | LDAP_DLL/LDAP_Setup.cs:167-169 | never longer than the input, and every kept line is a comment, blank or server line once trimmed |
| LdapSetup.ClearedSingle | LDAP_DLL/LDAP_Setup.cs:168 | a line is kept exactly when the filter accepts it |
| LdapSetup.ClearedConcat | LDAP_DLL/LDAP_Setup.cs:167-169 | the filter keeps the order of the lines |
| LdapSetup.ClearedIdempotent | LDAP_DLL/LDAP_Setup.cs:156-181 | clearing a cleared store changes nothing |
| LdapSetup.ClearedKeepsBanner | LDAP_DLL/LDAP_Setup.cs:155-169 | a freshly created store survives clearing whole |
| LdapSetup.AllKeptIsIdentity | LDAP_DLL/LDAP_Setup.cs:167-169 | a store of only kept lines is unchanged |
| LdapSetup.ClearLdapPermissions | LDAP_DLL/LDAP_Setup.cs:156-181 | a missing store is reported and left alone; otherwise exactly the Cleared lines are written once |
| LdapAuthentication.LinePathDecided | LDAP_DLL/LDAP_Authentication.cs:27-34 | a line yields an address iff it starts with `Server: IPs=`; the `IndexOf("IPs=")` test always succeeds there |
| LdapAuthentication.ServerPath | LDAP_DLL/LDAP_Authentication.cs:25-36 | the first `Server: IPs=` line decides; no such line, no address |
| LdapAuthentication.GetLdapPathFromIni | LDAP_DLL/LDAP_Authentication.cs:19-38 | missing file → "INI file does not exist."; an address iff some line starts with `Server: IPs=`, else "LDAP IP not found in INI file header."; the address is the first chunk of the first such line, trimmed |
| LdapAuthentication.IsUserRegistered | LDAP_DLL/LDAP_Authentication.cs:75-112 | missing file reported; true iff the user's first `U` row (three or more fields, `#` and `Server:` lines skipped) has the permission ignoring case; no row → "User not found in INI file."; a refusing row → "User found, but permission type does not match. Expected: …, Found: …" |
| LdapAuthentication.IsUserInRegisteredGroup | LDAP_DLL/LDAP_Authentication.cs:114-157 | an address error is passed on; true iff some directory group of the user has a granting `G` row; no groups → the lookup's message, or "User does not belong to any groups or failed to retrieve groups." when it is empty; groups but no grant → "No registered group found for user in INI file with permission type '…'." |
| LdapAuthentication.Authorization | LDAP_DLL/LDAP_Authentication.cs:40-73 | address and bind failures report their messages; true iff the address is read, the bind succeeds and the user row or a group row grants; a refusal after a read address always has a message, which is the group check's |
| LdapAuthentication.AuthenticateUser | LDAP_DLL/LDAP_Authentication.cs:40-73 | the step sequence that overwrites the error message returns exactly Authorization's answer |
| LdapAuthentication.ServerLineHeaderIps | LDAP_DLL/LDAP_Authentication.cs:27-33 | the engine reads back from a recorded server line the first address of its list, trimmed |
| LdapAuthentication.NewStorePath | LDAP_DLL/LDAP_Authentication.cs:19-38 | a freshly created store yields the first recorded address |
| LdapAuthentication.EditedStorePath | LDAP_DLL/LDAP_Authentication.cs:25-34 | a store whose server line was just rewritten yields the new first address |
| LdapAuthentication.CurrentSkips | LDAP_DLL/LDAP_Authentication.cs:89 | the engine passes over exactly the `#` and `Server:` lines |
| LdapAuthentication.FormatsAgree | LDAP_DLL/LDAP_Authentication.cs:89-91 | for a comma-free name not starting with `#` or `Server:`, the store's and the engine's scans pick the same rows |
| LdapAuthentication.UpsertThenLookup | LDAP_DLL/LDAP_Authentication.cs:87-96 | after SaveLdapPermission(name, "U", perm) the user is registered with perm |
| LdapAuthentication.RowNotKept | LDAP_DLL/LDAP_Setup.cs:168 | a row of a principal whose name does not start with white space is dropped by clearing |
| LdapAuthentication.ClearThenNoRows | LDAP_DLL/LDAP_Authentication.cs:87-105 | after clearing, no row of such a principal remains |
| LdapAuthentication.ClearThenDenied | LDAP_DLL/LDAP_Authentication.cs:134-150 | after clearing, the user is not found and no group grants anything |
| LdapExceptions.Code | LDAP_DLL/LdapExceptions.cs:31-98 | every exception's number lies in 4000..4009 |
| LdapExceptions.KindOfCode | LDAP_DLL/LdapExceptions.cs:31-99 | a number names an exception class iff it lies in 4000..4009 |
| LdapExceptions.CodeRoundTrip | LDAP_DLL/LdapExceptions.cs:31-97 | number and class determine each other |
| LdapExceptions.CodesDistinct | LDAP_DLL/LdapExceptions.cs:32-95 | two classes share a number iff they are the same class |
| LdapExceptions.FamilyOf | LDAP_DLL/LdapExceptions.cs:5-98 | the authentication family is exactly 4000, 4001, 4004 and 4005; the rest derive from the setup base |
| LdapExceptions.MessagesMatchEngine | LDAP_DLL/LdapExceptions.cs:38-98 | the 4001, 4002, 4003, 4005 and 4009 messages are the texts the store and the engine report for the same conditions |
| LdapExceptions.PermissionChoicesListed | LDAP_DLL/LdapExceptions.cs:73-77 | the 4006 message names `A (Admin)` and `O (Operator)` |
| LdapExceptions.EntryChoicesListed | LDAP_DLL/LdapExceptions.cs:80-84 | the 4007 message names `U (User)` and `G (Group)` |
| LdapResponse.DefaultResponseSucceeds | LDAP_DLL/LdapResponse.cs:10-35 | a fresh envelope reports success with number 0 and carries nothing; every exception number differs from it |
| LegacySetup.LegacyRecordServer | LDAP_DLL/Setup.cs:19-70 | a failed ping reports its text; a missing store is created as the banner; an existing store is never touched |
| LegacySetup.LegacyHeaderRewritten | LDAP_DLL/Setup.cs:54 | the older banner's `HostMame=` line is always rewritten by the current record of the same server |
| LegacySetup.LegacyLineNotCurrent | LDAP_DLL/Setup.cs:54 | the older server line never equals the current one, even trimmed |
| LegacySetup.RecordLdapEntry | LDAP_DLL/Setup.cs:83-98 | appends `name,type,permission,timestamp`, creating the file if needed |
| LegacySetup.RecordLdapUserDetailsSimple | LDAP_DLL/Setup.cs:73-76 | appends a `User` entry with permission `O` |
| LegacySetup.RecordLdapGroupDetailsSimple | LDAP_DLL/Setup.cs:78-81 | appends a `Group` entry with permission `O` |
| LegacySetup.LegacySkips | LDAP_DLL/Setup.cs:126 | the older scans pass over exactly the `#` and `Name,` lines |
| LegacySetup.MarkPermission | LDAP_DLL/Setup.cs:111-150 | missing file → its message; no four-field row → "{type} '{name}' not found in INI file." and no write; otherwise one write of the Marked lines |
| LegacySetup.MarkUserPermission | LDAP_DLL/Setup.cs:100-103 | MarkPermission with type `User`: missing file → "INI file does not exist."; no row → "User '…' not found in INI file." and no write; otherwise one write of the Marked lines |
| LegacySetup.MarkGroupPermission | LDAP_DLL/Setup.cs:105-108 | MarkPermission with type `Group`: missing file → "INI file does not exist."; no row → "Group '…' not found in INI file." and no write; otherwise one write of the Marked lines |
| LegacySetup.MarkShape | LDAP_DLL/Setup.cs:123-135 | only field 2 of the first four-field row of the principal changes; every other line stays |
| LegacySetup.MarkIdempotent | LDAP_DLL/Setup.cs:111-150 | marking the same permission twice is marking it once |
| LegacySetup.NotHeaderRow | LDAP_DLL/Setup.cs:126 | a row whose comma-free name is not `Name` is not taken for the header |
| LegacySetup.EntryShape | LDAP_DLL/Setup.cs:88 | an entry splits into its four fields |
| LegacySetup.EntryIsRow | LDAP_DLL/Setup.cs:88 | an entry is a four-field row of its principal for the older scans |
| LegacySetup.RecordThenMark | LDAP_DLL/Setup.cs:83-135 | after recording an entry, marking that principal always finds a row |
| LegacySetup.ThreeFieldRowIgnored | LDAP_DLL/Setup.cs:128 | a three-field row of the current store is never a row for the older scans |
| LegacyAuthentication.AuthenticateUser | LDAP_DLL/Authentication.cs:13-30 | true with an empty message iff the bind on the path as given succeeds; otherwise the bind's message |
| LegacyAuthentication.IsUserRegistered | LDAP_DLL/Authentication.cs:32-69 | missing file reported; true iff the user's first four-field `User` row has the permission ignoring case; no row → "User not found in INI file."; a refusing row → "User found, but permission type does not match. Expected: …, Found: …" |
| LegacyAuthentication.IsUserInRegisteredGroup | LDAP_DLL/Authentication.cs:72-114 | no groups → false with the lookup's message or the default; missing file → its message; true iff some group has a granting four-field `Group` row; otherwise "No registered group found for user in INI file with permission type '…'." |
| LegacyAuthentication.RecordThenRegistered | LDAP_DLL/Authentication.cs:43-60 | a user recorded on a store without a row for it is registered with the recorded permission, in any letter case |
| LegacyAuthentication.SnapshotsDisjoint | LDAP_DLL/Authentication.cs:46-48 | a current `name,U,perm` row is invisible to the older scans and an older `User` entry is invisible to the current engine |
| Authenticator.StatusCode | LDAPConsoleTest_4.8/Authenticator.cs:6-13 | the codes lie in 0..4, and 0 is exactly Success |
| Authenticator.StatusCodesDistinct | LDAPConsoleTest_4.8/Authenticator.cs:8-12 | distinct statuses have distinct codes |
| Authenticator.Enumerated | LDAPConsoleTest_4.8/Authenticator.cs:108-111 | a name per group in enumeration order, or a throw iff some step throws |
| Authenticator.UserGroups | LDAPConsoleTest_4.8/Authenticator.cs:105-113 | an unknown user has no groups; a throwing lookup throws; otherwise the enumeration |
| Authenticator.GetUserGroups | LDAPConsoleTest_4.8/Authenticator.cs:102-114 | the `foreach`/`Add` loop returns exactly UserGroups |
| Authenticator.Decision | LDAPConsoleTest_4.8/Authenticator.cs:43-97 | never UserNotFound; InvalidCredentials iff the context opens and the credentials are rejected; LdapError iff the context does not open, the validation throws, or the group lookup after valid credentials throws; Success iff valid credentials, fetched groups, and the user listed or a group allowed; so NoPermission is what remains; InvalidCredentials and LdapError carry no groups, Success and NoPermission carry the fetched groups |
| Authenticator.Authenticate | LDAPConsoleTest_4.8/Authenticator.cs:43-97 | the step-by-step method with its group loop returns exactly Decision's result |
| Authenticator.ListedIgnoresAllowedGroups | LDAPConsoleTest_4.8/Authenticator.cs:52-66 | for a listed user the allowed groups never matter |
| Authenticator.ListedIgnoresCase | LDAPConsoleTest_4.8/Authenticator.cs:52 | a case variant of a listed name is listed |
| Authenticator.WiderConfigKeepsSuccess | LDAPConsoleTest_4.8/Authenticator.cs:78-86 | adding users or groups to the configuration never takes success away |
| LdapService.NewService | LDAPConsoleTest/LDAPService.cs:14-26 | a null or blank URL → ArgumentException; a null user list, then a null admin list → ArgumentNullException; otherwise the service holds the three arguments |
| LdapService.NamedGroups | LDAPConsoleTest/LDAPService.cs:80-88 | exactly the non-null, non-empty group names are kept |
| LdapService.Login | LDAPConsoleTest/LDAPService.cs:48-112 | blank upn → ArgumentException; null password → ArgumentNullException; a throwing validation or lookup → DirectoryFailure; invalid credentials and a missing user → AuthenticationException with their messages; a result exists iff the arguments are present, the credentials are valid and the user is found; it is authenticated, and IsAdmin/IsUser hold iff a named group matches an admin/user group ignoring case |
| LdapService.OverlapOfNamed | LDAPConsoleTest/LDAPService.cs:80-95 | overlap with the filtered names is overlap with some non-null, non-empty raw name |
| LdapService.FlagsIndependent | LDAPConsoleTest/LDAPService.cs:93-95 | the admin flag does not depend on the user groups, nor the user flag on the admin groups |
| LdapService.EmptyGroupNeverMatches | LDAPConsoleTest/LDAPService.cs:86-93 | an empty configured group name never makes anyone admin |
| LdapService.Request | LDAPConsoleTest/LDAPService.cs:115-128 | "InactivityTimeout" → "30" and "MinPasswordLength" → "8"; anything else, null included, is refused with "Unsupported type" |

## Left out

- File I/O failures: `File.Exists`, `ReadAllLines`, `WriteAllLines`, `WriteAllText` and `AppendAllText` are assumed to succeed, so the `catch (Exception ex)` branches that report `ex.Message` are not modelled.
- The path of `LDAP.ini`, resolved through reflection (`GetIniPath`), is not modelled. The file is one `IniFile` object.
- Line endings and the text encoding of `ReadAllLines`/`WriteAllLines` are not modelled. The store is a sequence of lines, and the banner's `AppendLine()` calls are its lines.
- Culture-sensitive `StartsWith` and `IndexOf` are modelled as ordinal comparisons. `OrdinalIgnoreCase` folds ASCII letters only.
- The directory, bind, ping, DNS and `PrincipalContext` calls are oracles passed as parameters.
  - The LDAP filter strings built from user input are not modelled. They are not escaped.
  - `PingServerSimple` appears only as its reply (`PingReply`) and as the success text it formats.
- The LDAP_Setup and Setup passthroughs (`GetUser`, `GetGroup`, `GetAllGroups`, `GetUsersInGroup`, `TestConnection`) are not modelled. They only forward to the directory functions.
- `GetAllLdapGroupsArray` and `GetUsersInGroupArray` are directory listings with no logic of their own, and are not modelled.
- `DateTime.Now` in `RecordLdapEntry` is a `timestamp` parameter.
- Concurrent access to the store is not modelled; the source has no locking.
- No code validates permission or entry types, so exceptions 4006 and 4007 are only a table here. The engine reports errors through `out` messages and throws none of the `LdapExceptions` classes.
- LdapResponse: no code converts an outcome into an envelope, so only the default values are modelled.
- LdapAuthentication.Authorization: the default text "User does not have the required permission type." is never produced, because a failed group check always carries a non-empty message (the contract proves the message is the group check's). It is kept only as the constant `NoPermissionMessage`.
- LDAP_Authentication's `AuthenticateUser` passes the bind user's `username` both as the principal to look up and as the bind user, and the model does the same. The older `IsUserInRegisteredGroup` takes a separate `userName`, which is kept.
- LdapSetup.UpsertShape, LdapSetup.AppendedRowIsRow, LdapSetup.UpsertIdempotent, LdapSetup.UpsertedRow, LdapAuthentication.UpsertThenLookup, LdapAuthentication.FormatsAgree, LegacySetup.MarkShape, LegacySetup.MarkIdempotent, LegacySetup.EntryShape, LegacySetup.EntryIsRow, LegacySetup.RecordThenMark and LegacyAuthentication.RecordThenRegistered assume comma-free fields (name, type, permission and, in the older rows, the timestamp). Neither snapshot escapes commas: `string.Join(",", parts)` writes a field with a comma as two fields. In the source, marking `A,B` twice turns `n,User,O,ts` into `n,User,A,B,ts` and then `n,User,A,B,B,ts`, so the operations are not idempotent for such values, and the lemmas make no claim there.
- LegacySetup.RecordThenMark and LegacyAuthentication.RecordThenRegistered also exclude the name `Name`. Its entry line starts with `Name,` and is skipped as the header.
- LdapAuthentication.ClearThenDenied and LdapAuthentication.ClearThenNoRows require names that do not start with white space. Take a row such as ` #x,U,A`: the engine reads it as a row of ` #x`, but clearing keeps it, because its trimmed text starts with `#`.
- Authenticator.DomainContext: a null `userTypeConfig` or a null list inside it (a NullReferenceException caught as LdapError) is not modelled. Null group names are not modelled either.
- LdapService.NewService: a throw from the `PrincipalContext` constructor and from `Dispose` are not modelled. `Init` only reports that the context exists, which is always true after construction.
- LdapService.Login: a throw from the directory is the single error `DirectoryFailure`, not the exception's own type.
- The console front-ends (`Program.cs`), the WPF pages and the test projects are not part of this model.

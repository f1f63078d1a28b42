/**
 * LdapExceptions: the closed table of error codes 4000..4009, the family each code belongs to
 * (setup or authentication) and the message each exception carries.
 */
module LdapExceptions {
  import opened Wrappers
  import opened Strings
  import RowScan
  import LdapSetup
  import LdapAuthentication

  /** The ten exception classes, without their arguments. */
  datatype ErrorKind =
    | UserNotFoundKind | PermissionMismatchKind | IniFileNotFoundKind | IpNotFoundKind
    | UserNotInGroupKind | NoRegisteredGroupKind | InvalidPermissionTypeKind
    | InvalidEntryTypeKind | IniFileWriteKind | PingFailedKind

  /** The two base classes: LdapSetupException and LdapAuthenticationException. */
  datatype Family = SetupFamily | AuthenticationFamily

  /** An exception as thrown: its class and the values its message embeds. */
  datatype LdapError =
    | UserNotFound(userName: string)
    | PermissionMismatch(expected: string, found: string)
    | IniFileNotFound
    | IpNotFound
    | UserNotInGroup(userName: string)
    | NoRegisteredGroup(permissionType: string)
    | InvalidPermissionType(permissionType: string)
    | InvalidEntryType(entryType: string)
    | IniFileWrite(message: string)
    | PingFailed(message: string)

  function Kind(e: LdapError): ErrorKind {
    match e
    case UserNotFound(_) => UserNotFoundKind
    case PermissionMismatch(_, _) => PermissionMismatchKind
    case IniFileNotFound => IniFileNotFoundKind
    case IpNotFound => IpNotFoundKind
    case UserNotInGroup(_) => UserNotInGroupKind
    case NoRegisteredGroup(_) => NoRegisteredGroupKind
    case InvalidPermissionType(_) => InvalidPermissionTypeKind
    case InvalidEntryType(_) => InvalidEntryTypeKind
    case IniFileWrite(_) => IniFileWriteKind
    case PingFailed(_) => PingFailedKind
  }

  /** The ErrorNumber each class passes to its base constructor. */
  function Code(k: ErrorKind): (n: int)
    ensures 4000 <= n <= 4009
  {
    match k
    case UserNotFoundKind => 4000
    case PermissionMismatchKind => 4001
    case IniFileNotFoundKind => 4002
    case IpNotFoundKind => 4003
    case UserNotInGroupKind => 4004
    case NoRegisteredGroupKind => 4005
    case InvalidPermissionTypeKind => 4006
    case InvalidEntryTypeKind => 4007
    case IniFileWriteKind => 4008
    case PingFailedKind => 4009
  }

  function ErrorNumber(e: LdapError): int {
    Code(Kind(e))
  }

  /** The class an error number stands for, if any. */
  function KindOfCode(n: int): (r: Option<ErrorKind>)
    ensures r.Some? <==> 4000 <= n <= 4009
  {
    if n == 4000 then Some(UserNotFoundKind)
    else if n == 4001 then Some(PermissionMismatchKind)
    else if n == 4002 then Some(IniFileNotFoundKind)
    else if n == 4003 then Some(IpNotFoundKind)
    else if n == 4004 then Some(UserNotInGroupKind)
    else if n == 4005 then Some(NoRegisteredGroupKind)
    else if n == 4006 then Some(InvalidPermissionTypeKind)
    else if n == 4007 then Some(InvalidEntryTypeKind)
    else if n == 4008 then Some(IniFileWriteKind)
    else if n == 4009 then Some(PingFailedKind)
    else None
  }

  /** Each code names one class and each class has one code, so the codes are pairwise distinct. */
  lemma CodeRoundTrip(k: ErrorKind, n: int)
    ensures KindOfCode(Code(k)) == Some(k)
    ensures KindOfCode(n).Some? ==> Code(KindOfCode(n).value) == n
  {
  }

  lemma CodesDistinct(a: ErrorKind, b: ErrorKind)
    ensures Code(a) == Code(b) <==> a == b
  {
    CodeRoundTrip(a, 0);
    CodeRoundTrip(b, 0);
  }

  /** The base class each exception derives from. */
  function FamilyOf(k: ErrorKind): (f: Family)
    ensures f == AuthenticationFamily <==> Code(k) in {4000, 4001, 4004, 4005}
  {
    match k
    case UserNotFoundKind | PermissionMismatchKind | UserNotInGroupKind | NoRegisteredGroupKind => AuthenticationFamily
    case _ => SetupFamily
  }

  /** The choices the 4006 and 4007 messages offer. */
  const AdminChoice := "A (Admin)"
  const OperatorChoice := "O (Operator)"
  const UserChoice := "U (User)"
  const GroupChoice := "G (Group)"

  /** The exception's Message. */
  function Message(e: LdapError): string {
    match e
    case UserNotFound(u) => "User '" + u + "' not found in INI file."
    case PermissionMismatch(x, y) => "User found, but permission type does not match. Expected: " + x + ", Found: " + y
    case IniFileNotFound => "INI file does not exist."
    case IpNotFound => "LDAP IP not found in INI file header."
    case UserNotInGroup(u) => "User '" + u + "' does not belong to any groups or failed to retrieve groups."
    case NoRegisteredGroup(p) => "No registered group found for user in INI file with permission type '" + p + "'."
    case InvalidPermissionType(p) => "Invalid permission type: '" + p + "'. Allowed: " + AdminChoice + ", " + OperatorChoice + "."
    case InvalidEntryType(t) => "Invalid entry type: '" + t + "'. Allowed: " + UserChoice + ", " + GroupChoice + "."
    case IniFileWrite(m) => "Failed to write to INI file: " + m
    case PingFailed(m) => "Failed to ping server: " + m
  }

  /**
   * The messages of 4002, 4003, 4001, 4005 and 4009 are, letter for letter, the texts the store
   * and the engine report for the same conditions.
   */
  lemma MessagesMatchEngine(expected: string, found: string, perm: string, pingText: string)
    ensures Message(IniFileNotFound) == RowScan.MissingFileMessage
    ensures Message(IpNotFound) == LdapAuthentication.IpNotFoundMessage
    ensures Message(PermissionMismatch(expected, found)) == RowScan.MismatchMessage(expected, found)
    ensures Message(NoRegisteredGroup(perm)) == RowScan.NoRegisteredGroupMessage(perm)
    ensures Message(PingFailed(pingText)) == LdapSetup.PingFailedPrefix + pingText
  {
  }

  /** `p` occurs in `x + p + y` right after `x`. */
  lemma OccursBetween(x: string, p: string, y: string)
    ensures Contains(x + p + y, p)
  {
    var s := x + p + y;
    assert s[|x|..|x| + |p|] == p;
    assert OccursAt(s, p, |x|, Ordinal);
  }

  /** The 4006 message names the allowed permissions A and O. */
  lemma PermissionChoicesListed(p: string)
    ensures Contains(Message(InvalidPermissionType(p)), AdminChoice)
    ensures Contains(Message(InvalidPermissionType(p)), OperatorChoice)
  {
    var pre := "Invalid permission type: '" + p + "'. Allowed: ";
    OccursBetween(pre, AdminChoice, ", " + OperatorChoice + ".");
    OccursBetween(pre + AdminChoice + ", ", OperatorChoice, ".");
  }

  /** The 4007 message names the allowed entry types U and G. */
  lemma EntryChoicesListed(t: string)
    ensures Contains(Message(InvalidEntryType(t)), UserChoice)
    ensures Contains(Message(InvalidEntryType(t)), GroupChoice)
  {
    var pre := "Invalid entry type: '" + t + "'. Allowed: ";
    OccursBetween(pre, UserChoice, ", " + GroupChoice + ".");
    OccursBetween(pre + UserChoice + ", ", GroupChoice, ".");
  }
}

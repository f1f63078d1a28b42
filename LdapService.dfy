/**
 * LdapService of the .NET console: a service holds the admin and user group names; Login binds
 * with a user principal name and reports, for the user's authorization groups, whether any is
 * an admin group and whether any is a user group, both ignoring letter case.
 */
module LdapService {
  import opened Wrappers
  import opened Strings

  /** The exceptions the service raises itself; a directory call that throws is DirectoryFailure. */
  datatype ServiceError =
    | ArgumentError(message: string)
    | ArgumentNullError(paramName: string)
    | AuthenticationError(message: string)
    | DirectoryFailure

  /** The readonly fields once the constructor has returned. */
  datatype Service = Service(ldapUrl: string, userGroups: seq<string>, adminGroups: seq<string>)

  /** The console's AuthResult; the service never sets ErrorMessage. */
  datatype AuthResult = AuthResult(isAuthenticated: bool, isUser: bool, isAdmin: bool, errorMessage: Option<string>)

  /**
   * The directory behind the context: what ValidateCredentials answers, and per user principal
   * name the principal found (None when there is none) with the SamAccountName of each of its
   * authorization groups (None for a null name).
   */
  datatype Directory = Directory(
    validate: (string, string) -> Attempt<bool>,
    findByUpn: string -> Attempt<Option<seq<Option<string>>>>)

  /** string.IsNullOrWhiteSpace. */
  predicate IsNullOrWhiteSpace(s: Option<string>) {
    s.None? || IsBlank(s.value)
  }

  /** The constructor: the URL is checked first, then the user groups, then the admin groups. */
  function NewService(ldapUrl: Option<string>, userGroupNames: Option<seq<string>>, adminGroupNames: Option<seq<string>>): (r: Result<Service, ServiceError>)
    ensures IsNullOrWhiteSpace(ldapUrl) ==> r == Err(ArgumentError("ldapUrl"))
    ensures !IsNullOrWhiteSpace(ldapUrl) && userGroupNames.None? ==> r == Err(ArgumentNullError("userGroupNames"))
    ensures !IsNullOrWhiteSpace(ldapUrl) && userGroupNames.Some? && adminGroupNames.None? ==> r == Err(ArgumentNullError("adminGroupNames"))
    ensures r.Ok? <==> !IsNullOrWhiteSpace(ldapUrl) && userGroupNames.Some? && adminGroupNames.Some?
    ensures r.Ok? ==> r.value == Service(ldapUrl.value, userGroupNames.value, adminGroupNames.value)
  {
    if IsNullOrWhiteSpace(ldapUrl) then Err(ArgumentError("ldapUrl"))
    else if userGroupNames.None? then Err(ArgumentNullError("userGroupNames"))
    else if adminGroupNames.None? then Err(ArgumentNullError("adminGroupNames"))
    else Ok(Service(ldapUrl.value, userGroupNames.value, adminGroupNames.value))
  }

  /** The user's group set: the names that are neither null nor empty, in order. */
  function NamedGroups(names: seq<Option<string>>): (r: seq<string>)
    ensures forall k :: 0 <= k < |r| ==> r[k] != "" && Some(r[k]) in names
    ensures forall i :: 0 <= i < |names| && names[i].Some? && names[i].value != "" ==> names[i].value in r
  {
    if names == [] then []
    else
      var rest := NamedGroups(names[1..]);
      assert forall i :: 1 <= i < |names| ==> names[i] == names[1..][i - 1];
      if names[0].Some? && names[0].value != "" then [names[0].value] + rest else rest
  }

  /** HashSet.Overlaps under StringComparer.OrdinalIgnoreCase. */
  predicate Overlaps(a: seq<string>, b: seq<string>) {
    exists i, j :: 0 <= i < |a| && 0 <= j < |b| && EqualsIgnoreCase(a[i], b[j])
  }

  /** Login: argument checks, the bind, the principal lookup, then the two overlap tests. */
  function Login(svc: Service, dir: Directory, upn: Option<string>, password: Option<string>): (r: Result<AuthResult, ServiceError>)
    ensures IsNullOrWhiteSpace(upn) ==> r == Err(ArgumentError("upn"))
    ensures !IsNullOrWhiteSpace(upn) && password.None? ==> r == Err(ArgumentNullError("password"))
    ensures !IsNullOrWhiteSpace(upn) && password.Some? && dir.validate(upn.value, password.value) == Done(false) ==>
      r == Err(AuthenticationError(InvalidCredentialsMessage))
    ensures !IsNullOrWhiteSpace(upn) && password.Some? && dir.validate(upn.value, password.value).Threw? ==>
      r == Err(DirectoryFailure)
    ensures !IsNullOrWhiteSpace(upn) && password.Some? && dir.validate(upn.value, password.value) == Done(true) ==>
      && (dir.findByUpn(upn.value) == Done(None) ==> r == Err(AuthenticationError(UserNotFoundMessage)))
      && (dir.findByUpn(upn.value).Threw? ==> r == Err(DirectoryFailure))
    ensures r.Ok? <==>
      && !IsNullOrWhiteSpace(upn) && password.Some? && dir.validate(upn.value, password.value) == Done(true)
      && dir.findByUpn(upn.value).Done? && dir.findByUpn(upn.value).value.Some?
    ensures r.Ok? ==> r.value.isAuthenticated && r.value.errorMessage.None?
    ensures r.Ok? ==> var names := dir.findByUpn(upn.value).value.value;
      && (r.value.isAdmin <==> exists i, j :: 0 <= i < |names| && 0 <= j < |svc.adminGroups| && names[i].Some? && names[i].value != "" && EqualsIgnoreCase(names[i].value, svc.adminGroups[j]))
      && (r.value.isUser <==> exists i, j :: 0 <= i < |names| && 0 <= j < |svc.userGroups| && names[i].Some? && names[i].value != "" && EqualsIgnoreCase(names[i].value, svc.userGroups[j]))
  {
    if IsNullOrWhiteSpace(upn) then Err(ArgumentError("upn"))
    else if password.None? then Err(ArgumentNullError("password"))
    else match dir.validate(upn.value, password.value)
      case Threw => Err(DirectoryFailure)
      case Done(valid) =>
        if !valid then Err(AuthenticationError(InvalidCredentialsMessage))
        else match dir.findByUpn(upn.value)
          case Threw => Err(DirectoryFailure)
          case Done(None) => Err(AuthenticationError(UserNotFoundMessage))
          case Done(Some(names)) =>
            var groups := NamedGroups(names);
            OverlapOfNamed(names, svc.adminGroups);
            OverlapOfNamed(names, svc.userGroups);
            Ok(AuthResult(true, Overlaps(groups, svc.userGroups), Overlaps(groups, svc.adminGroups), None))
  }

  const InvalidCredentialsMessage := "Invalid credentials or unable to bind to Active Directory."
  const UserNotFoundMessage := "User not found in Active Directory."

  /** Overlap with the filtered names is overlap with some non-null, non-empty raw name. */
  lemma OverlapOfNamed(names: seq<Option<string>>, b: seq<string>)
    ensures Overlaps(NamedGroups(names), b) <==>
      exists i, j :: 0 <= i < |names| && 0 <= j < |b| && names[i].Some? && names[i].value != "" && EqualsIgnoreCase(names[i].value, b[j])
  {
    var g := NamedGroups(names);
    if Overlaps(g, b) {
      var k, j :| 0 <= k < |g| && 0 <= j < |b| && EqualsIgnoreCase(g[k], b[j]);
      var i :| 0 <= i < |names| && names[i] == Some(g[k]);
      assert names[i].Some? && names[i].value != "" && EqualsIgnoreCase(names[i].value, b[j]);
    }
    if exists i, j :: 0 <= i < |names| && 0 <= j < |b| && names[i].Some? && names[i].value != "" && EqualsIgnoreCase(names[i].value, b[j]) {
      var i, j :| 0 <= i < |names| && 0 <= j < |b| && names[i].Some? && names[i].value != "" && EqualsIgnoreCase(names[i].value, b[j]);
      var k :| 0 <= k < |g| && g[k] == names[i].value;
      assert EqualsIgnoreCase(g[k], b[j]);
    }
  }

  /**
   * The two flags are independent: the admin flag does not depend on the user groups and the
   * user flag does not depend on the admin groups.
   */
  lemma FlagsIndependent(svc: Service, dir: Directory, upn: Option<string>, password: Option<string>, other: seq<string>)
    requires Login(svc, dir, upn, password).Ok?
    ensures Login(svc.(userGroups := other), dir, upn, password).Ok?
    ensures Login(svc.(userGroups := other), dir, upn, password).value.isAdmin == Login(svc, dir, upn, password).value.isAdmin
    ensures Login(svc.(adminGroups := other), dir, upn, password).value.isUser == Login(svc, dir, upn, password).value.isUser
  {
  }

  /** An empty configured group name never matches: the user's groups hold no empty names. */
  lemma EmptyGroupNeverMatches(svc: Service, dir: Directory, upn: Option<string>, password: Option<string>)
    requires Login(svc, dir, upn, password).Ok?
    ensures Login(svc.(adminGroups := svc.adminGroups + [""]), dir, upn, password) == Login(svc, dir, upn, password)
  {
    var names := dir.findByUpn(upn.value).value.value;
    var g := NamedGroups(names);
    var wider := svc.adminGroups + [""];
    forall i, j | 0 <= i < |g| && 0 <= j < |wider| && EqualsIgnoreCase(g[i], wider[j])
      ensures j < |svc.adminGroups| && EqualsIgnoreCase(g[i], svc.adminGroups[j])
    {
      assert |g[i]| != 0;
    }
    assert Overlaps(g, wider) == Overlaps(g, svc.adminGroups);
  }

  /** Request: the two supported settings and their stub values; anything else is refused. */
  function Request(type_: Option<string>): (r: Result<string, ServiceError>)
    ensures r.Ok? <==> type_ == Some("InactivityTimeout") || type_ == Some("MinPasswordLength")
    ensures !r.Ok? ==> r == Err(ArgumentError("Unsupported type"))
    ensures type_ == Some("InactivityTimeout") ==> r == Ok("30")
    ensures type_ == Some("MinPasswordLength") ==> r == Ok("8")
  {
    if type_ == Some("InactivityTimeout") then Ok("30")
    else if type_ == Some("MinPasswordLength") then Ok("8")
    else Err(ArgumentError("Unsupported type"))
  }
}

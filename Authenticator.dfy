/**
 * LdapAuthenticator of the .NET Framework console: a user type is a list of explicitly admitted
 * user names and a list of admitted groups. A listed user needs only valid credentials; anyone
 * else also needs a directory group among the admitted ones.
 */
module Authenticator {
  import opened Wrappers
  import opened Strings

  datatype AuthStatus = Success | UserNotFound | InvalidCredentials | NoPermission | LdapError

  /** The enum's underlying values. */
  function StatusCode(s: AuthStatus): (n: int)
    ensures 0 <= n <= 4
    ensures n == 0 <==> s == Success
  {
    match s
    case Success => 0
    case UserNotFound => 1
    case InvalidCredentials => 2
    case NoPermission => 3
    case LdapError => 4
  }

  lemma StatusCodesDistinct(a: AuthStatus, b: AuthStatus)
    ensures StatusCode(a) == StatusCode(b) <==> a == b
  {
  }

  datatype AuthResult = AuthResult(status: AuthStatus, groups: seq<string>)

  datatype UserTypeConfig = UserTypeConfig(explicitUsers: seq<string>, allowedGroups: seq<string>)

  /**
   * The domain as the authenticator sees it: whether a PrincipalContext can be opened, what
   * ValidateCredentials answers, and, per user name, the principal found (None when there is
   * none) with the SamAccountName of each group its GetGroups enumeration yields, or throws.
   */
  datatype DomainContext = DomainContext(
    opens: bool,
    validate: (string, string) -> Attempt<bool>,
    findUser: string -> Attempt<Option<seq<Attempt<string>>>>)

  /** `List.Contains(x, StringComparer.OrdinalIgnoreCase)`. */
  predicate Listed(xs: seq<string>, x: string) {
    exists j :: 0 <= j < |xs| && EqualsIgnoreCase(xs[j], x)
  }

  /** Some group of `gs` is listed in `allowed`. */
  predicate AnyAllowed(gs: seq<string>, allowed: seq<string>) {
    exists i :: 0 <= i < |gs| && Listed(allowed, gs[i])
  }

  /** Enumerating `gs` to the end: every name in order, or a throw if any step throws. */
  function Enumerated(gs: seq<Attempt<string>>): (r: Attempt<seq<string>>)
    ensures r.Done? <==> forall i :: 0 <= i < |gs| ==> gs[i].Done?
    ensures r.Done? ==> |r.value| == |gs| && forall i :: 0 <= i < |gs| ==> r.value[i] == gs[i].value
  {
    if gs == [] then Done([])
    else match gs[0]
      case Threw => Threw
      case Done(n) =>
        match Enumerated(gs[1..])
        case Threw => Threw
        case Done(rest) => Done([n] + rest)
  }

  /** What GetUserGroups yields: no groups for an unknown user, else the enumeration. */
  function UserGroups(ctx: DomainContext, username: string): (r: Attempt<seq<string>>)
    ensures ctx.findUser(username) == Done(None) ==> r == Done([])
    ensures ctx.findUser(username).Threw? ==> r.Threw?
    ensures ctx.findUser(username).Done? && ctx.findUser(username).value.Some? ==>
      r == Enumerated(ctx.findUser(username).value.value)
  {
    match ctx.findUser(username)
    case Threw => Threw
    case Done(None) => Done([])
    case Done(Some(gs)) => Enumerated(gs)
  }

  /**
   * GetUserGroups: one Add per group, in enumeration order; a throw while looking the user up
   * or enumerating escapes to the caller.
   */
  method GetUserGroups(ctx: DomainContext, username: string) returns (r: Attempt<seq<string>>)
    ensures r == UserGroups(ctx, username)
  {
    var user := ctx.findUser(username);
    if user.Threw? {
      return Threw;
    }
    var groups: seq<string> := [];
    if user.value.Some? {
      var gs := user.value.value;
      var i := 0;
      while i < |gs|
        invariant 0 <= i <= |gs|
        invariant |groups| == i
        invariant forall j :: 0 <= j < i ==> gs[j].Done? && groups[j] == gs[j].value
      {
        if gs[i].Threw? {
          return Threw;
        }
        groups := groups + [gs[i].value];
        i := i + 1;
      }
      assert Enumerated(gs).Done?;
      assert groups == Enumerated(gs).value;
    }
    return Done(groups);
  }

  /**
   * The decision as a single rule: a context that cannot be opened, a throwing call or a
   * throwing group lookup give LdapError with no groups; rejected credentials give
   * InvalidCredentials with no groups; otherwise a listed user, or one with an allowed group,
   * succeeds and anyone else gets NoPermission, both with the fetched groups.
   */
  function Decision(ctx: DomainContext, username: string, password: string, config: UserTypeConfig): (r: AuthResult)
    ensures r.status != UserNotFound
    ensures r.status in {InvalidCredentials, LdapError} ==> r.groups == []
    ensures r.status == InvalidCredentials <==> ctx.opens && ctx.validate(username, password) == Done(false)
    ensures r.status == LdapError <==>
      || !ctx.opens || ctx.validate(username, password).Threw?
      || (ctx.validate(username, password) == Done(true) && UserGroups(ctx, username).Threw?)
    ensures r.status == Success <==>
      && ctx.opens && ctx.validate(username, password) == Done(true) && UserGroups(ctx, username).Done?
      && (Listed(config.explicitUsers, username) || AnyAllowed(UserGroups(ctx, username).value, config.allowedGroups))
    ensures r.status in {Success, NoPermission} ==>
      UserGroups(ctx, username).Done? && r.groups == UserGroups(ctx, username).value
  {
    if !ctx.opens then AuthResult(LdapError, [])
    else match ctx.validate(username, password)
      case Threw => AuthResult(LdapError, [])
      case Done(valid) =>
        if !valid then AuthResult(InvalidCredentials, [])
        else match UserGroups(ctx, username)
          case Threw => AuthResult(LdapError, [])
          case Done(gs) =>
            if Listed(config.explicitUsers, username) || AnyAllowed(gs, config.allowedGroups)
            then AuthResult(Success, gs)
            else AuthResult(NoPermission, gs)
  }

  /**
   * Authenticate: the explicit list is consulted first and then credentials alone decide; an
   * unlisted user is bound, its groups fetched and scanned for an allowed one. Every throw is
   * caught and reported as LdapError.
   */
  method Authenticate(ctx: DomainContext, username: string, password: string, config: UserTypeConfig) returns (r: AuthResult)
    ensures r == Decision(ctx, username, password, config)
  {
    r := AuthResult(LdapError, []);
    if !ctx.opens {
      return;
    }
    if Listed(config.explicitUsers, username) {
      var valid := ctx.validate(username, password);
      if valid.Threw? {
        return;
      }
      if valid.value {
        var groups := GetUserGroups(ctx, username);
        if groups.Threw? {
          return;
        }
        r := AuthResult(Success, groups.value);
      } else {
        r := AuthResult(InvalidCredentials, []);
      }
      return;
    }
    var valid := ctx.validate(username, password);
    if valid.Threw? {
      return;
    }
    if !valid.value {
      r := AuthResult(InvalidCredentials, []);
      return;
    }
    var fetched := GetUserGroups(ctx, username);
    if fetched.Threw? {
      return;
    }
    var groups := fetched.value;
    r := AuthResult(NoPermission, groups);
    var i := 0;
    while i < |groups|
      invariant 0 <= i <= |groups|
      invariant r == AuthResult(NoPermission, groups)
      invariant forall j :: 0 <= j < i ==> !Listed(config.allowedGroups, groups[j])
    {
      if Listed(config.allowedGroups, groups[i]) {
        r := AuthResult(Success, groups);
        return;
      }
      i := i + 1;
    }
  }

  /** For a listed user the admitted groups are never consulted. */
  lemma ListedIgnoresAllowedGroups(ctx: DomainContext, username: string, password: string, config: UserTypeConfig, other: seq<string>)
    requires Listed(config.explicitUsers, username)
    ensures Decision(ctx, username, password, config) == Decision(ctx, username, password, config.(allowedGroups := other))
  {
  }

  /** The explicit list matches ignoring letter case: a case variant of a listed name is listed. */
  lemma ListedIgnoresCase(xs: seq<string>, u: string, v: string)
    requires EqualsIgnoreCase(u, v)
    ensures Listed(xs, u) <==> Listed(xs, v)
  {
    if Listed(xs, u) {
      var j :| 0 <= j < |xs| && EqualsIgnoreCase(xs[j], u);
      assert EqualsIgnoreCase(xs[j], v);
    }
    if Listed(xs, v) {
      var j :| 0 <= j < |xs| && EqualsIgnoreCase(xs[j], v);
      assert EqualsIgnoreCase(xs[j], u);
    }
  }

  /** Admitting more groups, or more users, never takes success away from anyone. */
  lemma WiderConfigKeepsSuccess(ctx: DomainContext, username: string, password: string, config: UserTypeConfig,
                                moreUsers: seq<string>, moreGroups: seq<string>)
    requires Decision(ctx, username, password, config).status == Success
    ensures Decision(ctx, username, password, UserTypeConfig(config.explicitUsers + moreUsers, config.allowedGroups + moreGroups)).status == Success
  {
    var wider := UserTypeConfig(config.explicitUsers + moreUsers, config.allowedGroups + moreGroups);
    if Listed(config.explicitUsers, username) {
      var j :| 0 <= j < |config.explicitUsers| && EqualsIgnoreCase(config.explicitUsers[j], username);
      assert wider.explicitUsers[j] == config.explicitUsers[j];
    } else {
      var gs := UserGroups(ctx, username).value;
      var i :| 0 <= i < |gs| && Listed(config.allowedGroups, gs[i]);
      var j :| 0 <= j < |config.allowedGroups| && EqualsIgnoreCase(config.allowedGroups[j], gs[i]);
      assert wider.allowedGroups[j] == config.allowedGroups[j];
      assert Listed(wider.allowedGroups, gs[i]);
    }
  }
}

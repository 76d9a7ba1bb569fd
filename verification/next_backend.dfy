/** The CAS user backend: the host asks it to check a login, to name a user
    and to locate a user's home directory. Every collaborator it consults
    (the application service, the phpCAS facade, the host configuration and
    the host's user-existence check) is an input snapshot here. */
module NextBackend {
  import opened PhpValues
  import opened PhpStrings
  import opened CasInit
  import opened CasAttributes

  /** What the collaborators report during one request. */
  datatype CasSession = CasSession(
    casInitialized: bool,     // AppService::isCasInitialized() before the guard
    initOutcome: InitOutcome, // what AppService::init() does if the guard calls it
    phpCasInitialized: bool,  // phpCAS::isInitialized()
    authenticated: bool,      // phpCAS::checkAuthentication()
    casUser: string,          // phpCAS::getUser()
    attributes: Attributes    // phpCAS::getAttributes()
  )

  /** The app setting `cas_displayName_mapping` (the empty string when unset). */
  datatype AppConfig = AppConfig(displayNameMapping: string)

  /** The host's `datadirectory` system setting and its server root. */
  datatype SystemConfig = SystemConfig(dataDirectory: Option<string>, serverRoot: string)

  /** A result together with the log entries written while computing it. */
  datatype Traced<T> = Traced(value: T, log: seq<LogEvent>)

  /** The name shown for this backend in user management. */
  function BackendName(): (r: string)
    ensures r == "CAS"
  {
    "CAS"
  }

  /** Whether CAS counts as initialised once the guard has run. */
  function CasReady(env: CasSession): bool {
    EnsureInitialized(env.casInitialized, env.initOutcome).initialized
  }

  /** `checkPassword`: the login is accepted, and returned as the uid, only
      when CAS and phpCAS are initialised and the CAS session is
      authenticated as exactly that login; the password is never read. */
  function CheckPassword(env: CasSession, loginName: string, password: string): (r: Traced<StringOrFalse>)
    ensures r.value == Text(loginName) || r.value == False
    ensures r.value == Text(loginName) <==>
              && (env.casInitialized || env.initOutcome == Completed(true))
              && env.phpCasInitialized
              && env.authenticated
              && env.casUser == loginName
    ensures r.value.Text? <==> r.log != [] && r.log[|r.log| - 1] == PasswordChecked
  {
    var g := EnsureInitialized(env.casInitialized, env.initOutcome);
    if !g.initialized then
      Traced(False, g.log)
    else if !env.phpCasInitialized then
      Traced(False, g.log + [PhpCasNotInitialized])
    else if env.authenticated && env.casUser == loginName then
      Traced(Text(loginName), g.log + [PasswordChecked])
    else
      Traced(False, g.log)
  }

  /** Two calls that differ only in the password get the same answer. */
  lemma PasswordIgnored(env: CasSession, loginName: string, p1: string, p2: string)
    ensures CheckPassword(env, loginName, p1) == CheckPassword(env, loginName, p2)
  {
  }

  /** The display name an authenticated session's attributes give under a
      `+`-separated field mapping. When some configured field is present
      with a visible value, the name is the non-empty concatenation with
      whitespace stripped from both ends. Otherwise it is the `displayName`
      attribute if there is one, and the empty string (not the uid) if not. */
  function ComposeDisplayName(a: Attributes, mapping: string): (r: string)
    ensures HasVisibleField(Explode(mapping), Flatten(a)) ==>
              r != "" && Unpadded(r) && StripsTo(Compose(Explode(mapping), Flatten(a)), r)
    ensures !HasVisibleField(Explode(mapping), Flatten(a)) ==>
              r == if DisplayNameKey in Flatten(a) then Flatten(a)[DisplayNameKey] else ""
  {
    var flat := Flatten(a);
    var fields := Explode(mapping);
    var composed := Trim(Compose(fields, flat));
    ComposeBlankIff(fields, flat);
    TrimEmptyIff(Compose(fields, flat));
    if composed == "" && DisplayNameKey in flat then flat[DisplayNameKey] else composed
  }

  /** `getDisplayName`: the uid itself unless CAS is initialised and a
      session is authenticated; then the name composed from its attributes. */
  function GetDisplayName(env: CasSession, config: AppConfig, uid: string): (r: Traced<string>)
    ensures !CasReady(env) || !env.authenticated ==> r.value == uid
    ensures CasReady(env) && env.authenticated ==>
              r.value == ComposeDisplayName(env.attributes, config.displayNameMapping)
    ensures r.log == EnsureInitialized(env.casInitialized, env.initOutcome).log
  {
    var g := EnsureInitialized(env.casInitialized, env.initOutcome);
    if g.initialized && env.authenticated then
      Traced(ComposeDisplayName(env.attributes, config.displayNameMapping), g.log)
    else
      Traced(uid, g.log)
  }

  /** A missing phpCAS library never escapes: it is logged as an error, the
      login is refused and the display name is the uid. */
  lemma LibraryMissingIsContained(env: CasSession, config: AppConfig, loginName: string, password: string, uid: string)
    requires !env.casInitialized && env.initOutcome.LibraryNotFound?
    ensures CheckPassword(env, loginName, password).value == False
    ensures GetDisplayName(env, config, uid).value == uid
    ensures var e := InitFailed(env.initOutcome.code, env.initOutcome.message);
            CheckPassword(env, loginName, password).log == [e]
            && GetDisplayName(env, config, uid).log == [e]
            && SeverityOf(e) == Error
  {
  }

  /** The data root: the `datadirectory` setting, by default `<server root>/data`. */
  function DataRoot(sys: SystemConfig): (r: string)
    ensures sys.dataDirectory.Some? ==> r == sys.dataDirectory.value
    ensures sys.dataDirectory.None? ==>
              |r| == |sys.serverRoot| + 5
              && r[..|sys.serverRoot|] == sys.serverRoot
              && r[|sys.serverRoot|..] == "/data"
  {
    match sys.dataDirectory
    case Some(dir) => dir
    case None => sys.serverRoot + "/data"
  }

  /** `getHome`: `false` for an unknown user, otherwise the data root, a
      slash and the uid. */
  function GetHome(userExists: bool, sys: SystemConfig, uid: string): (r: StringOrFalse)
    ensures r == False <==> !userExists
    ensures r.Text? ==>
              var root := DataRoot(sys);
              && |r.text| == |root| + 1 + |uid|
              && r.text[..|root|] == root
              && r.text[|root|] == '/'
              && r.text[|root| + 1..] == uid
  {
    if userExists then Text(DataRoot(sys) + "/" + uid) else False
  }

  /** Different users of one installation get different home directories. */
  lemma HomeInjective(sys: SystemConfig, u1: string, u2: string)
    requires GetHome(true, sys, u1) == GetHome(true, sys, u2)
    ensures u1 == u2
  {
    var r := GetHome(true, sys, u1);
    assert u1 == r.text[|DataRoot(sys)| + 1..];
  }

  /** Without a `datadirectory` setting, homes live under `<server root>/data/`. */
  lemma HomeDefaultRoot(sys: SystemConfig, uid: string)
    requires sys.dataDirectory.None?
    ensures GetHome(true, sys, uid) == Text(sys.serverRoot + "/data/" + uid)
  {
    assert sys.serverRoot + "/data" + "/" + uid == sys.serverRoot + "/data/" + uid;
  }
}

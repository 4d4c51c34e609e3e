/** internal/http/router.go: `SetupRoutes` as a dispatch function from a
    request to the handler that runs, the middleware's refusal, a 405, a 404
    or the mux's trailing-slash redirect; and the CORS layer cmd/api/main.go
    puts in front of it.

    The company-jobs subtree exists twice. As written, the PATCH branches
    compare a 10-character suffix of the path with the 9-character
    "/activate" and a 12-character one with the 11-character "/deactivate",
    so neither ever matches and every PATCH there is answered 405 (see
    `AsWrittenNeverActivates`). `Dispatch` compares suffixes of the literals'
    own lengths, so the activate and deactivate handlers are reachable. */
module Router {
  import opened Wrappers
  import opened Strings
  import opened Http
  import opened Jws
  import opened Jwt
  import AuthMiddleware
  import Security

  /** The handler methods `SetupRoutes` wires, one per route and method. */
  datatype Handler =
    | Health | FixCounters
    | CompanyRegister | CompanyLogin | CandidateRegister | CandidateLogin
    | RequestReset | ResetPassword
    | ListJobs | GetJob | RegisterView
    | CompanyGetProfile | CompanyUpdateProfile
    | CreateCompanyJob | ListCompanyJobs | UpdateCompanyJob | DeleteCompanyJob
    | ActivateCompanyJob | DeactivateCompanyJob | ListJobApplicants | UpdateApplicationStatus
    | CandidateGetProfile | CandidateUpdateProfile
    | Apply | ListMyApplications | CancelApplication
    | SaveJob | ListSavedJobs | UnsaveJob

  /** Who may reach a route: anyone, or only callers whose token names a
      company (`CompanyOnly`) or a candidate (`CandidateOnly`). */
  datatype Guard = Public | Companies | Candidates

  /** Who each handler is written for, read from what it does with the
      caller: the company handlers look up the caller's company, the
      candidate handlers the caller's candidate. */
  function Audience(h: Handler): Guard {
    match h
    case CompanyGetProfile | CompanyUpdateProfile | CreateCompanyJob | ListCompanyJobs
       | UpdateCompanyJob | DeleteCompanyJob | ActivateCompanyJob | DeactivateCompanyJob
       | ListJobApplicants | UpdateApplicationStatus => Companies
    case CandidateGetProfile | CandidateUpdateProfile | Apply | ListMyApplications
       | CancelApplication | SaveJob | ListSavedJobs | UnsaveJob => Candidates
    case _ => Public
  }

  // ---------------------------------------------------------------------------
  // ServeMux
  // ---------------------------------------------------------------------------

  /** The patterns `SetupRoutes` registers: exact paths, and the subtrees
      (the patterns ending in '/'). */
  datatype Pattern =
    | ApiPath | FixCountersPath
    | CompanyRegisterPath | CompanyLoginPath | CandidateRegisterPath | CandidateLoginPath
    | RequestResetPath | ResetPasswordPath
    | JobsPath | JobsTree
    | CompanyMePath | CompanyJobsPath | CompanyJobsTree | CompanyApplicationsTree
    | CandidateMePath | CandidateApplicationsPath | CandidateApplicationsTree
    | SavedJobsPath | SavedJobsTree

  /** The text each pattern is registered under. */
  function Text(p: Pattern): string {
    match p
    case ApiPath => "/api"
    case FixCountersPath => "/maintenance/fix-counters"
    case CompanyRegisterPath => "/company/register"
    case CompanyLoginPath => "/company/login"
    case CandidateRegisterPath => "/candidate/register"
    case CandidateLoginPath => "/candidate/login"
    case RequestResetPath => "/auth/request-reset"
    case ResetPasswordPath => "/auth/reset-password"
    case JobsPath => "/jobs"
    case JobsTree => "/jobs/"
    case CompanyMePath => "/company/me"
    case CompanyJobsPath => "/company/jobs"
    case CompanyJobsTree => "/company/jobs/"
    case CompanyApplicationsTree => "/company/applications/"
    case CandidateMePath => "/candidate/me"
    case CandidateApplicationsPath => "/candidate/applications"
    case CandidateApplicationsTree => "/candidate/applications/"
    case SavedJobsPath => "/candidate/saved-jobs"
    case SavedJobsTree => "/candidate/saved-jobs/"
  }

  /** The subtree patterns. */
  predicate IsTree(p: Pattern) {
    p == JobsTree || p == CompanyJobsTree || p == CompanyApplicationsTree
    || p == CandidateApplicationsTree || p == SavedJobsTree
  }

  /** Exactly the subtree patterns end in '/'. */
  lemma TreesEndInSlash(p: Pattern)
    ensures |Text(p)| > 0 && (Text(p)[|Text(p)| - 1] == '/' <==> IsTree(p))
  {
  }

  /** The pattern registered under a text, read back; the texts are looked
      up by length first. */
  function Parse(s: string): (r: Option<Pattern>)
    ensures r.Some? ==> Text(r.value) == s
  {
    match |s|
    case 4 => if s == "/api" then Some(ApiPath) else None
    case 5 => if s == "/jobs" then Some(JobsPath) else None
    case 6 => if s == "/jobs/" then Some(JobsTree) else None
    case 11 => if s == "/company/me" then Some(CompanyMePath) else None
    case 13 => if s == "/company/jobs" then Some(CompanyJobsPath) else if s == "/candidate/me" then Some(CandidateMePath) else None
    case 14 => if s == "/company/login" then Some(CompanyLoginPath) else if s == "/company/jobs/" then Some(CompanyJobsTree) else None
    case 16 => if s == "/candidate/login" then Some(CandidateLoginPath) else None
    case 17 => if s == "/company/register" then Some(CompanyRegisterPath) else None
    case 19 => if s == "/candidate/register" then Some(CandidateRegisterPath) else if s == "/auth/request-reset" then Some(RequestResetPath) else None
    case 20 => if s == "/auth/reset-password" then Some(ResetPasswordPath) else None
    case 21 => if s == "/candidate/saved-jobs" then Some(SavedJobsPath) else None
    case 22 => if s == "/company/applications/" then Some(CompanyApplicationsTree) else if s == "/candidate/saved-jobs/" then Some(SavedJobsTree) else None
    case 23 => if s == "/candidate/applications" then Some(CandidateApplicationsPath) else None
    case 24 => if s == "/candidate/applications/" then Some(CandidateApplicationsTree) else None
    case 25 => if s == "/maintenance/fix-counters" then Some(FixCountersPath) else None
    case _ => None
  }

  /** Reading a pattern's text back gives the pattern: no two share a text. */
  lemma ParseText(p: Pattern)
    ensures Parse(Text(p)) == Some(p)
  {
  }

  lemma TextInjective(p: Pattern, q: Pattern)
    ensures Text(p) == Text(q) ==> p == q
  {
    ParseText(p);
    ParseText(q);
  }

  /** A subtree pattern matches every path under it; any other pattern
      matches only itself. */
  predicate Matches(p: Pattern, path: string) {
    if IsTree(p) then HasPrefix(path, Text(p)) else path == Text(p)
  }

  /** A matching pattern is a prefix of the path. */
  lemma MatchIsPrefix(p: Pattern, path: string)
    ensures Matches(p, path) ==> |Text(p)| <= |path| && path[..|Text(p)|] == Text(p)
  {
  }

  /** No text names two patterns, and every text that is not a pattern's is
      read back as none. */
  lemma ParseComplete(s: string)
    ensures Parse(s).None? <==> forall q :: Text(q) != s
  {
    if Parse(s).None? {
      forall q ensures Text(q) != s {
        ParseText(q);
      }
    }
  }

  /** The longest pattern matching `path` whose text is at most `k` long: the
      prefixes of the path are tried from length `k` down. */
  function LongestUpTo(path: string, k: nat): (r: Option<Pattern>)
    requires k <= |path|
    ensures r.Some? ==> Matches(r.value, path) && |Text(r.value)| <= k
    decreases k
  {
    match Parse(path[..k])
    case Some(q) =>
      if Matches(q, path) then Some(q)
      else if k == 0 then None else LongestUpTo(path, k - 1)
    case None => if k == 0 then None else LongestUpTo(path, k - 1)
  }

  /** Nothing at most `k` long that matches is longer than what `LongestUpTo`
      finds, and it finds something whenever something matches. */
  lemma {:induction false} LongestUpToIsLongest(path: string, k: nat, q: Pattern)
    requires k <= |path|
    ensures Matches(q, path) && |Text(q)| <= k ==>
      LongestUpTo(path, k).Some? && |Text(q)| <= |Text(LongestUpTo(path, k).value)|
    decreases k
  {
    if Matches(q, path) && |Text(q)| <= k {
      MatchIsPrefix(q, path);
      if |Text(q)| == k {
        PrefixParses(path, q);
        assert LongestUpTo(path, k) == Some(q);
      } else {
        LongestUpToIsLongest(path, k - 1, q);
        match Parse(path[..k])
        case Some(r) =>
          if Matches(r, path) {
            assert |Text(r)| == k;
            assert LongestUpTo(path, k) == Some(r);
          } else {
            assert LongestUpTo(path, k) == LongestUpTo(path, k - 1);
          }
        case None =>
          assert LongestUpTo(path, k) == LongestUpTo(path, k - 1);
      }
    }
  }

  /** The prefix of a path as long as a matching pattern reads back as it. */
  lemma PrefixParses(path: string, q: Pattern)
    requires Matches(q, path)
    ensures |Text(q)| <= |path| && Parse(path[..|Text(q)|]) == Some(q)
  {
    MatchIsPrefix(q, path);
    ParseText(q);
  }

  /** The most specific pattern matching `path`. */
  function Longest(path: string): (r: Option<Pattern>)
    ensures r.None? <==> forall q :: !Matches(q, path)
    ensures r.Some? ==> Matches(r.value, path)
    ensures r.Some? ==> forall q :: Matches(q, path) ==> |Text(q)| <= |Text(r.value)|
  {
    LongestAll(path);
    LongestUpTo(path, |path|)
  }

  lemma LongestAll(path: string)
    ensures forall q :: Matches(q, path) ==>
      LongestUpTo(path, |path|).Some? && |Text(q)| <= |Text(LongestUpTo(path, |path|).value)|
  {
    forall q | Matches(q, path) ensures LongestUpTo(path, |path|).Some? && |Text(q)| <= |Text(LongestUpTo(path, |path|).value)| {
      MatchIsPrefix(q, path);
      LongestUpToIsLongest(path, |path|, q);
    }
  }

  /** Two matching patterns of the same length are the same pattern, so the
      most specific one is unique. */
  lemma LongestIs(path: string, p: Pattern)
    requires Matches(p, path)
    requires forall q :: Matches(q, path) ==> |Text(q)| <= |Text(p)|
    ensures Longest(path) == Some(p)
  {
    var r := Longest(path).value;
    MatchIsPrefix(p, path);
    MatchIsPrefix(r, path);
    TextInjective(p, r);
  }

  /** Where the mux sends a path: to a registered pattern, to the same path
      with a '/' appended, or nowhere. */
  datatype Resolved = At(pattern: Pattern) | MovedTo(location: string) | NoPattern

  /** Only a subtree is registered under a text ending in '/'. */
  lemma SlashedIsTree(path: string)
    ensures Parse(path + "/").Some? ==> IsTree(Parse(path + "/").value)
  {
    if Parse(path + "/").Some? {
      TreesEndInSlash(Parse(path + "/").value);
    }
  }

  /** `ServeMux` lookup: a path that is not registered but whose '/'-suffixed
      form is gets a 301 there; otherwise the most specific matching pattern. */
  function Resolve(path: string): (r: Resolved)
    ensures r.MovedTo? <==> (forall q :: Text(q) != path) && Parse(path + "/").Some?
    ensures r.MovedTo? ==> r.location == path + "/" && IsTree(Parse(path + "/").value)
    ensures r.NoPattern? ==> forall q :: !Matches(q, path)
    ensures r.At? ==> Matches(r.pattern, path)
    ensures r.At? ==> forall q :: Matches(q, path) ==> |Text(q)| <= |Text(r.pattern)|
  {
    ParseComplete(path);
    SlashedIsTree(path);
    if Parse(path).None? && Parse(path + "/").Some? then MovedTo(path + "/")
    else match Longest(path)
      case None => NoPattern
      case Some(p) => At(p)
  }

  /** A registered path is served by its own pattern. */
  lemma RegisteredResolvesToItself(p: Pattern)
    ensures Resolve(Text(p)) == At(p)
  {
    forall q | Matches(q, Text(p)) ensures |Text(q)| <= |Text(p)| {
      MatchIsPrefix(q, Text(p));
    }
    LongestIs(Text(p), p);
  }

  /** A subtree pattern no other pattern extends: everything under it is its. */
  predicate Owns(p: Pattern) {
    && IsTree(p)
    && forall q :: q != p ==> !HasPrefix(Text(q), Text(p))
  }

  /** A prefix of the path that is at least as long as another prefix of it
      starts with that other prefix. */
  lemma PrefixChain(a: string, b: string, path: string)
    ensures |b| <= |a| <= |path| && path[..|a|] == a && path[..|b|] == b ==> HasPrefix(a, b)
  {
    if |b| <= |a| <= |path| && path[..|a|] == a {
      assert a[..|b|] == path[..|b|];
    }
  }

  /** Every path under an owned subtree resolves to it: no longer pattern
      matches, and no redirect applies. */
  lemma ResolveSubtree(p: Pattern, path: string)
    requires Owns(p) && HasPrefix(path, Text(p))
    ensures Resolve(path) == At(p)
  {
    var t := Text(p);
    forall q | Matches(q, path) ensures |Text(q)| <= |t| {
      MatchIsPrefix(q, path);
      PrefixChain(Text(q), t, path);
    }
    var up := path + "/";
    assert up[..|t|] == t;
    forall q ensures Text(q) != up {
      PrefixChain(up, t, up);
    }
    ParseComplete(up);
    LongestIs(path, p);
  }

  /** A subtree is owned when every other pattern at least as long differs
      from it at some position `i`. */
  lemma OwnedBy(p: Pattern, i: nat)
    requires IsTree(p) && i < |Text(p)|
    requires forall q :: q != p && |Text(q)| >= |Text(p)| ==> Text(q)[i] != Text(p)[i]
    ensures Owns(p)
  {
    forall q | q != p ensures !HasPrefix(Text(q), Text(p)) {
      if |Text(q)| >= |Text(p)| {
        assert Text(q)[..|Text(p)|][i] == Text(q)[i];
      }
    }
  }

  /** The five subtrees own everything under them. */
  lemma JobsTreeOwned() ensures Owns(JobsTree) { OwnedBy(JobsTree, 1); }
  lemma CompanyJobsTreeOwned() ensures Owns(CompanyJobsTree) { OwnedBy(CompanyJobsTree, 9); }
  lemma CompanyApplicationsTreeOwned() ensures Owns(CompanyApplicationsTree) { OwnedBy(CompanyApplicationsTree, 2); }
  lemma CandidateApplicationsTreeOwned() ensures Owns(CandidateApplicationsTree) { OwnedBy(CandidateApplicationsTree, 1); }
  lemma SavedJobsTreeOwned() ensures Owns(SavedJobsTree) { OwnedBy(SavedJobsTree, 11); }

  // ---------------------------------------------------------------------------
  // The route closures
  // ---------------------------------------------------------------------------

  /** What a route's closure does: run a handler, or answer 405. */
  datatype Action = Run(handler: Handler) | NotAllowed

  /** `len(path) > n && path[len(path)-n:] == lit`: the last `n` characters of
      the path, compared with a literal. */
  predicate SuffixIs(path: string, n: nat, lit: string) {
    |path| > n && path[|path| - n..] == lit
  }

  /** A suffix of one length never equals a literal of another. */
  lemma SuffixLengthMismatch(path: string, n: nat, lit: string)
    requires n != |lit|
    ensures !SuffixIs(path, n, lit)
  {
  }

  /** A suffix compared at the literal's own length is `strings.HasSuffix`
      (the path being longer than the literal). */
  lemma SuffixIsHasSuffix(path: string, lit: string)
    ensures SuffixIs(path, |lit|, lit) <==> |path| > |lit| && HasSuffix(path, lit)
  {
  }

  const Activate: string := "/activate"
  const Deactivate: string := "/deactivate"
  const Applicants: string := "/applicants"
  const View: string := "/view"
  const Status: string := "/status"

  /** The "/company/jobs/" closure, with the lengths its two PATCH branches cut
      from the path as parameters: below the id, PATCH may activate or
      deactivate and GET may list the applicants; otherwise PUT updates,
      DELETE deletes and anything else is 405. */
  function CompanyJobsRoute(m: Method, path: string, activateLen: nat, deactivateLen: nat): Action {
    var below := |path| > |Text(CompanyJobsTree)|;
    if below && m == PATCH && SuffixIs(path, activateLen, Activate) then Run(ActivateCompanyJob)
    else if below && m == PATCH && SuffixIs(path, deactivateLen, Deactivate) then Run(DeactivateCompanyJob)
    else if below && m == GET && SuffixIs(path, 11, Applicants) then Run(ListJobApplicants)
    else if m == PUT then Run(UpdateCompanyJob)
    else if m == DELETE then Run(DeleteCompanyJob)
    else NotAllowed
  }

  /** The closure of each pattern; `activateLen` and `deactivateLen` are the
      suffix lengths of the company-jobs closure. */
  function RouteWith(p: Pattern, m: Method, path: string, activateLen: nat, deactivateLen: nat): Action {
    match p
    case ApiPath => Run(Health)
    case FixCountersPath => if m == POST then Run(FixCounters) else NotAllowed
    case CompanyRegisterPath => if m == POST then Run(CompanyRegister) else NotAllowed
    case CompanyLoginPath => if m == POST then Run(CompanyLogin) else NotAllowed
    case CandidateRegisterPath => if m == POST then Run(CandidateRegister) else NotAllowed
    case CandidateLoginPath => if m == POST then Run(CandidateLogin) else NotAllowed
    case RequestResetPath => if m == POST then Run(RequestReset) else NotAllowed
    case ResetPasswordPath => if m == POST then Run(ResetPassword) else NotAllowed
    case JobsPath => if m == GET then Run(ListJobs) else NotAllowed
    case JobsTree =>
      if m == POST && SuffixIs(path, 5, View) then Run(RegisterView)
      else if m == GET then Run(GetJob) else NotAllowed
    case CompanyMePath =>
      if m == GET then Run(CompanyGetProfile) else if m == PUT then Run(CompanyUpdateProfile) else NotAllowed
    case CompanyJobsPath =>
      if m == POST then Run(CreateCompanyJob) else if m == GET then Run(ListCompanyJobs) else NotAllowed
    case CompanyJobsTree => CompanyJobsRoute(m, path, activateLen, deactivateLen)
    case CompanyApplicationsTree =>
      if m == PATCH && SuffixIs(path, 7, Status) then Run(UpdateApplicationStatus) else NotAllowed
    case CandidateMePath =>
      if m == GET then Run(CandidateGetProfile) else if m == PUT then Run(CandidateUpdateProfile) else NotAllowed
    case CandidateApplicationsPath =>
      if m == POST then Run(Apply) else if m == GET then Run(ListMyApplications) else NotAllowed
    case CandidateApplicationsTree => if m == DELETE then Run(CancelApplication) else NotAllowed
    case SavedJobsPath =>
      if m == POST then Run(SaveJob) else if m == GET then Run(ListSavedJobs) else NotAllowed
    case SavedJobsTree => if m == DELETE then Run(UnsaveJob) else NotAllowed
  }

  /** The middleware each pattern is wrapped in. */
  function GuardOf(p: Pattern): Guard {
    match p
    case CompanyMePath | CompanyJobsPath | CompanyJobsTree | CompanyApplicationsTree => Companies
    case CandidateMePath | CandidateApplicationsPath | CandidateApplicationsTree | SavedJobsPath | SavedJobsTree => Candidates
    case _ => Public
  }

  /** Every route sits behind the middleware its handler is written for:
      company handlers only behind `CompanyOnly`, candidate handlers only
      behind `CandidateOnly`, and the public ones behind nothing. */
  lemma GuardsMatchAudience(p: Pattern, m: Method, path: string, activateLen: nat, deactivateLen: nat)
    ensures RouteWith(p, m, path, activateLen, deactivateLen).Run? ==>
      Audience(RouteWith(p, m, path, activateLen, deactivateLen).handler) == GuardOf(p)
  {
  }

  /** Only the company-jobs subtree activates or deactivates, on a PATCH
      below the id whose suffix of the given length is the literal. */
  lemma OnlyCompanyJobsActivate(p: Pattern, m: Method, path: string, activateLen: nat, deactivateLen: nat)
    ensures RouteWith(p, m, path, activateLen, deactivateLen) == Run(ActivateCompanyJob) ==>
      p == CompanyJobsTree && m == PATCH && |path| > |Text(CompanyJobsTree)| && SuffixIs(path, activateLen, Activate)
    ensures RouteWith(p, m, path, activateLen, deactivateLen) == Run(DeactivateCompanyJob) ==>
      p == CompanyJobsTree && m == PATCH && |path| > |Text(CompanyJobsTree)| && SuffixIs(path, deactivateLen, Deactivate)
  {
  }

  // ---------------------------------------------------------------------------
  // Dispatch
  // ---------------------------------------------------------------------------

  /** The identity the auth middleware put in the request context. */
  datatype Caller = Caller(userId: string, userType: string)

  /** The request as the router sees it. */
  datatype Request = Request(verb: Method, path: string, origin: string, authorization: string)

  /** What became of a request: a handler ran (with the caller, on a guarded
      route), the middleware refused it, or the mux or the closure answered. */
  datatype Served =
    | Invoke(handler: Handler, caller: Option<Caller>)
    | Refused(status: nat, reason: string)
    | MethodNotAllowed
    | NotFound
    | Redirect(location: string)
    | NoContent

  /** `AuthMiddleware(CompanyOnly(...))` or `AuthMiddleware(CandidateOnly(...))`
      around a guarded closure; nothing around a public one. */
  function Admit(cfg: Config, c: Codec, g: Guard, header: string, now: nat): (d: AuthMiddleware.Decision)
    ensures g == Public ==> d.Proceed?
    ensures g == Companies ==> d == AuthMiddleware.CompanyOnly(cfg, c, header, now)
    ensures g == Candidates ==> d == AuthMiddleware.CandidateOnly(cfg, c, header, now)
    ensures g != Public && d.Proceed? ==>
      && d == AuthMiddleware.Authenticate(cfg, c, header, now)
      && d.userType == (if g == Companies then AuthMiddleware.CompanyKind else AuthMiddleware.CandidateKind)
  {
    AuthMiddleware.DoubleWrapIdempotent(cfg, c, header, now);
    match g
    case Public => AuthMiddleware.Proceed("", "")
    case Companies => AuthMiddleware.Wrap(cfg, c, header, now, AuthMiddleware.CompanyOnly(cfg, c, header, now))
    case Candidates => AuthMiddleware.Wrap(cfg, c, header, now, AuthMiddleware.CandidateOnly(cfg, c, header, now))
  }

  /** The mux, the middleware and the closure, in that order. */
  function DispatchWith(cfg: Config, c: Codec, now: nat, req: Request, activateLen: nat, deactivateLen: nat): (s: Served)
    ensures s != NoContent
    ensures s.Redirect? <==> Resolve(req.path).MovedTo?
    ensures s == NotFound <==> Resolve(req.path).NoPattern?
    ensures s.Refused? ==> Resolve(req.path).At? && GuardOf(Resolve(req.path).pattern) != Public
    ensures s.Invoke? ==>
      && Resolve(req.path).At?
      && RouteWith(Resolve(req.path).pattern, req.verb, req.path, activateLen, deactivateLen) == Run(s.handler)
    ensures s.Invoke? ==> (s.caller.None? <==> Audience(s.handler) == Public)
    ensures s.Invoke? && Audience(s.handler) != Public ==>
      && Admit(cfg, c, Audience(s.handler), req.authorization, now).Proceed?
      && s.caller == Some(Caller(Admit(cfg, c, Audience(s.handler), req.authorization, now).userId,
                                 Admit(cfg, c, Audience(s.handler), req.authorization, now).userType))
    ensures s.Invoke? && s.handler == ActivateCompanyJob ==>
      Resolve(req.path) == At(CompanyJobsTree) && req.verb == PATCH && |req.path| > |Text(CompanyJobsTree)| && SuffixIs(req.path, activateLen, Activate)
    ensures s.Invoke? && s.handler == DeactivateCompanyJob ==>
      Resolve(req.path) == At(CompanyJobsTree) && req.verb == PATCH && |req.path| > |Text(CompanyJobsTree)| && SuffixIs(req.path, deactivateLen, Deactivate)
  {
    match Resolve(req.path)
    case MovedTo(l) => Redirect(l)
    case NoPattern => NotFound
    case At(p) =>
      var g := GuardOf(p);
      match Admit(cfg, c, g, req.authorization, now)
      case Reject(status, why) => Refused(status, why)
      case Proceed(id, kind) =>
        match RouteWith(p, req.verb, req.path, activateLen, deactivateLen)
        case NotAllowed => MethodNotAllowed
        case Run(h) =>
          GuardsMatchAudience(p, req.verb, req.path, activateLen, deactivateLen);
          OnlyCompanyJobsActivate(p, req.verb, req.path, activateLen, deactivateLen);
          Invoke(h, if g == Public then None else Some(Caller(id, kind)))
  }

  /** router.go as written: suffixes of 10 and 12 characters against
      "/activate" and "/deactivate". */
  function DispatchAsWritten(cfg: Config, c: Codec, now: nat, req: Request): (s: Served)
    ensures s.Invoke? ==> s.handler != ActivateCompanyJob && s.handler != DeactivateCompanyJob
  {
    SuffixLengthMismatch(req.path, 10, Activate);
    SuffixLengthMismatch(req.path, 12, Deactivate);
    DispatchWith(cfg, c, now, req, 10, 12)
  }

  /** The routing with each suffix compared at the literal's length. */
  function Dispatch(cfg: Config, c: Codec, now: nat, req: Request): (s: Served)
    ensures s.Invoke? && s.handler == ActivateCompanyJob ==>
      req.verb == PATCH && HasPrefix(req.path, Text(CompanyJobsTree)) && |req.path| > |Text(CompanyJobsTree)| && HasSuffix(req.path, Activate)
    ensures s.Invoke? && s.handler == DeactivateCompanyJob ==>
      req.verb == PATCH && HasPrefix(req.path, Text(CompanyJobsTree)) && |req.path| > |Text(CompanyJobsTree)| && HasSuffix(req.path, Deactivate)
  {
    SuffixIsHasSuffix(req.path, Activate);
    SuffixIsHasSuffix(req.path, Deactivate);
    DispatchWith(cfg, c, now, req, |Activate|, |Deactivate|)
  }

  // ---------------------------------------------------------------------------
  // With the CORS layer in front
  // ---------------------------------------------------------------------------

  /** What the client gets: the CORS headers and what became of the request. */
  datatype Response = Response(cors: Security.CorsHeaders, served: Served)

  /** `CORSMiddleware(allowed)(router)`: preflights are answered 204 before the
      mux sees them; everything else is dispatched. */
  function Serve(cfg: Config, c: Codec, allowed: seq<string>, now: nat, req: Request): (r: Response)
    ensures req.verb == OPTIONS <==> r.served == NoContent
    ensures r.cors == Security.Cors(allowed, req.origin, req.verb).headers
    ensures req.verb != OPTIONS ==> r.served == Dispatch(cfg, c, now, req)
  {
    match Security.Cors(allowed, req.origin, req.verb)
    case Preflight(h) => Response(h, NoContent)
    case Forward(h) => Response(h, Dispatch(cfg, c, now, req))
  }

  /** The server as written: the "null" CORS value and the 10/12 suffixes. */
  function ServeAsWritten(cfg: Config, c: Codec, allowed: seq<string>, now: nat, req: Request): (r: Response)
    ensures req.verb == OPTIONS <==> r.served == NoContent
    ensures r.cors == Security.CorsAsWritten(allowed, req.origin, req.verb).headers
    ensures req.verb != OPTIONS ==> r.served == DispatchAsWritten(cfg, c, now, req)
  {
    match Security.CorsAsWritten(allowed, req.origin, req.verb)
    case Preflight(h) => Response(h, NoContent)
    case Forward(h) => Response(h, DispatchAsWritten(cfg, c, now, req))
  }

  // ---------------------------------------------------------------------------
  // Properties of the routing
  // ---------------------------------------------------------------------------

  /** The register, login and reset routes take only POST; any other method,
      from anyone, is 405. */
  lemma PublicRoutesPostOnly(cfg: Config, c: Codec, now: nat, p: Pattern, req: Request)
    requires p in [CompanyRegisterPath, CompanyLoginPath, CandidateRegisterPath, CandidateLoginPath,
                   RequestResetPath, ResetPasswordPath]
    requires req.path == Text(p)
    ensures req.verb == POST ==> Dispatch(cfg, c, now, req).Invoke? && Dispatch(cfg, c, now, req).caller.None?
    ensures req.verb != POST ==> Dispatch(cfg, c, now, req) == MethodNotAllowed
  {
    RegisteredResolvesToItself(p);
  }

  /** Below "/jobs/": POST to a path ending in "/view" registers a view, GET
      fetches the job, anything else is 405; no token is needed. */
  lemma JobsSubtree(cfg: Config, c: Codec, now: nat, req: Request)
    requires HasPrefix(req.path, Text(JobsTree))
    ensures Dispatch(cfg, c, now, req) == Invoke(RegisterView, None) <==> req.verb == POST && HasSuffix(req.path, View)
    ensures Dispatch(cfg, c, now, req) == Invoke(GetJob, None) <==> req.verb == GET
    ensures req.verb != POST && req.verb != GET ==> Dispatch(cfg, c, now, req) == MethodNotAllowed
    ensures req.verb == POST && !HasSuffix(req.path, View) ==> Dispatch(cfg, c, now, req) == MethodNotAllowed
  {
    JobsRoute(req.path, req.verb, |Activate|, |Deactivate|);
    DispatchAt(cfg, c, now, req, |Activate|, |Deactivate|, JobsTree);
  }

  /** The mux and the closure below "/jobs/". */
  lemma JobsRoute(path: string, m: Method, activateLen: nat, deactivateLen: nat)
    requires HasPrefix(path, Text(JobsTree))
    ensures Resolve(path) == At(JobsTree)
    ensures RouteWith(JobsTree, m, path, activateLen, deactivateLen)
         == if m == POST && HasSuffix(path, View) then Run(RegisterView)
            else if m == GET then Run(GetJob) else NotAllowed
  {
    JobsTreeOwned();
    ResolveSubtree(JobsTree, path);
    assert |Text(JobsTree)| == 6;
    SuffixIsHasSuffix(path, View);
  }

  /** On a guarded route the middleware speaks first: without a valid token
      the answer is the 401 of `AuthMiddleware`, whatever the method, and a
      token of the wrong kind gets 403. */
  lemma GuardBeforeMethod(cfg: Config, c: Codec, now: nat, req: Request)
    requires Resolve(req.path).At? && GuardOf(Resolve(req.path).pattern) != Public
    ensures AuthMiddleware.Authenticate(cfg, c, req.authorization, now).Reject? ==>
      Dispatch(cfg, c, now, req) == Refused(StatusUnauthorized, AuthMiddleware.Authenticate(cfg, c, req.authorization, now).reason)
    ensures AuthMiddleware.Authenticate(cfg, c, req.authorization, now).Proceed? ==>
      (Dispatch(cfg, c, now, req).Refused? <==>
        AuthMiddleware.Authenticate(cfg, c, req.authorization, now).userType
          != (if GuardOf(Resolve(req.path).pattern) == Companies then AuthMiddleware.CompanyKind else AuthMiddleware.CandidateKind))
  {
    var p := Resolve(req.path).pattern;
    var d := Admit(cfg, c, GuardOf(p), req.authorization, now);
    var s := DispatchWith(cfg, c, now, req, |Activate|, |Deactivate|);
    assert Dispatch(cfg, c, now, req) == s;
    if d.Reject? {
      assert s == Refused(d.status, d.reason);
    } else {
      DispatchAt(cfg, c, now, req, |Activate|, |Deactivate|, p);
    }
  }

  /** A handler written for companies runs only for a caller whose token
      authenticates as a company, and it receives that caller; likewise for
      candidates. */
  lemma HandlersGetTheirCaller(cfg: Config, c: Codec, now: nat, req: Request)
    requires Dispatch(cfg, c, now, req).Invoke? && Audience(Dispatch(cfg, c, now, req).handler) != Public
    ensures
      var d := AuthMiddleware.Authenticate(cfg, c, req.authorization, now);
      var h := Dispatch(cfg, c, now, req).handler;
      && d.Proceed?
      && d.userType == (if Audience(h) == Companies then AuthMiddleware.CompanyKind else AuthMiddleware.CandidateKind)
      && Dispatch(cfg, c, now, req).caller == Some(Caller(d.userId, d.userType))
  {
  }

  /** Below "/company/applications/", only PATCH to a path ending in
      "/status" reaches a handler, for a company caller. */
  lemma ApplicationStatusRoute(cfg: Config, c: Codec, now: nat, req: Request)
    requires HasPrefix(req.path, Text(CompanyApplicationsTree))
    requires AuthMiddleware.CompanyOnly(cfg, c, req.authorization, now).Proceed?
    ensures Dispatch(cfg, c, now, req).Invoke? <==> req.verb == PATCH && HasSuffix(req.path, Status)
    ensures Dispatch(cfg, c, now, req).Invoke? ==> Dispatch(cfg, c, now, req).handler == UpdateApplicationStatus
  {
    StatusRoute(req.path, req.verb, |Activate|, |Deactivate|);
    StatusDispatch(cfg, c, now, req);
  }

  /** What `Dispatch` makes of an admitted request below
      "/company/applications/". */
  lemma StatusDispatch(cfg: Config, c: Codec, now: nat, req: Request)
    requires Resolve(req.path) == At(CompanyApplicationsTree)
    requires RouteWith(CompanyApplicationsTree, req.verb, req.path, |Activate|, |Deactivate|)
          == if req.verb == PATCH && HasSuffix(req.path, Status) then Run(UpdateApplicationStatus) else NotAllowed
    requires AuthMiddleware.CompanyOnly(cfg, c, req.authorization, now).Proceed?
    ensures req.verb == PATCH && HasSuffix(req.path, Status) ==>
      Dispatch(cfg, c, now, req).Invoke? && Dispatch(cfg, c, now, req).handler == UpdateApplicationStatus
    ensures !(req.verb == PATCH && HasSuffix(req.path, Status)) ==> Dispatch(cfg, c, now, req) == MethodNotAllowed
  {
    DispatchAt(cfg, c, now, req, |Activate|, |Deactivate|, CompanyApplicationsTree);
  }

  /** The mux and the closure below "/company/applications/". */
  lemma StatusRoute(path: string, m: Method, activateLen: nat, deactivateLen: nat)
    requires HasPrefix(path, Text(CompanyApplicationsTree))
    ensures Resolve(path) == At(CompanyApplicationsTree)
    ensures RouteWith(CompanyApplicationsTree, m, path, activateLen, deactivateLen)
         == if m == PATCH && HasSuffix(path, Status) then Run(UpdateApplicationStatus) else NotAllowed
  {
    CompanyApplicationsTreeOwned();
    ResolveSubtree(CompanyApplicationsTree, path);
    assert |Text(CompanyApplicationsTree)| == 22;
    SuffixIsHasSuffix(path, Status);
  }

  /** Past the mux, a request resolved to `p` and admitted by its guard gets
      what the closure decides, with the caller on a guarded route. */
  lemma DispatchAt(cfg: Config, c: Codec, now: nat, req: Request, activateLen: nat, deactivateLen: nat, p: Pattern)
    requires Resolve(req.path) == At(p)
    requires Admit(cfg, c, GuardOf(p), req.authorization, now).Proceed?
    ensures
      var d := Admit(cfg, c, GuardOf(p), req.authorization, now);
      DispatchWith(cfg, c, now, req, activateLen, deactivateLen)
        == match RouteWith(p, req.verb, req.path, activateLen, deactivateLen)
           case NotAllowed => MethodNotAllowed
           case Run(h) => Invoke(h, if GuardOf(p) == Public then None else Some(Caller(d.userId, d.userType)))
  {
  }

  /** The path of a PATCH to the activate or deactivate action of a job. */
  function ActionPath(id: string, action: string): string {
    Text(CompanyJobsTree) + id + action
  }

  /** Such a path is under the company-jobs subtree and resolves there. */
  lemma ActionPathResolves(id: string, action: string)
    requires action == Activate || action == Deactivate
    ensures Resolve(ActionPath(id, action)) == At(CompanyJobsTree)
    ensures |ActionPath(id, action)| > |Text(CompanyJobsTree)|
  {
    var path := ActionPath(id, action);
    assert path[..|Text(CompanyJobsTree)|] == Text(CompanyJobsTree);
    CompanyJobsTreeOwned();
    ResolveSubtree(CompanyJobsTree, path);
  }

  /** A company's PATCH to an action path gets what the company-jobs closure
      decides, with the company caller. */
  lemma ActionPathDispatch(cfg: Config, c: Codec, now: nat, id: string, action: string, header: string,
                           activateLen: nat, deactivateLen: nat)
    requires action == Activate || action == Deactivate
    requires AuthMiddleware.CompanyOnly(cfg, c, header, now).Proceed?
    ensures
      var d := AuthMiddleware.CompanyOnly(cfg, c, header, now);
      DispatchWith(cfg, c, now, Request(PATCH, ActionPath(id, action), "", header), activateLen, deactivateLen)
        == match RouteWith(CompanyJobsTree, PATCH, ActionPath(id, action), activateLen, deactivateLen)
           case NotAllowed => MethodNotAllowed
           case Run(h) => Invoke(h, Some(Caller(d.userId, d.userType)))
  {
    var req := Request(PATCH, ActionPath(id, action), "", header);
    ActionPathResolves(id, action);
    assert GuardOf(CompanyJobsTree) == Companies;
    assert Admit(cfg, c, Companies, header, now) == AuthMiddleware.CompanyOnly(cfg, c, header, now);
    DispatchAt(cfg, c, now, req, activateLen, deactivateLen, CompanyJobsTree);
  }

  /** The closure as written refuses a PATCH to either action. */
  lemma AsWrittenRouteRefuses(id: string, action: string)
    requires action == Activate || action == Deactivate
    ensures RouteWith(CompanyJobsTree, PATCH, ActionPath(id, action), 10, 12) == NotAllowed
  {
    var path := ActionPath(id, action);
    SuffixLengthMismatch(path, 10, Activate);
    SuffixLengthMismatch(path, 12, Deactivate);
    assert path[|path| - 1] == 'e';
    assert !SuffixIs(path, 11, Applicants) by {
      if |path| > 11 {
        assert path[|path| - 11..][10] == path[|path| - 1];
      }
    }
  }

  /** With the literals' own lengths the closure runs the named action. */
  lemma CorrectedRouteRuns(id: string, action: string)
    requires action == Activate || action == Deactivate
    ensures RouteWith(CompanyJobsTree, PATCH, ActionPath(id, action), |Activate|, |Deactivate|)
         == Run(if action == Activate then ActivateCompanyJob else DeactivateCompanyJob)
  {
    var path := ActionPath(id, action);
    assert |path| > |Text(CompanyJobsTree)|;
    assert path[|path| - |action|..] == action;
    if action == Activate {
      assert SuffixIs(path, |Activate|, Activate);
    } else {
      assert path[|path| - |Activate|] == Deactivate[2] != Activate[0];
      assert !SuffixIs(path, |Activate|, Activate);
    }
  }

  /** The discrepancy of the code as written: a company's PATCH to
      "/company/jobs/{id}/activate" (or ".../deactivate") is answered 405. */
  lemma AsWrittenNeverActivates(cfg: Config, c: Codec, now: nat, id: string, action: string, header: string)
    requires action == Activate || action == Deactivate
    requires AuthMiddleware.CompanyOnly(cfg, c, header, now).Proceed?
    ensures DispatchAsWritten(cfg, c, now, Request(PATCH, ActionPath(id, action), "", header)) == MethodNotAllowed
  {
    AsWrittenRouteRefuses(id, action);
    ActionPathDispatch(cfg, c, now, id, action, header, 10, 12);
  }

  /** With the suffixes compared at their own lengths, the same request
      reaches the activate or deactivate handler with the company caller. */
  lemma CorrectedActivates(cfg: Config, c: Codec, now: nat, id: string, action: string, header: string)
    requires action == Activate || action == Deactivate
    requires AuthMiddleware.CompanyOnly(cfg, c, header, now).Proceed?
    ensures
      var d := AuthMiddleware.CompanyOnly(cfg, c, header, now);
      Dispatch(cfg, c, now, Request(PATCH, ActionPath(id, action), "", header))
        == Invoke(if action == Activate then ActivateCompanyJob else DeactivateCompanyJob, Some(Caller(d.userId, d.userType)))
  {
    CorrectedRouteRuns(id, action);
    ActionPathDispatch(cfg, c, now, id, action, header, |Activate|, |Deactivate|);
  }
}

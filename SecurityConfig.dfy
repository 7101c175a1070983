/** The authorization rules of `SecurityConfig.securityFilterChain`: an
    ordered table of request matchers, the first matching rule deciding
    whether a request is public or needs an authenticated identity. */
module SecurityConfig {
  import opened Wrappers
  import opened Text
  import opened Entities
  import opened Repositories
  import opened Jwt
  import opened Gate

  datatype HttpMethod = GET | HEAD | POST | PUT | PATCH | DELETE | OPTIONS | TRACE

  /** `Exact` is a literal path; `Subtree(root)` is the ant pattern "root/" followed by a double star,
      which matches the root itself and everything below it. */
  datatype PathPattern = Exact(path: string) | Subtree(root: string) | AnyRequest

  datatype Access = PermitAll | Authenticated

  /** A rule with no HTTP method applies to every method. */
  datatype Rule = Rule(verb: Option<HttpMethod>, pattern: PathPattern, access: Access)

  const LOGIN_PATH: string := "/api/v1/users/login"
  const USERS_PATH: string := "/api/v1/users"

  const RULES: seq<Rule> := [
    Rule(None, Exact(LOGIN_PATH), PermitAll),
    Rule(Some(POST), Exact(USERS_PATH), PermitAll),
    Rule(None, Subtree("/swagger-ui"), PermitAll),
    Rule(None, Subtree("/v3/api-docs"), PermitAll),
    Rule(None, Subtree("/h2-console"), PermitAll),
    Rule(None, Subtree("/actuator"), PermitAll),
    Rule(None, AnyRequest, Authenticated)
  ]

  predicate InSubtree(path: string, root: string) {
    path == root || StartsWith(path, root + "/")
  }

  predicate PatternMatches(p: PathPattern, path: string) {
    match p
    case Exact(s) => path == s
    case Subtree(root) => InSubtree(path, root)
    case AnyRequest => true
  }

  predicate RuleMatches(r: Rule, verb: HttpMethod, path: string) {
    (r.verb.None? || r.verb.value == verb) && PatternMatches(r.pattern, path)
  }

  /** The access of the first rule that matches, if any rule does. */
  function Decide(rules: seq<Rule>, verb: HttpMethod, path: string): (r: Option<Access>)
    ensures r.None? <==> forall i :: 0 <= i < |rules| ==> !RuleMatches(rules[i], verb, path)
    ensures r.Some? ==> exists i :: && 0 <= i < |rules| && RuleMatches(rules[i], verb, path)
                                    && rules[i].access == r.value
                                    && forall j :: 0 <= j < i ==> !RuleMatches(rules[j], verb, path)
    decreases |rules|
  {
    if rules == [] then None
    else if RuleMatches(rules[0], verb, path) then Some(rules[0].access)
    else
      var r := Decide(rules[1..], verb, path);
      if r.Some? then
        var i :| && 0 <= i < |rules[1..]| && RuleMatches(rules[1..][i], verb, path)
                 && rules[1..][i].access == r.value
                 && forall j :: 0 <= j < i ==> !RuleMatches(rules[1..][j], verb, path);
        assert rules[i + 1] == rules[1..][i];
        assert forall j :: 1 <= j < i + 1 ==> rules[j] == rules[1..][j - 1];
        r
      else r
  }

  /** A request is public when the configured table permits it. */
  predicate IsPublic(verb: HttpMethod, path: string) {
    Decide(RULES, verb, path) == Some(PermitAll)
  }

  /** The table always decides: its last rule matches every request. */
  lemma RulesAlwaysDecide(verb: HttpMethod, path: string)
    ensures Decide(RULES, verb, path).Some?
  {
    assert RuleMatches(RULES[6], verb, path);
  }

  /** The first matching rule decides. */
  lemma {:induction false} DecideFirstMatch(rules: seq<Rule>, verb: HttpMethod, path: string, i: nat)
    requires i < |rules| && RuleMatches(rules[i], verb, path)
    requires forall j :: 0 <= j < i ==> !RuleMatches(rules[j], verb, path)
    ensures Decide(rules, verb, path) == Some(rules[i].access)
    decreases i
  {
    if i > 0 {
      assert !RuleMatches(rules[0], verb, path);
      assert rules[1..][i - 1] == rules[i];
      assert forall j :: 0 <= j < i - 1 ==> rules[1..][j] == rules[j + 1];
      DecideFirstMatch(rules[1..], verb, path, i - 1);
    }
  }

  /** What each rule of the table matches and grants. */
  lemma RulesTable(verb: HttpMethod, path: string)
    ensures |RULES| == 7 && RULES[6].access == Authenticated
    ensures forall k :: 0 <= k < 6 ==> RULES[k].access == PermitAll
    ensures RuleMatches(RULES[0], verb, path) <==> path == LOGIN_PATH
    ensures RuleMatches(RULES[1], verb, path) <==> verb == POST && path == USERS_PATH
    ensures RuleMatches(RULES[2], verb, path) <==> InSubtree(path, "/swagger-ui")
    ensures RuleMatches(RULES[3], verb, path) <==> InSubtree(path, "/v3/api-docs")
    ensures RuleMatches(RULES[4], verb, path) <==> InSubtree(path, "/h2-console")
    ensures RuleMatches(RULES[5], verb, path) <==> InSubtree(path, "/actuator")
    ensures RuleMatches(RULES[6], verb, path)
  {
  }

  /** Which requests are public, rule by rule. */
  lemma IsPublicIff(verb: HttpMethod, path: string)
    ensures IsPublic(verb, path) <==>
              || path == LOGIN_PATH
              || (verb == POST && path == USERS_PATH)
              || InSubtree(path, "/swagger-ui")
              || InSubtree(path, "/v3/api-docs")
              || InSubtree(path, "/h2-console")
              || InSubtree(path, "/actuator")
  {
    RulesTable(verb, path);
    var i := if RuleMatches(RULES[0], verb, path) then 0
             else if RuleMatches(RULES[1], verb, path) then 1
             else if RuleMatches(RULES[2], verb, path) then 2
             else if RuleMatches(RULES[3], verb, path) then 3
             else if RuleMatches(RULES[4], verb, path) then 4
             else if RuleMatches(RULES[5], verb, path) then 5
             else 6;
    DecideFirstMatch(RULES, verb, path, i);
  }

  /** A path that differs from `root` at a position inside both lies outside
      the subtree of `root`. */
  lemma OutsideSubtree(path: string, root: string, k: nat)
    requires k < |root| && k < |path| && path[k] != root[k]
    ensures !InSubtree(path, root)
  {
    if |root| + 1 <= |path| {
      assert path[..|root| + 1][k] != (root + "/")[k];
    }
  }

  /** The login endpoint is public for every method. */
  lemma LoginIsPublic(verb: HttpMethod)
    ensures IsPublic(verb, LOGIN_PATH)
  {
    IsPublicIff(verb, LOGIN_PATH);
  }

  /** Only the collection path and the paths below it start like it, so none
      of them lies under the documentation, console or actuator roots. */
  lemma UsersPathsOutsideTooling(path: string)
    requires |path| >= 3 && path[..3] == "/ap"
    ensures !InSubtree(path, "/swagger-ui") && !InSubtree(path, "/v3/api-docs")
    ensures !InSubtree(path, "/h2-console") && !InSubtree(path, "/actuator")
  {
    assert path[1] == path[..3][1] == 'a' && path[2] == path[..3][2] == 'p';
    OutsideSubtree(path, "/swagger-ui", 1);
    OutsideSubtree(path, "/v3/api-docs", 1);
    OutsideSubtree(path, "/h2-console", 1);
    OutsideSubtree(path, "/actuator", 2);
  }

  /** Registering (POST on the users collection) is public; every other
      method on the collection needs authentication. */
  lemma RegistrationPublicListingProtected(verb: HttpMethod)
    ensures IsPublic(POST, USERS_PATH)
    ensures verb != POST ==> !IsPublic(verb, USERS_PATH)
  {
    IsPublicIff(POST, USERS_PATH);
    IsPublicIff(verb, USERS_PATH);
    UsersPathsOutsideTooling(USERS_PATH);
  }

  /** Fetching one user by id needs authentication, for every id. */
  lemma UserByIdProtected(id: string)
    requires id != "login"
    ensures !IsPublic(GET, USERS_PATH + "/" + id)
  {
    var path := USERS_PATH + "/" + id;
    IsPublicIff(GET, path);
    assert path[..3] == "/ap";
    assert path[|USERS_PATH| + 1..] == id;
    assert LOGIN_PATH[|USERS_PATH| + 1..] == "login";
    UsersPathsOutsideTooling(path);
  }

  /** Every path below the documentation, console and actuator roots is public. */
  lemma ToolingPathsPublic(verb: HttpMethod, rest: string)
    ensures IsPublic(verb, "/swagger-ui/" + rest)
    ensures IsPublic(verb, "/v3/api-docs/" + rest)
    ensures IsPublic(verb, "/h2-console/" + rest)
    ensures IsPublic(verb, "/actuator/" + rest)
  {
    assert "/swagger-ui" + "/" == "/swagger-ui/";
    ToolingPathPublic(verb, "/swagger-ui", rest);
    assert "/v3/api-docs" + "/" == "/v3/api-docs/";
    ToolingPathPublic(verb, "/v3/api-docs", rest);
    assert "/h2-console" + "/" == "/h2-console/";
    ToolingPathPublic(verb, "/h2-console", rest);
    assert "/actuator" + "/" == "/actuator/";
    ToolingPathPublic(verb, "/actuator", rest);
  }

  /** A path below one of the tooling roots is public. */
  lemma ToolingPathPublic(verb: HttpMethod, root: string, rest: string)
    requires root == "/swagger-ui" || root == "/v3/api-docs" || root == "/h2-console" || root == "/actuator"
    ensures IsPublic(verb, (root + "/") + rest)
  {
    var path := (root + "/") + rest;
    assert path[..|root + "/"|] == root + "/";
    IsPublicIff(verb, path);
  }

  /** The authorization layer admits a request when the gate let it proceed
      and it is public or the gate put an identity into the security context.
      An exception escaping the gate ends the request before it is routed. */
  predicate Admitted(verb: HttpMethod, path: string, outcome: GateOutcome) {
    outcome.Proceed? && (IsPublic(verb, path) || outcome.Authenticated())
  }

  /** What the gate and the rule table admit together: a request the gate
      leaves without an identity reaches only the public routes, and one on a
      protected route carries, as its bearer token, a valid token that is the
      stored token of the user it names. */
  lemma UnauthenticatedReachesOnlyPublic(jwt: JwtTokenUtil, users: seq<User>, header: Option<string>,
                                         validatedAt: nat, parsedAt: nat, verb: HttpMethod, path: string)
    requires Admitted(verb, path, Filter(jwt, users, header, validatedAt, parsedAt))
    ensures !Filter(jwt, users, header, validatedAt, parsedAt).Authenticated() ==>
              || path == LOGIN_PATH
              || (verb == POST && path == USERS_PATH)
              || InSubtree(path, "/swagger-ui")
              || InSubtree(path, "/v3/api-docs")
              || InSubtree(path, "/h2-console")
              || InSubtree(path, "/actuator")
    ensures !IsPublic(verb, path) ==>
              && BearerToken(header).Some?
              && var token := BearerToken(header).value;
                 && jwt.ValidateToken(token, validatedAt)
                 && FindByEmail(users, Decode(token).value.claims.subject).Some?
                 && FindByEmail(users, Decode(token).value.claims.subject).value.token == Some(token)
  {
    IsPublicIff(verb, path);
  }
}

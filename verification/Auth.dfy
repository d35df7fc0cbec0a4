/** `AuthState::check`: who may do what, and which failures are recorded. */
module Auth {
  import opened Common
  import opened RateLimiter

  type Hash(==) = seq<Byte>

  datatype Permission = Read | Admin

  datatype AuthError =
    | MissingHeader | MalformedHeader | InvalidKey | InsufficientPermission | NoKeyConfigured | RateLimited

  datatype Outcome = Granted(permission: Permission) | Refused(error: AuthError)

  function RequiredPermission(verb: string): Permission {
    if verb in ["POST", "DELETE", "PUT", "PATCH"] then Admin else Read
  }

  /** `extract_bearer_token` */
  function BearerToken(header: Option<string>): (token: Option<string>)
    ensures token.Some? ==> token.value != []
  {
    if header.None? then None
    else if ("Bearer " <= header.value || "bearer " <= header.value) && |header.value| > 7 then Some(header.value[7..])
    else None
  }

  /** `verify_token`: the read key grants everything when there is no admin key. */
  function VerifyToken(readKey: Option<Hash>, adminKey: Option<Hash>, given: Hash): Outcome {
    if readKey.None? then Refused(NoKeyConfigured)
    else if given == readKey.value then Granted(if adminKey.None? then Admin else Read)
    else if adminKey.Some? && given == adminKey.value then Granted(Admin)
    else Refused(InvalidKey)
  }

  /** A request: its verb, its Authorization header, and the two clock readings its check may make. */
  datatype Request = Request(verb: string, header: Option<string>, checked: Time, recorded: Time)

  /** The check when the address is not blocked. */
  function Decide(readKey: Option<Hash>, adminKey: Option<Hash>, sha: string -> Hash, q: Request): Outcome {
    if readKey.None? then Granted(Admin)
    else if q.header.None? then Refused(MissingHeader)
    else if BearerToken(q.header).None? then Refused(MalformedHeader)
    else
      match VerifyToken(readKey, adminKey, sha(BearerToken(q.header).value))
      case Refused(e) => Refused(e)
      case Granted(p) =>
        if RequiredPermission(q.verb) == Admin && p == Read then Refused(InsufficientPermission) else Granted(p)
  }

  // ----- What the check should decide ---------------------------------------------------

  /** The header is "Bearer" or "bearer", a space and the token. */
  predicate Bears(header: Option<string>, token: string) {
    token != [] && (header == Some("Bearer " + token) || header == Some("bearer " + token))
  }

  /** Verbs that change something. */
  predicate Changes(verb: string) {
    verb == "POST" || verb == "DELETE" || verb == "PUT" || verb == "PATCH"
  }

  /**
   * What a key's hash may do: the read key reads, and does everything when there is no admin
   * key; the admin key does everything, unless it is the same as the read key.
   */
  predicate Entitled(readKey: Hash, adminKey: Option<Hash>, given: Hash, verb: string, r: Outcome) {
    if given == readKey then
      if adminKey.None? then r == Granted(Admin)
      else if Changes(verb) then r == Refused(InsufficientPermission) else r == Granted(Read)
    else if adminKey == Some(given) then r == Granted(Admin)
    else r == Refused(InvalidKey)
  }

  /** The answer to a request that is not blocked, told from its texts and the hashes alone. */
  ghost predicate Lawful(readKey: Option<Hash>, adminKey: Option<Hash>, sha: string -> Hash, q: Request, r: Outcome) {
    && (readKey.None? ==> r == Granted(Admin))
    && (readKey.Some? ==>
          && (q.header.None? ==> r == Refused(MissingHeader))
          && (q.header.Some? && (forall token :: !Bears(q.header, token)) ==> r == Refused(MalformedHeader))
          && (forall token :: Bears(q.header, token) ==> Entitled(readKey.value, adminKey, sha(token), q.verb, r)))
  }

  lemma Strips(scheme: string, header: string)
    requires scheme <= header
    ensures header == scheme + header[|scheme|..]
  {
  }

  lemma Prefixed(scheme: string, token: string)
    ensures scheme <= scheme + token && (scheme + token)[|scheme|..] == token
  {
  }

  /** A token that is found is borne. */
  lemma FoundIsBorne(header: Option<string>)
    requires BearerToken(header).Some?
    ensures Bears(header, BearerToken(header).value)
  {
    var upper, lower := "Bearer ", "bearer ";
    assert |upper| == 7 && |lower| == 7;
    if upper <= header.value {
      Strips(upper, header.value);
    } else {
      Strips(lower, header.value);
    }
  }

  /** A token that is borne is found, so there is at most one. */
  lemma BorneIsFound(header: Option<string>, token: string)
    requires Bears(header, token)
    ensures BearerToken(header) == Some(token)
  {
    var upper, lower := "Bearer ", "bearer ";
    assert |upper| == 7 && |lower| == 7;
    Prefixed(upper, token);
    Prefixed(lower, token);
  }

  lemma DecideIsLawful(readKey: Option<Hash>, adminKey: Option<Hash>, sha: string -> Hash, q: Request)
    ensures Lawful(readKey, adminKey, sha, q, Decide(readKey, adminKey, sha, q))
  {
    if BearerToken(q.header).Some? {
      FoundIsBorne(q.header);
    }
    forall token | Bears(q.header, token) ensures BearerToken(q.header) == Some(token) {
      BorneIsFound(q.header, token);
    }
  }

  /**
   * The law in one line: a request that is not blocked is granted exactly when there is no read
   * key, or it bears a token whose hash is the read key's, for reading or in the absence of an
   * admin key, or is the admin key's and not also the read key's.
   */
  lemma GrantedIff(readKey: Option<Hash>, adminKey: Option<Hash>, sha: string -> Hash, q: Request, r: Outcome)
    requires Lawful(readKey, adminKey, sha, q, r)
    ensures r.Granted? <==> readKey.None? || exists token ::
      Bears(q.header, token) && if sha(token) == readKey.value then adminKey.None? || !Changes(q.verb)
                                else adminKey == Some(sha(token))
    ensures r == Granted(Admin) <==> readKey.None? || exists token ::
      Bears(q.header, token) && if sha(token) == readKey.value then adminKey.None? else adminKey == Some(sha(token))
  {
    if readKey.Some? && q.header.Some? {
      if token :| Bears(q.header, token) {
        assert Entitled(readKey.value, adminKey, sha(token), q.verb, r);
        forall other | Bears(q.header, other) ensures other == token {
          BorneIsFound(q.header, token);
          BorneIsFound(q.header, other);
        }
      }
    }
  }

  class AuthState {
    const readKey: Option<Hash>
    const adminKey: Option<Hash>
    const sha: string -> Hash
    const limiter: RateLimiter

    constructor (readKey: Option<Hash>, adminKey: Option<Hash>, sha: string -> Hash, limiter: RateLimiter)
      ensures this.readKey == readKey && this.adminKey == adminKey && this.sha == sha && this.limiter == limiter
    {
      this.readKey, this.adminKey, this.sha, this.limiter := readKey, adminKey, sha, limiter;
    }

    /**
     * A blocked address is refused whatever it presents, valid keys included; a failure is
     * recorded exactly for a well-formed token that matches no key, for that address alone.
     */
    method Check(q: Request, ip: Option<Ip>) returns (r: Outcome)
      modifies limiter
      ensures var enabled := readKey.Some? && ip.Some? && limiter.cfg.maxFailures != 0;
        var blocked := enabled && EntryBlocked(Lookup(old(limiter.failures), ip.value), q.checked);
        && r == (if blocked then Refused(RateLimited) else Decide(readKey, adminKey, sha, q))
        && limiter.failures ==
           if enabled && r == Refused(InvalidKey)
           then
             old(limiter.failures)[
               ip.value := Record(limiter.cfg, Lookup(old(limiter.failures), ip.value), q.recorded)]
           else old(limiter.failures)
      ensures if readKey.Some? && ip.Some? && limiter.cfg.maxFailures != 0
                 && EntryBlocked(Lookup(old(limiter.failures), ip.value), q.checked)
              then r == Refused(RateLimited) else Lawful(readKey, adminKey, sha, q, r)
    {
      DecideIsLawful(readKey, adminKey, sha, q);
      if readKey.None? {
        return Granted(Admin);
      }
      if ip.Some? {
        var blocked := limiter.IsBlocked(ip.value, q.checked);
        if blocked {
          return Refused(RateLimited);
        }
      }
      var required := RequiredPermission(q.verb);
      if q.header.None? {
        return Refused(MissingHeader);
      }
      var token := BearerToken(q.header);
      if token.None? {
        return Refused(MalformedHeader);
      }
      var granted := VerifyToken(readKey, adminKey, sha(token.value));
      if granted.Refused? {
        if ip.Some? {
          limiter.RecordFailure(ip.value, q.recorded);
        }
        return granted;
      }
      if required == Admin && granted.permission == Read {
        return Refused(InsufficientPermission);
      }
      r := granted;
    }
  }
}

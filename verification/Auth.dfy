/** Token generation of internal/auth/auth.go:37-87 and 171-256. Signing is
    abstract: a token carries its claims and the key it was signed with, and it
    verifies under that key only. Times are integer nanoseconds; the dates in a
    token are whole seconds. */
module Auth {
  import opened Common

  datatype User = User(username: string, email: string, groups: seq<string>)

  datatype Claims = Claims(user: User, gen: string, issuedAt: int, expiresAt: Option<int>, notBefore: Option<int>)

  datatype Key = Rsa(name: string) | Hmac(secret: string)

  /** What a caller can present: a signed token, nothing, or anything else. */
  datatype Token = Signed(claims: Claims, key: Key) | Empty | Garbage

  /** The text configured as private key, or found in the environment. */
  datatype Pem = NoPem | BadPem | RsaPem(name: string)

  datatype Config = Config(privateKey: Pem, secret: string, expiry: int)

  datatype Error = NilUser | NoSigningKey | EmptyToken | BadSignature | Expired | NotYetValid | WrongGeneration

  datatype Result<T> = Ok(value: T) | Err(error: Error)

  /** jwt.NewNumericDate drops the fraction of a second. */
  function NumericDate(t: int): int {
    t / SECOND * SECOND
  }

  /** Section 4.1.4 of RFC 7519: a token must not be accepted on or after its
      expiration time; section 4.1.5: nor before its not-before time. */
  function DateError(c: Claims, now: int): Option<Error> {
    if c.expiresAt.Some? && now >= c.expiresAt.value then Some(Expired)
    else if c.notBefore.Some? && now < c.notBefore.value then Some(NotYetValid)
    else None
  }

  /** The package variables, as far as tokens depend on them. */
  datatype State = State(cfg: Option<Config>, cachedKey: Option<string>, gen: string)

  /** Lines 52-87, with the key found in the environment as `env`. */
  function PrivateKey(s: State, env: Pem): Option<string> {
    if s.cachedKey.Some? then s.cachedKey
    else if s.cfg.None? then None
    else
      var pem := if s.cfg.value.privateKey.NoPem? then env else s.cfg.value.privateKey;
      if pem.RsaPem? then Some(pem.name) else None
  }

  /** The key with which tokens are signed and checked: RSA if there is one. */
  function SigningKey(s: State, env: Pem): Option<Key> {
    var rsa := PrivateKey(s, env);
    if rsa.Some? then Some(Rsa(rsa.value))
    else if s.cfg.None? || s.cfg.value.secret == "" then None
    else Some(Hmac(s.cfg.value.secret))
  }

  function Cached(s: State, env: Pem): State {
    s.(cachedKey := PrivateKey(s, env))
  }

  /** What ValidateJWT answers. */
  function Validate(s: State, env: Pem, token: Token, now: int): Result<Claims> {
    var key := SigningKey(s, env);
    if token.Empty? then Err(EmptyToken)
    else if key.None? then Err(NoSigningKey)
    else if token.Garbage? || token.key != key.value then Err(BadSignature)
    else if DateError(token.claims, now).Some? then Err(DateError(token.claims, now).value)
    else if token.claims.gen != s.gen then Err(WrongGeneration)
    else Ok(token.claims)
  }

  /** No token of these generations is accepted, whatever its claims, its key and
      the time. */
  ghost predicate RejectsAll(s: State, gens: set<string>) {
    forall env, token, now :: Validate(s, env, token, now).Ok? ==> token.claims.gen !in gens
  }

  /** The key in use: the private key once there is one, otherwise the secret. */
  ghost predicate IsKey(privateKey: Option<string>, cfg: Option<Config>, key: Key) {
    if privateKey.Some? then key == Rsa(privateKey.value)
    else cfg.Some? && cfg.value.secret != "" && key == Hmac(cfg.value.secret)
  }

  /** The claims for a user at a moment: the user's own data, the generation, and
      as dates the last whole second by then and by the end of the expiry time. */
  ghost predicate AreClaimsFor(c: Claims, user: User, gen: string, now: int, expiry: int) {
    && c.user.username == user.username && c.user.email == user.email && c.user.groups == user.groups
    && c.gen == gen && c.notBefore.None? && c.expiresAt.Some?
    && c.issuedAt % SECOND == 0 && c.issuedAt <= now < c.issuedAt + SECOND
    && c.expiresAt.value % SECOND == 0 && c.expiresAt.value <= now + expiry < c.expiresAt.value + SECOND
  }

  class Service {
    var globalCfg: Option<Config>
    var privateKey: Option<string>
    var tokenGen: string
    /** The generations drawn so far. UUIDs are assumed never to repeat. */
    ghost var drawn: set<string>

    ghost function Abs(): State
      reads this
    {
      State(globalCfg, privateKey, tokenGen)
    }

    /** Before Init there is no configuration, and so no token is accepted. */
    constructor ()
      ensures Abs() == State(None, None, "") && drawn == {}
    {
      globalCfg, privateKey, tokenGen, drawn := None, None, "", {};
    }

    /** Lines 44-49. */
    method Init(c: Config, uuid: string)
      requires uuid !in drawn
      modifies this
      ensures Abs() == State(Some(c), None, uuid) && drawn == old(drawn) + {uuid}
      ensures RejectsAll(Abs(), old(drawn))
    {
      globalCfg, privateKey, tokenGen := Some(c), None, uuid;
      drawn := drawn + {uuid};
    }

    /** Lines 254-256. */
    method InvalidateTokens(uuid: string)
      requires uuid !in drawn
      modifies this`tokenGen, this`drawn
      ensures Abs() == old(Abs()).(gen := uuid) && drawn == old(drawn) + {uuid}
      ensures RejectsAll(Abs(), old(drawn))
    {
      tokenGen := uuid;
      drawn := drawn + {uuid};
    }

    method GetPrivateKey(env: Pem) returns (key: Option<string>)
      modifies this`privateKey
      ensures key == PrivateKey(old(Abs()), env) && Abs() == Cached(old(Abs()), env)
      ensures old(privateKey).Some? ==> key == old(privateKey)
      ensures old(privateKey).None? && globalCfg.None? ==> key.None?
      ensures old(privateKey).None? && globalCfg.Some? ==>
                match globalCfg.value.privateKey
                case RsaPem(name) => key == Some(name)
                case BadPem => key.None?
                case NoPem => key == if env.RsaPem? then Some(env.name) else None
      ensures privateKey == key
    {
      if privateKey.Some? {
        return privateKey;
      }
      if globalCfg.None? {
        return None;
      }
      var pem := globalCfg.value.privateKey;
      if pem.NoPem? {
        pem := env;
      }
      if !pem.RsaPem? {
        return None;
      }
      privateKey := Some(pem.name);
      key := privateKey;
    }

    /** Lines 172-201. For a user the source reads the configured expiry and so
        demands that Init has run. */
    method GenerateJWT(user: Option<User>, env: Pem, now: int) returns (r: Result<Token>)
      requires user.Some? ==> globalCfg.Some?
      modifies this`privateKey
      ensures user.None? ==> r == Err(NilUser) && Abs() == old(Abs())
      ensures user.Some? ==> Abs() == Cached(old(Abs()), env)
      ensures user.Some? ==>
                match SigningKey(old(Abs()), env)
                case None => r == Err(NoSigningKey)
                case Some(key) => r.Ok? && r.value.Signed? && r.value.key == key
      ensures r.Ok? ==>
                && user.Some? && r.value.Signed? && IsKey(privateKey, globalCfg, r.value.key)
                && AreClaimsFor(r.value.claims, user.value, tokenGen, now, globalCfg.value.expiry)
      ensures r.Err? ==> user.None? || (privateKey.None? && globalCfg.value.secret == "")
    {
      if user.None? {
        return Err(NilUser);
      }
      var claims := Claims(user.value, tokenGen, NumericDate(now),
                           Some(NumericDate(now + globalCfg.value.expiry)), None);
      var key := GetPrivateKey(env);
      if key.Some? {
        return Ok(Signed(claims, Rsa(key.value)));
      }
      if globalCfg.value.secret == "" {
        return Err(NoSigningKey);
      }
      r := Ok(Signed(claims, Hmac(globalCfg.value.secret)));
    }

    /** Lines 204-249. */
    method ValidateJWT(token: Token, env: Pem, now: int) returns (r: Result<Claims>)
      modifies this`privateKey
      ensures r == Validate(old(Abs()), env, token, now)
      ensures Abs() == if token.Empty? then old(Abs()) else Cached(old(Abs()), env)
      ensures r.Ok? <==>
                && token.Signed? && IsKey(privateKey, globalCfg, token.key)
                && (token.claims.expiresAt.Some? ==> now < token.claims.expiresAt.value)
                && (token.claims.notBefore.Some? ==> token.claims.notBefore.value <= now)
                && token.claims.gen == tokenGen
      ensures r.Ok? ==> r.value == token.claims
      ensures r == Err(EmptyToken) <==> token.Empty?
      ensures r == Err(NoSigningKey) <==> !token.Empty? && forall key :: !IsKey(privateKey, globalCfg, key)
      ensures r == Err(BadSignature) <==>
                && !token.Empty? && (exists key :: IsKey(privateKey, globalCfg, key))
                && (token.Signed? ==> !IsKey(privateKey, globalCfg, token.key))
      ensures r == Err(WrongGeneration) ==> token.Signed? && token.claims.gen != tokenGen
    {
      ghost var secretKey := if globalCfg.Some? then Hmac(globalCfg.value.secret) else Hmac("");
      if token.Empty? {
        return Err(EmptyToken);
      }
      var key := GetPrivateKey(env);
      assert IsKey(privateKey, globalCfg, if key.Some? then Rsa(key.value) else secretKey)
        <==> exists k :: IsKey(privateKey, globalCfg, k);
      if key.Some? {
        if token.Garbage? || token.key != Rsa(key.value) {
          return Err(BadSignature);
        }
      } else {
        if globalCfg.None? || globalCfg.value.secret == "" {
          return Err(NoSigningKey);
        }
        if token.Garbage? || token.key != Hmac(globalCfg.value.secret) {
          return Err(BadSignature);
        }
      }
      var dates := DateError(token.claims, now);
      if dates.Some? {
        return Err(dates.value);
      }
      if token.claims.gen != tokenGen {
        return Err(WrongGeneration);
      }
      r := Ok(token.claims);
    }
  }

  /** Round trip: a token for the claims of a user, made in `s` at `issued`, is
      accepted in `s'` at `now` exactly when `s'` checks with the key `s` signed
      with, the second of expiry has not begun, and the generation has not
      changed; and then with the user's own claims. */
  lemma RoundTripIff(s: State, env: Pem, user: User, issued: int, c: Claims, s': State, env': Pem, now: int)
    requires s.cfg.Some? && SigningKey(s, env).Some? && AreClaimsFor(c, user, s.gen, issued, s.cfg.value.expiry)
    ensures var r := Validate(s', env', Signed(c, SigningKey(s, env).value), now);
      && (r.Ok? <==> SigningKey(s', env') == SigningKey(s, env)
                     && now / SECOND < (issued + s.cfg.value.expiry) / SECOND
                     && s'.gen == s.gen)
      && (r.Ok? ==> r.value == c && r.value.user == user)
  {
    SecondsIff(now, issued + s.cfg.value.expiry, c.expiresAt.value);
  }

  lemma SecondsIff(now: int, end: int, date: int)
    requires date % SECOND == 0 && date <= end < date + SECOND
    ensures now < date <==> now / SECOND < end / SECOND
  {
  }

  // ------------------------------------------------------------------------- runs

  /** What can happen between generating and validating a token: `Init` and
      `InvalidateTokens` with a new generation, and any other use, which looks
      for a private key. */
  datatype Op = Configure(c: Config, uuid: string) | Invalidate(uuid: string) | Use(env: Pem)

  function Apply(s: State, op: Op): State {
    match op
    case Configure(c, uuid) => State(Some(c), None, uuid)
    case Invalidate(uuid) => s.(gen := uuid)
    case Use(env) => Cached(s, env)
  }

  function Run(s: State, ops: seq<Op>): State {
    if ops == [] then s else Apply(Run(s, ops[..|ops| - 1]), ops[|ops| - 1])
  }

  ghost predicate OnlyUses(ops: seq<Op>) {
    forall k | 0 <= k < |ops| :: ops[k].Use?
  }

  /** No new generation repeats `gen`. */
  ghost predicate FreshGenerations(gen: string, ops: seq<Op>) {
    forall k | 0 <= k < |ops| && !ops[k].Use? :: ops[k].uuid != gen
  }

  /** No use finds a private key. */
  ghost predicate NoKeyAppears(s: State, ops: seq<Op>) {
    forall k | 0 <= k < |ops| && ops[k].Use? :: PrivateKey(s, ops[k].env).None?
  }

  lemma {:induction false} RunKeepsGeneration(s: State, ops: seq<Op>)
    requires FreshGenerations(s.gen, ops)
    ensures Run(s, ops).gen == s.gen <==> OnlyUses(ops)
  {
    if ops != [] {
      RunKeepsGeneration(s, ops[..|ops| - 1]);
      assert OnlyUses(ops) <==> OnlyUses(ops[..|ops| - 1]) && ops[|ops| - 1].Use?;
    }
  }

  lemma {:induction false} UsesKeepKey(s: State, ops: seq<Op>)
    requires OnlyUses(ops)
    ensures Run(s, ops).cfg == s.cfg
    ensures s.cachedKey.Some? ==> Run(s, ops).cachedKey == s.cachedKey
    ensures s.cachedKey.None? ==> (Run(s, ops).cachedKey.None? <==> NoKeyAppears(s, ops))
  {
    if ops != [] {
      var front, last := ops[..|ops| - 1], ops[|ops| - 1];
      UsesKeepKey(s, front);
      assert NoKeyAppears(s, ops) <==> NoKeyAppears(s, front) && PrivateKey(s, last.env).None?;
    }
  }

  /** Exactly when a generated token is accepted after any run: nothing was
      invalidated or configured anew, the second of expiry has not begun, and,
      if it was signed with the secret, no private key has appeared since. The
      accepted claims carry the user for whom the token was generated. */
  lemma AcceptedAfterRunIff(s: State, env: Pem, user: User, issued: int, c: Claims, ops: seq<Op>, env': Pem, now: int)
    requires s.cfg.Some? && SigningKey(s, env).Some? && FreshGenerations(s.gen, ops)
    requires AreClaimsFor(c, user, s.gen, issued, s.cfg.value.expiry)
    ensures var r := Validate(Run(Cached(s, env), ops), env', Signed(c, SigningKey(s, env).value), now);
      && (r.Ok? <==> OnlyUses(ops)
                     && now / SECOND < (issued + s.cfg.value.expiry) / SECOND
                     && (SigningKey(s, env).value.Rsa?
                         || (NoKeyAppears(s, ops) && PrivateKey(s, env').None?)))
      && (r.Ok? ==> r.value == c && r.value.user == user)
  {
    var s1 := Cached(s, env);
    RunKeepsGeneration(s1, ops);
    if OnlyUses(ops) {
      UsesKeepKey(s1, ops);
      RoundTripIff(s, env, user, issued, c, Run(s1, ops), env', now);
      assert SigningKey(s, env).value.Hmac? ==> s1 == s;
    }
  }
}

/**
  The chain of responsibility that guards model creation
  (src/service/model/validation/model-validation-chain.ts): each handler runs
  its check and then hands the request to the next handler, so the chain
  stops at the first check that throws.
*/
module ValidationChain {
  import opened Wrappers
  import opened ApiError

  /** The concrete checks; the core defines one, `PositiveTokensHandler`. */
  datatype CheckKind = PositiveTokens

  /** The authenticated caller: `req.user`, whose `token` claim may be absent. */
  datatype Claims = Claims(id: nat, token: Option<int>)

  /** What a check reads of the request. */
  datatype Caller = Caller(user: Option<Claims>)

  /** A handler and the handler `setNext` linked after it. */
  datatype Handler = Handler(check: CheckKind, next: Option<Handler>)

  /** `req.user?.token ?? 0`. */
  function TokenOf(req: Caller): (t: int)
    ensures req.user.Some? && req.user.value.token.Some? ==> t == req.user.value.token.value
    ensures req.user.None? || req.user.value.token.None? ==> t == 0
  {
    match req.user
    case None => 0
    case Some(c) => c.token.GetOr(0)
  }

  /** One handler's `check`: `None` when it passes, the thrown error otherwise. */
  function Check(kind: CheckKind, req: Caller): (f: Option<Fault>)
    ensures kind == PositiveTokens ==> (f.Some? <==> TokenOf(req) <= 0)
    ensures f.Some? ==> f.value == Raise(UnauthorizedError, "Tokens depleted", 401)
  {
    match kind
    case PositiveTokens =>
      if TokenOf(req) <= 0 then Some(Raise(UnauthorizedError, "Tokens depleted", 401)) else None
  }

  /** The checks of a chain, in the order `handle` runs them. */
  function Checks(h: Handler): (cs: seq<CheckKind>)
    ensures |cs| >= 1 && cs[0] == h.check
  {
    match h.next
    case None => [h.check]
    case Some(n) => [h.check] + Checks(n)
  }

  /**
    `setNext(handler)`: link `n` after `h`, replacing whatever followed `h`,
    and return `n` so calls can be chained.
  */
  function SetNext(h: Handler, n: Handler): (r: (Handler, Handler))
    ensures r.1 == n
    ensures Checks(r.0) == [h.check] + Checks(n)
  {
    (h.(next := Some(n)), n)
  }

  /** `handle(req)`: run this handler's check, then the rest of the chain. */
  function Handle(h: Handler, req: Caller): (r: Result<(), Fault>)
    ensures Check(h.check, req).Some? ==> r == Failure(Check(h.check, req).value)
    ensures r.Failure? ==> r.error == Raise(UnauthorizedError, "Tokens depleted", 401)
  {
    match Check(h.check, req)
    case Some(f) => Failure(f)
    case None =>
      match h.next
      case None => Success(())
      case Some(n) => Handle(n, req)
  }

  /** The reference semantics of a chain: the error of the first check that fails. */
  function FirstFailure(cs: seq<CheckKind>, req: Caller): Option<Fault> {
    if |cs| == 0 then None
    else if Check(cs[0], req).Some? then Check(cs[0], req)
    else FirstFailure(cs[1..], req)
  }

  /** Handling a chain reports exactly the first failing check of its flattened list. */
  lemma {:induction false} HandleIsFirstFailure(h: Handler, req: Caller)
    ensures Handle(h, req).Failure? <==> FirstFailure(Checks(h), req).Some?
    ensures Handle(h, req).Failure? ==> Handle(h, req).error == FirstFailure(Checks(h), req).value
  {
    var cs := Checks(h);
    if Check(h.check, req).None? {
      match h.next
      case None =>
        assert cs[1..] == [];
      case Some(n) =>
        assert cs[1..] == Checks(n);
        HandleIsFirstFailure(n, req);
    }
  }

  /**
    The chain built at model creation, a single positive-tokens handler,
    lets the request through exactly when the caller's balance is positive.
  */
  lemma {:induction false} PositiveTokensGate(req: Caller)
    ensures Handle(Handler(PositiveTokens, None), req).Success? <==> TokenOf(req) > 0
    ensures req.user.None? ==> Handle(Handler(PositiveTokens, None), req) == Failure(Raise(UnauthorizedError, "Tokens depleted", 401))
  {
  }
}

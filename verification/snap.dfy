/**
 * Snap discovery, connection and invocation (src/utils/snap.ts). Every operation is a function of
 * the answers its foreign calls give; it returns the calls it issued, in order, and its result.
 */
module Snap {
  import opened Optional
  import opened Provider

  /** Static configuration: the snap's origin id and the mainnet contract addresses. */
  datatype Config = Config(snapOrigin: string, wrappedEther: Address, firnToken: Address, router: Address)

  /** One entry of the `wallet_getSnaps` response. */
  datatype InstalledSnap = InstalledSnap(id: string, version: string, enabled: bool)

  /** Chain id of Ethereum mainnet in EIP-155 numbering. */
  const MAINNET: int := 1
  /** Fee tier of the pool the swap goes through, in hundredths of a basis point. */
  const POOL_FEE: nat := 3000
  /** `parseUnits("0.1", "ether")`: 0.1 ether in wei. */
  const SWAP_AMOUNT_IN: nat := 100_000_000_000_000_000
  const WRONG_NETWORK: string :=
    "This method is designed to buy 0.100 ETH of FIRN token. You have to be connected to mainnet to invoke it."

  /** The `ExactInputSingleParams` record passed to the router; `None` recipient is `undefined`. */
  datatype SwapParams = SwapParams(
    tokenIn: Address, tokenOut: Address, fee: nat, recipient: Option<Address>,
    amountIn: nat, amountOutMinimum: nat, sqrtPriceLimitX96: nat)

  /** Transaction overrides: the ether attached to the call. */
  datatype Overrides = Overrides(value: nat)

  /**
   * A foreign call. `WalletRequest` is a direct `window.ethereum.request` call made by the snap
   * helpers; the account and chain reads reach the wallet through ethers and are listed apart.
   */
  datatype Call =
    | WalletRequest(request: Request)
    | ListAccounts
    | GetNetwork
    | PopulateExactInputSingle(router: Address, swap: SwapParams, overrides: Overrides)

  /** The calls an operation issued, in order, and what it returned. */
  datatype Effect<T> = Effect(calls: seq<Call>, result: T)

  /** The direct wallet requests among `calls`, in order. */
  function WalletRequests(calls: seq<Call>): (r: seq<Request>)
    ensures |r| <= |calls|
    ensures forall q :: q in r <==> WalletRequest(q) in calls
    decreases |calls|
  {
    if |calls| == 0 then []
    else
      var rest := WalletRequests(calls[1..]);
      assert forall c :: c in calls <==> c == calls[0] || c in calls[1..];
      if calls[0].WalletRequest? then [calls[0].request] + rest else rest
  }

  lemma {:induction false} WalletRequestsAppend(a: seq<Call>, b: seq<Call>)
    ensures WalletRequests(a + b) == WalletRequests(a) + WalletRequests(b)
    decreases |a|
  {
    if |a| > 0 {
      assert (a + b)[1..] == a[1..] + b;
      WalletRequestsAppend(a[1..], b);
    } else {
      assert a + b == b;
    }
  }

  lemma NoWalletRequests(calls: seq<Call>)
    requires forall i | 0 <= i < |calls| :: !calls[i].WalletRequest?
    ensures WalletRequests(calls) == []
  {
  }

  // ---------------------------------------------------------------- discovery

  const GET_SNAPS := Request("wallet_getSnaps", None)

  /** `!version`: no version was given, or the empty string was. */
  predicate AnyVersion(version: Option<string>) {
    version.None? || version.value == ""
  }

  /** The filter `getSnap` applies to each installed snap. */
  predicate Selects(origin: string, version: Option<string>, snap: InstalledSnap) {
    snap.id == origin && (AnyVersion(version) || snap.version == version.value)
  }

  /** `Array.prototype.find`: the first snap, in enumeration order, that the filter selects. */
  function FirstSelected(snaps: seq<InstalledSnap>, origin: string, version: Option<string>): (r: Option<InstalledSnap>)
    ensures r.None? <==> forall i | 0 <= i < |snaps| :: !Selects(origin, version, snaps[i])
    ensures r.Some? ==> exists k | 0 <= k < |snaps| ::
      snaps[k] == r.value && Selects(origin, version, snaps[k])
      && forall i | 0 <= i < k :: !Selects(origin, version, snaps[i])
    decreases |snaps|
  {
    if |snaps| == 0 then None
    else if Selects(origin, version, snaps[0]) then Some(snaps[0])
    else
      var r := FirstSelected(snaps[1..], origin, version);
      assert forall i | 1 <= i < |snaps| :: snaps[i] == snaps[1..][i - 1];
      r
  }

  /**
   * `getSnap(version)`: one `wallet_getSnaps` request; `reply` lists the values of the response
   * record in enumeration order. A failed request is swallowed and yields no snap.
   */
  function GetSnap(cfg: Config, version: Option<string>, reply: Outcome<seq<InstalledSnap>>): (r: Effect<Option<InstalledSnap>>)
    ensures WalletRequests(r.calls) == [GET_SNAPS] && |r.calls| == 1
    ensures reply.Err? ==> r.result.None?
    ensures r.result.Some? ==> r.result.value.id == cfg.snapOrigin
    ensures r.result.Some? && version.Some? && version.value != "" ==> r.result.value.version == version.value
    ensures r.result.Some? ==> reply.Ok? && r.result.value in reply.value
    ensures reply.Ok? ==> (r.result.None? <==> forall i | 0 <= i < |reply.value| :: !Selects(cfg.snapOrigin, version, reply.value[i]))
    ensures reply.Ok? ==> r.result == FirstSelected(reply.value, cfg.snapOrigin, version)
  {
    var found := match reply
      case Err(_) => None
      case Ok(snaps) => FirstSelected(snaps, cfg.snapOrigin, version);
    Effect([WalletRequest(GET_SNAPS)], found)
  }

  /** With no version or an empty one the same snap is found: `!version` treats both alike. */
  lemma EmptyVersionSelectsAsNone(snaps: seq<InstalledSnap>, origin: string)
    ensures FirstSelected(snaps, origin, Some("")) == FirstSelected(snaps, origin, None)
  {
  }

  /** In a response where ids are unique, the snap with the configured id is the one found. */
  lemma UniqueIdIsFound(cfg: Config, snaps: seq<InstalledSnap>, k: nat)
    requires forall i, j | 0 <= i < j < |snaps| :: snaps[i].id != snaps[j].id
    requires k < |snaps| && snaps[k].id == cfg.snapOrigin
    ensures GetSnap(cfg, None, Ok(snaps)).result == Some(snaps[k])
  {
  }

  // ---------------------------------------------------------------- connection

  /** The `wallet_enable` request asking for the snap `snapId` with the parameter bag `params`. */
  function EnableRequest(snapId: string, params: map<string, Json>): Request {
    Request("wallet_enable", Some(JArr([
      JObj(map["wallet_snap" := JObj(map[snapId := JObj(map["params" := JObj(params)])])])])))
  }

  /** An entry `{ params: {...} }` of the `wallet_snap` permission. */
  predicate IsParamBag(v: Json) {
    v.JObj? && v.fields.Keys == {"params"} && v.fields["params"].JObj?
  }

  /** The wallet's reading of a `wallet_enable` request: each requested snap id with its params. */
  function EnabledSnaps(req: Request): Option<map<string, map<string, Json>>> {
    if req.methodName == "wallet_enable" && req.params.Some? && req.params.value.JArr?
       && |req.params.value.items| == 1 && req.params.value.items[0].JObj?
       && req.params.value.items[0].fields.Keys == {"wallet_snap"}
       && req.params.value.items[0].fields["wallet_snap"].JObj?
    then
      var w := req.params.value.items[0].fields["wallet_snap"].fields;
      if forall id | id in w :: IsParamBag(w[id])
      then Some(map id | id in w :: w[id].fields["params"].fields)
      else None
    else None
  }

  /** The wallet reads back exactly the one snap and parameter bag a `wallet_enable` request names. */
  lemma EnableRequestReadsBack(snapId: string, params: map<string, Json>)
    ensures EnabledSnaps(EnableRequest(snapId, params)) == Some(map[snapId := params])
  {
    var w := map[snapId := JObj(map["params" := JObj(params)])];
    assert forall id | id in w :: IsParamBag(w[id]);
    var read := map id | id in w :: w[id].fields["params"].fields;
    assert read.Keys == {snapId};
    assert read == map[snapId := params];
  }

  /**
   * `connectSnap(snapId, params)`: one `wallet_enable` request for exactly one snap, by default
   * the configured origin with an empty parameter bag. A rejection propagates.
   */
  function ConnectSnap(cfg: Config, snapId: Option<string>, params: Option<map<string, Json>>, reply: Outcome<Json>): (r: Effect<Outcome<()>>)
    ensures |r.calls| == 1 && r.calls[0].WalletRequest?
    ensures EnabledSnaps(r.calls[0].request) == Some(map[snapId.GetOr(cfg.snapOrigin) := params.GetOr(map[])])
    ensures r.result.Ok? <==> reply.Ok?
    ensures reply.Err? ==> r.result == Err(reply.error)
  {
    var req := EnableRequest(snapId.GetOr(cfg.snapOrigin), params.GetOr(map[]));
    EnableRequestReadsBack(snapId.GetOr(cfg.snapOrigin), params.GetOr(map[]));
    Effect([WalletRequest(req)], match reply case Ok(_) => Ok(()) case Err(e) => Err(e))
  }

  // ---------------------------------------------------------------- invocation

  /** A snap method call as the wallet reads it out of a `wallet_invokeSnap` request. */
  datatype SnapInvocation = SnapInvocation(snapId: string, methodName: string, params: Option<Json>)

  /** The `{ method, params }` object handed to the snap; `params` is left out when absent. */
  function SnapRequestFields(methodName: string, params: Option<Json>): map<string, Json> {
    match params
    case None => map["method" := JStr(methodName)]
    case Some(p) => map["method" := JStr(methodName), "params" := p]
  }

  function InvokeRequest(snapId: string, methodName: string, params: Option<Json>): Request {
    Request("wallet_invokeSnap", Some(JArr([JStr(snapId), JObj(SnapRequestFields(methodName, params))])))
  }

  /** The wallet's reading of a `wallet_invokeSnap` request. */
  function InvocationOf(req: Request): Option<SnapInvocation> {
    if req.methodName == "wallet_invokeSnap" && req.params.Some? && req.params.value.JArr?
       && |req.params.value.items| == 2 && req.params.value.items[0].JStr?
       && req.params.value.items[1].JObj?
    then
      var o := req.params.value.items[1].fields;
      if "method" in o && o["method"].JStr? && o.Keys <= {"method", "params"}
      then Some(SnapInvocation(req.params.value.items[0].s, o["method"].s,
                               if "params" in o then Some(o["params"]) else None))
      else None
    else None
  }

  /** `handleInitialize()`: one request invoking `initialize` on the snap; the reply is discarded. */
  function HandleInitialize(cfg: Config, reply: Outcome<Json>): (r: Effect<Outcome<()>>)
    ensures |r.calls| == 1 && r.calls[0].WalletRequest?
    ensures InvocationOf(r.calls[0].request) == Some(SnapInvocation(cfg.snapOrigin, "initialize", None))
    ensures r.result.Ok? <==> reply.Ok?
    ensures reply.Err? ==> r.result == Err(reply.error)
  {
    var req := InvokeRequest(cfg.snapOrigin, "initialize", None);
    Effect([WalletRequest(req)], match reply case Ok(_) => Ok(()) case Err(e) => Err(e))
  }

  /** `handleBalance()`: one request invoking `requestBalance`; the reply is returned unchanged. */
  function HandleBalance(cfg: Config, reply: Outcome<Json>): (r: Effect<Outcome<Json>>)
    ensures |r.calls| == 1 && r.calls[0].WalletRequest?
    ensures InvocationOf(r.calls[0].request) == Some(SnapInvocation(cfg.snapOrigin, "requestBalance", None))
    ensures r.result == reply
  {
    Effect([WalletRequest(InvokeRequest(cfg.snapOrigin, "requestBalance", None))], reply)
  }

  // ---------------------------------------------------------------- transaction

  /** What the foreign steps of `handleTransact` answer, in the order they are taken. */
  datatype TransactEnv = TransactEnv(
    accounts: Outcome<seq<Address>>,  // `provider.listAccounts()`
    network: Outcome<int>,            // the chain id from `provider.getNetwork()`
    populated: Outcome<Json>,         // `router.populateTransaction.exactInputSingle(...)`
    reply: Outcome<Json>)             // the `wallet_invokeSnap` request

  /** `accounts[0]`, which is `undefined` for an empty list. */
  function FirstAccount(accounts: seq<Address>): Option<Address> {
    if |accounts| > 0 then Some(accounts[0]) else None
  }

  /**
   * The swap the router is asked to encode: wrapped ether in, FIRN out, through the 0.3% pool,
   * proceeds to the logged-in account, no minimum output and no price limit, with the input
   * amount attached as ether.
   */
  predicate IsFirnPurchase(cfg: Config, accounts: seq<Address>, c: Call) {
    && c.PopulateExactInputSingle?
    && c.router == cfg.router
    && c.swap.tokenIn == cfg.wrappedEther
    && c.swap.tokenOut == cfg.firnToken
    && c.swap.fee == POOL_FEE
    && c.swap.recipient == FirstAccount(accounts)
    && c.swap.amountIn == SWAP_AMOUNT_IN
    && c.swap.amountOutMinimum == 0
    && c.swap.sqrtPriceLimitX96 == 0
    && c.overrides.value == c.swap.amountIn
  }

  function PurchaseCall(cfg: Config, accounts: seq<Address>): Call {
    PopulateExactInputSingle(
      cfg.router,
      SwapParams(cfg.wrappedEther, cfg.firnToken, POOL_FEE, FirstAccount(accounts), SWAP_AMOUNT_IN, 0, 0),
      Overrides(SWAP_AMOUNT_IN))
  }

  /**
   * `handleTransact()`: read the accounts and the chain, refuse anything but mainnet, have the
   * router encode the swap, and invoke `transact` on the snap with the unsigned transaction.
   */
  function HandleTransact(cfg: Config, env: TransactEnv): (r: Effect<Outcome<Json>>)
    ensures |r.calls| >= 1 && r.calls[0] == ListAccounts
    // the chain check: off mainnet the operation fails before anything is encoded or invoked
    ensures env.accounts.Ok? && env.network.Ok? && env.network.value != MAINNET ==>
      r.result == Err(PlainError(WRONG_NETWORK)) && |r.calls| == 2
    ensures env.network.Ok? && env.network.value != MAINNET ==> r.result.Err? && WalletRequests(r.calls) == []
    ensures |WalletRequests(r.calls)| <= 1
    ensures |WalletRequests(r.calls)| == 1 <==>
      env.accounts.Ok? && env.network == Ok(MAINNET) && env.populated.Ok?
    ensures forall q | q in WalletRequests(r.calls) ::
      InvocationOf(q) == Some(SnapInvocation(cfg.snapOrigin, "transact", Some(env.populated.value)))
    ensures forall c | c in r.calls && c.PopulateExactInputSingle? ::
      env.accounts.Ok? && IsFirnPurchase(cfg, env.accounts.value, c)
    // on mainnet the fixed swap is always encoded, right after the two reads and before any invoke
    ensures env.accounts.Ok? && env.network == Ok(MAINNET) ==>
      |r.calls| >= 3 && r.calls[1] == GetNetwork && IsFirnPurchase(cfg, env.accounts.value, r.calls[2])
      && forall i | 0 <= i < 3 :: !r.calls[i].WalletRequest?
    ensures r.result.Ok? ==> env.network == Ok(MAINNET) && r.result == env.reply
    // a failing step stops the operation and its failure is what the operation throws
    ensures env.accounts.Err? ==> r.calls == [ListAccounts] && r.result == Err(env.accounts.error)
    ensures env.accounts.Ok? && env.network.Err? ==> |r.calls| == 2 && r.result == Err(env.network.error)
    ensures env.accounts.Ok? && env.network == Ok(MAINNET) && env.populated.Err? ==>
      |r.calls| == 3 && r.result == Err(env.populated.error)
    ensures env.accounts.Ok? && env.network == Ok(MAINNET) && env.populated.Ok? ==>
      |r.calls| == 4 && r.result == env.reply
  {
    match env.accounts
    case Err(e) => Effect([ListAccounts], Err(e))
    case Ok(accounts) =>
      match env.network
      case Err(e) => Effect([ListAccounts, GetNetwork], Err(e))
      case Ok(chainId) =>
        if chainId != MAINNET then Effect([ListAccounts, GetNetwork], Err(PlainError(WRONG_NETWORK)))
        else
          var populate := PurchaseCall(cfg, accounts);
          var lookups := [ListAccounts, GetNetwork, populate];
          NoWalletRequests(lookups);
          match env.populated
          case Err(e) => Effect(lookups, Err(e))
          case Ok(tx) =>
            var invoke := WalletRequest(InvokeRequest(cfg.snapOrigin, "transact", Some(tx)));
            WalletRequestsAppend(lookups, [invoke]);
            Effect(lookups + [invoke], env.reply)
  }
}

/**
 * The page's operation handlers and enablement (src/pages/index.tsx). A handler's run is a trace
 * of events: the actions it dispatches interleaved with the foreign calls it makes.
 */
module Page {
  import opened Optional
  import opened Provider
  import opened Snap
  import opened Session
  import Decimal

  datatype Event = Dispatch(action: Action) | Perform(call: Call)

  const LOGGED_IN := "User successfully logged in."
  const BALANCE_PREFIX := "User's Firn balance is "
  const BALANCE_SUFFIX := " ETH."
  const HASH_PREFIX := "Transaction successful; its hash was "

  // ---------------------------------------------------------------- traces

  function Performed(calls: seq<Call>): (t: seq<Event>)
    ensures |t| == |calls|
    ensures forall i | 0 <= i < |t| :: t[i] == Perform(calls[i])
  {
    seq(|calls|, i requires 0 <= i < |calls| => Perform(calls[i]))
  }

  /** The foreign calls of a trace, in order. */
  function CallsOf(t: seq<Event>): seq<Call>
    decreases |t|
  {
    if |t| == 0 then []
    else if t[0].Perform? then [t[0].call] + CallsOf(t[1..])
    else CallsOf(t[1..])
  }

  predicate IsOutcome(a: Action) {
    a.SetSuccess? || a.SetError?
  }

  /** The success and error actions of a trace, in order. */
  function OutcomesOf(t: seq<Event>): seq<Action>
    decreases |t|
  {
    if |t| == 0 then []
    else if t[0].Dispatch? && IsOutcome(t[0].action) then [t[0].action] + OutcomesOf(t[1..])
    else OutcomesOf(t[1..])
  }

  lemma {:induction false} CallsAppend(a: seq<Event>, b: seq<Event>)
    ensures CallsOf(a + b) == CallsOf(a) + CallsOf(b)
    decreases |a|
  {
    if |a| == 0 {
      assert a + b == b;
    } else {
      assert (a + b)[0] == a[0];
      assert (a + b)[1..] == a[1..] + b;
      CallsAppend(a[1..], b);
    }
  }

  lemma {:induction false} OutcomesAppend(a: seq<Event>, b: seq<Event>)
    ensures OutcomesOf(a + b) == OutcomesOf(a) + OutcomesOf(b)
    decreases |a|
  {
    if |a| == 0 {
      assert a + b == b;
    } else {
      assert (a + b)[0] == a[0];
      assert (a + b)[1..] == a[1..] + b;
      OutcomesAppend(a[1..], b);
    }
  }

  lemma {:induction false} ProjectionsOfPerformed(calls: seq<Call>)
    ensures CallsOf(Performed(calls)) == calls
    ensures OutcomesOf(Performed(calls)) == []
    decreases |calls|
  {
    if |calls| > 0 {
      assert Performed(calls)[1..] == Performed(calls[1..]);
      ProjectionsOfPerformed(calls[1..]);
    }
  }

  /** The lock the trace's `SetLocked` actions leave, starting from `initial`. */
  function LockAfter(initial: bool, t: seq<Event>): bool
    decreases |t|
  {
    if |t| == 0 then initial
    else
      var next := if t[0].Dispatch? && t[0].action.SetLocked? then t[0].action.lock else initial;
      LockAfter(next, t[1..])
  }

  /** The lock is taken by the first event and given back by the last one, and only there. */
  predicate Settles(t: seq<Event>) {
    && |t| >= 2
    && t[0] == Dispatch(SetLocked(true))
    && t[|t| - 1] == Dispatch(SetLocked(false))
    && forall i | 0 <= i < |t| - 1 :: t[i] != Dispatch(SetLocked(false))
  }

  /**
   * The run of one button: lock, then exactly the given calls, then one outcome report, then the
   * release, and nothing else.
   */
  predicate LockedRun(t: seq<Event>, calls: seq<Call>) {
    && |t| == |calls| + 3
    && Settles(t)
    && t[1..|t| - 2] == Performed(calls)
    && t[|t| - 2].Dispatch? && IsOutcome(t[|t| - 2].action)
  }

  /** Whatever the lock was before, it is held after every proper prefix and free at the end. */
  predicate KeepsLock(t: seq<Event>) {
    && (forall b :: !LockAfter(b, t))
    && forall i, b | 0 < i < |t| :: LockAfter(b, t[..i])
  }

  lemma {:induction false} LockAfterAppend(initial: bool, a: seq<Event>, b: seq<Event>)
    ensures LockAfter(initial, a + b) == LockAfter(LockAfter(initial, a), b)
    decreases |a|
  {
    if |a| == 0 {
      assert a + b == b;
    } else {
      assert (a + b)[1..] == a[1..] + b;
      var next := if a[0].Dispatch? && a[0].action.SetLocked? then a[0].action.lock else initial;
      LockAfterAppend(next, a[1..], b);
    }
  }

  lemma {:induction false} HeldWithoutRelease(t: seq<Event>)
    requires forall i | 0 <= i < |t| :: t[i] != Dispatch(SetLocked(false))
    ensures LockAfter(true, t)
    decreases |t|
  {
    if |t| > 0 {
      HeldWithoutRelease(t[1..]);
    }
  }

  lemma SettledTraceKeepsLock(t: seq<Event>)
    requires Settles(t)
    ensures KeepsLock(t)
  {
    forall b: bool
      ensures !LockAfter(b, t)
    {
      var n := |t| - 1;
      assert t == t[..n] + [t[n]];
      LockAfterAppend(b, t[..n], [t[n]]);
    }
    forall i: int, b: bool | 0 < i < |t|
      ensures LockAfter(b, t[..i])
    {
      assert t[..i] == [t[0]] + t[1..i];
      LockAfterAppend(b, [t[0]], t[1..i]);
      HeldWithoutRelease(t[1..i]);
    }
  }

  /** The trace of a button run that makes `calls` and then dispatches `report`. */
  lemma LockedRunFacts(calls: seq<Call>, report: Action)
    requires IsOutcome(report)
    ensures var t := [Dispatch(SetLocked(true))] + Performed(calls) + [Dispatch(report), Dispatch(SetLocked(false))];
      && LockedRun(t, calls) && KeepsLock(t)
      && CallsOf(t) == calls && OutcomesOf(t) == [report]
  {
    var lock := [Dispatch(SetLocked(true))];
    var settle := [Dispatch(report), Dispatch(SetLocked(false))];
    var t := lock + Performed(calls) + settle;
    assert CallsOf(lock) == [] && OutcomesOf(lock) == [];
    var unlock := [Dispatch(SetLocked(false))];
    assert unlock[1..] == [];
    assert CallsOf(unlock) == [] && OutcomesOf(unlock) == [];
    assert settle[1..] == unlock;
    assert CallsOf(settle) == CallsOf(unlock);
    assert OutcomesOf(settle) == [report] + OutcomesOf(unlock);
    ProjectionsOfPerformed(calls);
    CallsAppend(lock, Performed(calls));
    CallsAppend(lock + Performed(calls), settle);
    OutcomesAppend(lock, Performed(calls));
    OutcomesAppend(lock + Performed(calls), settle);
    assert Settles(t);
    assert t[1..|t| - 2] == Performed(calls);
    SettledTraceKeepsLock(t);
  }

  /**
   * `try { lock; await call; report success } catch (error) { report error } finally { unlock }`:
   * the shape shared by the three buttons. `outcome` is the success message or the error caught.
   */
  function Guarded(calls: seq<Call>, outcome: Outcome<string>): (t: seq<Event>)
    ensures Settles(t) && KeepsLock(t)
    ensures LockedRun(t, calls)
    ensures CallsOf(t) == calls
    ensures outcome.Ok? ==> OutcomesOf(t) == [SetSuccess(outcome.value)]
    ensures outcome.Err? ==> OutcomesOf(t) == [SetError(outcome.error)]
  {
    var report := match outcome case Ok(m) => SetSuccess(m) case Err(e) => SetError(e);
    LockedRunFacts(calls, report);
    [Dispatch(SetLocked(true))] + Performed(calls) + [Dispatch(report), Dispatch(SetLocked(false))]
  }

  // ---------------------------------------------------------------- messages

  /** `(balance / 1000).toFixed(3)` for a balance in thousandths of an ether. */
  function BalanceText(balance: Json): string {
    match balance
    case JNum(n) => Decimal.MilliToFixed3(n)
    case JNull => "0.000"
    case JBool(b) => if b then "0.001" else "0.000"
    case _ => "NaN"
  }

  /** The balance a balance message reports, read back from its text. */
  function ReportedBalance(message: string): Option<int> {
    var p := |BALANCE_PREFIX|;
    var q := |BALANCE_SUFFIX|;
    if |message| >= p + q && message[..p] == BALANCE_PREFIX && message[|message| - q..] == BALANCE_SUFFIX
    then Decimal.ParseFixed3(message[p..|message| - q])
    else None
  }

  /** The success message of Get balance; a numeric balance can be read back from it exactly. */
  function BalanceMessage(balance: Json): (r: string)
    ensures |r| > 0
    ensures balance.JNum? ==> ReportedBalance(r) == Some(balance.n)
  {
    var text := BalanceText(balance);
    var r := BALANCE_PREFIX + text + BALANCE_SUFFIX;
    assert r[..|BALANCE_PREFIX|] == BALANCE_PREFIX;
    assert r[|r| - |BALANCE_SUFFIX|..] == BALANCE_SUFFIX;
    assert r[|BALANCE_PREFIX|..|r| - |BALANCE_SUFFIX|] == text;
    if balance.JNum? then Decimal.Fixed3RoundTrip(balance.n); r else r
  }

  /** A balance of 1234 thousandths is shown as 1.234 ether. */
  lemma BalanceExample()
    ensures BalanceMessage(JNum(1234)) == "User's Firn balance is 1.234 ETH."
  {
  }

  /** The transaction hash a transaction message reports, read back from its text. */
  function ReportedHash(message: string): Option<string> {
    var p := |HASH_PREFIX|;
    if |message| >= p + 1 && message[..p] == HASH_PREFIX && message[|message| - 1] == '.'
    then Some(message[p..|message| - 1])
    else None
  }

  /** A receipt object whose `transactionHash` is a string. */
  predicate HasStringHash(receipt: Json) {
    receipt.JObj? && "transactionHash" in receipt.fields && receipt.fields["transactionHash"].JStr?
  }

  /**
   * The success message of Transact, built from the receipt's `transactionHash`. Reading a field
   * of `null` throws, and that error is what the handler then reports.
   */
  function TransactMessage(receipt: Json): (r: Outcome<string>)
    ensures r.Err? <==> receipt.JNull?
    ensures r.Ok? ==> |r.value| > 0
    ensures HasStringHash(receipt) ==>
      r.Ok? && ReportedHash(r.value) == Some(receipt.fields["transactionHash"].s)
  {
    match PropertyOf(receipt, "transactionHash")
    case Err(e) => Err(e)
    case Ok(hash) =>
      var text := Embed(hash);
      var m := HASH_PREFIX + text + ".";
      assert m[..|HASH_PREFIX|] == HASH_PREFIX;
      assert m[|HASH_PREFIX|..|m| - 1] == text;
      Ok(m)
  }

  // ---------------------------------------------------------------- handlers

  /** The Log in button: invoke `initialize`, then report the fixed login message. */
  function OnLogIn(cfg: Config, reply: Outcome<Json>): (t: seq<Event>)
    ensures Settles(t) && KeepsLock(t)
    ensures LockedRun(t, HandleInitialize(cfg, reply).calls)
    ensures CallsOf(t) == HandleInitialize(cfg, reply).calls
    ensures reply.Ok? ==> OutcomesOf(t) == [SetSuccess(LOGGED_IN)]
    ensures reply.Err? ==> OutcomesOf(t) == [SetError(reply.error)]
  {
    var h := HandleInitialize(cfg, reply);
    Guarded(h.calls, match h.result case Ok(_) => Ok(LOGGED_IN) case Err(e) => Err(e))
  }

  /** The Get balance button: invoke `requestBalance`, then report the balance in ether. */
  function OnGetBalance(cfg: Config, reply: Outcome<Json>): (t: seq<Event>)
    ensures Settles(t) && KeepsLock(t)
    ensures LockedRun(t, HandleBalance(cfg, reply).calls)
    ensures CallsOf(t) == HandleBalance(cfg, reply).calls
    ensures |OutcomesOf(t)| == 1
    ensures reply.Ok? ==> OutcomesOf(t)[0].SetSuccess? && OutcomesOf(t)[0].message == BalanceMessage(reply.value)
    ensures reply.Ok? && reply.value.JNum? ==> ReportedBalance(OutcomesOf(t)[0].message) == Some(reply.value.n)
    ensures reply.Err? ==> OutcomesOf(t) == [SetError(reply.error)]
  {
    var h := HandleBalance(cfg, reply);
    Guarded(h.calls, match h.result case Ok(b) => Ok(BalanceMessage(b)) case Err(e) => Err(e))
  }

  /** The Transact button: build and invoke the swap, then report the transaction hash. */
  function OnTransact(cfg: Config, env: TransactEnv): (t: seq<Event>)
    ensures Settles(t) && KeepsLock(t)
    ensures LockedRun(t, HandleTransact(cfg, env).calls)
    ensures CallsOf(t) == HandleTransact(cfg, env).calls
    ensures |OutcomesOf(t)| == 1
    // off mainnet: the wrong-network error is reported and the snap is never invoked
    ensures env.accounts.Ok? && env.network.Ok? && env.network.value != MAINNET ==>
      OutcomesOf(t) == [SetError(PlainError(WRONG_NETWORK))] && WalletRequests(CallsOf(t)) == []
    ensures HandleTransact(cfg, env).result.Err? ==>
      OutcomesOf(t) == [SetError(HandleTransact(cfg, env).result.error)]
    ensures OutcomesOf(t)[0].SetSuccess? ==>
      env.network == Ok(MAINNET) && env.reply.Ok? && !env.reply.value.JNull?
    ensures HandleTransact(cfg, env).result == Ok(JNull) ==> OutcomesOf(t)[0].SetError?
    // a receipt that is not null is reported as a success whose message embeds its hash
    ensures HandleTransact(cfg, env).result.Ok? && !HandleTransact(cfg, env).result.value.JNull? ==>
      OutcomesOf(t) == [SetSuccess(TransactMessage(HandleTransact(cfg, env).result.value).value)]
    ensures HandleTransact(cfg, env).result.Ok? && HasStringHash(HandleTransact(cfg, env).result.value) ==>
      OutcomesOf(t)[0].SetSuccess?
      && ReportedHash(OutcomesOf(t)[0].message) == Some(HandleTransact(cfg, env).result.value.fields["transactionHash"].s)
  {
    var h := HandleTransact(cfg, env);
    Guarded(h.calls, match h.result case Ok(receipt) => TransactMessage(receipt) case Err(e) => Err(e))
  }

  // ---------------------------------------------------------------- enablement and banners

  /** `disabled` of the Log in, Get balance and Transact cards: they need Flask and the snap. */
  function ActionCardDisabled(s: UiState): (r: bool)
    ensures !s.isFlask ==> r
    ensures r <==> s.installedSnap.None? || !s.isFlask
  {
    s.installedSnap.None? || !s.isFlask
  }

  /** `disabled` of the three operation buttons: their card must be enabled and no operation run. */
  function ActionButtonDisabled(s: UiState): (r: bool)
    ensures r <==> ActionCardDisabled(s) || s.locked
    ensures !r <==> s.installedSnap.Some? && s.isFlask && !s.locked
  {
    s.installedSnap.None? || !s.isFlask || s.locked
  }

  /** `disabled` of the Install card: it is offered exactly when the wallet is not Flask. */
  function InstallCardDisabled(s: UiState): (r: bool)
    ensures r <==> s.isFlask
    ensures !r ==> ActionCardDisabled(s) && ActionButtonDisabled(s)
  {
    s.isFlask
  }

  /** The locking flag only gates buttons: cards look the same whether or not an operation runs. */
  lemma CardsIgnoreLock(s: UiState, locked: bool)
    ensures ActionCardDisabled(s) == ActionCardDisabled(s.(locked := locked))
    ensures InstallCardDisabled(s) == InstallCardDisabled(s.(locked := locked))
  {
  }

  datatype Banner = ErrorBanner(message: string) | SuccessBanner(message: string)

  /**
   * The banners above the cards: the error's message when an error is set and the success text
   * when it is non-empty. Each depends on its own field only, so both may show at once.
   */
  function Banners(s: UiState): (r: seq<Banner>)
    ensures |r| <= 2
    ensures forall m :: ErrorBanner(m) in r <==> s.error.Some? && m == s.error.value.message
    ensures forall m :: SuccessBanner(m) in r <==> s.success.Some? && s.success.value != "" && m == s.success.value
  {
    (if s.error.Some? then [ErrorBanner(s.error.value.message)] else [])
    + (if s.success.Some? && s.success.value != "" then [SuccessBanner(s.success.value)] else [])
  }
}

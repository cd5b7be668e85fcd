# Firn snap example: wallet-snap bridge model

A Dafny model of the logic a browser page uses to find, connect and drive the Firn snap, a
sandboxed module running inside MetaMask Flask. The model covers the following pieces:

- **Snap discovery, connection and invocation** (`src/utils/snap.ts`).
  - `getSnap` is a first-match search over the installed snaps. It swallows a failed request.
  - `connectSnap` builds a `wallet_enable` request.
  - `handleInitialize`, `handleBalance` and `handleTransact` each build one `wallet_invokeSnap`
    request. `handleTransact` first checks the chain id and has the router encode a fixed swap
    of 0.1 ether into FIRN.
- **Operation handlers** (`src/pages/index.tsx`). The Log in, Get balance and Transact buttons
  share one pattern: take the lock, make the call, report success or the caught error, release
  the lock. The `disabled` expressions of buttons and cards and the two banners are modelled too.
- **Header connect button** (`src/components/Buttons.tsx`). This is its `disabled` expression
  and its label.

Every foreign step is an input to the model. This covers a wallet request, `listAccounts`,
`getNetwork` and `populateTransaction`. The answer to each is an `Outcome`, either `Ok(value)` or
`Err(failure)`. Every operation returns an `Effect`: the calls it issued, in order, and its
result. A button handler returns a trace of `Event`s: the actions it dispatches interleaved
with the calls it makes. Requests are JSON values in the `{method, params}` shape of the
`request` method of EIP-1193. The contracts state what a request says through reader functions
(`Snap.InvocationOf`, `Snap.EnabledSnaps`) that take the request apart as the wallet would.

Modules, one file each:

| file | module | models |
|---|---|---|
| optional.dfy | `Optional` | `undefined` for optional arguments |
| decimal.dfy | `Decimal` | decimal text of numbers, `toFixed(3)` of thousandths |
| provider.dfy | `Provider` | JSON values, EIP-1193 requests, failures, property reads, `String(v)` |
| snap.dfy | `Snap` | `src/utils/snap.ts` |
| session.dfy | `Session` | the page state and the actions dispatched on it |
| page.dfy | `Page` | `src/pages/index.tsx` |
| buttons.dfy | `Header` | `src/components/Buttons.tsx` |

The configuration the source imports is a `Config` parameter: the snap origin, and the wrapped
ether, FIRN token and router addresses. Their modules (`../config`, `../constants/addresses`)
are not part of this model. The page state type and the action names come from `../hooks`,
which is not part of this model either. Their shape is taken from how the page uses them.

Each banner depends only on its own field, so both can show at once (`Page.Banners`).
`getSnap` takes the first match in enumeration order; with unique ids that is the only match
(`Snap.UniqueIdIsFound`).

## Model

| member | source | states |
|---|---|---|
| Snap.FirstSelected | src/utils/snap.ts:45-48 | the search finds nothing iff no snap matches the id and version filter; otherwise it finds a matching snap with no match before it |
| Snap.GetSnap | src/utils/snap.ts:37-53 | exactly one `wallet_getSnaps` request; a failed request yields no snap; a found snap is one of the reply's, has the configured id, and has the requested version when a non-empty one was given; nothing is found iff no snap matches; otherwise the first match in enumeration order is found |
| Snap.EmptyVersionSelectsAsNone | src/utils/snap.ts:47 | an empty version string selects the same snap as no version |
| Snap.UniqueIdIsFound | src/utils/snap.ts:45-48 | when ids are unique, the snap with the configured id is found |
| Snap.EnableRequestReadsBack | src/utils/snap.ts:17-28 | a `wallet_enable` request, read as the wallet does, names exactly the one snap id with its parameter bag |
| Snap.ConnectSnap | src/utils/snap.ts:13-29 | exactly one call, a `wallet_enable` request for exactly one snap; by default the configured origin with empty params; a rejection propagates unchanged |
| Snap.HandleInitialize | src/utils/snap.ts:55-65 | exactly one call, a `wallet_invokeSnap` request that reads back as method `initialize` on the configured snap with no params; it fails iff the wallet rejects, with the wallet's error |
| Snap.HandleBalance | src/utils/snap.ts:67-77 | exactly one call, invoking `requestBalance` on the configured snap with no params; it returns the wallet's reply unchanged |
| Snap.HandleTransact | src/utils/snap.ts:79-110 | the accounts are read first; any run off mainnet (chain id not 1) fails and makes no `wallet_invokeSnap` request; once the accounts are read, it fails with the wrong-network error after two calls, before any encoding or invocation; on mainnet the swap is always encoded third, after the account and chain reads; it makes at most one `wallet_invokeSnap` request, and makes it iff every earlier step succeeded on mainnet; that request invokes `transact` on the configured snap with the encoded transaction as params; every swap sent to the router has wrapped ether in, FIRN out, fee 3000, the first account as recipient, zero minimum output, zero price limit and attached ether equal to the input amount; each failing step's error is the one thrown |
| Page.Guarded | src/pages/index.tsx:157-166 | the trace is exactly: the lock, then the given calls in order, then one outcome action, then the release; the release occurs only there; the outcome is the success message, or the caught error itself |
| Page.SettledTraceKeepsLock | src/pages/index.tsx:157-166 | in a trace that locks first and releases only at the end, the lock is held after every proper prefix and free at the end, whatever it was before |
| Page.OnLogIn | src/pages/index.tsx:156-167 | locks, then makes `handleInitialize`'s call, then dispatches exactly one outcome, then releases the lock; the outcome is the fixed login message on success and the wallet's error on failure |
| Page.OnGetBalance | src/pages/index.tsx:181-192 | locks, then makes `handleBalance`'s call, then dispatches exactly one outcome, then releases the lock; on success it reports the balance message, whose number reads back to the returned balance; on failure it reports the wallet's error |
| Page.OnTransact | src/pages/index.tsx:206-217 | locks, then makes `handleTransact`'s calls, then dispatches exactly one outcome, then releases the lock; off mainnet it reports the wrong-network error and invokes nothing; any error of `handleTransact` is reported as thrown; a non-null receipt is reported as success with the transaction message, from which a string `transactionHash` reads back; a null receipt is reported as an error |
| Page.BalanceMessage | src/pages/index.tsx:185 | the message is non-empty, and the balance shown in it reads back to exactly the numeric balance returned |
| Decimal.Fixed3RoundTrip | src/pages/index.tsx:185 | printing a number of thousandths with three decimals and reading it back gives the same number |
| Decimal.Fixed3Injective | src/pages/index.tsx:185 | two different balances never print alike |
| Page.BalanceExample | src/pages/index.tsx:185 | a balance of 1234 thousandths is shown as 1.234 ETH |
| Page.TransactMessage | src/pages/index.tsx:209-210 | it fails iff the receipt is null; a string `transactionHash` reads back out of the message |
| Provider.PropertyOf | src/pages/index.tsx:210 | reading the receipt's `transactionHash` throws iff the receipt is null; it gives the object's own field when present and `undefined` otherwise |
| Page.ActionButtonDisabled | src/pages/index.tsx:168 | an operation button is disabled iff its card is disabled or an operation holds the lock; it is enabled iff the snap is installed, the wallet is Flask and nothing is locked |
| Page.ActionCardDisabled | src/pages/index.tsx:173 | an operation card is disabled iff the snap is missing or the wallet is not Flask; without Flask it is always disabled |
| Page.CardsIgnoreLock | src/pages/index.tsx:173 | changing the lock never changes whether a card is disabled |
| Page.InstallCardDisabled | src/pages/index.tsx:148 | the Install card is disabled iff the wallet is Flask; when it is enabled, every operation card and button is disabled |
| Page.Banners | src/pages/index.tsx:127-136 | the error banner shows the error's message iff an error is set; the success banner shows iff the success text is set and non-empty; each depends only on its own field |
| Header.HeaderLabel | src/components/Buttons.tsx:55 | the label is "Connected" iff a snap is installed and "Connect Firn" otherwise |
| Header.HeaderDisabled | src/components/Buttons.tsx:53-55 | disabled whenever a snap is installed, the lock is held or the wallet is not Flask; enabled exactly otherwise; when enabled, its label is "Connect Firn" and every operation button is disabled |

## Left out

- Wallet transport: `window.ethereum.request` is not modelled. Each request's answer is an input `Outcome`.
  A `WalletRequest` call is a direct request made in `src/utils/snap.ts`. The account and chain
  reads also reach the wallet, through ethers, but appear as the separate calls `ListAccounts`
  and `GetNetwork`.
- ethers: `Web3Provider`, `listAccounts`, `getNetwork`, `Contract` and ABI encoding are not modelled.
  Their answers are inputs too. The unsigned transaction `populateTransaction` returns is an
  opaque JSON value. A failure of the `Web3Provider` constructor is not modelled.
- `parseUnits("0.1", "ether")` is the constant 10^17 wei. No unit conversion is modelled.
- Page.BalanceText: `(balance / 1000).toFixed(3)` is modelled exactly for whole numbers up to
  1000·2^43 (about 8.8·10^15) thousandths in magnitude. Beyond that the nearest double to
  n/1000 can differ from n/1000 by more than half a thousandth; for n = 1000·2^43 + 1 the source
  prints `8796093022208.002` and the model prints `8796093022208.001`. That rounding and the
  exponent notation from 10^21 up are left out. So is JavaScript's numeric coercion of strings and arrays: those balances print
  `NaN` in the model. JSON numbers in the model are whole numbers only.
- Provider.PropertyOf: the TypeError text is the one V8 produces. Other engines word it differently.
  Built-in properties, such as a string's `length` or inherited methods, are not modelled. Only
  the data field read of `transactionHash` is.
- JavaScript `undefined` as a wallet reply is not a separate value. `null` stands for both.
- The reducer behind `dispatch`, from `../hooks`, is not part of this model. The traces record
  the dispatched actions, not the state they produce. `Page.KeepsLock` only assumes that
  `SetLocked(b)` sets the lock to `b`.
- The `console.log` diagnostic in `getSnap` is not modelled.
- The header's `onConnectClick` handler lives in a caller that is not part of this model.
- Async interleaving and double clicks are concurrency. The lock is modelled only as the
  `disabled` gating and the lock actions of each trace.
- The snap's own behaviour is not modelled: signing, broadcasting and receipts happen inside it.
- Styling, styled-components CSS and the JSX layout are left out.
- The `enabled` field of an installed snap is carried but never read, as in the source.

/**
 * The host wallet's injected request channel (`window.ethereum.request`, the `request` method of
 * EIP-1193): JSON-like values, the `{method, params}` request shape, and the outcome of a call.
 */
module Provider {
  import opened Optional
  import Decimal

  type Address = string

  /** A JSON-like JavaScript value. Numbers are whole numbers only. */
  datatype Json =
    | JNull
    | JBool(b: bool)
    | JNum(n: int)
    | JStr(s: string)
    | JArr(items: seq<Json>)
    | JObj(fields: map<string, Json>)

  /** `RequestArguments` of EIP-1193: a method name and optional params. */
  datatype Request = Request(methodName: string, params: Option<Json>)

  /** What a failed call throws; the page shows its `message`. */
  datatype Failure =
    | RpcError(code: int, message: string)  // a wallet rejection (EIP-1193 `ProviderRpcError`)
    | PlainError(message: string)           // `new Error(message)`
    | TypeError(message: string)            // a property read on `null`

  /** A call that settles: resolves with a value or rejects with a failure. */
  datatype Outcome<+T> = Ok(value: T) | Err(error: Failure)

  /**
   * Reading a data field such as `receipt.transactionHash`: the object's own field when present,
   * `undefined` when absent or when the value is not an object, and a TypeError on `null`.
   * Built-in properties (a string's `length`, inherited methods) are not modelled.
   */
  function PropertyOf(v: Json, key: string): (r: Outcome<Option<Json>>)
    ensures r.Err? <==> v.JNull?
    ensures v.JObj? && key in v.fields ==> r == Ok(Some(v.fields[key]))
    ensures !v.JObj? && !v.JNull? ==> r == Ok(None)
  {
    match v
    case JNull => Err(TypeError("Cannot read properties of null (reading '" + key + "')"))
    case JObj(fields) => Ok(if key in fields then Some(fields[key]) else None)
    case _ => Ok(None)
  }

  /** `String(v)`, which a template literal applies to each value it embeds. */
  function Display(v: Json): string {
    match v
    case JNull => "null"
    case JBool(b) => if b then "true" else "false"
    case JNum(n) => Decimal.IntToString(n)
    case JStr(s) => s
    case JArr(items) =>
      // `Array.prototype.join(",")` prints null elements as the empty string
      Join(seq(|items|, i requires 0 <= i < |items| => if items[i].JNull? then "" else Display(items[i])), ",")
    case JObj(_) => "[object Object]"
  }

  /** `String(x)` of a value that may be `undefined`. */
  function Embed(v: Option<Json>): string {
    match v
    case None => "undefined"
    case Some(j) => Display(j)
  }

  function Join(parts: seq<string>, sep: string): string
    decreases |parts|
  {
    if |parts| == 0 then ""
    else if |parts| == 1 then parts[0]
    else parts[0] + sep + Join(parts[1..], sep)
  }
}

/**
 * The records the content script builds and stores, and the dashboard reads back:
 * keystrokes, attempts (one solved problem each) and sessions (one timed run each).
 */
module Records {

  /** The four arithmetic operations of the drill page. */
  datatype Op = Add | Sub | Mul | Div

  /**
   * A JavaScript number as produced by `Number(...)` on an operand string:
   * either an integer or NaN (the operands of the drill are whole numbers).
   */
  datatype JsNum = NaN | Num(value: int)

  /** One recorded `input` event of the answer field. */
  datatype Keystroke = Keystroke(key: string, ts: int, delta: int, value: string)

  /** One problem, closed out when the next prompt appeared. */
  datatype Attempt = Attempt(
    prompt: string,
    op: Op,
    operands: (JsNum, JsNum),
    digits: (nat, nat),
    answer: string,
    keystrokes: seq<Keystroke>,
    numErrors: nat,
    startTs: int,
    endTs: int)

  /** One finished timed run, as appended to the stored `sessions` list. */
  datatype Session = Session(startTs: int, endTs: int, attempts: seq<Attempt>)

  /**
   * An operand as a later `chrome.storage.local.get` returns it. The store
   * keeps JSON, which writes NaN as `null`; the dashboard uses an operand only
   * as an argument of `Math.min`/`Math.max`, which read `null` as 0.
   */
  function StoredNum(x: JsNum): (r: JsNum)
    ensures r.Num?
    ensures x.Num? ==> r == x
  {
    if x.NaN? then Num(0) else x
  }

  /** An attempt after the JSON round trip of the store: only its NaN operands change. */
  function StoredAttempt(a: Attempt): Attempt
  {
    a.(operands := (StoredNum(a.operands.0), StoredNum(a.operands.1)))
  }

  /** The attempts of a session after the JSON round trip, in their order. */
  function StoredAttempts(xs: seq<Attempt>): (r: seq<Attempt>)
    ensures |r| == |xs|
    ensures forall i | 0 <= i < |xs| :: r[i] == StoredAttempt(xs[i])
    decreases |xs|
  {
    if xs == [] then []
    else StoredAttempts(xs[..|xs| - 1]) + [StoredAttempt(xs[|xs| - 1])]
  }

  /** A session as the store holds it once it is written. */
  function StoredSession(s: Session): Session
  {
    Session(s.startTs, s.endTs, StoredAttempts(s.attempts))
  }

  /** Every operand of every attempt in `xs` is a number. */
  predicate NumericOperands(xs: seq<Attempt>)
  {
    forall i | 0 <= i < |xs| :: xs[i].operands.0.Num? && xs[i].operands.1.Num?
  }

  /** The time an attempt took, `endTs - startTs`. */
  function Duration(a: Attempt): int
  {
    a.endTs - a.startTs
  }
}

/**
 * `sendMessageWithRetry` (run.js): up to `retries` attempts to deliver one chat
 * message. The transport's answer to each attempt is an input here, and each
 * pause is recorded as the number of milliseconds `sleep` is asked for.
 */
module Messaging {
  import opened Wrappers

  /** A failed `bot.sendMessage`: its `code` and `response.parameters.retry_after`, if present. */
  datatype SendError = SendError(code: string, retryAfter: Option<int>)

  datatype SendOutcome = Sent | Failed(error: SendError)

  /** The defaults every caller in run.js relies on: three attempts, one second apart. */
  const DEFAULT_RETRIES := 3
  const DEFAULT_DELAY := 1000

  /** The rate-limit test: an `ETELEGRAM` error with a truthy (present, non-zero) `retry_after`. */
  predicate IsRateLimit(e: SendError): (limited: bool)
    ensures limited ==> e.code == "ETELEGRAM"
    ensures e.retryAfter.None? || e.retryAfter == Some(0) ==> !limited
  {
    e.code == "ETELEGRAM" && e.retryAfter.Some? && e.retryAfter.value != 0
  }

  /** The pause after a failed attempt that does not end the call: `retry_after` seconds, else `delay`. */
  function Pause(e: SendError, delay: int): int {
    if IsRateLimit(e) then e.retryAfter.value * 1000 else delay
  }

  /** How the call ends: it returned after a delivery, returned without one, or threw. */
  datatype Delivery = Delivered | GaveUp | Thrown(error: SendError)

  /**
   * `sendMessageWithRetry(bot, chatId, text, retries, delay)`: `outcomes[k]`
   * answers the k-th attempt. Returns how the call ended, how many attempts it
   * made and the pauses it took, in order.
   */
  method SendMessageWithRetry(outcomes: seq<SendOutcome>, retries: int, delay: int)
    returns (d: Delivery, attempts: nat, pauses: seq<int>)
    requires retries <= |outcomes|
    // at most `retries` attempts, and fewer only after a delivery
    ensures !d.Delivered? ==> attempts == (if retries < 0 then 0 else retries)
    ensures attempts <= retries || attempts == 0
    // every attempt before the last failed
    ensures forall k :: 0 <= k < attempts - 1 ==> outcomes[k].Failed?
    // delivered exactly when the last attempt was sent
    ensures d.Delivered? <==> attempts > 0 && outcomes[attempts - 1] == Sent
    // thrown exactly when the last allowed attempt failed without a rate limit
    ensures d.Thrown? <==> attempts > 0 && attempts == retries && outcomes[attempts - 1].Failed?
                           && !IsRateLimit(outcomes[attempts - 1].error)
    ensures d.Thrown? ==> d.error == outcomes[attempts - 1].error
    // returning without a delivery: no attempt was allowed, or the last one hit the rate limit
    ensures d.GaveUp? ==> attempts == 0 || (outcomes[attempts - 1].Failed? && IsRateLimit(outcomes[attempts - 1].error))
    // one pause after each failed attempt that did not throw
    ensures |pauses| == (if d.GaveUp? then attempts else attempts - 1)
    ensures forall k :: 0 <= k < |pauses| ==> outcomes[k].Failed? && pauses[k] == Pause(outcomes[k].error, delay)
  {
    var i := 0;
    pauses := [];
    while i < retries
      invariant 0 <= i && (i <= retries || i == 0)
      invariant |pauses| == i
      invariant forall k :: 0 <= k < i ==> outcomes[k].Failed? && pauses[k] == Pause(outcomes[k].error, delay)
      invariant forall k :: 0 <= k < i && k == retries - 1 ==> IsRateLimit(outcomes[k].error)
    {
      match outcomes[i] {
        case Sent =>
          return Delivered, i + 1, pauses;
        case Failed(e) =>
          if IsRateLimit(e) {
            pauses := pauses + [e.retryAfter.value * 1000];
          } else if i == retries - 1 {
            return Thrown(e), i + 1, pauses;
          } else {
            pauses := pauses + [delay];
          }
      }
      i := i + 1;
    }
    d, attempts := GaveUp, i;
  }

  /**
   * `sendMessageWithRetry(bot, chatId, text)` as every caller in run.js writes
   * it: with the default three attempts, one second apart.
   */
  method SendMessage(outcomes: seq<SendOutcome>) returns (d: Delivery, attempts: nat, pauses: seq<int>)
    requires DEFAULT_RETRIES <= |outcomes|
    ensures 1 <= attempts <= DEFAULT_RETRIES
    ensures !d.Delivered? ==> attempts == DEFAULT_RETRIES
    ensures d.Delivered? <==> outcomes[attempts - 1] == Sent
    ensures d.GaveUp? ==> outcomes[DEFAULT_RETRIES - 1].Failed? && IsRateLimit(outcomes[DEFAULT_RETRIES - 1].error)
    ensures d.Thrown? ==> d.error == outcomes[DEFAULT_RETRIES - 1].error
    // one pause after each failed attempt that did not throw
    ensures |pauses| == (if d.GaveUp? then attempts else attempts - 1)
    // each pause is a rate limit's own wait, or the default second
    ensures forall k :: 0 <= k < |pauses| ==>
              outcomes[k].Failed? && pauses[k] == Pause(outcomes[k].error, DEFAULT_DELAY)
  {
    d, attempts, pauses := SendMessageWithRetry(outcomes, DEFAULT_RETRIES, DEFAULT_DELAY);
  }
}

/**
 The data the anti-flood scheduler works on: registered event messages, the
 send times computed for them, and the shape of a send-time rule.

 Time is counted in .NET ticks (100 nanoseconds), the unit in which both
 `DateTime` and `TimeSpan` are represented, so that a `DateTime` is an `int`
 and a `TimeSpan` is an `int` difference of two of them.
 */
module Types {

  datatype Option<+T> = None | Some(value: T)

  /** Exceptions the core can raise, as values. */
  datatype Failure =
    | ArgumentNull   // ArgumentNullException from a rule's argument checks
    | EmptySequence  // InvalidOperationException from Max() over no rule outputs

  datatype Outcome<+T> = Ok(value: T) | Err(error: Failure)

  const TicksPerSecond: int := 10_000_000
  const TenSeconds: int := 10 * TicksPerSecond
  const OneMinute: int := 60 * TicksPerSecond
  const TwentyFourHours: int := 24 * 60 * 60 * TicksPerSecond

  /** A message waiting to be sent; `dateTime` is when it was requested. */
  datatype EventMessage = EventMessage(id: int, phone: string, priority: int, dateTime: int)

  /** The computed send time of the message with id `eventMessageId`. */
  datatype AntibanResult = AntibanResult(eventMessageId: int, sentDateTime: int)

  /**
   A send-time calculator: from the results computed so far, the registered
   messages and the candidate, the delay to add to the candidate's time.
   */
  type Rule = (seq<AntibanResult>, seq<EventMessage>, EventMessage) -> int
}

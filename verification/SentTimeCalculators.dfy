/**
 The three built-in send-time rules. Each joins the registered messages with
 the results computed so far on the message id, keeps the entries of one
 kind inside a time window around the candidate's requested time, and, if any
 remain, pushes the candidate to a fixed gap after the latest of them.
 */
module SentTimeCalculators {
  import opened Types
  import opened Linq

  /** One row of the id join: a registered message and its computed send time. */
  datatype Joined = Joined(messageId: int, registrationTime: int, sentTime: int, phone: string, priority: int)

  function Pair(e: EventMessage, a: AntibanResult): Joined {
    Joined(e.id, e.dateTime, a.sentDateTime, e.phone, e.priority)
  }

  /** The join rows of one registered message, in the order of `results`. */
  function JoinOne(e: EventMessage, results: seq<AntibanResult>): (r: seq<Joined>)
    ensures forall x :: x in r ==> exists a :: a in results && a.eventMessageId == e.id && x == Pair(e, a)
    ensures forall a :: a in results && a.eventMessageId == e.id ==> Pair(e, a) in r
  {
    if results == [] then []
    else
      var rest := JoinOne(e, results[1..]);
      assert forall a :: a in results[1..] ==> a in results;
      assert forall a :: a in results ==> a == results[0] || a in results[1..];
      (if results[0].eventMessageId == e.id then [Pair(e, results[0])] else []) + rest
  }

  /**
   `registered.Join(results, m => m.Id, r => r.EventMessageId, ...)`: every
   pairing of a registered message with a result for the same id.
   */
  function JoinOnId(registered: seq<EventMessage>, results: seq<AntibanResult>): (r: seq<Joined>)
    ensures forall x :: x in r ==> exists e, a :: Processed(registered, results, e, a) && x == Pair(e, a)
    ensures forall e, a :: Processed(registered, results, e, a) ==> Pair(e, a) in r
  {
    if registered == [] then []
    else
      var head := JoinOne(registered[0], results);
      var rest := JoinOnId(registered[1..], results);
      assert forall e :: e in registered[1..] ==> e in registered;
      assert forall e :: e in registered ==> e == registered[0] || e in registered[1..];
      head + rest
  }

  /** `(start - end).Duration()`: the length of the interval between two instants. */
  function AbsoluteDifference(start: int, end: int): (r: int)
    ensures r >= 0
    ensures r == start - end || r == end - start
  {
    if start >= end then start - end else end - start
  }

  // ---------------------------------------------------------------------
  // What each rule guarantees, stated over the inputs directly.

  /** The three constraints the built-in rules enforce. */
  datatype Constraint = AnyMessage | SameNumberMinute | SameNumberPriority1Day

  /** The minimum spacing each constraint demands. */
  function Gap(c: Constraint): int {
    match c
    case AnyMessage => TenSeconds
    case SameNumberMinute => OneMinute
    case SameNumberPriority1Day => TwentyFourHours
  }

  /** `a` is the computed entry of the registered message `e`. */
  ghost predicate Processed(registered: seq<EventMessage>, results: seq<AntibanResult>, e: EventMessage, a: AntibanResult) {
    e in registered && a in results && e.id == a.eventMessageId
  }

  /**
   The already processed message `e`, sent at `sent`, constrains the
   candidate `m` under constraint `c`.
   */
  ghost predicate Relevant(c: Constraint, m: EventMessage, e: EventMessage, sent: int) {
    match c
    case AnyMessage =>
      m.dateTime - TenSeconds <= sent <= m.dateTime + TenSeconds
    case SameNumberMinute =>
      e.phone == m.phone && m.dateTime - OneMinute <= sent <= m.dateTime
    case SameNumberPriority1Day =>
      m.priority == 1 && e.phone == m.phone && e.priority == 1 && sent >= m.dateTime - TwentyFourHours
  }

  ghost predicate HasConflict(c: Constraint, registered: seq<EventMessage>, results: seq<AntibanResult>, m: EventMessage) {
    exists e, a :: Processed(registered, results, e, a) && Relevant(c, m, e, a.sentDateTime)
  }

  /**
   The delay `d` moves `m` to exactly `Gap(c)` after the latest relevant
   processed send time, or is zero when there is none.
   */
  ghost predicate PushedPastLatest(c: Constraint, registered: seq<EventMessage>, results: seq<AntibanResult>, m: EventMessage, d: int) {
    if HasConflict(c, registered, results, m) then
      && (exists e, a :: Processed(registered, results, e, a) && Relevant(c, m, e, a.sentDateTime)
                         && m.dateTime + d == a.sentDateTime + Gap(c))
      && (forall e, a :: Processed(registered, results, e, a) && Relevant(c, m, e, a.sentDateTime)
                         ==> a.sentDateTime + Gap(c) <= m.dateTime + d)
    else
      d == 0
  }

  function SentTimeOf(x: Joined): int { x.sentTime }

  /**
   `within` holds exactly the join rows of the relevant processed entries, and
   `d` is zero when there are none and otherwise puts `m` `Gap(c)` after the
   latest of them: then `PushedPastLatest` holds of `d`.
   */
  lemma {:induction false} LatestDecides(c: Constraint, registered: seq<EventMessage>, results: seq<AntibanResult>,
                                        m: EventMessage, within: seq<Joined>, d: int)
    requires forall x :: x in within ==> exists e, a :: Processed(registered, results, e, a) && x == Pair(e, a)
                                                        && Relevant(c, m, e, a.sentDateTime)
    requires forall e, a :: Processed(registered, results, e, a) && Relevant(c, m, e, a.sentDateTime) ==> Pair(e, a) in within
    requires |within| == 0 ==> d == 0
    requires |within| > 0 ==> m.dateTime + d == MaxBy(within, SentTimeOf).sentTime + Gap(c)
    ensures PushedPastLatest(c, registered, results, m, d)
  {
    if |within| > 0 {
      var last := MaxBy(within, SentTimeOf);
      var e, a :| Processed(registered, results, e, a) && last == Pair(e, a) && Relevant(c, m, e, a.sentDateTime);
      assert m.dateTime + d == a.sentDateTime + Gap(c);
      forall e', a' | Processed(registered, results, e', a') && Relevant(c, m, e', a'.sentDateTime)
        ensures a'.sentDateTime + Gap(c) <= m.dateTime + d
      {
        assert Pair(e', a') in within;
      }
    }
  }

  // ---------------------------------------------------------------------
  // The rules, in the order the source declares them. Each states its
  // bounds here; the lemma after it states which delay it picks.

  /** The join rows sent within ten seconds either side of `m`'s time. */
  function Within10Seconds(results: seq<AntibanResult>, registered: seq<EventMessage>, m: EventMessage): seq<Joined> {
    Where(JoinOnId(registered, results),
          (x: Joined) => x.sentTime >= m.dateTime - TenSeconds && x.sentTime <= m.dateTime + TenSeconds)
  }

  /** The ten-second window holds exactly the join rows of processed entries sent within ten seconds either side of `m`. */
  lemma Within10SecondsIsRelevant(results: seq<AntibanResult>, registered: seq<EventMessage>, m: EventMessage)
    ensures forall x :: x in Within10Seconds(results, registered, m) ==>
              exists e, a :: Processed(registered, results, e, a) && x == Pair(e, a) && Relevant(AnyMessage, m, e, a.sentDateTime)
    ensures forall e, a :: Processed(registered, results, e, a) && Relevant(AnyMessage, m, e, a.sentDateTime) ==>
              Pair(e, a) in Within10Seconds(results, registered, m)
  {
  }

  function NotLess10SecondsForAnyMessage(results: seq<AntibanResult>, registered: seq<EventMessage>,
                                         messageToAdd: EventMessage): (d: int)
    ensures 0 <= d <= 2 * TenSeconds
  {
    var within10Seconds := Within10Seconds(results, registered, messageToAdd);
    if |within10Seconds| > 0 then
      var lastMessage := MaxBy(within10Seconds, SentTimeOf);
      AbsoluteDifference(lastMessage.sentTime + TenSeconds, messageToAdd.dateTime)
    else
      0
  }

  /**
   At least ten seconds after the latest message, to any number, already
   sent within ten seconds either side of the candidate's time; no delay
   when there is none.
   */
  lemma NotLess10SecondsPushesPastLatest(results: seq<AntibanResult>, registered: seq<EventMessage>, m: EventMessage)
    ensures PushedPastLatest(AnyMessage, registered, results, m, NotLess10SecondsForAnyMessage(results, registered, m))
  {
    var within := Within10Seconds(results, registered, m);
    Within10SecondsIsRelevant(results, registered, m);
    LatestDecides(AnyMessage, registered, results, m, within, NotLess10SecondsForAnyMessage(results, registered, m));
  }

  /** The join rows for `m`'s number sent in the minute up to `m`'s time. */
  function WithinOneMinute(results: seq<AntibanResult>, registered: seq<EventMessage>, m: EventMessage): seq<Joined> {
    Where(JoinOnId(Where(registered, (x: EventMessage) => x.phone == m.phone), results),
          (x: Joined) => x.sentTime >= m.dateTime - OneMinute && x.sentTime <= m.dateTime)
  }

  /** The minute window holds exactly the join rows of processed entries for `m`'s number sent in `[t − 1 min, t]`. */
  lemma WithinOneMinuteIsRelevant(results: seq<AntibanResult>, registered: seq<EventMessage>, m: EventMessage)
    ensures forall x :: x in WithinOneMinute(results, registered, m) ==>
              exists e, a :: Processed(registered, results, e, a) && x == Pair(e, a) && Relevant(SameNumberMinute, m, e, a.sentDateTime)
    ensures forall e, a :: Processed(registered, results, e, a) && Relevant(SameNumberMinute, m, e, a.sentDateTime) ==>
              Pair(e, a) in WithinOneMinute(results, registered, m)
  {
  }

  function NotLessMinuteForSameNumbers(results: seq<AntibanResult>, registered: seq<EventMessage>,
                                       messageToAdd: EventMessage): (d: int)
    ensures 0 <= d <= OneMinute
  {
    var withinOneMinute := WithinOneMinute(results, registered, messageToAdd);
    if |withinOneMinute| > 0 then
      var lastResult := MaxBy(withinOneMinute, SentTimeOf);
      var difference := AbsoluteDifference(messageToAdd.dateTime, lastResult.sentTime);
      // difference.TotalMinutes <= 1, on a tick count
      if difference <= OneMinute then OneMinute - difference else 0
    else
      0
  }

  /**
   At least a minute after the latest message to the same number sent in the
   minute up to the candidate's time; no delay when there is none.
   */
  lemma NotLessMinutePushesPastLatest(results: seq<AntibanResult>, registered: seq<EventMessage>, m: EventMessage)
    ensures PushedPastLatest(SameNumberMinute, registered, results, m, NotLessMinuteForSameNumbers(results, registered, m))
  {
    var within := WithinOneMinute(results, registered, m);
    WithinOneMinuteIsRelevant(results, registered, m);
    LatestDecides(SameNumberMinute, registered, results, m, within, NotLessMinuteForSameNumbers(results, registered, m));
  }

  /** The join rows for `m`'s number and priority 1 sent no earlier than 24 hours before `m`'s time. */
  function Within24Hours(results: seq<AntibanResult>, registered: seq<EventMessage>, m: EventMessage): seq<Joined> {
    Where(JoinOnId(Where(registered, (x: EventMessage) => x.phone == m.phone && x.priority == 1), results),
          (x: Joined) => x.sentTime >= m.dateTime - TwentyFourHours)
  }

  /** For a priority-1 candidate, the daily window holds exactly the join rows of priority-1 entries for `m`'s number sent at or after `t − 24 h`. */
  lemma Within24HoursIsRelevant(results: seq<AntibanResult>, registered: seq<EventMessage>, m: EventMessage)
    requires m.priority == 1
    ensures forall x :: x in Within24Hours(results, registered, m) ==>
              exists e, a :: Processed(registered, results, e, a) && x == Pair(e, a) && Relevant(SameNumberPriority1Day, m, e, a.sentDateTime)
    ensures forall e, a :: Processed(registered, results, e, a) && Relevant(SameNumberPriority1Day, m, e, a.sentDateTime) ==>
              Pair(e, a) in Within24Hours(results, registered, m)
  {
  }

  function NotLess24HourForSameNumbersAndPriority1(results: seq<AntibanResult>, registered: seq<EventMessage>,
                                                   messageToAdd: EventMessage): (d: int)
    ensures d >= 0
    ensures messageToAdd.priority != 1 ==> d == 0
  {
    if messageToAdd.priority == 1 then
      var within24Hours := Within24Hours(results, registered, messageToAdd);
      if |within24Hours| > 0 then
        var lastResult := MaxBy(within24Hours, SentTimeOf);
        AbsoluteDifference(lastResult.sentTime + TwentyFourHours, messageToAdd.dateTime)
      else
        0
    else
      0
  }

  /**
   For a priority-1 candidate, at least 24 hours after the latest priority-1
   message to the same number sent no earlier than 24 hours before it; no
   delay otherwise.
   */
  lemma NotLess24HourPushesPastLatest(results: seq<AntibanResult>, registered: seq<EventMessage>, m: EventMessage)
    ensures PushedPastLatest(SameNumberPriority1Day, registered, results, m,
                             NotLess24HourForSameNumbersAndPriority1(results, registered, m))
  {
    var d := NotLess24HourForSameNumbersAndPriority1(results, registered, m);
    if m.priority == 1 {
      Within24HoursIsRelevant(results, registered, m);
      LatestDecides(SameNumberPriority1Day, registered, results, m, Within24Hours(results, registered, m), d);
    } else {
      LatestDecides(SameNumberPriority1Day, registered, results, m, [], d);
    }
  }

  // ---------------------------------------------------------------------
  // The rules as a family.

  /** The built-in rule that enforces constraint `c`. */
  function RuleFor(c: Constraint): Rule {
    match c
    case AnyMessage => NotLess10SecondsForAnyMessage
    case SameNumberMinute => NotLessMinuteForSameNumbers
    case SameNumberPriority1Day => NotLess24HourForSameNumbersAndPriority1
  }

  /** Each built-in rule moves the candidate past the latest entry its constraint watches. */
  lemma RulePushesPastLatest(c: Constraint, results: seq<AntibanResult>, registered: seq<EventMessage>, m: EventMessage)
    ensures PushedPastLatest(c, registered, results, m, RuleFor(c)(results, registered, m))
  {
    match c
    case AnyMessage => NotLess10SecondsPushesPastLatest(results, registered, m);
    case SameNumberMinute => NotLessMinutePushesPastLatest(results, registered, m);
    case SameNumberPriority1Day => NotLess24HourPushesPastLatest(results, registered, m);
  }

  /**
   A built-in rule called with arguments that may be null. Each rule first
   rejects a null candidate, a null result list and a null registered list
   (the ten-second rule through `Join`, which rejects a null source) with
   `ArgumentNullException`, and only then computes its delay.
   */
  function ArgumentChecked(c: Constraint, results: Option<seq<AntibanResult>>, registeredMessages: Option<seq<EventMessage>>,
                           messageToAdd: Option<EventMessage>): (r: Outcome<int>)
    ensures r.Err? <==> messageToAdd.None? || results.None? || registeredMessages.None?
    ensures r.Err? ==> r.error == ArgumentNull
    ensures r.Ok? ==> r.value == RuleFor(c)(results.value, registeredMessages.value, messageToAdd.value) && r.value >= 0
  {
    if messageToAdd.None? || results.None? || registeredMessages.None? then Err(ArgumentNull)
    else Ok(RuleFor(c)(results.value, registeredMessages.value, messageToAdd.value))
  }
}

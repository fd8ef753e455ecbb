# Antiban send-time scheduler, modelled in Dafny

The Antiban library computes a send time for each queued outbound message so
that a set of anti-flood rules holds. Every registered message gets exactly
one entry, and the messages are processed in the order they were pushed. The
returned list is ordered by send time, not by push order.

The engine has two queues: the registered messages and the send-time rules.
The constructor seeds the rule queue with three built-in rules. `GetResult`
replays the messages in the order they were pushed. For each message it asks
every non-null rule for a delay, given the results computed so far, the
registered messages and the candidate. It appends an entry `{Id, DateTime +
max delay}`. At the end it returns the entries ordered by send time.

The three built-in rules work the same way. Each joins the registered
messages with the results on the message id and keeps the entries in a time
window around the candidate. If any remain, it pushes the candidate to a fixed
gap after the latest of them:

- any message, within ten seconds either side: a gap of 10 s;
- same phone number, in the minute up to the candidate's time: a gap of 1 min;
- same number and both priority 1, sent no earlier than 24 hours before the
  candidate: a gap of 24 h. This rule applies only to priority-1 candidates.

The model has five modules:

- `Types`: messages, results and the rule type. Time is counted in .NET
  ticks (100 ns), so `DateTime` and `TimeSpan` are both `int`.
- `Linq`: the meaning of `Where`, `MaxBy` and `OrderBy` over sequences.
- `SentTimeCalculators`: the id join, `AbsoluteDifference` and the three
  rules. Each rule has a lemma stating exactly which delay it picks.
- `AntibanEngine`: the `Antiban` class with its three operations. Its
  `GetResult` loop is proved against `Schedule`, a recursive statement of the
  replay, and the engine-level guarantees are lemmas about `Schedule`.
- `Scenarios`: worked schedules, for every start time `t`, and client code
  driving the class.

In the engine, a null rule is `None` in a `seq<Option<Rule>>` registry. The
`ArgumentNullException` checks at the head of each rule are modelled over
`Option` arguments by `ArgumentChecked`.

Two details of the code the model keeps as written:

- The ten-second and 24-hour rules take `Duration()`, an absolute value, of
  the latest send time + gap − t. The difference is never negative, because
  each rule's window has a lower bound of exactly one gap before the
  candidate's time t (Antiban/Antiban.cs:98-100, 208-209). So the absolute
  value never changes a result: `NotLess10SecondsPushesPastLatest` and
  `NotLess24HourPushesPastLatest` prove that the delay is exactly the latest
  send time + gap − t.
- The minute rule's window `[t − 1 min, t]` is closed at both ends
  (Antiban/Antiban.cs:149-150).

## Model

| member | source | states |
|---|---|---|
| `SentTimeCalculators.JoinOne` | Antiban/Antiban.cs:82-96 | the join rows of one registered message are exactly its pairings with the results carrying its id |
| `SentTimeCalculators.JoinOnId` | Antiban/Antiban.cs:82-96 | `Join` on the id yields a row for every registered message and result with equal ids, and no other row |
| `SentTimeCalculators.AbsoluteDifference` | Antiban/Antiban.cs:61-64 | `Duration()` of `start - end` is non-negative and is one of the two signed differences |
| `SentTimeCalculators.LatestDecides` | Antiban/Antiban.cs:102-107 | a window that holds exactly the relevant processed entries, with a delay that is 0 when the window is empty and otherwise places the candidate one gap after the `MaxBy` of the window, pushes the candidate exactly one gap past the latest relevant entry |
| `SentTimeCalculators.Within10SecondsIsRelevant` | Antiban/Antiban.cs:82-100 | `Within10Seconds` holds exactly the join rows of processed entries sent within ten seconds either side of the candidate's time, both ends included |
| `SentTimeCalculators.NotLess10SecondsForAnyMessage` | Antiban/Antiban.cs:66-110 | the ten-second delay lies between 0 and 20 seconds |
| `SentTimeCalculators.NotLess10SecondsPushesPastLatest` | Antiban/Antiban.cs:98-109 | if no processed entry was sent within ten seconds either side of t, the delay is 0; otherwise t + delay is the latest such send time + 10 s, so the absolute value never changes the outcome |
| `SentTimeCalculators.WithinOneMinuteIsRelevant` | Antiban/Antiban.cs:131-150 | `WithinOneMinute` holds exactly the join rows of processed entries for the candidate's number sent in the closed window [t − 1 min, t] |
| `SentTimeCalculators.NotLessMinuteForSameNumbers` | Antiban/Antiban.cs:112-166 | the minute delay lies between 0 and one minute |
| `SentTimeCalculators.NotLessMinutePushesPastLatest` | Antiban/Antiban.cs:131-165 | if no processed entry for the same number was sent in [t − 1 min, t], the delay is 0; otherwise t + delay is the latest such send time + 1 min |
| `SentTimeCalculators.Within24HoursIsRelevant` | Antiban/Antiban.cs:189-209 | for a priority-1 candidate, `Within24Hours` holds exactly the join rows of priority-1 entries for its number sent at or after t − 24 h |
| `SentTimeCalculators.NotLess24HourForSameNumbersAndPriority1` | Antiban/Antiban.cs:168-221 | the daily delay is non-negative, and 0 for a candidate whose priority is not 1 |
| `SentTimeCalculators.NotLess24HourPushesPastLatest` | Antiban/Antiban.cs:189-220 | for a priority-1 candidate: if no priority-1 entry for the same number was sent at or after t − 24 h, the delay is 0; otherwise t + delay is the latest such send time + 24 h. For any other candidate the delay is 0 |
| `SentTimeCalculators.RulePushesPastLatest` | Antiban/Antiban.cs:66-221 | each built-in rule moves the candidate exactly one gap past the latest entry its constraint watches, or not at all |
| `SentTimeCalculators.ArgumentChecked` | Antiban/Antiban.cs:116-129 | a built-in rule fails with `ArgumentNullException` exactly when the candidate, the results or the registered list is null (the ten-second rule gets the registered check from `Join`); otherwise it returns the rule's non-negative delay |
| `Linq.Where` | Antiban/Antiban.cs:98-100 | `Where` keeps exactly the elements that satisfy the filter, and never more elements than it was given |
| `Linq.MaxBy` | Antiban/Antiban.cs:104 | `MaxBy` returns an element of the non-empty input whose key no other element exceeds |
| `Linq.InsertBySorted` | Antiban/Antiban.cs:55 | one insertion step of the sort keeps a sorted list sorted |
| `Linq.InsertByPermutes` | Antiban/Antiban.cs:55 | one insertion step adds exactly the inserted element |
| `Linq.OrderBy` | Antiban/Antiban.cs:55 | `OrderBy` returns the input sorted by the key, as a permutation of the input |
| `AntibanEngine.MaxOutputIsMaximum` | Antiban/Antiban.cs:42-45 | `MaxOutput`, the maximum over non-null rules, is absent exactly when every rule is null; otherwise it is one rule's output and no rule's output exceeds it |
| `AntibanEngine.DelayIsMaximum` | Antiban/Antiban.cs:41-46 | `Delay` is 0 with an empty registry. It fails with the `Max()` exception exactly when the registry holds only nulls. Otherwise it is the largest output of a non-null rule |
| `AntibanEngine.MaxOutputSkipsNull` | Antiban/Antiban.cs:43 | a null rule does not enter the maximum |
| `AntibanEngine.NullRuleIgnored` | Antiban/Antiban.cs:41-46 | registering a null rule changes no delay, except in an empty registry, where it makes `Max()` throw |
| `AntibanEngine.BuiltinsPresent` | Antiban/Antiban.cs:15-17 | `BuiltinRules`, the constructor's three enqueues: a registry that starts with them holds each constraint's rule in the slot the constructor enqueues it in |
| `AntibanEngine.BuiltinsNotNull` | Antiban/Antiban.cs:41-46 | with the built-ins registered, computing a delay never throws |
| `AntibanEngine.DelayBoundsRule` | Antiban/Antiban.cs:41-46 | the delay is at least the output of every non-null rule |
| `AntibanEngine.DelayIsLargestOutput` | Antiban/Antiban.cs:41-46 | a rule output that no other rule exceeds is the delay |
| `AntibanEngine.BuiltinsBoundDelay` | Antiban/Antiban.cs:41-46 | with the built-ins registered, the delay is at least each built-in rule's output |
| `AntibanEngine.ScheduleFails` | Antiban/Antiban.cs:38-53 | retrieval fails exactly when there is a message and the registry is non-empty but holds only nulls |
| `AntibanEngine.ScheduleEntries` | Antiban/Antiban.cs:38-53 | `Schedule`, the replay in `GetResult`'s loop, gives one entry per message, in push order: entry i carries message i's id and its time + the delay computed against exactly the entries of messages 0..i-1, starting from a cleared list |
| `AntibanEngine.SentNotBeforeRequested` | Antiban/Antiban.cs:41-51 | with the built-ins registered and any further rules, retrieval succeeds; entry i has message i's id and is sent no earlier than message i's time |
| `AntibanEngine.Spacing` | Antiban/Antiban.cs:39-52 | if an earlier-pushed message i was sent inside the window that a constraint watches for a later message j, then j is sent at least that constraint's gap after i |
| `AntibanEngine.Antiban.constructor` | Antiban/Antiban.cs:13-18 | a new scheduler has empty queues and the three built-ins, in the order 24 h, minute, 10 s |
| `AntibanEngine.Antiban.AddBusinesRuleApplicator` | Antiban/Antiban.cs:20-21 | the rule, null or not, is appended at the end of the registry, and the built-ins stay in front |
| `AntibanEngine.Antiban.PushEventMessage` | Antiban/Antiban.cs:27-30 | the message is appended at the end of the registered queue, and nothing else changes |
| `AntibanEngine.Antiban.GetResult` | Antiban/Antiban.cs:36-56 | the stored results are the replay of all registered messages in push order; the returned list is those results sorted by send time, as a permutation; neither queue changes |
| `Scenarios.BuiltinDelay` | Antiban/Antiban.cs:41-46 | with only the built-ins, the delay is the largest of the three rule outputs |
| `Scenarios.FirstMessageUndelayed` | Antiban/Antiban.cs:41-46 | with nothing processed yet, the built-ins ask for no delay |
| `Scenarios.AnyMessageSpacingExample` | Antiban/Antiban.cs:98-109 | messages to two numbers at t and t + 3 s are sent at t and t + 10 s |
| `Scenarios.SameNumberMinuteExample` | Antiban/Antiban.cs:148-162 | two messages to one number at t and t + 30 s are sent at t and t + 1 min |
| `Scenarios.PriorityDailyExample` | Antiban/Antiban.cs:208-217 | two priority-1 messages to one number at t and t + 1 h are sent at t and t + 24 h |
| `Scenarios.CustomRuleExample` | Antiban/Antiban.cs:20-21 | a caller rule asking for two hours dominates the built-ins: one message at t is sent at t + 2 h |
| `Scenarios.RetrieveTwice` | Antiban/Antiban.cs:36-56 | two retrievals with no push in between return equal lists |
| `Scenarios.AnyMessageSpacingSorted` | Antiban/Antiban.cs:55 | sorting the ten-second example's entries leaves them in push order |
| `Scenarios.AnyMessageSpacingClient` | Antiban/Antiban.cs:36-56 | a fresh scheduler fed the ten-second example returns both entries, in send order, ten seconds apart |
| `Scenarios.CustomRuleClient` | Antiban/Antiban.cs:20-21 | a fresh scheduler with the two-hour rule added returns a single message's entry two hours late |

## Left out

- Calendar range: `DateTime` arithmetic that would leave the representable range throws in .NET. Time here is unbounded `int` ticks, so that exception is not modelled.
- `TotalMinutes`: the minute rule compares `TotalMinutes`, a `double`, with 1. The model compares the tick count with one minute's ticks.
- Null elements: a null message pushed with `PushEventMessage`, and null elements inside the lists a rule receives, are not modelled. Dafny values are never null. Only whole null arguments of a rule are modelled, by `ArgumentChecked`.
- Custom rules are modelled as pure functions. A caller-supplied `Func` that mutates the shared result list, throws, or is not deterministic is outside the model.
- Failed retrieval inside the class: `GetResult` requires the class invariant (the built-ins at the front of the registry), under which no rule throws. The all-null `Max()` failure is modelled at the level of `Delay` and `Schedule`. The partially filled `_results` list that an exception would leave behind is not modelled.
- `Linq.OrderBy`: stability (equal send times keep their push order) is not stated. The model sorts stably, but only sortedness and permutation are proved.
- `MaxBy` tie-breaking is not stated, because the rules read only the send time of the element it returns.
- The `EventMessage` and `AntibanResult` classes are not part of this model. Only the fields the core reads are modelled, and ids are integers. Ids are not assumed unique: the join is modelled literally, so a repeated id gives one row per matching pair.
- Concurrency and thread safety are not modelled, because the scheduler is single-threaded.
- The copy `_registredMesages.ToList()` passed to each rule is the registered sequence itself. The returned list is a fresh `seq` value.

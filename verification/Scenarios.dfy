/**
 Worked schedules for two messages under the built-in rules, and for one
 message with an extra caller-supplied rule, for every start time `t`.
 */
module Scenarios {
  import opened Types
  import opened Linq
  import opened SentTimeCalculators
  import opened AntibanEngine

  function Max(a: int, b: int): int {
    if a >= b then a else b
  }

  /** With only the built-ins registered, the delay is the largest of the three rule outputs. */
  lemma BuiltinDelay(results: seq<AntibanResult>, registered: seq<EventMessage>, m: EventMessage)
    ensures Delay(BuiltinRules(), results, registered, m)
            == Ok(Max(Max(NotLess24HourForSameNumbersAndPriority1(results, registered, m),
                          NotLessMinuteForSameNumbers(results, registered, m)),
                      NotLess10SecondsForAnyMessage(results, registered, m)))
  {
    var calculators := BuiltinRules();
    var r24 := NotLess24HourForSameNumbersAndPriority1(results, registered, m);
    var rMinute := NotLessMinuteForSameNumbers(results, registered, m);
    var r10 := NotLess10SecondsForAnyMessage(results, registered, m);
    var k := if r24 >= rMinute && r24 >= r10 then 0 else if rMinute >= r10 then 1 else 2;
    forall i | 0 <= i < |calculators| && calculators[i].Some?
      ensures calculators[i].value(results, registered, m) <= calculators[k].value(results, registered, m)
    {
      assert i == 0 || i == 1 || i == 2;
    }
    DelayIsLargestOutput(calculators, results, registered, m, k);
  }

  /** With nothing processed yet, the built-in rules ask for no delay. */
  lemma FirstMessageUndelayed(registered: seq<EventMessage>, m: EventMessage)
    ensures Delay(BuiltinRules(), [], registered, m) == Ok(0)
  {
    NotLess24HourPushesPastLatest([], registered, m);
    NotLessMinutePushesPastLatest([], registered, m);
    NotLess10SecondsPushesPastLatest([], registered, m);
    BuiltinDelay([], registered, m);
  }

  /** The ten-second rule pushes `b` to ten seconds after `a`, sent at `t`. */
  lemma AnyMessageSecondPushed(t: int, a: EventMessage, b: EventMessage)
    requires a == EventMessage(1, "A", 2, t) && b == EventMessage(2, "B", 2, t + 3 * TicksPerSecond)
    ensures NotLess10SecondsForAnyMessage([AntibanResult(1, t)], [a, b], b) == 7 * TicksPerSecond
  {
    var first := [AntibanResult(1, t)];
    NotLess10SecondsPushesPastLatest(first, [a, b], b);
    assert Processed([a, b], first, a, first[0]);
  }

  /** The minute rule ignores `a`, sent to another number. */
  lemma AnyMessageSecondOtherNumber(t: int, a: EventMessage, b: EventMessage)
    requires a == EventMessage(1, "A", 2, t) && b == EventMessage(2, "B", 2, t + 3 * TicksPerSecond)
    ensures NotLessMinuteForSameNumbers([AntibanResult(1, t)], [a, b], b) == 0
  {
    NotLessMinutePushesPastLatest([AntibanResult(1, t)], [a, b], b);
  }

  /** The delay of `b` is the ten-second rule's. */
  lemma AnyMessageSecondDelay(t: int, a: EventMessage, b: EventMessage)
    requires a == EventMessage(1, "A", 2, t) && b == EventMessage(2, "B", 2, t + 3 * TicksPerSecond)
    ensures Delay(BuiltinRules(), [AntibanResult(1, t)], [a, b], b) == Ok(7 * TicksPerSecond)
  {
    AnyMessageSecondPushed(t, a, b);
    AnyMessageSecondOtherNumber(t, a, b);
    BuiltinDelay([AntibanResult(1, t)], [a, b], b);
  }

  /**
   Two messages to different numbers three seconds apart: the second is
   pushed to ten seconds after the first.
   */
  lemma AnyMessageSpacingExample(t: int)
    ensures var a := EventMessage(1, "A", 2, t);
            var b := EventMessage(2, "B", 2, t + 3 * TicksPerSecond);
            Schedule(BuiltinRules(), [a, b], 2) == Ok([AntibanResult(1, t), AntibanResult(2, t + TenSeconds)])
  {
    var a := EventMessage(1, "A", 2, t);
    var b := EventMessage(2, "B", 2, t + 3 * TicksPerSecond);
    FirstMessageUndelayed([a, b], a);
    ScheduleStep(BuiltinRules(), [a, b], 0, [], 0);
    assert [] + [AntibanResult(1, t + 0)] == [AntibanResult(1, t)];
    AnyMessageSecondDelay(t, a, b);
    ScheduleStep(BuiltinRules(), [a, b], 1, [AntibanResult(1, t)], 7 * TicksPerSecond);
    assert [AntibanResult(1, t)] + [AntibanResult(2, t + 3 * TicksPerSecond + 7 * TicksPerSecond)]
        == [AntibanResult(1, t), AntibanResult(2, t + TenSeconds)];
  }

  /** The ten-second rule ignores `c`, sent thirty seconds before `d` was requested. */
  lemma SameNumberSecondOutsideTenSeconds(t: int, c: EventMessage, d: EventMessage)
    requires c == EventMessage(1, "X", 2, t) && d == EventMessage(2, "X", 2, t + 30 * TicksPerSecond)
    ensures NotLess10SecondsForAnyMessage([AntibanResult(1, t)], [c, d], d) == 0
  {
    NotLess10SecondsPushesPastLatest([AntibanResult(1, t)], [c, d], d);
  }

  /** The minute rule pushes `d` to a minute after `c`, sent at `t`. */
  lemma SameNumberSecondPushed(t: int, c: EventMessage, d: EventMessage)
    requires c == EventMessage(1, "X", 2, t) && d == EventMessage(2, "X", 2, t + 30 * TicksPerSecond)
    ensures NotLessMinuteForSameNumbers([AntibanResult(1, t)], [c, d], d) == 30 * TicksPerSecond
  {
    var first := [AntibanResult(1, t)];
    NotLessMinutePushesPastLatest(first, [c, d], d);
    assert Processed([c, d], first, c, first[0]);
  }

  /** The delay of `d` is the minute rule's. */
  lemma SameNumberSecondDelay(t: int, c: EventMessage, d: EventMessage)
    requires c == EventMessage(1, "X", 2, t) && d == EventMessage(2, "X", 2, t + 30 * TicksPerSecond)
    ensures Delay(BuiltinRules(), [AntibanResult(1, t)], [c, d], d) == Ok(30 * TicksPerSecond)
  {
    SameNumberSecondOutsideTenSeconds(t, c, d);
    SameNumberSecondPushed(t, c, d);
    BuiltinDelay([AntibanResult(1, t)], [c, d], d);
  }

  /**
   Two messages to the same number thirty seconds apart: the second is
   pushed to a full minute after the first.
   */
  lemma SameNumberMinuteExample(t: int)
    ensures var c := EventMessage(1, "X", 2, t);
            var d := EventMessage(2, "X", 2, t + 30 * TicksPerSecond);
            Schedule(BuiltinRules(), [c, d], 2) == Ok([AntibanResult(1, t), AntibanResult(2, t + OneMinute)])
  {
    var c := EventMessage(1, "X", 2, t);
    var d := EventMessage(2, "X", 2, t + 30 * TicksPerSecond);
    FirstMessageUndelayed([c, d], c);
    ScheduleStep(BuiltinRules(), [c, d], 0, [], 0);
    assert [] + [AntibanResult(1, t + 0)] == [AntibanResult(1, t)];
    SameNumberSecondDelay(t, c, d);
    ScheduleStep(BuiltinRules(), [c, d], 1, [AntibanResult(1, t)], 30 * TicksPerSecond);
    assert [AntibanResult(1, t)] + [AntibanResult(2, t + 30 * TicksPerSecond + 30 * TicksPerSecond)]
        == [AntibanResult(1, t), AntibanResult(2, t + OneMinute)];
  }

  /** The ten-second rule ignores `e`, sent an hour before `f` was requested. */
  lemma PrioritySecondOutsideTenSeconds(t: int, e: EventMessage, f: EventMessage)
    requires e == EventMessage(1, "X", 1, t) && f == EventMessage(2, "X", 1, t + 60 * OneMinute)
    ensures NotLess10SecondsForAnyMessage([AntibanResult(1, t)], [e, f], f) == 0
  {
    NotLess10SecondsPushesPastLatest([AntibanResult(1, t)], [e, f], f);
  }

  /** The minute rule ignores `e`, sent an hour before `f` was requested. */
  lemma PrioritySecondOutsideMinute(t: int, e: EventMessage, f: EventMessage)
    requires e == EventMessage(1, "X", 1, t) && f == EventMessage(2, "X", 1, t + 60 * OneMinute)
    ensures NotLessMinuteForSameNumbers([AntibanResult(1, t)], [e, f], f) == 0
  {
    NotLessMinutePushesPastLatest([AntibanResult(1, t)], [e, f], f);
  }

  /** The 24-hour rule pushes `f` to a day after `e`, sent at `t`. */
  lemma PrioritySecondPushed(t: int, e: EventMessage, f: EventMessage)
    requires e == EventMessage(1, "X", 1, t) && f == EventMessage(2, "X", 1, t + 60 * OneMinute)
    ensures NotLess24HourForSameNumbersAndPriority1([AntibanResult(1, t)], [e, f], f) == 23 * 60 * OneMinute
  {
    var first := [AntibanResult(1, t)];
    NotLess24HourPushesPastLatest(first, [e, f], f);
    assert Processed([e, f], first, e, first[0]);
  }

  /** The delay of `f` is the 24-hour rule's. */
  lemma PrioritySecondDelay(t: int, e: EventMessage, f: EventMessage)
    requires e == EventMessage(1, "X", 1, t) && f == EventMessage(2, "X", 1, t + 60 * OneMinute)
    ensures Delay(BuiltinRules(), [AntibanResult(1, t)], [e, f], f) == Ok(23 * 60 * OneMinute)
  {
    PrioritySecondOutsideTenSeconds(t, e, f);
    PrioritySecondOutsideMinute(t, e, f);
    PrioritySecondPushed(t, e, f);
    BuiltinDelay([AntibanResult(1, t)], [e, f], f);
  }

  /** `e` goes out at its requested time. */
  lemma PriorityFirstScheduled(t: int, e: EventMessage, f: EventMessage)
    requires e == EventMessage(1, "X", 1, t) && f == EventMessage(2, "X", 1, t + 60 * OneMinute)
    ensures Schedule(BuiltinRules(), [e, f], 1) == Ok([AntibanResult(1, t)])
  {
    FirstMessageUndelayed([e, f], e);
    ScheduleStep(BuiltinRules(), [e, f], 0, [], 0);
    assert [] + [AntibanResult(1, t + 0)] == [AntibanResult(1, t)];
  }

  /**
   Two priority-1 messages to the same number an hour apart: the second is
   pushed to a full day after the first.
   */
  lemma PriorityDailyExample(t: int)
    ensures var e := EventMessage(1, "X", 1, t);
            var f := EventMessage(2, "X", 1, t + 60 * OneMinute);
            Schedule(BuiltinRules(), [e, f], 2) == Ok([AntibanResult(1, t), AntibanResult(2, t + TwentyFourHours)])
  {
    var e := EventMessage(1, "X", 1, t);
    var f := EventMessage(2, "X", 1, t + 60 * OneMinute);
    PriorityFirstScheduled(t, e, f);
    PrioritySecondDelay(t, e, f);
    ScheduleStep(BuiltinRules(), [e, f], 1, [AntibanResult(1, t)], 23 * 60 * OneMinute);
    assert [AntibanResult(1, t)] + [AntibanResult(2, t + 60 * OneMinute + 23 * 60 * OneMinute)]
        == [AntibanResult(1, t), AntibanResult(2, t + TwentyFourHours)];
  }

  /** A caller-supplied rule asking for two hours. */
  function TwoHours(results: seq<AntibanResult>, registered: seq<EventMessage>, m: EventMessage): int {
    120 * OneMinute
  }

  /** The built-ins and the two-hour rule: the latter decides the delay of a first message. */
  lemma CustomRuleDelay(a: EventMessage)
    ensures Delay(BuiltinRules() + [Some(TwoHours)], [], [a], a) == Ok(120 * OneMinute)
  {
    var calculators := BuiltinRules() + [Some(TwoHours)];
    NotLess24HourPushesPastLatest([], [a], a);
    NotLessMinutePushesPastLatest([], [a], a);
    NotLess10SecondsPushesPastLatest([], [a], a);
    forall i | 0 <= i < |calculators| && calculators[i].Some?
      ensures calculators[i].value([], [a], a) <= calculators[3].value([], [a], a)
    {
      assert i == 0 || i == 1 || i == 2 || i == 3;
    }
    DelayIsLargestOutput(calculators, [], [a], a, 3);
  }

  /**
   A caller-supplied rule that asks for more than the built-ins decides the
   delay: a single message is sent two hours after its requested time.
   */
  lemma CustomRuleExample(t: int)
    ensures var a := EventMessage(1, "A", 2, t);
            Schedule(BuiltinRules() + [Some(TwoHours)], [a], 1) == Ok([AntibanResult(1, t + 120 * OneMinute)])
  {
    var a := EventMessage(1, "A", 2, t);
    CustomRuleDelay(a);
    ScheduleStep(BuiltinRules() + [Some(TwoHours)], [a], 0, [], 120 * OneMinute);
    assert [] + [AntibanResult(1, t + 120 * OneMinute)] == [AntibanResult(1, t + 120 * OneMinute)];
  }

  /**
   Retrieval is read-only on both queues: two calls with no push in between
   return the same list.
   */
  method RetrieveTwice(antiban: Antiban) returns (first: seq<AntibanResult>, second: seq<AntibanResult>)
    requires antiban.Valid()
    modifies antiban
    ensures first == second
  {
    first := antiban.GetResult();
    second := antiban.GetResult();
  }

  /** The ten-second example's entries, sorted by send time, come back unchanged. */
  lemma AnyMessageSpacingSorted(t: int, results: seq<AntibanResult>)
    requires Schedule(BuiltinRules(), [EventMessage(1, "A", 2, t), EventMessage(2, "B", 2, t + 3 * TicksPerSecond)], 2) == Ok(results)
    ensures OrderBy(results, SentTime) == [AntibanResult(1, t), AntibanResult(2, t + TenSeconds)]
  {
    AnyMessageSpacingExample(t);
    assert OrderBy([AntibanResult(2, t + TenSeconds)], SentTime) == [AntibanResult(2, t + TenSeconds)];
  }

  /**
   A scheduler used as a client would: the two messages of the ten-second
   example come back in send order, ten seconds apart.
   */
  method AnyMessageSpacingClient(t: int) returns (schedule: seq<AntibanResult>)
    ensures schedule == [AntibanResult(1, t), AntibanResult(2, t + TenSeconds)]
  {
    var antiban := new Antiban();
    antiban.PushEventMessage(EventMessage(1, "A", 2, t));
    antiban.PushEventMessage(EventMessage(2, "B", 2, t + 3 * TicksPerSecond));
    assert antiban.registeredMessages == [EventMessage(1, "A", 2, t), EventMessage(2, "B", 2, t + 3 * TicksPerSecond)];
    schedule := antiban.GetResult();
    AnyMessageSpacingSorted(t, antiban.results);
  }

  /**
   A client that registers the two-hour rule before pushing one message gets
   that message back two hours after its requested time.
   */
  method CustomRuleClient(t: int) returns (schedule: seq<AntibanResult>)
    ensures schedule == [AntibanResult(1, t + 120 * OneMinute)]
  {
    var antiban := new Antiban();
    antiban.AddBusinesRuleApplicator(Some(TwoHours));
    antiban.PushEventMessage(EventMessage(1, "A", 2, t));
    assert antiban.sendTimeCalculators == BuiltinRules() + [Some(TwoHours)];
    assert antiban.registeredMessages == [EventMessage(1, "A", 2, t)];
    CustomRuleExample(t);
    schedule := antiban.GetResult();
  }
}

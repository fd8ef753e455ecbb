/**
 The scheduler: a registry of send-time rules and a queue of registered
 messages; on request it replays the queue in insertion order and gives each
 message its requested time plus the largest delay any rule asks for.
 */
module AntibanEngine {
  import opened Types
  import opened Linq
  import opened SentTimeCalculators

  /** The rules every scheduler starts with, in the order it enqueues them. */
  function BuiltinRules(): seq<Option<Rule>> {
    [Some(NotLess24HourForSameNumbersAndPriority1), Some(NotLessMinuteForSameNumbers), Some(NotLess10SecondsForAnyMessage)]
  }

  /** The registry starts with the three built-ins, whatever was appended after them. */
  ghost predicate HasBuiltins(calculators: seq<Option<Rule>>) {
    |calculators| >= 3 && calculators[..3] == BuiltinRules()
  }

  /** `Where(x => x is not null).Select(...).Max()`, or nothing when no rule is present. */
  function MaxOutput(calculators: seq<Option<Rule>>, results: seq<AntibanResult>, registered: seq<EventMessage>,
                     m: EventMessage): Option<int>
  {
    if calculators == [] then None
    else
      var rest := MaxOutput(calculators[1..], results, registered, m);
      match calculators[0]
      case None => rest
      case Some(rule) =>
        var here := rule(results, registered, m);
        match rest
        case None => Some(here)
        case Some(v) => Some(if here >= v then here else v)
  }

  /**
   The delay for `m`: zero with no rules at all, the largest output of the
   present rules otherwise, and the exception `Max()` throws when every
   registered rule is null.
   */
  function Delay(calculators: seq<Option<Rule>>, results: seq<AntibanResult>, registered: seq<EventMessage>,
                 m: EventMessage): Outcome<int>
  {
    if |calculators| == 0 then Ok(0)
    else
      match MaxOutput(calculators, results, registered, m)
      case None => Err(EmptySequence)
      case Some(v) => Ok(v)
  }

  /**
   The results `GetResult` computes for the first `k` registered messages,
   in insertion order: message `i` is scheduled against the entries of
   messages `0..i-1` and the whole registered list.
   */
  function Schedule(calculators: seq<Option<Rule>>, registered: seq<EventMessage>, k: nat): Outcome<seq<AntibanResult>>
    requires k <= |registered|
  {
    if k == 0 then Ok([])
    else
      match Schedule(calculators, registered, k - 1)
      case Err(e) => Err(e)
      case Ok(prev) =>
        var m := registered[k - 1];
        match Delay(calculators, prev, registered, m)
        case Err(e) => Err(e)
        case Ok(d) => Ok(prev + [AntibanResult(m.id, m.dateTime + d)])
  }

  function SentTime(r: AntibanResult): int { r.sentDateTime }

  // ---------------------------------------------------------------------
  // Combination of the rules.

  /**
   `MaxOutput` is nothing exactly when every rule is null, and otherwise the
   output of one present rule that no other present rule exceeds.
   */
  lemma {:induction false} MaxOutputIsMaximum(calculators: seq<Option<Rule>>, results: seq<AntibanResult>,
                                              registered: seq<EventMessage>, m: EventMessage)
    ensures var r := MaxOutput(calculators, results, registered, m);
            && (r.None? <==> forall i :: 0 <= i < |calculators| ==> calculators[i].None?)
            && (r.Some? ==> exists i :: 0 <= i < |calculators| && calculators[i].Some?
                                        && calculators[i].value(results, registered, m) == r.value)
            && (r.Some? ==> forall i :: 0 <= i < |calculators| && calculators[i].Some?
                                        ==> calculators[i].value(results, registered, m) <= r.value)
  {
    if calculators != [] {
      MaxOutputIsMaximum(calculators[1..], results, registered, m);
      assert forall i :: 1 <= i < |calculators| ==> calculators[i] == calculators[1..][i - 1];
      var rest := MaxOutput(calculators[1..], results, registered, m);
      if rest.Some? {
        var i :| 0 <= i < |calculators[1..]| && calculators[1..][i].Some?
                 && calculators[1..][i].value(results, registered, m) == rest.value;
        assert calculators[i + 1] == calculators[1..][i];
      }
    }
  }

  /**
   The delay is zero with an empty registry, fails with `EmptySequence`
   exactly when the registry holds only nulls, and is otherwise the largest
   output of the present rules.
   */
  lemma DelayIsMaximum(calculators: seq<Option<Rule>>, results: seq<AntibanResult>,
                       registered: seq<EventMessage>, m: EventMessage)
    ensures var r := Delay(calculators, results, registered, m);
            && (|calculators| == 0 ==> r == Ok(0))
            && (r.Err? <==> |calculators| > 0 && forall i :: 0 <= i < |calculators| ==> calculators[i].None?)
            && (r.Err? ==> r.error == EmptySequence)
            && (r.Ok? && |calculators| > 0 ==> exists i :: 0 <= i < |calculators| && calculators[i].Some?
                                                         && calculators[i].value(results, registered, m) == r.value)
            && (r.Ok? ==> forall i :: 0 <= i < |calculators| && calculators[i].Some?
                                      ==> calculators[i].value(results, registered, m) <= r.value)
  {
    MaxOutputIsMaximum(calculators, results, registered, m);
  }

  /** A null entry at the end of the registry is skipped by `Where(x => x is not null)`. */
  lemma {:induction false} MaxOutputSkipsNull(calculators: seq<Option<Rule>>, results: seq<AntibanResult>,
                                              registered: seq<EventMessage>, m: EventMessage)
    ensures MaxOutput(calculators + [None], results, registered, m) == MaxOutput(calculators, results, registered, m)
  {
    if calculators != [] {
      assert (calculators + [None])[1..] == calculators[1..] + [None];
      MaxOutputSkipsNull(calculators[1..], results, registered, m);
    }
  }

  /**
   Registering a null rule changes no delay, except in a registry that was
   empty: there `Any()` now holds and `Max()` throws.
   */
  lemma NullRuleIgnored(calculators: seq<Option<Rule>>, results: seq<AntibanResult>,
                        registered: seq<EventMessage>, m: EventMessage)
    ensures |calculators| > 0 ==>
              Delay(calculators + [None], results, registered, m) == Delay(calculators, results, registered, m)
    ensures |calculators| == 0 ==> Delay(calculators + [None], results, registered, m) == Err(EmptySequence)
  {
    MaxOutputSkipsNull(calculators, results, registered, m);
  }

  /** Where the constructor enqueues the rule for constraint `c`. */
  function Slot(c: Constraint): nat {
    match c
    case SameNumberPriority1Day => 0
    case SameNumberMinute => 1
    case AnyMessage => 2
  }

  /** A registry that starts with the built-ins holds the rule for each constraint in its slot. */
  lemma BuiltinsPresent(calculators: seq<Option<Rule>>)
    requires HasBuiltins(calculators)
    ensures forall c :: Slot(c) < |calculators| && calculators[Slot(c)] == Some(RuleFor(c))
  {
    forall c ensures Slot(c) < |calculators| && calculators[Slot(c)] == Some(RuleFor(c)) {
      assert calculators[Slot(c)] == calculators[..3][Slot(c)];
    }
  }

  /** A registry holding the built-ins never makes `Max()` throw. */
  lemma BuiltinsNotNull(calculators: seq<Option<Rule>>, results: seq<AntibanResult>,
                        registered: seq<EventMessage>, m: EventMessage)
    requires HasBuiltins(calculators)
    ensures Delay(calculators, results, registered, m).Ok?
  {
    BuiltinsPresent(calculators);
    DelayIsMaximum(calculators, results, registered, m);
    assert calculators[Slot(AnyMessage)].Some?;
  }

  /** The delay is at least the output of each rule present in the registry. */
  lemma DelayBoundsRule(calculators: seq<Option<Rule>>, results: seq<AntibanResult>, registered: seq<EventMessage>,
                        m: EventMessage, k: nat)
    requires k < |calculators| && calculators[k].Some?
    ensures Delay(calculators, results, registered, m).Ok?
    ensures calculators[k].value(results, registered, m) <= Delay(calculators, results, registered, m).value
  {
    DelayIsMaximum(calculators, results, registered, m);
  }

  /** A present rule's output that no present rule exceeds is the delay. */
  lemma DelayIsLargestOutput(calculators: seq<Option<Rule>>, results: seq<AntibanResult>, registered: seq<EventMessage>,
                             m: EventMessage, k: nat)
    requires k < |calculators| && calculators[k].Some?
    requires forall i :: 0 <= i < |calculators| && calculators[i].Some?
                         ==> calculators[i].value(results, registered, m) <= calculators[k].value(results, registered, m)
    ensures Delay(calculators, results, registered, m) == Ok(calculators[k].value(results, registered, m))
  {
    DelayIsMaximum(calculators, results, registered, m);
  }

  /** With the built-ins registered, the delay is at least each built-in rule's output. */
  lemma BuiltinsBoundDelay(calculators: seq<Option<Rule>>, results: seq<AntibanResult>, registered: seq<EventMessage>,
                           m: EventMessage)
    requires HasBuiltins(calculators)
    ensures Delay(calculators, results, registered, m).Ok?
    ensures forall c :: RuleFor(c)(results, registered, m) <= Delay(calculators, results, registered, m).value
  {
    BuiltinsPresent(calculators);
    forall c ensures RuleFor(c)(results, registered, m) <= Delay(calculators, results, registered, m).value {
      DelayBoundsRule(calculators, results, registered, m, Slot(c));
    }
  }

  // ---------------------------------------------------------------------
  // The replay over the registered messages.

  /** Scheduling one more message appends its entry to those already computed. */
  lemma ScheduleStep(calculators: seq<Option<Rule>>, registered: seq<EventMessage>, k: nat,
                     prev: seq<AntibanResult>, d: int)
    requires k < |registered|
    requires Schedule(calculators, registered, k) == Ok(prev)
    requires Delay(calculators, prev, registered, registered[k]) == Ok(d)
    ensures Schedule(calculators, registered, k + 1) == Ok(prev + [AntibanResult(registered[k].id, registered[k].dateTime + d)])
  {
    var k1: nat := k + 1;
    assert k1 - 1 == k;
    assert Schedule(calculators, registered, k1 - 1) == Ok(prev);
  }

  /** Retrieval fails exactly when there are messages and rules but every rule is null. */
  lemma {:induction false} ScheduleFails(calculators: seq<Option<Rule>>, registered: seq<EventMessage>, k: nat)
    requires k <= |registered|
    ensures Schedule(calculators, registered, k).Err? <==>
            k > 0 && |calculators| > 0 && forall i :: 0 <= i < |calculators| ==> calculators[i].None?
  {
    if k > 0 {
      ScheduleFails(calculators, registered, k - 1);
      var prev := Schedule(calculators, registered, k - 1);
      if prev.Ok? {
        DelayIsMaximum(calculators, prev.value, registered, registered[k - 1]);
      }
    }
  }

  /**
   One result per message: entry `i` carries the id of the `i`-th registered
   message, and its send time is that message's time plus the delay computed
   against exactly the entries of the messages pushed before it.
   */
  lemma {:induction false} ScheduleEntries(calculators: seq<Option<Rule>>, registered: seq<EventMessage>, k: nat)
    requires k <= |registered|
    requires Schedule(calculators, registered, k).Ok?
    ensures var s := Schedule(calculators, registered, k).value;
            && |s| == k
            && forall i :: 0 <= i < k ==>
                 && Schedule(calculators, registered, i) == Ok(s[..i])
                 && Delay(calculators, s[..i], registered, registered[i]).Ok?
                 && s[i] == AntibanResult(registered[i].id,
                                          registered[i].dateTime + Delay(calculators, s[..i], registered, registered[i]).value)
  {
    if k > 0 {
      ScheduleEntries(calculators, registered, k - 1);
      var s := Schedule(calculators, registered, k).value;
      var prev := Schedule(calculators, registered, k - 1).value;
      assert s[..k - 1] == prev;
      forall i | 0 <= i < k - 1 ensures s[..i] == prev[..i] {
      }
    }
  }

  /** With the built-in rules registered, no message is sent before its requested time. */
  lemma SentNotBeforeRequested(calculators: seq<Option<Rule>>, registered: seq<EventMessage>)
    requires HasBuiltins(calculators)
    ensures Schedule(calculators, registered, |registered|).Ok?
    ensures |Schedule(calculators, registered, |registered|).value| == |registered|
    ensures var s := Schedule(calculators, registered, |registered|).value;
            forall i :: 0 <= i < |s| ==> s[i].eventMessageId == registered[i].id && s[i].sentDateTime >= registered[i].dateTime
  {
    var n := |registered|;
    BuiltinsPresent(calculators);
    assert calculators[Slot(AnyMessage)].Some?;
    ScheduleFails(calculators, registered, n);
    ScheduleEntries(calculators, registered, n);
    var s := Schedule(calculators, registered, n).value;
    forall i | 0 <= i < |s| ensures s[i].eventMessageId == registered[i].id && s[i].sentDateTime >= registered[i].dateTime {
      BuiltinsBoundDelay(calculators, s[..i], registered, registered[i]);
      assert RuleFor(AnyMessage)(s[..i], registered, registered[i]) >= 0;
    }
  }

  /**
   Spacing: when message `i` was pushed before message `j` and its send time
   falls in the window that constraint `c` watches around `j`'s requested
   time, `j` is sent at least `Gap(c)` after `i`.
   */
  lemma Spacing(calculators: seq<Option<Rule>>, registered: seq<EventMessage>, c: Constraint, i: nat, j: nat)
    requires HasBuiltins(calculators)
    requires i < j < |registered|
    ensures Schedule(calculators, registered, |registered|).Ok?
    ensures |Schedule(calculators, registered, |registered|).value| == |registered|
    ensures var s := Schedule(calculators, registered, |registered|).value;
            Relevant(c, registered[j], registered[i], s[i].sentDateTime) ==>
              s[j].sentDateTime >= s[i].sentDateTime + Gap(c)
  {
    var n := |registered|;
    BuiltinsPresent(calculators);
    assert calculators[Slot(AnyMessage)].Some?;
    ScheduleFails(calculators, registered, n);
    ScheduleEntries(calculators, registered, n);
    var s := Schedule(calculators, registered, n).value;
    var m := registered[j];
    if Relevant(c, m, registered[i], s[i].sentDateTime) {
      BuiltinsBoundDelay(calculators, s[..j], registered, m);
      RulePushesPastLatest(c, s[..j], registered, m);
      assert s[..j][i] == s[i];
      assert Processed(registered, s[..j], registered[i], s[i]);
    }
  }

  /**
   The scheduler. `registeredMessages` and `sendTimeCalculators` are the two
   queues; `results` is the list `GetResult` rebuilds on every call.
   */
  class Antiban {
    var results: seq<AntibanResult>
    var registeredMessages: seq<EventMessage>
    var sendTimeCalculators: seq<Option<Rule>>

    ghost predicate Valid()
      reads this
    {
      HasBuiltins(sendTimeCalculators)
    }

    constructor ()
      ensures Valid()
      ensures sendTimeCalculators == BuiltinRules()
      ensures registeredMessages == [] && results == []
    {
      results := [];
      registeredMessages := [];
      sendTimeCalculators := BuiltinRules();
    }

    /** Appends a caller-supplied rule (possibly null) to the registry. */
    method AddBusinesRuleApplicator(rule: Option<Rule>)
      requires Valid()
      modifies this`sendTimeCalculators
      ensures Valid()
      ensures sendTimeCalculators == old(sendTimeCalculators) + [rule]
    {
      sendTimeCalculators := sendTimeCalculators + [rule];
    }

    /** Appends a message to the end of the registered queue. */
    method PushEventMessage(eventMessage: EventMessage)
      requires Valid()
      modifies this`registeredMessages
      ensures Valid()
      ensures registeredMessages == old(registeredMessages) + [eventMessage]
    {
      registeredMessages := registeredMessages + [eventMessage];
    }

    /**
     Recomputes `results` from scratch over the registered messages in
     insertion order and returns them sorted by send time. Neither queue
     changes.
     */
    method GetResult() returns (r: seq<AntibanResult>)
      requires Valid()
      modifies this`results
      ensures Valid()
      ensures Schedule(sendTimeCalculators, registeredMessages, |registeredMessages|) == Ok(results)
      ensures r == OrderBy(results, SentTime)
      ensures SortedBy(r, SentTime) && multiset(r) == multiset(results)
    {
      var calculators, messages := sendTimeCalculators, registeredMessages;
      results := [];
      var i := 0;
      while i < |messages|
        invariant 0 <= i <= |messages|
        invariant Schedule(calculators, messages, i) == Ok(results)
      {
        var eventMessage := messages[i];
        BuiltinsNotNull(calculators, results, messages, eventMessage);
        var addToSentTime := Delay(calculators, results, messages, eventMessage).value;
        ScheduleStep(calculators, messages, i, results, addToSentTime);
        results := results + [AntibanResult(eventMessage.id, eventMessage.dateTime + addToSentTime)];
        i := i + 1;
      }
      r := OrderBy(results, SentTime);
    }
  }
}

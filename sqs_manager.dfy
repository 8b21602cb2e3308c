/**
 * The manager of one queue: its mailbox, the handlers registered on it, the delay
 * resolution of send, and one turn of the consumption loop. The consumer thread is
 * reduced to two flags, started and interrupted.
 */
module Managers {

  import opened Wrappers
  import opened Messages
  import opened Reflection
  import opened Mailbox
  import opened AwsSqsClient
  import opened ConsumeMethods

  /** The identity of a registration: the bean and the method (Pair.of(bean, method)). */
  type ListenerKey = (Bean, HandlerMethod)

  /** The delay, in milliseconds, that the delay header asks for: a number counts as seconds. */
  function HeaderDelayMillis(m: Message): int
  {
    if DelayHeader in m.headers && m.headers[DelayHeader].Num? then m.headers[DelayHeader].n * 1000 else 0
  }

  /**
   * send(message) on values: the new mailbox entries and the new override table. An
   * override for the message's id wins and is consumed; else the delay header; else none.
   */
  function SendSpec(entries: seq<DelayedItem>, handles: map<string, Int32>, m: Message, now: int)
    : (seq<DelayedItem>, map<string, Int32>)
  {
    var key := IdKey(m);
    if key in handles then (entries + [NewDelayedItem(m, (handles[key] as int) * 1000, now)], handles - {key})
    else (entries + [NewDelayedItem(m, HeaderDelayMillis(m), now)], handles)
  }

  /** send adds exactly one entry for the message, after the entries already there. */
  lemma SendAppendsOne(entries: seq<DelayedItem>, handles: map<string, Int32>, m: Message, now: int)
    ensures var (entries', _) := SendSpec(entries, handles, m, now);
            |entries'| == |entries| + 1 && entries'[..|entries|] == entries && entries'[|entries|].content == m
  {
    var (entries', _) := SendSpec(entries, handles, m, now);
    assert entries'[..|entries|] == entries;
  }

  /**
   * With an override for the message's id the delay is the override's seconds and the
   * override is removed, whatever the delay header says; other overrides stay.
   */
  lemma SendOverrideWins(entries: seq<DelayedItem>, handles: map<string, Int32>, m: Message, now: int)
    requires IdKey(m) in handles
    ensures var (entries', handles') := SendSpec(entries, handles, m, now);
            entries'[|entries|].consumeOnTimeInMillis == now + (if handles[IdKey(m)] > 0 then (handles[IdKey(m)] as int) * 1000 else 0)
            && handles'.Keys == handles.Keys - {IdKey(m)}
            && forall h :: h in handles' ==> handles'[h] == handles[h]
  {
  }

  /** Without an override, a numeric delay header gives the delay and the table is unchanged. */
  lemma SendUsesDelayHeader(entries: seq<DelayedItem>, handles: map<string, Int32>, m: Message, now: int, seconds: int)
    requires IdKey(m) !in handles
    requires DelayHeader in m.headers && m.headers[DelayHeader] == Num(seconds)
    ensures SendSpec(entries, handles, m, now) == (entries + [NewDelayedItem(m, seconds * 1000, now)], handles)
  {
  }

  /** Without an override and without a numeric delay header, the message is added as by add(message). */
  lemma SendWithoutDelay(entries: seq<DelayedItem>, handles: map<string, Int32>, m: Message, now: int)
    requires IdKey(m) !in handles
    requires DelayHeader !in m.headers || !m.headers[DelayHeader].Num?
    ensures SendSpec(entries, handles, m, now) == (entries + [NewDelayedItem(m, 0, now)], handles)
  {
  }

  /** A message without an id is looked up under the empty string. */
  lemma SendWithoutIdUsesEmptyKey(entries: seq<DelayedItem>, handles: map<string, Int32>, m: Message, now: int)
    requires IdHeader !in m.headers && "" in handles
    ensures SendSpec(entries, handles, m, now).1 == handles - {""}
  {
  }

  /** An override applies to one send only: sending the message again ignores it. */
  lemma OverrideAppliesOnce(entries: seq<DelayedItem>, handles: map<string, Int32>, m: Message, now: int, later: int)
    requires IdKey(m) in handles
    ensures var (entries1, handles1) := SendSpec(entries, handles, m, now);
            SendSpec(entries1, handles1, m, later) == (entries1 + [NewDelayedItem(m, HeaderDelayMillis(m), later)], handles1)
  {
  }

  /** addListener on values: put-if-absent of a fresh holder under (bean, method). */
  function WithListener(hooks: map<ListenerKey, ConsumeMethodHolder>, bean: Bean, handlerMethod: HandlerMethod,
                        deletionPolicy: DeletionPolicy): map<ListenerKey, ConsumeMethodHolder>
  {
    if (bean, handlerMethod) in hooks then hooks
    else hooks[(bean, handlerMethod) := ConsumeMethodHolder(bean, handlerMethod, deletionPolicy)]
  }

  /**
   * Registering the same bean and method again changes nothing: the first holder and its
   * deletion policy stay, and the table does not grow.
   */
  lemma ReRegistrationKeepsFirst(hooks: map<ListenerKey, ConsumeMethodHolder>, bean: Bean, handlerMethod: HandlerMethod,
                                 first: DeletionPolicy, second: DeletionPolicy)
    requires (bean, handlerMethod) !in hooks
    ensures var once := WithListener(hooks, bean, handlerMethod, first);
            WithListener(once, bean, handlerMethod, second) == once
            && once[(bean, handlerMethod)].deletionPolicy == first
            && |once| == |hooks| + 1
  {
  }

  /** Adding a listener touches no other registration. */
  lemma AddListenerKeepsOthers(hooks: map<ListenerKey, ConsumeMethodHolder>, bean: Bean, handlerMethod: HandlerMethod,
                               deletionPolicy: DeletionPolicy, other: ListenerKey)
    requires other != (bean, handlerMethod)
    ensures var after := WithListener(hooks, bean, handlerMethod, deletionPolicy);
            (other in after <==> other in hooks) && (other in hooks ==> after[other] == hooks[other])
  {
  }

  /** Removing a listener that was just added new gives back the table as it was. */
  lemma RemoveUndoesAdd(hooks: map<ListenerKey, ConsumeMethodHolder>, bean: Bean, handlerMethod: HandlerMethod,
                        deletionPolicy: DeletionPolicy)
    requires (bean, handlerMethod) !in hooks
    ensures WithListener(hooks, bean, handlerMethod, deletionPolicy) - {(bean, handlerMethod)} == hooks
  {
  }

  /** Removing an unknown registration changes nothing. */
  lemma RemoveUnknownIsNoOp(hooks: map<ListenerKey, ConsumeMethodHolder>, key: ListenerKey)
    requires key !in hooks
    ensures hooks - {key} == hooks
  {
  }

  /** handledConsume: the holder's verdict, with an exception escaping invoke counting as false. */
  function HandledVerdict(holder: ConsumeMethodHolder, taken: Message, run: HandlerRun): bool
  {
    match InvokeOutcome(holder, taken, run)
    case Ok(removed) => removed
    case Err(_) => false
  }

  /** Some registered holder removes the message. */
  ghost predicate AnyRemoves(holders: map<ListenerKey, ConsumeMethodHolder>, taken: Message, run: ListenerKey -> HandlerRun)
  {
    exists k :: k in holders && HandledVerdict(holders[k], taken, run(k))
  }

  /** With no holders the message is kept (the reduction's orElse(false)). */
  lemma NoHoldersKeepsMessage(taken: Message, run: ListenerKey -> HandlerRun)
    ensures !AnyRemoves(map[], taken, run)
  {
  }

  /**
   * A holder whose invoke throws (an unsupported parameter kind, or arguments that do
   * not fit) votes false and leaves the other votes alone.
   */
  lemma EscapingErrorVotesFalse(holders: map<ListenerKey, ConsumeMethodHolder>, k: ListenerKey,
                                taken: Message, run: ListenerKey -> HandlerRun)
    requires k in holders && InvokeOutcome(holders[k], taken, run(k)).Err?
    ensures !HandledVerdict(holders[k], taken, run(k))
    ensures AnyRemoves(holders, taken, run) <==> AnyRemoves(holders - {k}, taken, run)
  {
    if AnyRemoves(holders, taken, run) {
      var j :| j in holders && HandledVerdict(holders[j], taken, run(j));
      assert j != k && j in holders - {k};
    }
  }

  /**
   * One holder that does not match (or has no parameters) is enough to remove the
   * message, whatever the other holders decide.
   */
  lemma NonMatchingHolderRemoves(holders: map<ListenerKey, ConsumeMethodHolder>, k: ListenerKey,
                                 taken: Message, run: ListenerKey -> HandlerRun)
    requires k in holders && InvocationParameters(holders[k], taken) == Ok([])
    ensures AnyRemoves(holders, taken, run)
  {
    assert HandledVerdict(holders[k], taken, run(k));
  }

  /**
   * The ways a holder keeps a message: its invoke throws, or its handler is called and
   * the policy is ALWAYS, or NEVER without an acknowledgment through the argument, or
   * NO_REDRIVE or ON_SUCCESS with a handler that threw.
   */
  predicate KeepsMessage(holder: ConsumeMethodHolder, taken: Message, run: HandlerRun)
  {
    InvokeOutcome(holder, taken, run).Err?
    || (InvocationParameters(holder, taken).Ok? && |InvocationParameters(holder, taken).value| > 0
        && ArgumentsFit(holder.handlerMethod.parameters, InvocationParameters(holder, taken).value)
        && (holder.deletionPolicy == Always
            || (holder.deletionPolicy == Never && !(run.acknowledges && AckArg in InvocationParameters(holder, taken).value))
            || (holder.deletionPolicy in {NoRedrive, OnSuccess} && run.threw)))
  }

  /** A holder votes false exactly in the ways KeepsMessage lists. */
  lemma KeepsMessageIffVerdictFalse(holder: ConsumeMethodHolder, taken: Message, run: HandlerRun)
    ensures KeepsMessage(holder, taken, run) <==> !HandledVerdict(holder, taken, run)
  {
    if InvocationParameters(holder, taken).Ok? && |InvocationParameters(holder, taken).value| > 0
       && ArgumentsFit(holder.handlerMethod.parameters, InvocationParameters(holder, taken).value) {
      VerdictByPolicy(holder, taken, run);
    }
  }

  /** The message is sent again exactly when every holder keeps it. */
  lemma RedeliverIffEveryHolderKeeps(holders: map<ListenerKey, ConsumeMethodHolder>,
                                     taken: Message, run: ListenerKey -> HandlerRun)
    ensures !AnyRemoves(holders, taken, run) <==> forall k :: k in holders ==> KeepsMessage(holders[k], taken, run(k))
  {
    forall k | k in holders
      ensures KeepsMessage(holders[k], taken, run(k)) <==> !HandledVerdict(holders[k], taken, run(k))
    {
      KeepsMessageIffVerdictFalse(holders[k], taken, run(k));
    }
  }

  /** consume01 alone, offered a numeric payload, keeps the message: it is sent again. */
  lemma MismatchedPayloadRedelivers(bean: Bean, run: ListenerKey -> HandlerRun)
    ensures var holders := map[(bean, Consume01()) := ConsumeMethodHolder(bean, Consume01(), NoRedrive)];
            !AnyRemoves(holders, Message(Num(5), map["senderId" := Str("s")]), run)
  {
    var holders := map[(bean, Consume01()) := ConsumeMethodHolder(bean, Consume01(), NoRedrive)];
    InvokeArgumentTypeMismatch(bean, run((bean, Consume01())));
    EscapingErrorVotesFalse(holders, (bean, Consume01()), Message(Num(5), map["senderId" := Str("s")]), run);
  }

  /**
   * An ALWAYS holder does not veto: a holder that binds and whose handler returns
   * normally under NO_REDRIVE or ON_SUCCESS removes the message beside it.
   */
  lemma AlwaysDoesNotVetoSuccess(holders: map<ListenerKey, ConsumeMethodHolder>, a: ListenerKey, b: ListenerKey,
                                 taken: Message, run: ListenerKey -> HandlerRun)
    requires a in holders && holders[a].deletionPolicy == Always
    requires b in holders && holders[b].deletionPolicy in {NoRedrive, OnSuccess} && !run(b).threw
    requires InvocationParameters(holders[b], taken).Ok? && |InvocationParameters(holders[b], taken).value| > 0
    requires ArgumentsFit(holders[b].handlerMethod.parameters, InvocationParameters(holders[b], taken).value)
    ensures AnyRemoves(holders, taken, run)
  {
    VerdictByPolicy(holders[b], taken, run(b));
    assert HandledVerdict(holders[b], taken, run(b));
  }

  /**
   * A handler that changes the visibility of the message it was given, under the
   * message's id, and then does not remove it delays the retry by that timeout; the
   * override is spent by the re-send.
   */
  lemma RetryUsesChangeMadeDuringTurn(rest: seq<DelayedItem>, handles: map<string, Int32>,
                                      visibilityChanges: map<string, Int32>, taken: Message, now: int)
    requires IdKey(taken) in visibilityChanges
    ensures var written := handles + visibilityChanges;
            SendSpec(rest, written, taken, now)
              == (rest + [NewDelayedItem(taken, (visibilityChanges[IdKey(taken)] as int) * 1000, now)],
                  written - {IdKey(taken)})
  {
  }

  class SqsManager {
    const sqsInstance: SqsInstance
    const client: InMemoryAwsSqsClient
    /** Whether the manager was built with a consumer thread. */
    const createConsumer: bool
    /** The consumer thread has been started. */
    var started: bool
    /** The consumer thread has been interrupted. */
    var interrupted: bool
    var hookedConsumers: map<ListenerKey, ConsumeMethodHolder>

    /** Every holder is stored under its own bean and method. */
    ghost predicate Valid()
      reads this
    {
      forall k | k in hookedConsumers :: (hookedConsumers[k].bean, hookedConsumers[k].handlerMethod) == k
    }

    constructor (sqsInstance: SqsInstance, createConsumer: bool, client: InMemoryAwsSqsClient)
      ensures this.sqsInstance == sqsInstance && this.client == client && this.createConsumer == createConsumer
      ensures hookedConsumers == map[] && !started && !interrupted
      ensures Valid()
    {
      this.sqsInstance := sqsInstance;
      this.client := client;
      this.createConsumer := createConsumer;
      hookedConsumers := map[];
      started := false;
      interrupted := false;
    }

    /** receive(): exactly the mailbox's poll. */
    method Receive(now: int) returns (r: Option<Message>)
      modifies sqsInstance
      ensures (r, sqsInstance.internalQueue) == PollSpec(old(sqsInstance.internalQueue), now)
    {
      r := sqsInstance.Poll(now);
    }

    /** start(): starts the consumer thread, if there is one. */
    method Start()
      modifies this`started
      ensures started == (old(started) || createConsumer)
    {
      if createConsumer {
        started := true;
      }
    }

    /** stop(): interrupts the consumer thread, if there is one. */
    method Stop()
      modifies this`interrupted
      ensures interrupted == (old(interrupted) || createConsumer)
    {
      if createConsumer {
        interrupted := true;
      }
    }

    /** addListener: put-if-absent; a second registration keeps the first holder and its policy. */
    method AddListener(bean: Bean, handlerMethod: HandlerMethod, deletionPolicy: DeletionPolicy)
      requires Valid()
      modifies this`hookedConsumers
      ensures Valid()
      ensures hookedConsumers == WithListener(old(hookedConsumers), bean, handlerMethod, deletionPolicy)
    {
      var key := (bean, handlerMethod);
      if key !in hookedConsumers {
        hookedConsumers := hookedConsumers[key := ConsumeMethodHolder(bean, handlerMethod, deletionPolicy)];
      }
    }

    /** removeListener: removes that registration only; an unknown one is ignored. */
    method RemoveListener(bean: Bean, handlerMethod: HandlerMethod)
      requires Valid()
      modifies this`hookedConsumers
      ensures Valid()
      ensures hookedConsumers == old(hookedConsumers) - {(bean, handlerMethod)}
    {
      hookedConsumers := hookedConsumers - {(bean, handlerMethod)};
    }

    /** send(message): resolves the delay (override, then delay header, then none) and adds the message. */
    method Send(message: Message, now: int)
      modifies sqsInstance, client
      ensures (sqsInstance.internalQueue, client.handles) ==
                SendSpec(old(sqsInstance.internalQueue), old(client.handles), message, now)
    {
      var key := IdKey(message);
      var value := client.GetHandle(key);
      if value.Some? {
        client.handles := client.handles - {key};
        var _ := sqsInstance.AddWithDelay(message, (value.value as int) * 1000, now);
      } else {
        var delayValue := if DelayHeader in message.headers then message.headers[DelayHeader] else Null;
        if delayValue.Num? {
          var _ := sqsInstance.AddWithDelay(message, delayValue.n * 1000, now);
        } else {
          var _ := sqsInstance.Add(message, now);
        }
      }
    }

    /** handledConsume: invokes the holder; an exception escaping invoke counts as false. */
    method HandledConsume(holder: ConsumeMethodHolder, taken: Message, run: HandlerRun) returns (removed: bool)
      ensures removed == HandledVerdict(holder, taken, run)
    {
      var r := Invoke(holder, taken, run);
      removed := if r.Ok? then r.value else false;
    }

    /**
     * One turn of the consumer loop: take a due message, offer it to every holder
     * (none is skipped), OR their verdicts, and send the message again if none removed it.
     * `run` says what each handler does with it; `visibilityChanges` is what the handlers'
     * changeMessageVisibility calls leave in the override table during the turn, which the
     * re-send then reads.
     */
    method ConsumeStep(now: int, run: ListenerKey -> HandlerRun, visibilityChanges: map<string, Int32>)
      returns (taken: Message, invoked: seq<ListenerKey>, removed: bool)
      requires createConsumer && started && !interrupted
      requires HasDue(sqsInstance.internalQueue, now)
      modifies sqsInstance, client
      ensures PollSpec(old(sqsInstance.internalQueue), now).0 == Some(taken)
      ensures |invoked| == |hookedConsumers.Keys| && forall k :: k in invoked <==> k in hookedConsumers
      ensures removed <==> AnyRemoves(hookedConsumers, taken, run)
      ensures var rest := PollSpec(old(sqsInstance.internalQueue), now).1;
              var written := old(client.handles) + visibilityChanges;
              if removed then sqsInstance.internalQueue == rest && client.handles == written
              else (sqsInstance.internalQueue, client.handles) == SendSpec(rest, written, taken, now)
    {
      taken := sqsInstance.Take(now);
      var pending := hookedConsumers.Keys;
      invoked := [];
      removed := false;
      while pending != {}
        invariant pending <= hookedConsumers.Keys
        invariant forall k :: k in invoked <==> k in hookedConsumers.Keys - pending
        invariant |invoked| + |pending| == |hookedConsumers.Keys|
        invariant removed <==> exists k :: k in invoked && HandledVerdict(hookedConsumers[k], taken, run(k))
        invariant (Some(taken), sqsInstance.internalQueue) == PollSpec(old(sqsInstance.internalQueue), now)
        invariant client.handles == old(client.handles)
        decreases |pending|
      {
        var k :| k in pending;
        var verdict := HandledConsume(hookedConsumers[k], taken, run(k));
        removed := removed || verdict;
        invoked := invoked + [k];
        pending := pending - {k};
      }
      // the handlers' changeMessageVisibility calls during the turn
      client.handles := client.handles + visibilityChanges;
      if !removed {
        Send(taken, now);
      }
    }
  }
}

# In-memory SQS stand-in: a Dafny model of the queue engine

This project models the queue engine of spring-cloud-aws-messaging-in-memory. That library stands in for Amazon SQS inside one JVM, so that `@SqsListener` handlers can be exercised without a broker. The model has six parts:

- **Mailbox** (`SqsInstance`). Each queue has a delay queue of messages stamped with a ready time (`now + max(0, delay)` in milliseconds). `poll` hands out the earliest entry once it is due. `take` is the blocking form of `poll`. The comparator clamps the difference of ready times to Java's `int` range.
- **Client** (`InMemoryAwsSqsClient`). Its visibility-override table maps a receipt handle to a timeout in seconds. `changeMessageVisibility` writes the table and `getHandle` reads it.
- **Handler binding** (`ConsumeMethodHolder`). A message is bound to a handler's declared parameters, in declaration order and by a fixed priority of kinds:
  1. the message;
  2. an `@Headers` map;
  3. the header accessor;
  4. the acknowledgment;
  5. `@Payload`;
  6. `@Header`.

  Any other kind is unsupported and throws out of `invoke`. The handler is called only if every parameter binds. `Method.invoke` then rejects, with an exception that also escapes `invoke`, a payload or header value that is not null and not an instance of its parameter's declared class. Otherwise the handler runs; the two exceptions `invoke` catches (the body threw, or the method is not accessible) make the run `errored`. The deletion policy then turns the run into a verdict. The model reads `invoke`'s boolean as its only caller does: true means the message is removed. It does not follow the method's doc comment, which says true means requeue. Under this reading ALWAYS never removes, and a handler that does not match (or has no parameters) counts as removing.
- **Manager** (`SqsManager`). This is one queue's manager:
  - the listener table keyed by (bean, method), with put-if-absent and remove;
  - the delay resolution of `send`: an override for the message's id wins and is spent, then a numeric `delay` header in seconds, then no delay;
  - one turn of the consumer loop. Every holder is offered the taken message and their verdicts are OR-ed. If none removes the message, it is sent back into the same mailbox.
- **Registry** (`InMemoryQueueMessagingTemplate`). It maps queue names to managers and starts with `__DEFAULT__`:
  - `register` creates missing managers with a started consumer;
  - `send(name)` creates missing managers without one;
  - `register` on a queue that `send` created keeps that consumer-less manager;
  - `receive` of an unknown name is an error;
  - `convertAndSend` builds headers with a fresh id under both `id` and `ReceiptHandle` (Spring's `GenericMessage` then replaces the `id`; the model sends the message with the template's id kept, as recorded under Findings);
  - `convert` checks the payload's class;
  - `destroy` empties the registry and stops the old managers.
- **Listener post-processor** (`SqsListenerBeanPostProcessor`). For register, annotation values are resolved, nulls are dropped, and each value is split on commas (Java's `split`, including the dropping of trailing empty pieces) and trimmed (Java's `trim`, which strips every character up to U+0020). For unregister, each resolved value is passed through as it is.

The environment enters the model as parameters:
- the wall clock is `now`;
- `UUID.randomUUID()` is `freshId`, and the UUID Spring generates for a new message is `generatedId`;
- the embedded value resolver is `resolve`;
- what the reflective call does once the arguments fit is `HandlerRun(threw, acknowledges)`;
- in a consume turn, each holder's run is `run(key)`, and what the handlers' `changeMessageVisibility` calls leave in the override table is `visibilityChanges`.

Reflection is replaced by descriptors for parameters, methods and beans (module `Reflection`). The post-processor returns the template calls it makes as a sequence of `TemplateCall` records.

Where the system's design description and its code differ, the model follows the code:
- The deletion policies are the listener library's ALWAYS, NEVER, NO_REDRIVE and ON_SUCCESS; the description's ON_FAILURE_REDRIVE does not occur in the code.
- The description has a scenario in which an ALWAYS holder forces redelivery even though another holder succeeded. The code ORs the verdicts, so a succeeding NO_REDRIVE or ON_SUCCESS holder removes the message anyway (`Managers.AlwaysDoesNotVetoSuccess`).

Files: `wrappers.dfy`, `messages.dfy`, `reflection.dfy` (shared types); `sqs_instance.dfy` (module `Mailbox`); `sqs_client.dfy` (`AwsSqsClient`); `consume_method_holder.dfy` (`ConsumeMethods`); `sqs_manager.dfy` (`Managers`); `messaging_template.dfy` (`Templates`); `listener_post_processor.dfy` (`ListenerProcessing`).

## Model

| member | source | states |
|---|---|---|
| Messages.IdKey | src/main/java/io/github/javiercanillas/amazonws/services/sqs/SqsManager.java:99 | the override key is `Objects.toString` of a non-null id header (for the UUID ids Spring messages carry, the UUID's text), and the empty string when the id is absent or null |
| Mailbox.NewDelayedItem | src/main/java/io/github/javiercanillas/amazonws/services/sqs/SqsInstance.java:45-49 | the item keeps its message and is ready at `now + max(0, delay)`, never before `now`; the "seconds" parameter is used as milliseconds |
| Mailbox.NegativeDelayIsNoDelay | src/main/java/io/github/javiercanillas/amazonws/services/sqs/SqsInstance.java:48 | a negative delay stamps exactly as a zero delay |
| Mailbox.DueExactlyAfterDelay | src/main/java/io/github/javiercanillas/amazonws/services/sqs/SqsInstance.java:48-53 | an item stamped at t with delay d is due (getDelay ≤ 0) exactly from t + max(0, d) on |
| Mailbox.CompareTo | src/main/java/io/github/javiercanillas/amazonws/services/sqs/SqsInstance.java:56-64 | the result lies in the int range, has the sign of the ready-time difference, equals the difference whenever that fits, and is exactly 2147483647 or -2147483648 when the difference is above or below that range |
| Mailbox.CompareToAntisymmetric | src/main/java/io/github/javiercanillas/amazonws/services/sqs/SqsInstance.java:56-64 | sign(compare(a, b)) = −sign(compare(b, a)) |
| Mailbox.CompareToTransitive | src/main/java/io/github/javiercanillas/amazonws/services/sqs/SqsInstance.java:56-64 | the comparator's order is transitive, strictly so when one step is strict |
| Mailbox.Earliest | src/main/java/io/github/javiercanillas/amazonws/services/sqs/SqsInstance.java:35-36 | the head of the delay queue has a minimal ready time; every entry before it is strictly later |
| Mailbox.RemoveAt | src/main/java/io/github/javiercanillas/amazonws/services/sqs/SqsInstance.java:36 | removing the head keeps every other entry, in order, and the multiset loses exactly that entry |
| Mailbox.PollNoneIffNothingDue | src/main/java/io/github/javiercanillas/amazonws/services/sqs/SqsInstance.java:34-38 | poll answers null exactly when no entry is due, and then the mailbox is unchanged |
| Mailbox.PollTakesEarliestDue | src/main/java/io/github/javiercanillas/amazonws/services/sqs/SqsInstance.java:34-38 | when something is due, poll returns the message of a due entry with minimal ready time and removes that entry alone |
| Mailbox.SqsInstance.constructor | src/main/java/io/github/javiercanillas/amazonws/services/sqs/SqsInstance.java:15-17 | a new mailbox is empty |
| Mailbox.SqsInstance.AddWithDelay | src/main/java/io/github/javiercanillas/amazonws/services/sqs/SqsInstance.java:24-27 | answers true and appends exactly one stamped entry; the old entries are unchanged |
| Mailbox.SqsInstance.Add | src/main/java/io/github/javiercanillas/amazonws/services/sqs/SqsInstance.java:19-22 | add(m) is add(m, 0) |
| Mailbox.SqsInstance.Poll | src/main/java/io/github/javiercanillas/amazonws/services/sqs/SqsInstance.java:34-38 | the answer and the new mailbox are those of `PollSpec`, whose properties are the two lemmas above |
| Mailbox.SqsInstance.Take | src/main/java/io/github/javiercanillas/amazonws/services/sqs/SqsInstance.java:29-32 | at a moment when an entry is due, take returns what poll would, and never null |
| Mailbox.DelayedMessageTakenAfterBoth | src/test/java/io/github/javiercanillas/amazonws/services/sqs/SqsInstanceTest.java:28-37 | a message added with a 1000 ms delay before two undelayed ones comes out third, after both, in their order |
| AwsSqsClient.InMemoryAwsSqsClient.constructor | src/main/java/io/github/javiercanillas/amazonws/services/sqs/InMemoryAwsSqsClient.java:29-31 | a new client has no overrides |
| AwsSqsClient.InMemoryAwsSqsClient.ChangeMessageVisibility | src/main/java/io/github/javiercanillas/amazonws/services/sqs/InMemoryAwsSqsClient.java:41-45 | records the timeout under the receipt handle, replacing an earlier one; nothing else changes |
| AwsSqsClient.InMemoryAwsSqsClient.GetHandle | src/main/java/io/github/javiercanillas/amazonws/services/sqs/InMemoryAwsSqsClient.java:54-56 | answers the recorded timeout, or null exactly when the key is absent; the table is not changed |
| AwsSqsClient.ChangeThenGet | src/main/java/io/github/javiercanillas/amazonws/services/sqs/InMemoryAwsSqsClient.java:41-45 | after a change for h, h maps to the new timeout; the table grows only when h is new; other handles are untouched |
| ConsumeMethods.InnerAcknowledgment.constructor | src/main/java/io/github/javiercanillas/amazonws/services/sqs/ConsumeMethodHolder.java:115-117 | the flag starts false |
| ConsumeMethods.InnerAcknowledgment.Acknowledge | src/main/java/io/github/javiercanillas/amazonws/services/sqs/ConsumeMethodHolder.java:119-125 | after acknowledge() the flag is true, and the future returned is already complete |
| ConsumeMethods.BindHeader | src/main/java/io/github/javiercanillas/amazonws/services/sqs/ConsumeMethodHolder.java:97-107 | the header under the name, else under the value, else null if optional; no match exactly when both keys are missing and the header is required |
| ConsumeMethods.BindAll | src/main/java/io/github/javiercanillas/amazonws/services/sqs/ConsumeMethodHolder.java:66-80 | a successful binding has one argument per parameter, each the one its parameter binds |
| ConsumeMethods.BindAllSucceedsIffAllBind | src/main/java/io/github/javiercanillas/amazonws/services/sqs/ConsumeMethodHolder.java:66-80 | binding yields an argument list exactly when every parameter binds |
| ConsumeMethods.BindAllExactly | src/main/java/io/github/javiercanillas/amazonws/services/sqs/ConsumeMethodHolder.java:66-80 | when every parameter binds, the list is exactly their arguments in declaration order |
| ConsumeMethods.BindAllStopsAtFirstFailure | src/main/java/io/github/javiercanillas/amazonws/services/sqs/ConsumeMethodHolder.java:69-74 | at the first parameter that does not bind, an unsupported kind escapes as the error and a missing header means no match, whatever follows |
| ConsumeMethods.CompleteInvocationParameters | src/main/java/io/github/javiercanillas/amazonws/services/sqs/ConsumeMethodHolder.java:66-80 | the loop with break produces `InvocationParameters`: the arguments, the empty list on no match, or the escaping error |
| ConsumeMethods.Invoke | src/main/java/io/github/javiercanillas/amazonws/services/sqs/ConsumeMethodHolder.java:40-64 | the method's answer is `InvokeOutcome`: the binding error, true without arguments, the argument-type error of the reflective call, or the policy's verdict; its cases are the lemmas below |
| ConsumeMethods.NoParameterHandlerDeletes | src/main/java/io/github/javiercanillas/amazonws/services/sqs/ConsumeMethodHolder.java:45-63 | a handler with no parameters gets the empty list, is not run, and the answer is true |
| ConsumeMethods.MissingRequiredHeaderDeletes | src/main/java/io/github/javiercanillas/amazonws/services/sqs/ConsumeMethodHolder.java:99-106 | a missing required header, with everything before it bound, means no run and the answer true under every policy |
| ConsumeMethods.FirstNonBinding | src/main/java/io/github/javiercanillas/amazonws/services/sqs/ConsumeMethodHolder.java:69-74 | if some parameter fails to bind, there is a first one, and all before it bind |
| ConsumeMethods.HandlerErrorsNeverEscape | src/main/java/io/github/javiercanillas/amazonws/services/sqs/ConsumeMethodHolder.java:45-52 | invoke fails exactly when binding meets an unsupported parameter (the first that does not bind, all before it bound) or when the bound arguments do not fit the parameters (some argument does not fit its parameter); what the handler body does never escapes |
| ConsumeMethods.VerdictByPolicy | src/main/java/io/github/javiercanillas/amazonws/services/sqs/ConsumeMethodHolder.java:54-60 | after a call with fitting arguments: ALWAYS gives false, NEVER gives whether the handler acknowledged its argument, NO_REDRIVE and ON_SUCCESS give !threw |
| ConsumeMethods.BindingPriority | src/main/java/io/github/javiercanillas/amazonws/services/sqs/ConsumeMethodHolder.java:87-110 | the kinds are tried in order: a Message parameter always binds the message; an Object parameter binds the headers map or the accessor; @Payload wins over @Header; anything else is unsupported |
| ConsumeMethods.InvokeNotMatchingArguments | src/test/java/io/github/javiercanillas/amazonws/services/sqs/ConsumeMethodHolderTest.java:42-49 | without the required senderId header, consume01 does not match and invoke answers true |
| ConsumeMethods.InvokeMatchingArguments | src/test/java/io/github/javiercanillas/amazonws/services/sqs/ConsumeMethodHolderTest.java:51-66 | with senderId present, consume01 gets message, payload, headers, senderId, null for optional and the acknowledgment; it answers true when payload and senderId are strings or null, and otherwise the argument-type error escapes |
| ConsumeMethods.Consume01Binds | src/main/java/io/github/javiercanillas/amazonws/services/sqs/ConsumeMethodHolder.java:66-80 | with senderId present, consume01's arguments are exactly message, payload, headers, senderId, optional or null, acknowledgment |
| ConsumeMethods.Consume01Fits | src/main/java/io/github/javiercanillas/amazonws/services/sqs/ConsumeMethodHolder.java:48 | the reflective call accepts consume01's arguments exactly when payload, senderId and optional are strings or null |
| ConsumeMethods.InvokeArgumentTypeMismatch | src/main/java/io/github/javiercanillas/amazonws/services/sqs/ConsumeMethodHolder.java:47-52 | consume01 offered a numeric payload binds, but the call throws the argument-type error, which invoke does not catch |
| ConsumeMethods.InvokeNeverWithAndWithoutAcknowledge | src/test/java/io/github/javiercanillas/amazonws/services/sqs/ConsumeMethodHolderTest.java:76-113 | under NEVER, consume01 with string values answers true when it acknowledges and false when it does not |
| ConsumeMethods.InvokeThrowingException | src/test/java/io/github/javiercanillas/amazonws/services/sqs/ConsumeMethodHolderTest.java:68-74 | a handler with a Pair parameter makes invoke throw NotImplementedException |
| Managers.SendAppendsOne | src/main/java/io/github/javiercanillas/amazonws/services/sqs/SqsManager.java:97-112 | send adds exactly one entry, for the message, after the existing ones |
| Managers.SendOverrideWins | src/main/java/io/github/javiercanillas/amazonws/services/sqs/SqsManager.java:99-103 | with an override for the id, the delay is its seconds × 1000 ms whatever the delay header says, that override is removed and the others stay |
| Managers.SendUsesDelayHeader | src/main/java/io/github/javiercanillas/amazonws/services/sqs/SqsManager.java:104-107 | without an override, a numeric delay header gives header × 1000 ms and the table is unchanged |
| Managers.SendWithoutDelay | src/main/java/io/github/javiercanillas/amazonws/services/sqs/SqsManager.java:108-110 | without an override or a numeric delay header, the message is added as by add(message); the table is unchanged |
| Managers.SendWithoutIdUsesEmptyKey | src/main/java/io/github/javiercanillas/amazonws/services/sqs/SqsManager.java:99 | a message without an id spends the override stored under "" |
| Managers.OverrideAppliesOnce | src/main/java/io/github/javiercanillas/amazonws/services/sqs/SqsManager.java:100-103 | after a send that spends an override, sending the message again ignores it |
| Managers.ReRegistrationKeepsFirst | src/main/java/io/github/javiercanillas/amazonws/services/sqs/SqsManager.java:83-89 | a second addListener for the same bean and method changes nothing: the first policy stays and the table grows by one in all |
| Managers.AddListenerKeepsOthers | src/main/java/io/github/javiercanillas/amazonws/services/sqs/SqsManager.java:88 | addListener leaves every other registration as it was |
| Managers.RemoveUndoesAdd | src/main/java/io/github/javiercanillas/amazonws/services/sqs/SqsManager.java:91-95 | removing a registration that was just added as new gives the old table back |
| Managers.RemoveUnknownIsNoOp | src/main/java/io/github/javiercanillas/amazonws/services/sqs/SqsManager.java:94 | removing an unknown registration changes nothing |
| Managers.NoHoldersKeepsMessage | src/main/java/io/github/javiercanillas/amazonws/services/sqs/SqsManager.java:47-50 | with no holders the OR-reduction is false, so the message is kept |
| Managers.EscapingErrorVotesFalse | src/main/java/io/github/javiercanillas/amazonws/services/sqs/SqsManager.java:61-68 | a holder whose invoke throws (unsupported parameter or unfitting argument) votes false, and the outcome is that of the other holders |
| Managers.NonMatchingHolderRemoves | src/main/java/io/github/javiercanillas/amazonws/services/sqs/SqsManager.java:47-50 | one holder that does not match (or has no parameters) removes the message, whatever the others decide |
| Managers.KeepsMessageIffVerdictFalse | src/main/java/io/github/javiercanillas/amazonws/services/sqs/SqsManager.java:61-68 | a holder votes false exactly when its invoke throws, or its handler was called and the policy is ALWAYS, NEVER without an acknowledgment, or NO_REDRIVE or ON_SUCCESS with a throwing run |
| Managers.RedeliverIffEveryHolderKeeps | src/main/java/io/github/javiercanillas/amazonws/services/sqs/SqsManager.java:47-53 | no holder removes the message, so it is sent again, exactly when every holder keeps it in one of those ways |
| Managers.MismatchedPayloadRedelivers | src/main/java/io/github/javiercanillas/amazonws/services/sqs/SqsManager.java:47-53 | consume01 alone, offered a numeric payload, does not remove the message |
| Managers.AlwaysDoesNotVetoSuccess | src/main/java/io/github/javiercanillas/amazonws/services/sqs/SqsManager.java:47-50 | an ALWAYS holder does not prevent removal by a NO_REDRIVE or ON_SUCCESS holder called with fitting arguments whose run did not throw |
| Managers.SqsManager.constructor | src/main/java/io/github/javiercanillas/amazonws/services/sqs/SqsManager.java:26-36 | keeps the mailbox, the client and the consumer choice; no listeners; not started; not interrupted |
| Managers.SqsManager.Receive | src/main/java/io/github/javiercanillas/amazonws/services/sqs/SqsManager.java:38-41 | exactly the mailbox's poll |
| Managers.SqsManager.Start | src/main/java/io/github/javiercanillas/amazonws/services/sqs/SqsManager.java:70-74 | the consumer is started only if the manager has one |
| Managers.SqsManager.Stop | src/main/java/io/github/javiercanillas/amazonws/services/sqs/SqsManager.java:76-81 | the consumer is interrupted only if the manager has one |
| Managers.SqsManager.AddListener | src/main/java/io/github/javiercanillas/amazonws/services/sqs/SqsManager.java:83-89 | the listener table becomes the put-if-absent of a new holder, and every holder stays under its own key |
| Managers.SqsManager.RemoveListener | src/main/java/io/github/javiercanillas/amazonws/services/sqs/SqsManager.java:91-95 | the listener table loses exactly the (bean, method) key |
| Managers.SqsManager.Send | src/main/java/io/github/javiercanillas/amazonws/services/sqs/SqsManager.java:97-112 | the new mailbox and override table are `SendSpec`'s, whose cases are the Send lemmas above |
| Managers.SqsManager.HandledConsume | src/main/java/io/github/javiercanillas/amazonws/services/sqs/SqsManager.java:61-68 | the holder's verdict, with an exception escaping invoke read as false |
| Managers.SqsManager.ConsumeStep | src/main/java/io/github/javiercanillas/amazonws/services/sqs/SqsManager.java:43-59 | takes the due head, offers it to every holder exactly once, and removes it iff some holder votes to; the override table then holds the handlers' visibility changes; if not removed the message is sent back, through the override table as the handlers left it and the delay header, into the same mailbox |
| Managers.RetryUsesChangeMadeDuringTurn | src/main/java/io/github/javiercanillas/amazonws/services/sqs/SqsManager.java:51-53 | a visibility change a handler makes during the turn under the message's id delays the retry by its seconds and is spent |
| Templates.ConvertAndSendHeaders | src/main/java/io/github/javiercanillas/amazonws/services/sqs/InMemoryQueueMessagingTemplate.java:126-133 | the caller's headers, copied, with id and ReceiptHandle both set to the fresh id, overriding the caller's values; no other key appears |
| Templates.Convert | src/main/java/io/github/javiercanillas/amazonws/services/sqs/InMemoryQueueMessagingTemplate.java:204-218 | null exactly for a null message or payload; the payload iff it is an instance of the target class; otherwise the cannot-convert error naming the payload's class |
| Templates.ConvertToOwnClass | src/main/java/io/github/javiercanillas/amazonws/services/sqs/InMemoryQueueMessagingTemplate.java:204-218 | a non-null payload converts to its own class and to Object |
| Templates.GenericMessageOf | src/main/java/io/github/javiercanillas/amazonws/services/sqs/InMemoryQueueMessagingTemplate.java:133 | the message keeps the payload and every header but id, and its id is the generated UUID, so its override key is that UUID |
| Templates.ConvertAndSendMessage | src/main/java/io/github/javiercanillas/amazonws/services/sqs/InMemoryQueueMessagingTemplate.java:124-133 | the message convertAndSend is meant to send: its id is the UUID the template drew, so its override key and its ReceiptHandle are the same fresh id |
| Templates.VisibilityChangeMissesConvertAndSend | src/main/java/io/github/javiercanillas/amazonws/services/sqs/InMemoryQueueMessagingTemplate.java:124-135 | as written (with Spring's generated id): the ReceiptHandle is not the override key, so a visibility change for it does not delay the message and stays in the table |
| Templates.VisibilityChangeDelaysConvertAndSend | src/main/java/io/github/javiercanillas/amazonws/services/sqs/InMemoryQueueMessagingTemplate.java:124-135 | with the id kept as the template sets it (the corrected message, not the program's): a visibility change for the ReceiptHandle delays the next send by its seconds, and the override is spent |
| Templates.InMemoryQueueMessagingTemplate.constructor | src/main/java/io/github/javiercanillas/amazonws/services/sqs/InMemoryQueueMessagingTemplate.java:31-37 | the registry holds exactly __DEFAULT__, on a new manager without a consumer, with an empty mailbox and no listeners |
| Templates.InMemoryQueueMessagingTemplate.RegisterOne | src/main/java/io/github/javiercanillas/amazonws/services/sqs/InMemoryQueueMessagingTemplate.java:53-61 | one turn of register's loop: the named queue gets the listener, on its existing manager or on a new started consuming one; other queues are untouched |
| Templates.InMemoryQueueMessagingTemplate.Register | src/main/java/io/github/javiercanillas/amazonws/services/sqs/InMemoryQueueMessagingTemplate.java:46-63 | answers true. Every named queue ends with a manager holding the listener. Existing managers are kept as they were (a consumer-less one too), with put-if-absent on their tables. Only missing queues get new started consuming managers. Unnamed queues are untouched |
| Templates.InMemoryQueueMessagingTemplate.Unregister | src/main/java/io/github/javiercanillas/amazonws/services/sqs/InMemoryQueueMessagingTemplate.java:65-76 | answers true; the registry is unchanged (no manager is created); the named existing queues lose the registration and the others keep theirs |
| Templates.InMemoryQueueMessagingTemplate.Receive | src/main/java/io/github/javiercanillas/amazonws/services/sqs/InMemoryQueueMessagingTemplate.java:83-91 | for an unknown name the resource-not-found error and no change; otherwise that queue's poll |
| Templates.InMemoryQueueMessagingTemplate.ReceiveDefault | src/main/java/io/github/javiercanillas/amazonws/services/sqs/InMemoryQueueMessagingTemplate.java:78-81 | the default queue's poll, or the null-pointer failure once no default queue is left |
| Templates.InMemoryQueueMessagingTemplate.ReceiveAndConvert | src/main/java/io/github/javiercanillas/amazonws/services/sqs/InMemoryQueueMessagingTemplate.java:103-106 | receive(name), then convert of what was polled |
| Templates.InMemoryQueueMessagingTemplate.ReceiveAndConvertDefault | src/main/java/io/github/javiercanillas/amazonws/services/sqs/InMemoryQueueMessagingTemplate.java:98-101 | receive(), then convert of what was polled |
| Templates.InMemoryQueueMessagingTemplate.Send | src/main/java/io/github/javiercanillas/amazonws/services/sqs/InMemoryQueueMessagingTemplate.java:189-197 | a missing queue is created with a new manager without a consumer; existing managers are kept; then `SendSpec` applies to that queue |
| Templates.InMemoryQueueMessagingTemplate.SendDefault | src/main/java/io/github/javiercanillas/amazonws/services/sqs/InMemoryQueueMessagingTemplate.java:184-187 | the default queue's send, or the null-pointer failure once no default queue is left |
| Templates.InMemoryQueueMessagingTemplate.ConvertAndSendWithHeaders | src/main/java/io/github/javiercanillas/amazonws/services/sqs/InMemoryQueueMessagingTemplate.java:123-136 | send(name) of `ConvertAndSendMessage`, the corrected message that keeps the template's id (see Findings) |
| Templates.InMemoryQueueMessagingTemplate.ConvertAndSend | src/main/java/io/github/javiercanillas/amazonws/services/sqs/InMemoryQueueMessagingTemplate.java:118-121 | the same with null headers |
| Templates.InMemoryQueueMessagingTemplate.ConvertAndSendDefault | src/main/java/io/github/javiercanillas/amazonws/services/sqs/InMemoryQueueMessagingTemplate.java:113-116 | send() of `GenericMessageOf` the payload and no headers: its only header is the generated id |
| Templates.InMemoryQueueMessagingTemplate.Destroy | src/main/java/io/github/javiercanillas/amazonws/services/sqs/InMemoryQueueMessagingTemplate.java:39-44 | the registry is empty and every manager that was in it is stopped; nothing else about them changes |
| Templates.SendThenRegister | src/main/java/io/github/javiercanillas/amazonws/services/sqs/InMemoryQueueMessagingTemplate.java:53-60 | a queue created by send keeps its consumer-less, unstarted manager when a listener is registered on it, and the listener is held there |
| Templates.ConvertAndSendThenReceive | src/test/java/io/github/javiercanillas/amazonws/services/sqs/LocalQueueMessagingTemplateTest.java:137-138 | convertAndSend then receiveAndConvert to the payload's class gives the payload back |
| Templates.ReceiveAfterConvertAndSend | src/test/java/io/github/javiercanillas/amazonws/services/sqs/LocalQueueMessagingTemplateTest.java:137-138 | on an empty queue, the message built by convertAndSend carries no delay, so a poll at the same moment returns it and leaves the queue empty |
| Templates.ReceiveUnknownQueue | src/test/java/io/github/javiercanillas/amazonws/services/sqs/LocalQueueMessagingTemplateTest.java:68-71 | receive of an unknown name on a new template is the resource-not-found error |
| ListenerProcessing.TrimStart | src/main/java/io/github/javiercanillas/amazonws/services/sqs/SqsListenerBeanPostProcessor.java:62 | a suffix of s; what it drops is all ≤ U+0020; it does not start with such a character |
| ListenerProcessing.TrimEnd | src/main/java/io/github/javiercanillas/amazonws/services/sqs/SqsListenerBeanPostProcessor.java:62 | a prefix of s; what it drops is all ≤ U+0020; it does not end with such a character |
| ListenerProcessing.TrimKeepsTheMiddle | src/main/java/io/github/javiercanillas/amazonws/services/sqs/SqsListenerBeanPostProcessor.java:62 | trim is a middle slice of s, and what it cuts off at both ends is all ≤ U+0020 |
| ListenerProcessing.TrimmedEnds | src/main/java/io/github/javiercanillas/amazonws/services/sqs/SqsListenerBeanPostProcessor.java:62 | a non-empty trim result neither starts nor ends with a character ≤ U+0020 |
| ListenerProcessing.TrimIdempotent | src/main/java/io/github/javiercanillas/amazonws/services/sqs/SqsListenerBeanPostProcessor.java:62 | trimming twice is trimming once |
| ListenerProcessing.SplitAll | src/main/java/io/github/javiercanillas/amazonws/services/sqs/SqsListenerBeanPostProcessor.java:60 | at least one piece, none with a comma, and joining them with commas gives s back |
| ListenerProcessing.SplitJoin | src/main/java/io/github/javiercanillas/amazonws/services/sqs/SqsListenerBeanPostProcessor.java:60 | splitting comma-free pieces joined by commas gives the pieces back |
| ListenerProcessing.SplitAtFirstPiece | src/main/java/io/github/javiercanillas/amazonws/services/sqs/SqsListenerBeanPostProcessor.java:60 | splitting a comma-free prefix, a comma and the rest gives the prefix, then the rest's pieces |
| ListenerProcessing.DropTrailingEmpty | src/main/java/io/github/javiercanillas/amazonws/services/sqs/SqsListenerBeanPostProcessor.java:60 | a prefix of the pieces that does not end in "", with only "" cut off |
| ListenerProcessing.JavaSplitCommaPieces | src/main/java/io/github/javiercanillas/amazonws/services/sqs/SqsListenerBeanPostProcessor.java:60 | split(",") gives comma-free pieces that, with the dropped empty pieces, join back to the value |
| ListenerProcessing.RegisterQueueNamesMembers | src/main/java/io/github/javiercanillas/amazonws/services/sqs/SqsListenerBeanPostProcessor.java:54-65 | a name reaches register iff it is a trimmed split piece of some annotation value whose resolution is not null |
| ListenerProcessing.UnregisterQueueNames | src/main/java/io/github/javiercanillas/amazonws/services/sqs/SqsListenerBeanPostProcessor.java:46-52 | unregister gets exactly the set of the resolved values, nulls included, unsplit and untrimmed |
| ListenerProcessing.NullResolutionsSkippedOnRegister | src/main/java/io/github/javiercanillas/amazonws/services/sqs/SqsListenerBeanPostProcessor.java:57-59 | values that all resolve to null give register no name, and give unregister just null |
| ListenerProcessing.PieceNamesOfTwo | src/main/java/io/github/javiercanillas/amazonws/services/sqs/SqsListenerBeanPostProcessor.java:60-62 | a value x,y with comma-free x and non-empty y names exactly trim(x) and trim(y) |
| ListenerProcessing.RegisterAndUnregisterDisagree | src/main/java/io/github/javiercanillas/amazonws/services/sqs/SqsListenerBeanPostProcessor.java:46-65 | a value with one comma registers its two trimmed pieces but unregisters the whole value |
| ListenerProcessing.CallFor | src/main/java/io/github/javiercanillas/amazonws/services/sqs/SqsListenerBeanPostProcessor.java:46-65 | after initialization a register call with the normalised names and the annotation's policy; before destruction an unregister call with the raw values; both name the bean and the method |
| ListenerProcessing.Annotated | src/main/java/io/github/javiercanillas/amazonws/services/sqs/SqsListenerBeanPostProcessor.java:75-76 | keeps exactly the declared methods carrying @SqsListener |
| ListenerProcessing.CallsForAnnotated | src/main/java/io/github/javiercanillas/amazonws/services/sqs/SqsListenerBeanPostProcessor.java:75-83 | the calls are one per annotated method, in the order of `declaredMethods`, each that method's call |
| ListenerProcessing.Process | src/main/java/io/github/javiercanillas/amazonws/services/sqs/SqsListenerBeanPostProcessor.java:72-87 | no call for a null bean; otherwise the loop makes the calls of the annotated methods, in the order of `declaredMethods` |
| ListenerProcessing.PostProcessAfterInitialization | src/main/java/io/github/javiercanillas/amazonws/services/sqs/SqsListenerBeanPostProcessor.java:40-44 | returns the bean itself (null stays null) after making the register calls |
| ListenerProcessing.PostProcessBeforeDestruction | src/main/java/io/github/javiercanillas/amazonws/services/sqs/SqsListenerBeanPostProcessor.java:25-28 | makes the unregister calls (none for null) |
| ListenerProcessing.PostProcessBeforeInitialization | src/main/java/io/github/javiercanillas/amazonws/services/sqs/SqsListenerBeanPostProcessor.java:35-38 | returns the bean unchanged |
| ListenerProcessing.RequiresDestruction | src/main/java/io/github/javiercanillas/amazonws/services/sqs/SqsListenerBeanPostProcessor.java:30-33 | every bean is offered to the destruction hook |
| ListenerProcessing.OneCallPerAnnotatedMethod | src/main/java/io/github/javiercanillas/amazonws/services/sqs/SqsListenerBeanPostProcessor.java:75-83 | every annotated method gets a call naming it, and a method without @SqsListener gets none |

## Left out

- Threads: the consumer thread, its `while (!isInterrupted())` loop, and `take`'s blocking and interruption. The model has `started` and `interrupted` flags and one turn of the loop (`ConsumeStep`), taken at a moment when a message is due. Starting a thread twice (which throws in Java) is not modelled.
- Concurrency: the atomicity of `ConcurrentHashMap`, the non-atomic get-then-remove of an override, and registrations changing while a consume turn is iterating.
- Mailbox.SqsInstance.Poll: when several entries share the minimal ready time, `DelayQueue`'s heap decides which comes out. The model picks the one inserted first. `PollTakesEarliestDue` states only what the source guarantees.
- Managers.SqsManager.ConsumeStep: the clock does not advance during a turn, so the re-send is stamped at the take's `now`. The order in which holders are offered the message is left open (any order is allowed). The handlers' visibility changes are applied together after the last holder has run, which is what the re-send sees; a handler writing the same handle twice is given by its last write. Messages a handler sends into queues during the turn are not modelled.
- Java `long` overflow of ready times, and saturation in `TimeUnit.SECONDS.toMillis`. Timestamps and delays are unbounded integers. Only the comparator's clamp to `int` is modelled.
- Messages.IdKey: it accepts an id header of any type, while `MessageHeaders.getId()` accepts only a UUID (or null) and throws `IllegalArgumentException` for any other id, so `send` of such a message fails in the program; messages built by Spring carry UUID ids.
- Non-integer `Number` delay headers. A delay header is either an integral number or not a number.
- Null arguments rejected by `requireNonNull` (content, message, bean, method, policy): the model's values cannot be null. So are the `NullPointerException` that an unregister of a null queue name raises inside `ConcurrentHashMap.get`, and the one a null receipt handle or timeout raises inside `ConcurrentHashMap.put` in `changeMessageVisibility` (the handle is a string and the timeout an `Int32`). A null payload or header value is the `Null` value.
- Library behaviour:
  - `GenericMessage` replaces any `id` header with a generated UUID (`GenericMessageOf`). For `convertAndSend(name, payload, headers)` the model sends the corrected message, which keeps the template's id; the program's message is `ConvertAndSendMessageAsWritten` (see Findings).
  - The timestamp header that `GenericMessage` adds.
  - The contents of the header accessor (it is modelled as the header map).
  - The value of `SqsMessageHeaders.SQS_DELAY_HEADER` is taken as "delay".
- The `QueueMessageChannel` overloads: they only delegate to a channel outside this code.
- The `MessagePostProcessor` overloads: they ignore the post-processor and forward to the overloads without one.
- The text of the cannot-convert message, which names the target class's class loader. The error records the payload's class.
- Java's class hierarchy: it is reduced to Object, String, Number, Long and exact class names (`InstanceOf`), plus Object as the only proper supertype among the parameter types (`AssignableFrom`). So `Fits` rejects a payload of a subclass of the parameter's class other than these, which `Method.invoke` accepts.
- Primitive parameter types: `Method.invoke` unboxes and widens for them and rejects null. `Fits` treats every declared class as a reference type.
- The order of `getDeclaredMethods`: Java leaves it unspecified. The model takes `declaredMethods` as one given order, and the calls follow it.
- Logging, including the error log when a template call answers false.
- The post-processor calling the template: it returns the calls as `TemplateCall` records. Their effect is that of `Register` and `Unregister` on the template, and `Register`/`Unregister` answer true, so the "couldn't apply" branch is never taken.
- `InMemoryQueueMessagingConfiguration` (bean wiring), `NotImplementedException` (an error value here) and `Pair` (a tuple here).
- Templates.InMemoryQueueMessagingTemplate.Register: it states that each manager it creates is new, but not that that manager's mailbox is new. `Valid` keeps the mailboxes of distinct queues distinct.
- Templates.InMemoryQueueMessagingTemplate.ConvertAndSendWithHeaders: it does not restate the `started` and `interrupted` flags of a manager it creates, which `Send` states.
- Templates.InMemoryQueueMessagingTemplate.ConvertAndSend: the same as for `ConvertAndSendWithHeaders`.

## Findings

| source | as written | input that shows it | evidently intended | confidence | as-written member | corrected member |
|---|---|---|---|---|---|---|
| src/main/java/io/github/javiercanillas/amazonws/services/sqs/InMemoryQueueMessagingTemplate.java:124-135 | the template puts one fresh UUID under `id` and `ReceiptHandle`, then wraps the map in a `GenericMessage`, whose headers constructor replaces `id` with a generated UUID; `send` looks overrides up by the id (SqsManager.java:99-103) | fresh id "a", generated id "b", `changeMessageVisibility("a", 30)` before the send: the message is added with no delay and the override for "a" stays in the table | the message keeps the template's id, so a visibility change for its ReceiptHandle delays its next send and is spent | not executed; high (relies on Spring's `MessageHeaders` constructor) | Templates.VisibilityChangeMissesConvertAndSend | Templates.VisibilityChangeDelaysConvertAndSend |

/**
 * The registry of queues behind the messaging template: queue name to manager, with the
 * "__DEFAULT__" queue created up front, managers created on demand by register and by
 * send, and the header construction and payload conversion of the template's calls.
 */
module Templates {

  import opened Wrappers
  import opened Messages
  import opened Reflection
  import opened Mailbox
  import opened AwsSqsClient
  import opened ConsumeMethods
  import opened Managers

  /** The name of the queue used by the calls that take no queue name. */
  const DefaultQueue: string := "__DEFAULT__"

  /**
   * What the template's calls can throw: MessagingException for an unknown queue name or
   * an unconvertible payload, and the NullPointerException of the default-queue calls
   * once destroy has emptied the registry.
   */
  datatype MessagingError =
    | ResourceNotFound(name: string)
    | CannotConvert(payloadClass: string)
    | NoDefaultQueue

  /**
   * The headers convertAndSend(name, payload, headers) builds: a copy of the caller's
   * headers (none for null), with id and ReceiptHandle both set to the fresh id.
   */
  function ConvertAndSendHeaders(headers: Option<map<string, Value>>, freshId: string): (h: map<string, Value>)
    ensures IdHeader in h && h[IdHeader] == Str(freshId)
    ensures ReceiptHandleHeader in h && h[ReceiptHandleHeader] == Str(freshId)
    ensures forall k :: k in h <==> (k == IdHeader || k == ReceiptHandleHeader || (headers.Some? && k in headers.value))
    ensures headers.Some? ==>
              forall k :: k in headers.value && k != IdHeader && k != ReceiptHandleHeader ==> h[k] == headers.value[k]
  {
    var copied := if headers.Some? then headers.value else map[];
    copied[IdHeader := Str(freshId)][ReceiptHandleHeader := Str(freshId)]
  }

  /**
   * convert(targetClass, received): null for a null message or payload, the payload
   * when it is an instance of the target class, and a MessagingException otherwise.
   */
  function Convert(targetClass: string, received: Option<Message>): (r: Result<Option<Value>, MessagingError>)
    ensures (received.None? || received.value.payload == Null) <==> r == Ok(None)
    ensures r.Ok? && r.value.Some? <==> received.Some? && InstanceOf(received.value.payload, targetClass)
    ensures r.Ok? && r.value.Some? ==> r.value.value == received.value.payload
    ensures r.Err? ==> received.Some? && received.value.payload != Null
                       && r.error == CannotConvert(ClassOf(received.value.payload))
  {
    if received.None? || received.value.payload == Null then Ok(None)
    else if InstanceOf(received.value.payload, targetClass) then Ok(Some(received.value.payload))
    else Err(CannotConvert(ClassOf(received.value.payload)))
  }

  /** A payload converts to its own class and to Object: nothing sent comes back as an error. */
  lemma ConvertToOwnClass(payload: Value, headers: map<string, Value>)
    requires payload != Null
    ensures Convert(ClassOf(payload), Some(Message(payload, headers))) == Ok(Some(payload))
    ensures Convert(ObjectClass, Some(Message(payload, headers))) == Ok(Some(payload))
  {
  }

  /**
   * new GenericMessage<>(payload, headers) as Spring builds it: the MessageHeaders
   * constructor copies the map and puts a newly generated UUID under id, over any id the
   * map carries. (It also adds a timestamp header, which the engine never reads.)
   */
  function GenericMessageOf(payload: Value, headers: map<string, Value>, generatedId: string): (m: Message)
    ensures m.payload == payload
    ensures IdHeader in m.headers && m.headers[IdHeader] == Obj(UuidClass, generatedId) && IdKey(m) == generatedId
    ensures forall k :: k != IdHeader ==> (k in m.headers <==> k in headers)
    ensures forall k :: k != IdHeader && k in headers ==> m.headers[k] == headers[k]
  {
    Message(payload, headers[IdHeader := Obj(UuidClass, generatedId)])
  }

  /**
   * The message convertAndSend(name, payload, headers) builds, as written: the template's
   * headers wrapped in a GenericMessage, which replaces the template's id.
   */
  function ConvertAndSendMessageAsWritten(payload: Value, headers: Option<map<string, Value>>,
                                          freshId: string, generatedId: string): Message
  {
    GenericMessageOf(payload, ConvertAndSendHeaders(headers, freshId), generatedId)
  }

  /**
   * The message convertAndSend is evidently meant to send: the template's headers under
   * the UUID the template drew, so that the message's id (a UUID, as getId() demands) and
   * its receipt handle name the same id.
   */
  function ConvertAndSendMessage(payload: Value, headers: Option<map<string, Value>>, freshId: string): (m: Message)
    ensures m.payload == payload
    ensures IdHeader in m.headers && m.headers[IdHeader] == Obj(UuidClass, freshId) && IdKey(m) == freshId
    ensures ReceiptHandleHeader in m.headers && m.headers[ReceiptHandleHeader] == Str(freshId)
  {
    GenericMessageOf(payload, ConvertAndSendHeaders(headers, freshId), freshId)
  }

  /**
   * As written, the receipt handle a listener sees is not the message's key: a visibility
   * change for that handle neither delays the message nor is spent, and the message is
   * added with the delay of its headers alone.
   */
  lemma VisibilityChangeMissesConvertAndSend(entries: seq<DelayedItem>, handles: map<string, Int32>,
                                             payload: Value, headers: Option<map<string, Value>>,
                                             freshId: string, generatedId: string, timeout: Int32, now: int)
    requires freshId !in handles && generatedId !in handles && generatedId != freshId
    ensures var m := ConvertAndSendMessageAsWritten(payload, headers, freshId, generatedId);
            ReceiptHandleHeader in m.headers && m.headers[ReceiptHandleHeader] == Str(freshId) && IdKey(m) != freshId
            && SendSpec(entries, handles[freshId := timeout], m, now)
                 == (entries + [NewDelayedItem(m, HeaderDelayMillis(m), now)], handles[freshId := timeout])
  {
    var m := ConvertAndSendMessageAsWritten(payload, headers, freshId, generatedId);
    assert ReceiptHandleHeader != IdHeader;
    assert IdKey(m) !in handles[freshId := timeout];
  }

  /**
   * With the id kept, the receipt handle is the message's key in the override table: a
   * visibility change for it delays exactly the next send of the message, by its seconds,
   * and the override is spent.
   */
  lemma VisibilityChangeDelaysConvertAndSend(entries: seq<DelayedItem>, handles: map<string, Int32>,
                                             payload: Value, headers: Option<map<string, Value>>,
                                             freshId: string, timeout: Int32, now: int)
    requires freshId !in handles
    ensures var m := ConvertAndSendMessage(payload, headers, freshId);
            ReceiptHandleHeader in m.headers && m.headers[ReceiptHandleHeader] == Str(freshId)
            && SendSpec(entries, handles[freshId := timeout], m, now)
                 == (entries + [NewDelayedItem(m, (timeout as int) * 1000, now)], handles)
  {
    assert handles[freshId := timeout] - {freshId} == handles;
  }

  /** A manager as register creates it: with a started consumer and an empty mailbox. */
  ghost predicate NewConsumingManager(mgr: SqsManager)
    reads mgr, mgr.sqsInstance
  {
    mgr.createConsumer && mgr.started && !mgr.interrupted && mgr.sqsInstance.internalQueue == []
  }

  class InMemoryQueueMessagingTemplate {
    const client: InMemoryAwsSqsClient
    var instances: map<string, SqsManager>

    /**
     * Every manager shares the template's client and keeps its holders under their own
     * keys; distinct queue names have distinct mailboxes, and so distinct managers.
     */
    ghost predicate Valid()
      reads this, instances.Values
    {
      (forall n | n in instances :: instances[n].client == client && instances[n].Valid())
      && (forall n, n' | n in instances && n' in instances && n != n' ::
            instances[n].sqsInstance != instances[n'].sqsInstance)
    }

    /** The registry starts with the default queue only, on a manager without a consumer. */
    constructor (amazonSqs: InMemoryAwsSqsClient)
      ensures client == amazonSqs
      ensures instances.Keys == {DefaultQueue}
      ensures fresh(instances[DefaultQueue]) && fresh(instances[DefaultQueue].sqsInstance)
      ensures !instances[DefaultQueue].createConsumer && !instances[DefaultQueue].started
      ensures instances[DefaultQueue].hookedConsumers == map[]
      ensures instances[DefaultQueue].sqsInstance.internalQueue == []
      ensures Valid()
    {
      var mailbox := new SqsInstance();
      var manager := new SqsManager(mailbox, false, amazonSqs);
      client := amazonSqs;
      instances := map[DefaultQueue := manager];
    }

    /** One step of register's loop: the manager of one queue name, created if missing, gets the listener. */
    method RegisterOne(bean: Bean, handlerMethod: HandlerMethod, queueName: string, deletionPolicy: DeletionPolicy)
      requires Valid()
      modifies this, instances.Values
      ensures Valid()
      ensures forall n :: n in instances <==> n in old(instances) || n == queueName
      ensures forall n :: n in old(instances) && n in instances ==>
                instances[n] == old(instances[n])
                && instances[n].started == old(instances[n].started) && instances[n].interrupted == old(instances[n].interrupted)
                && instances[n].hookedConsumers ==
                     (if n == queueName then WithListener(old(instances[n].hookedConsumers), bean, handlerMethod, deletionPolicy)
                      else old(instances[n].hookedConsumers))
      ensures queueName !in old(instances) ==>
                fresh(instances[queueName]) && fresh(instances[queueName].sqsInstance) && NewConsumingManager(instances[queueName])
                && instances[queueName].hookedConsumers == map[(bean, handlerMethod) := ConsumeMethodHolder(bean, handlerMethod, deletionPolicy)]
    {
      var sqsManager: SqsManager;
      if queueName in instances {
        sqsManager := instances[queueName];
      } else {
        var mailbox := new SqsInstance();
        sqsManager := new SqsManager(mailbox, true, client);
        sqsManager.Start();
        instances := instances[queueName := sqsManager];
      }
      sqsManager.AddListener(bean, handlerMethod, deletionPolicy);
    }

    /**
     * register: every named queue ends up with a manager holding the listener. Existing
     * managers are reused as they are (also one without a consumer, created by send);
     * only missing ones are created, with a started consumer. Always true.
     */
    method Register(bean: Bean, handlerMethod: HandlerMethod, queueNames: set<string>, deletionPolicy: DeletionPolicy)
      returns (ok: bool)
      requires Valid()
      modifies this, instances.Values
      ensures Valid() && ok
      ensures forall n :: n in instances <==> n in old(instances) || n in queueNames
      ensures forall n :: n in old(instances) ==> instances[n] == old(instances[n])
      ensures forall n :: n in old(instances) ==>
                instances[n].hookedConsumers ==
                  (if n in queueNames then WithListener(old(instances[n].hookedConsumers), bean, handlerMethod, deletionPolicy)
                   else old(instances[n].hookedConsumers))
      ensures forall n :: n in old(instances) ==>
                instances[n].started == old(instances[n].started) && instances[n].interrupted == old(instances[n].interrupted)
      ensures forall n :: n in queueNames && n !in old(instances) ==>
                fresh(instances[n]) && NewConsumingManager(instances[n])
                && instances[n].hookedConsumers == map[(bean, handlerMethod) := ConsumeMethodHolder(bean, handlerMethod, deletionPolicy)]
    {
      var pending := queueNames;
      while pending != {}
        invariant pending <= queueNames
        invariant Valid()
        invariant forall n :: n in instances <==> n in old(instances) || (n in queueNames && n !in pending)
        invariant forall n :: n in old(instances) && n in instances ==>
                    instances[n] == old(instances[n])
                    && instances[n].started == old(instances[n].started) && instances[n].interrupted == old(instances[n].interrupted)
                    && instances[n].hookedConsumers ==
                         (if n in queueNames && n !in pending
                          then WithListener(old(instances[n].hookedConsumers), bean, handlerMethod, deletionPolicy)
                          else old(instances[n].hookedConsumers))
        invariant forall n :: n !in old(instances) && n in instances ==>
                    fresh(instances[n]) && NewConsumingManager(instances[n])
                    && instances[n].hookedConsumers == map[(bean, handlerMethod) := ConsumeMethodHolder(bean, handlerMethod, deletionPolicy)]
        decreases |pending|
      {
        var queueName :| queueName in pending;
        RegisterOne(bean, handlerMethod, queueName, deletionPolicy);
        pending := pending - {queueName};
      }
      ok := true;
    }

    /**
     * unregister: removes the listener from every named queue that exists; unknown names
     * are ignored and no manager is created. Always true.
     */
    method Unregister(bean: Bean, handlerMethod: HandlerMethod, queueNames: set<string>) returns (ok: bool)
      requires Valid()
      modifies instances.Values
      ensures Valid() && ok
      ensures instances == old(instances)
      ensures forall n :: n in instances ==>
                instances[n].hookedConsumers ==
                  (if n in queueNames then old(instances[n].hookedConsumers) - {(bean, handlerMethod)}
                   else old(instances[n].hookedConsumers))
      ensures forall n :: n in instances ==>
                instances[n].started == old(instances[n].started) && instances[n].interrupted == old(instances[n].interrupted)
    {
      var pending := queueNames;
      while pending != {}
        invariant pending <= queueNames
        invariant Valid()
        invariant forall n :: n in instances ==>
                    instances[n].hookedConsumers ==
                      (if n in queueNames - pending then old(instances[n].hookedConsumers) - {(bean, handlerMethod)}
                       else old(instances[n].hookedConsumers))
        invariant forall n :: n in instances ==>
                    instances[n].started == old(instances[n].started) && instances[n].interrupted == old(instances[n].interrupted)
        decreases |pending|
      {
        var queueName :| queueName in pending;
        if queueName in instances {
          instances[queueName].RemoveListener(bean, handlerMethod);
        }
        pending := pending - {queueName};
      }
      ok := true;
    }

    /** receive(name): the named manager's receive, or a MessagingException for an unknown name. */
    method Receive(destinationName: string, now: int) returns (r: Result<Option<Message>, MessagingError>)
      modifies if destinationName in instances then {instances[destinationName].sqsInstance} else {}
      ensures instances == old(instances)
      ensures destinationName !in instances ==> r == Err(ResourceNotFound(destinationName))
      ensures destinationName in instances ==>
                r.Ok? && (r.value, instances[destinationName].sqsInstance.internalQueue)
                         == PollSpec(old(instances[destinationName].sqsInstance.internalQueue), now)
    {
      if destinationName in instances {
        var m := instances[destinationName].Receive(now);
        r := Ok(m);
      } else {
        r := Err(ResourceNotFound(destinationName));
      }
    }

    /** receive(): the default queue's receive; it fails once destroy has emptied the registry. */
    method ReceiveDefault(now: int) returns (r: Result<Option<Message>, MessagingError>)
      modifies if DefaultQueue in instances then {instances[DefaultQueue].sqsInstance} else {}
      ensures DefaultQueue !in instances ==> r == Err(NoDefaultQueue)
      ensures DefaultQueue in instances ==>
                r.Ok? && (r.value, instances[DefaultQueue].sqsInstance.internalQueue)
                         == PollSpec(old(instances[DefaultQueue].sqsInstance.internalQueue), now)
    {
      if DefaultQueue in instances {
        var m := instances[DefaultQueue].Receive(now);
        r := Ok(m);
      } else {
        r := Err(NoDefaultQueue);
      }
    }

    /** receiveAndConvert(name, targetClass): receive(name), then convert. */
    method ReceiveAndConvert(destinationName: string, targetClass: string, now: int)
      returns (r: Result<Option<Value>, MessagingError>)
      modifies if destinationName in instances then {instances[destinationName].sqsInstance} else {}
      ensures destinationName !in instances ==> r == Err(ResourceNotFound(destinationName))
      ensures destinationName in instances ==>
                var (polled, rest) := PollSpec(old(instances[destinationName].sqsInstance.internalQueue), now);
                r == Convert(targetClass, polled) && instances[destinationName].sqsInstance.internalQueue == rest
    {
      var received := Receive(destinationName, now);
      if received.Err? {
        r := Err(received.error);
      } else {
        r := Convert(targetClass, received.value);
      }
    }

    /** receiveAndConvert(targetClass): receive(), then convert. */
    method ReceiveAndConvertDefault(targetClass: string, now: int) returns (r: Result<Option<Value>, MessagingError>)
      modifies if DefaultQueue in instances then {instances[DefaultQueue].sqsInstance} else {}
      ensures DefaultQueue !in instances ==> r == Err(NoDefaultQueue)
      ensures DefaultQueue in instances ==>
                var (polled, rest) := PollSpec(old(instances[DefaultQueue].sqsInstance.internalQueue), now);
                r == Convert(targetClass, polled) && instances[DefaultQueue].sqsInstance.internalQueue == rest
    {
      var received := ReceiveDefault(now);
      if received.Err? {
        r := Err(received.error);
      } else {
        r := Convert(targetClass, received.value);
      }
    }

    /**
     * send(name, message): a missing queue is created on demand with a manager without a
     * consumer; then that manager's send.
     */
    method Send(destinationName: string, message: Message, now: int)
      requires Valid()
      modifies this, client, if destinationName in instances then {instances[destinationName].sqsInstance} else {}
      ensures Valid()
      ensures instances.Keys == old(instances.Keys) + {destinationName}
      ensures forall n :: n in old(instances) ==> instances[n] == old(instances[n])
      ensures destinationName !in old(instances) ==>
                fresh(instances[destinationName]) && fresh(instances[destinationName].sqsInstance)
                && !instances[destinationName].createConsumer && !instances[destinationName].started
                && !instances[destinationName].interrupted && instances[destinationName].hookedConsumers == map[]
      ensures var before := if destinationName in old(instances) then old(instances[destinationName].sqsInstance.internalQueue) else [];
              (instances[destinationName].sqsInstance.internalQueue, client.handles)
                == SendSpec(before, old(client.handles), message, now)
    {
      var sqsManager: SqsManager;
      if destinationName in instances {
        sqsManager := instances[destinationName];
      } else {
        var mailbox := new SqsInstance();
        sqsManager := new SqsManager(mailbox, false, client);
        sqsManager.Start();
        instances := instances[destinationName := sqsManager];
      }
      sqsManager.Send(message, now);
    }

    /** send(message): the default queue's send; it fails once destroy has emptied the registry. */
    method SendDefault(message: Message, now: int) returns (r: Result<(), MessagingError>)
      requires Valid()
      modifies client, if DefaultQueue in instances then {instances[DefaultQueue].sqsInstance} else {}
      ensures DefaultQueue !in instances ==> r == Err(NoDefaultQueue) && client.handles == old(client.handles)
      ensures DefaultQueue in instances ==>
                r.Ok? && (instances[DefaultQueue].sqsInstance.internalQueue, client.handles)
                         == SendSpec(old(instances[DefaultQueue].sqsInstance.internalQueue), old(client.handles), message, now)
    {
      if DefaultQueue in instances {
        instances[DefaultQueue].Send(message, now);
        r := Ok(());
      } else {
        r := Err(NoDefaultQueue);
      }
    }

    /**
     * convertAndSend(name, payload, headers): builds the message from the payload and the
     * headers of ConvertAndSendHeaders, then send(name, message).
     */
    method ConvertAndSendWithHeaders(destinationName: string, payload: Value, headers: Option<map<string, Value>>,
                                     freshId: string, now: int)
      requires Valid()
      modifies this, client, if destinationName in instances then {instances[destinationName].sqsInstance} else {}
      ensures Valid()
      ensures instances.Keys == old(instances.Keys) + {destinationName}
      ensures forall n :: n in old(instances) ==> instances[n] == old(instances[n])
      ensures destinationName !in old(instances) ==>
                fresh(instances[destinationName]) && fresh(instances[destinationName].sqsInstance)
                && !instances[destinationName].createConsumer && instances[destinationName].hookedConsumers == map[]
      ensures var before := if destinationName in old(instances) then old(instances[destinationName].sqsInstance.internalQueue) else [];
              (instances[destinationName].sqsInstance.internalQueue, client.handles)
                == SendSpec(before, old(client.handles), ConvertAndSendMessage(payload, headers, freshId), now)
    {
      var genericMessage := ConvertAndSendMessage(payload, headers, freshId);
      Send(destinationName, genericMessage, now);
    }

    /** convertAndSend(name, payload): the same with null headers. */
    method ConvertAndSend(destinationName: string, payload: Value, freshId: string, now: int)
      requires Valid()
      modifies this, client, if destinationName in instances then {instances[destinationName].sqsInstance} else {}
      ensures Valid()
      ensures instances.Keys == old(instances.Keys) + {destinationName}
      ensures forall n :: n in old(instances) ==> instances[n] == old(instances[n])
      ensures destinationName !in old(instances) ==>
                fresh(instances[destinationName]) && fresh(instances[destinationName].sqsInstance)
                && !instances[destinationName].createConsumer && instances[destinationName].hookedConsumers == map[]
      ensures var before := if destinationName in old(instances) then old(instances[destinationName].sqsInstance.internalQueue) else [];
              (instances[destinationName].sqsInstance.internalQueue, client.handles)
                == SendSpec(before, old(client.handles), ConvertAndSendMessage(payload, None, freshId), now)
    {
      ConvertAndSendWithHeaders(destinationName, payload, None, freshId, now);
    }

    /**
     * convertAndSend(payload): send() of a message with the payload; its only header is
     * the id the message is created with.
     */
    method ConvertAndSendDefault(payload: Value, freshId: string, now: int) returns (r: Result<(), MessagingError>)
      requires Valid()
      modifies client, if DefaultQueue in instances then {instances[DefaultQueue].sqsInstance} else {}
      ensures DefaultQueue !in instances ==> r == Err(NoDefaultQueue)
      ensures DefaultQueue in instances ==>
                r.Ok? && (instances[DefaultQueue].sqsInstance.internalQueue, client.handles)
                         == SendSpec(old(instances[DefaultQueue].sqsInstance.internalQueue), old(client.handles),
                                     GenericMessageOf(payload, map[], freshId), now)
    {
      r := SendDefault(GenericMessageOf(payload, map[], freshId), now);
    }

    /** destroy: empties the registry and stops every manager that was in it. */
    method Destroy()
      modifies this, instances.Values
      ensures instances == map[]
      ensures forall mgr :: mgr in old(instances.Values) ==>
                mgr.interrupted == (old(mgr.interrupted) || mgr.createConsumer)
                && mgr.started == old(mgr.started) && mgr.hookedConsumers == old(mgr.hookedConsumers)
    {
      var sqsManagerList := instances.Values;
      instances := map[];
      var pending := sqsManagerList;
      while pending != {}
        invariant pending <= sqsManagerList
        invariant instances == map[]
        invariant forall mgr :: mgr in sqsManagerList ==>
                    mgr.interrupted == (if mgr in pending then old(mgr.interrupted) else old(mgr.interrupted) || mgr.createConsumer)
                    && mgr.started == old(mgr.started) && mgr.hookedConsumers == old(mgr.hookedConsumers)
        decreases |pending|
      {
        var mgr :| mgr in pending;
        mgr.Stop();
        pending := pending - {mgr};
      }
    }
  }
  /**
   * A queue first created by send keeps its consumer-less manager when a listener is
   * registered on it later: the listener is held, but no consumer will ever run it.
   */
  method SendThenRegister(amazonSqs: InMemoryAwsSqsClient, queueName: string, m: Message, now: int,
                          bean: Bean, handlerMethod: HandlerMethod, deletionPolicy: DeletionPolicy)
    returns (template: InMemoryQueueMessagingTemplate)
    requires queueName != DefaultQueue
    modifies amazonSqs
    ensures queueName in template.instances
    ensures !template.instances[queueName].createConsumer && !template.instances[queueName].started
    ensures template.instances[queueName].hookedConsumers
              == map[(bean, handlerMethod) := ConsumeMethodHolder(bean, handlerMethod, deletionPolicy)]
  {
    template := new InMemoryQueueMessagingTemplate(amazonSqs);
    template.Send(queueName, m, now);
    var _ := template.Register(bean, handlerMethod, {queueName}, deletionPolicy);
  }

  /**
   * convertAndSend to a queue of a new template, then receiveAndConvert to the payload's
   * class at the same moment, gives the payload back when no visibility change is pending
   * for the fresh id.
   */
  method ConvertAndSendThenReceive(amazonSqs: InMemoryAwsSqsClient, queueName: string, payload: Value,
                                   freshId: string, now: int)
    returns (r: Result<Option<Value>, MessagingError>)
    requires payload != Null && freshId !in amazonSqs.handles
    modifies amazonSqs
    ensures r == Ok(Some(payload))
  {
    var template := new InMemoryQueueMessagingTemplate(amazonSqs);
    template.ConvertAndSend(queueName, payload, freshId, now);
    ReceiveAfterConvertAndSend(amazonSqs.handles, payload, freshId, now);
    r := template.ReceiveAndConvert(queueName, ClassOf(payload), now);
  }

  /**
   * On an empty queue, the message convertAndSend builds is due at once (its headers
   * carry no delay), so a poll at the same moment returns it and empties the queue again.
   */
  lemma ReceiveAfterConvertAndSend(handles: map<string, Int32>, payload: Value, freshId: string, now: int)
    requires freshId !in handles
    ensures var m := ConvertAndSendMessage(payload, None, freshId);
            PollSpec(SendSpec([], handles, m, now).0, now) == (Some(m), [])
  {
    var m := ConvertAndSendMessage(payload, None, freshId);
    assert IdKey(m) == freshId;
    assert DelayHeader !in m.headers;
    var entries := SendSpec([], handles, m, now).0;
    assert entries == [NewDelayedItem(m, 0, now)];
    assert Earliest(entries) == 0;
  }

  /** receive on a new template fails for every name but the default queue's. */
  method ReceiveUnknownQueue(amazonSqs: InMemoryAwsSqsClient, queueName: string, now: int)
    returns (r: Result<Option<Message>, MessagingError>)
    requires queueName != DefaultQueue
    ensures r == Err(ResourceNotFound(queueName))
  {
    var template := new InMemoryQueueMessagingTemplate(amazonSqs);
    r := template.Receive(queueName, now);
  }
}

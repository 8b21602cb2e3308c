/**
 * Binding a message to a handler's declared parameters, invoking the handler and
 * deciding, under its deletion policy, whether the message is removed from the queue.
 * Reflection is replaced by the descriptors of module Reflection; what the handler
 * body does is the input HandlerRun.
 */
module ConsumeMethods {

  import opened Wrappers
  import opened Messages
  import opened Reflection

  /** An argument passed to the handler, one per declared parameter. */
  datatype Arg =
    | MessageArg(message: Message)
    | HeadersArg(headers: map<string, Value>)
    | AccessorArg(accessorHeaders: map<string, Value>)
    | AckArg
    | PayloadArg(payload: Value)
    | HeaderArg(value: Value)

  /**
   * The exceptions that escape invoke: NotImplementedException for a parameter kind that
   * binding does not support, and the IllegalArgumentException of Method.invoke for an
   * argument that does not fit its declared parameter.
   */
  datatype InvokeError =
    | NotImplemented(parameterName: string, methodName: string, className: string)
    | ArgumentTypeMismatch(methodName: string, className: string)

  /** The registered handler: its bean, its method and its deletion policy (all final). */
  datatype ConsumeMethodHolder = ConsumeMethodHolder(bean: Bean, handlerMethod: HandlerMethod, deletionPolicy: DeletionPolicy)

  /**
   * What the reflective call does once it is made: whether it throws one of the two
   * exceptions invoke catches (the body throws, or the method is not accessible), and
   * whether the body calls acknowledge().
   */
  datatype HandlerRun = HandlerRun(threw: bool, acknowledges: bool)

  /** A future returned by acknowledge(). */
  datatype Future = Future(completed: bool)

  /** The acknowledgment handle handed to one invocation. */
  class InnerAcknowledgment {
    var acknowledged: bool

    constructor ()
      ensures !acknowledged
    {
      acknowledged := false;
    }

    /** acknowledge(): records the acknowledgment and answers an already-completed future. */
    method Acknowledge() returns (f: Future)
      modifies this
      ensures acknowledged && f.completed
    {
      acknowledged := true;
      f := Future(true);
    }
  }

  /**
   * A @Header parameter: the header under the annotation's name, else under its value,
   * else null if the header is optional. None when a required header is missing.
   */
  function BindHeader(headers: map<string, Value>, ann: HeaderAnnotation): (r: Option<Arg>)
    ensures r.None? <==> ann.name !in headers && ann.value !in headers && ann.required
    ensures r.Some? ==> r.value.HeaderArg?
    ensures ann.name in headers ==> r == Some(HeaderArg(headers[ann.name]))
    ensures ann.name !in headers && ann.value in headers ==> r == Some(HeaderArg(headers[ann.value]))
  {
    if ann.name in headers then Some(HeaderArg(headers[ann.name]))
    else if ann.value in headers then Some(HeaderArg(headers[ann.value]))
    else if !ann.required then Some(HeaderArg(Null))
    else None
  }

  /**
   * addInvocationParameter: the argument for one parameter, tried in a fixed order
   * (message, @Headers map, header accessor, acknowledgment, @Payload, @Header).
   * Ok(None) means a required header is missing; Err means the kind is unsupported.
   */
  function BindParameter(m: Message, p: Parameter, holder: ConsumeMethodHolder): Result<Option<Arg>, InvokeError>
  {
    if p.ty == MessageType then Ok(Some(MessageArg(m)))
    else if AssignableFrom(p.ty, MapType) && p.headersAnnotated then Ok(Some(HeadersArg(m.headers)))
    else if AssignableFrom(p.ty, HeaderAccessorType) then Ok(Some(AccessorArg(m.headers)))
    else if AssignableFrom(p.ty, AcknowledgmentType) then Ok(Some(AckArg))
    else if p.payloadAnnotated then Ok(Some(PayloadArg(m.payload)))
    else if p.header.Some? then Ok(BindHeader(m.headers, p.header.value))
    else Err(NotImplemented(p.name, holder.handlerMethod.name, holder.bean.className))
  }

  predicate Binds(m: Message, p: Parameter, holder: ConsumeMethodHolder)
  {
    BindParameter(m, p, holder).Ok? && BindParameter(m, p, holder).value.Some?
  }

  /** The arguments for all parameters, in order, stopping at the first that does not bind. */
  function BindAll(m: Message, ps: seq<Parameter>, holder: ConsumeMethodHolder): (r: Result<Option<seq<Arg>>, InvokeError>)
    ensures r.Ok? && r.value.Some? ==>
              |r.value.value| == |ps|
              && forall i :: 0 <= i < |ps| ==> BindParameter(m, ps[i], holder) == Ok(Some(r.value.value[i]))
  {
    if ps == [] then Ok(Some([]))
    else
      match BindParameter(m, ps[0], holder)
      case Err(e) => Err(e)
      case Ok(None) => Ok(None)
      case Ok(Some(a)) =>
        match BindAll(m, ps[1..], holder)
        case Err(e) => Err(e)
        case Ok(None) => Ok(None)
        case Ok(Some(rest)) => Ok(Some([a] + rest))
  }

  /** Every parameter binds exactly when binding yields an argument list. */
  lemma {:induction false} BindAllSucceedsIffAllBind(m: Message, ps: seq<Parameter>, holder: ConsumeMethodHolder)
    ensures BindAll(m, ps, holder).Ok? && BindAll(m, ps, holder).value.Some? <==>
              forall i :: 0 <= i < |ps| ==> Binds(m, ps[i], holder)
  {
    if ps != [] {
      BindAllSucceedsIffAllBind(m, ps[1..], holder);
      assert forall i :: 1 <= i < |ps| ==> ps[i] == ps[1..][i - 1];
    }
  }

  /** When every parameter binds, the argument list is exactly the arguments they bind, in order. */
  lemma BindAllExactly(m: Message, ps: seq<Parameter>, holder: ConsumeMethodHolder, args: seq<Arg>)
    requires |args| == |ps|
    requires forall i :: 0 <= i < |ps| ==> BindParameter(m, ps[i], holder) == Ok(Some(args[i]))
    ensures BindAll(m, ps, holder) == Ok(Some(args))
  {
    BindAllSucceedsIffAllBind(m, ps, holder);
    var bound := BindAll(m, ps, holder).value.value;
    assert |bound| == |args|;
    assert forall i :: 0 <= i < |ps| ==> bound[i] == args[i];
    assert bound == args;
  }

  /**
   * Binding stops at the first parameter that does not bind: an unsupported kind
   * there escapes as the error, a missing required header there means no match,
   * and nothing after it is looked at.
   */
  lemma {:induction false} BindAllStopsAtFirstFailure(m: Message, ps: seq<Parameter>, holder: ConsumeMethodHolder, i: nat)
    requires i < |ps|
    requires forall j :: 0 <= j < i ==> Binds(m, ps[j], holder)
    requires !Binds(m, ps[i], holder)
    ensures BindParameter(m, ps[i], holder).Err? ==> BindAll(m, ps, holder) == Err(BindParameter(m, ps[i], holder).error)
    ensures BindParameter(m, ps[i], holder).Ok? ==> BindAll(m, ps, holder) == Ok(None)
  {
    if i > 0 {
      assert forall j :: 0 <= j < i - 1 ==> ps[1..][j] == ps[j + 1];
      BindAllStopsAtFirstFailure(m, ps[1..], holder, i - 1);
      assert Binds(m, ps[0], holder);
    }
  }

  /** completeInvocationParameters as a value: the argument list, empty when the message does not match. */
  function InvocationParameters(holder: ConsumeMethodHolder, m: Message): Result<seq<Arg>, InvokeError>
  {
    match BindAll(m, holder.handlerMethod.parameters, holder)
    case Err(e) => Err(e)
    case Ok(None) => Ok([])
    case Ok(Some(args)) => Ok(args)
  }

  /** completeInvocationParameters: walks the parameters, appending arguments, and breaks at a missing header. */
  method CompleteInvocationParameters(holder: ConsumeMethodHolder, m: Message) returns (r: Result<seq<Arg>, InvokeError>)
    ensures r == InvocationParameters(holder, m)
  {
    var ps := holder.handlerMethod.parameters;
    var matchThisInvocation := true;
    var invocationParameters: seq<Arg> := [];
    var i := 0;
    while i < |ps|
      invariant 0 <= i <= |ps|
      invariant |invocationParameters| == i
      invariant forall j :: 0 <= j < i ==> BindParameter(m, ps[j], holder) == Ok(Some(invocationParameters[j]))
      invariant matchThisInvocation
    {
      var bound := BindParameter(m, ps[i], holder);
      if bound.Err? {
        BindAllStopsAtFirstFailure(m, ps, holder, i);
        return Err(bound.error);
      }
      if bound.value.None? {
        BindAllStopsAtFirstFailure(m, ps, holder, i);
        matchThisInvocation := false;
        break;
      }
      invocationParameters := invocationParameters + [bound.value.value];
      i := i + 1;
    }
    if matchThisInvocation {
      BindAllExactly(m, ps, holder, invocationParameters);
      r := Ok(invocationParameters);
    } else {
      r := Ok([]);
    }
  }

  /**
   * The verdict after an invocation, as the caller reads it (true: the message is
   * removed). ALWAYS never removes; NEVER removes iff the handler acknowledged; the
   * other policies remove unless the handler threw.
   */
  function DeletionVerdict(policy: DeletionPolicy, errored: bool, acknowledged: bool): bool
  {
    if policy == Always then false
    else if policy == Never then acknowledged
    else !errored
  }

  /** The class a parameter of this type is declared with. */
  function DeclaredClass(ty: JavaType): string
  {
    match ty
    case MessageType => "org.springframework.messaging.Message"
    case MapType => "java.util.Map"
    case HeaderAccessorType => "org.springframework.messaging.support.MessageHeaderAccessor"
    case AcknowledgmentType => "io.awspring.cloud.messaging.listener.Acknowledgment"
    case ObjectType => ObjectClass
    case OtherType(name) => name
  }

  /**
   * Method.invoke accepts an argument for a parameter: a payload or header value must be
   * null or an instance of the declared class; the message, the headers, the accessor and
   * the acknowledgment are bound only to parameters they fit.
   */
  predicate Fits(a: Arg, p: Parameter)
  {
    match a
    case PayloadArg(v) => v == Null || InstanceOf(v, DeclaredClass(p.ty))
    case HeaderArg(v) => v == Null || InstanceOf(v, DeclaredClass(p.ty))
    case _ => true
  }

  /** Method.invoke accepts the argument list: one fitting argument per parameter. */
  predicate ArgumentsFit(ps: seq<Parameter>, args: seq<Arg>)
  {
    |args| == |ps| && forall i :: 0 <= i < |args| ==> Fits(args[i], ps[i])
  }

  /**
   * invoke(message) as a value: bind; with no arguments answer true; otherwise the
   * reflective call rejects arguments that do not fit, or runs the handler, and the
   * policy decides.
   */
  function InvokeOutcome(holder: ConsumeMethodHolder, m: Message, run: HandlerRun): Result<bool, InvokeError>
  {
    match InvocationParameters(holder, m)
    case Err(e) => Err(e)
    case Ok(args) =>
      if |args| == 0 then Ok(true)
      else if !ArgumentsFit(holder.handlerMethod.parameters, args) then
        Err(ArgumentTypeMismatch(holder.handlerMethod.name, holder.bean.className))
      else Ok(DeletionVerdict(holder.deletionPolicy, run.threw, run.acknowledges && AckArg in args))
  }

  /**
   * invoke(message): binds the arguments; with none it does not call the handler and
   * answers true; otherwise it calls the handler, turning the two caught exceptions into
   * `errored`, and answers the policy's verdict. An unsupported parameter kind and an
   * argument that does not fit its parameter escape.
   */
  method Invoke(holder: ConsumeMethodHolder, message: Message, run: HandlerRun) returns (r: Result<bool, InvokeError>)
    ensures r == InvokeOutcome(holder, message, run)
  {
    var ack := new InnerAcknowledgment();
    var invocationParameters := CompleteInvocationParameters(holder, message);
    if invocationParameters.Err? {
      return Err(invocationParameters.error);
    }
    var args := invocationParameters.value;
    if |args| > 0 {
      var errored := false;
      // method.invoke(bean, args): the arguments are checked before the body runs
      if !ArgumentsFit(holder.handlerMethod.parameters, args) {
        return Err(ArgumentTypeMismatch(holder.handlerMethod.name, holder.bean.className));
      }
      // the body can reach the acknowledgment only through its argument
      if run.acknowledges && AckArg in args {
        var _ := ack.Acknowledge();
      }
      if run.threw {
        errored := true;
      }
      r := Ok(DeletionVerdict(holder.deletionPolicy, errored, ack.acknowledged));
    } else {
      r := Ok(true);
    }
  }

  /** A handler without parameters is never called and counts as removing the message. */
  lemma NoParameterHandlerDeletes(holder: ConsumeMethodHolder, m: Message, run: HandlerRun)
    requires holder.handlerMethod.parameters == []
    ensures InvocationParameters(holder, m) == Ok([])
    ensures InvokeOutcome(holder, m, run) == Ok(true)
  {
  }

  /**
   * When a required header is missing (and no unsupported parameter comes before it)
   * the handler is not called and the verdict is true, whatever the policy.
   */
  lemma MissingRequiredHeaderDeletes(holder: ConsumeMethodHolder, m: Message, run: HandlerRun, i: nat)
    requires i < |holder.handlerMethod.parameters|
    requires forall j :: 0 <= j < i ==> Binds(m, holder.handlerMethod.parameters[j], holder)
    requires BindParameter(m, holder.handlerMethod.parameters[i], holder) == Ok(None)
    ensures InvocationParameters(holder, m) == Ok([])
    ensures InvokeOutcome(holder, m, run) == Ok(true)
  {
    BindAllStopsAtFirstFailure(m, holder.handlerMethod.parameters, holder, i);
  }

  /** The first parameter that does not bind, when there is one. */
  lemma {:induction false} FirstNonBinding(m: Message, ps: seq<Parameter>, holder: ConsumeMethodHolder) returns (i: nat)
    requires exists k :: 0 <= k < |ps| && !Binds(m, ps[k], holder)
    ensures i < |ps| && !Binds(m, ps[i], holder)
    ensures forall j :: 0 <= j < i ==> Binds(m, ps[j], holder)
  {
    if !Binds(m, ps[0], holder) {
      i := 0;
    } else {
      var k :| 0 <= k < |ps| && !Binds(m, ps[k], holder);
      assert ps[1..][k - 1] == ps[k];
      var i' := FirstNonBinding(m, ps[1..], holder);
      i := i' + 1;
      forall j | 0 <= j < i
        ensures Binds(m, ps[j], holder)
      {
        if j > 0 {
          assert ps[j] == ps[1..][j - 1];
        }
      }
    }
  }

  /**
   * Errors of the handler body never escape: invoke fails exactly when binding meets an
   * unsupported parameter before any missing header, or when the bound arguments do not
   * fit the parameters, whatever the handler does.
   */
  lemma HandlerErrorsNeverEscape(holder: ConsumeMethodHolder, m: Message, run: HandlerRun)
    ensures InvokeOutcome(holder, m, run).Err? <==>
              BindAll(m, holder.handlerMethod.parameters, holder).Err?
              || (InvocationParameters(holder, m).Ok? && |InvocationParameters(holder, m).value| > 0
                  && !ArgumentsFit(holder.handlerMethod.parameters, InvocationParameters(holder, m).value))
    ensures BindAll(m, holder.handlerMethod.parameters, holder).Err? ==>
              exists i :: 0 <= i < |holder.handlerMethod.parameters|
                && BindParameter(m, holder.handlerMethod.parameters[i], holder).Err?
                && forall j :: 0 <= j < i ==> Binds(m, holder.handlerMethod.parameters[j], holder)
    ensures InvokeOutcome(holder, m, run).Err? && InvokeOutcome(holder, m, run).error.ArgumentTypeMismatch? ==>
              InvocationParameters(holder, m).Ok?
              && (exists i :: 0 <= i < |InvocationParameters(holder, m).value| && i < |holder.handlerMethod.parameters|
                    && !Fits(InvocationParameters(holder, m).value[i], holder.handlerMethod.parameters[i]))
  {
    var ps := holder.handlerMethod.parameters;
    if BindAll(m, ps, holder).Err? {
      BindAllSucceedsIffAllBind(m, ps, holder);
      var i := FirstNonBinding(m, ps, holder);
      BindAllStopsAtFirstFailure(m, ps, holder, i);
    }
  }

  /** The verdict, once the handler has run, for each policy. */
  lemma VerdictByPolicy(holder: ConsumeMethodHolder, m: Message, run: HandlerRun)
    requires InvocationParameters(holder, m).Ok? && |InvocationParameters(holder, m).value| > 0
    requires ArgumentsFit(holder.handlerMethod.parameters, InvocationParameters(holder, m).value)
    ensures var args := InvocationParameters(holder, m).value;
            match holder.deletionPolicy
            case Always => InvokeOutcome(holder, m, run) == Ok(false)
            case Never => InvokeOutcome(holder, m, run) == Ok(run.acknowledges && AckArg in args)
            case NoRedrive => InvokeOutcome(holder, m, run) == Ok(!run.threw)
            case OnSuccess => InvokeOutcome(holder, m, run) == Ok(!run.threw)
  {
  }

  /**
   * The order in which kinds are tried decides odd cases: a Message parameter binds the
   * message whatever it is annotated with, an Object parameter without @Headers binds
   * the header accessor before any @Payload or @Header, @Payload wins over @Header, and
   * an unannotated parameter of any other type is unsupported.
   */
  lemma BindingPriority(m: Message, p: Parameter, holder: ConsumeMethodHolder)
    ensures p.ty == MessageType ==> BindParameter(m, p, holder) == Ok(Some(MessageArg(m)))
    ensures p.ty == ObjectType && p.headersAnnotated ==> BindParameter(m, p, holder) == Ok(Some(HeadersArg(m.headers)))
    ensures p.ty == ObjectType && !p.headersAnnotated ==> BindParameter(m, p, holder) == Ok(Some(AccessorArg(m.headers)))
    ensures p.ty == MapType && !p.headersAnnotated && p.payloadAnnotated ==>
              BindParameter(m, p, holder) == Ok(Some(PayloadArg(m.payload)))
    ensures p.ty.OtherType? && p.payloadAnnotated ==> BindParameter(m, p, holder) == Ok(Some(PayloadArg(m.payload)))
    ensures (p.ty.OtherType? || (p.ty == MapType && !p.headersAnnotated)) && !p.payloadAnnotated && p.header.None? ==>
              BindParameter(m, p, holder) == Err(NotImplemented(p.name, holder.handlerMethod.name, holder.bean.className))
  {
  }

  const StringType: JavaType := OtherType("java.lang.String")

  /**
   * The test handler consume01(Message, @Payload String, @Headers Map,
   * @Header("senderId") String, @Header(name = "optional", required = false) String,
   * Acknowledgment).
   */
  function Consume01(): HandlerMethod
  {
    HandlerMethod("consume01", [
      Parameter("message", MessageType, false, false, None),
      Parameter("payload", StringType, false, true, None),
      Parameter("headers", MapType, true, false, None),
      Parameter("senderId", StringType, false, false, Some(HeaderAnnotation("", "senderId", true))),
      Parameter("optional", StringType, false, false, Some(HeaderAnnotation("optional", "", false))),
      Parameter("ack", AcknowledgmentType, false, false, None)
    ], Some(SqsListenerAnnotation(["consume1"], NoRedrive)))
  }

  /** Without the senderId header consume01 does not match: it is not called and invoke answers true. */
  lemma InvokeNotMatchingArguments(bean: Bean, m: Message, run: HandlerRun)
    requires "senderId" !in m.headers && "" !in m.headers
    ensures var holder := ConsumeMethodHolder(bean, Consume01(), NoRedrive);
            InvocationParameters(holder, m) == Ok([]) && InvokeOutcome(holder, m, run) == Ok(true)
  {
    var holder := ConsumeMethodHolder(bean, Consume01(), NoRedrive);
    MissingRequiredHeaderDeletes(holder, m, run, 3);
  }

  /** A value a String parameter accepts. */
  predicate StringOrNull(v: Value)
  {
    v == Null || InstanceOf(v, StringClass)
  }

  /** The optional header consume01 reads: its value, or null when it is absent. */
  function OptionalHeader(m: Message): Value
  {
    if "optional" in m.headers then m.headers["optional"] else Null
  }

  /** The arguments consume01 is called with when the message carries senderId. */
  function Consume01Args(m: Message): seq<Arg>
    requires "senderId" in m.headers
  {
    [MessageArg(m), PayloadArg(m.payload), HeadersArg(m.headers),
     HeaderArg(m.headers["senderId"]), HeaderArg(OptionalHeader(m)), AckArg]
  }

  /** With senderId present, consume01 binds every parameter. */
  lemma Consume01Binds(holder: ConsumeMethodHolder, m: Message)
    requires holder.handlerMethod == Consume01()
    requires "senderId" in m.headers && "" !in m.headers
    ensures InvocationParameters(holder, m) == Ok(Consume01Args(m))
  {
    BindAllExactly(m, Consume01().parameters, holder, Consume01Args(m));
  }

  /** Method.invoke accepts consume01's arguments exactly when payload, senderId and optional are strings or null. */
  lemma Consume01Fits(m: Message)
    requires "senderId" in m.headers
    ensures ArgumentsFit(Consume01().parameters, Consume01Args(m)) <==>
              StringOrNull(m.payload) && StringOrNull(m.headers["senderId"]) && StringOrNull(OptionalHeader(m))
  {
    var args := Consume01Args(m);
    if !StringOrNull(m.payload) {
      assert !Fits(args[1], Consume01().parameters[1]);
    } else if !StringOrNull(m.headers["senderId"]) {
      assert !Fits(args[3], Consume01().parameters[3]);
    } else if !StringOrNull(OptionalHeader(m)) {
      assert !Fits(args[4], Consume01().parameters[4]);
    }
  }

  /**
   * With senderId present and optional absent, consume01 gets every argument, null for
   * optional. It runs and answers true when the payload and senderId are strings (or
   * null); otherwise Method.invoke rejects the arguments and the error escapes.
   */
  lemma InvokeMatchingArguments(bean: Bean, m: Message)
    requires "senderId" in m.headers && "optional" !in m.headers && "" !in m.headers
    ensures var holder := ConsumeMethodHolder(bean, Consume01(), NoRedrive);
            InvocationParameters(holder, m) == Ok([MessageArg(m), PayloadArg(m.payload), HeadersArg(m.headers),
                                                   HeaderArg(m.headers["senderId"]), HeaderArg(Null), AckArg])
            && (StringOrNull(m.payload) && StringOrNull(m.headers["senderId"]) ==>
                  InvokeOutcome(holder, m, HandlerRun(false, false)) == Ok(true))
            && (!StringOrNull(m.payload) || !StringOrNull(m.headers["senderId"]) ==>
                  InvokeOutcome(holder, m, HandlerRun(false, false)) == Err(ArgumentTypeMismatch("consume01", bean.className)))
  {
    Consume01Binds(ConsumeMethodHolder(bean, Consume01(), NoRedrive), m);
    Consume01Fits(m);
  }

  /**
   * consume01 (@Payload String) offered a numeric payload: binding succeeds, but
   * Method.invoke throws IllegalArgumentException, which invoke does not catch.
   */
  lemma InvokeArgumentTypeMismatch(bean: Bean, run: HandlerRun)
    ensures var m := Message(Num(5), map["senderId" := Str("s")]);
            InvokeOutcome(ConsumeMethodHolder(bean, Consume01(), NoRedrive), m, run)
              == Err(ArgumentTypeMismatch("consume01", bean.className))
  {
    var m := Message(Num(5), map["senderId" := Str("s")]);
    Consume01Binds(ConsumeMethodHolder(bean, Consume01(), NoRedrive), m);
    Consume01Fits(m);
  }

  /** Under NEVER, consume01 with string values removes the message exactly when it acknowledges. */
  lemma InvokeNeverWithAndWithoutAcknowledge(bean: Bean, m: Message)
    requires "senderId" in m.headers && "optional" in m.headers && "" !in m.headers
    requires m.payload.Str? && m.headers["senderId"].Str? && m.headers["optional"].Str?
    ensures var holder := ConsumeMethodHolder(bean, Consume01(), Never);
            InvokeOutcome(holder, m, HandlerRun(false, true)) == Ok(true)
            && InvokeOutcome(holder, m, HandlerRun(false, false)) == Ok(false)
  {
    Consume01Binds(ConsumeMethodHolder(bean, Consume01(), Never), m);
    Consume01Fits(m);
    assert Consume01Args(m)[5] == AckArg;
  }

  /** consume02(Pair) has an unsupported parameter: invoke throws NotImplementedException. */
  lemma InvokeThrowingException(bean: Bean, m: Message, run: HandlerRun)
    ensures var consume02 := HandlerMethod("consume02", [Parameter("invalid", OtherType("Pair"), false, false, None)],
                                           Some(SqsListenerAnnotation(["consume2"], NoRedrive)));
            InvokeOutcome(ConsumeMethodHolder(bean, consume02, NoRedrive), m, run)
              == Err(NotImplemented("invalid", "consume02", bean.className))
  {
  }
}

/**
 * Descriptors that stand in for Java reflection: the declared type and annotations of a
 * handler parameter, a handler method, the bean that owns it, and the listener annotation.
 */
module Reflection {

  import opened Wrappers

  /**
   * The declared Java type of a handler parameter, as far as binding distinguishes it.
   * OtherType covers every class not listed (String, a user class, MessageHeaders, ...).
   */
  datatype JavaType =
    | MessageType
    | MapType
    | HeaderAccessorType
    | AcknowledgmentType
    | ObjectType
    | OtherType(name: string)

  /**
   * Class.isAssignableFrom: may a value of class `from` be passed where `to` is declared?
   * Of the types named here only Object is a proper supertype of another.
   */
  predicate AssignableFrom(to: JavaType, from: JavaType)
  {
    to == from || to == ObjectType
  }

  /** The attributes of a @Header annotation; name and value both default to "". */
  datatype HeaderAnnotation = HeaderAnnotation(name: string, value: string, required: bool)

  /** One declared parameter: its name, type, and which binding annotations it carries. */
  datatype Parameter = Parameter(
    name: string,
    ty: JavaType,
    headersAnnotated: bool,
    payloadAnnotated: bool,
    header: Option<HeaderAnnotation>)

  /** The deletion policies of the listener library. */
  datatype DeletionPolicy = Always | Never | NoRedrive | OnSuccess

  /** The attributes of an @SqsListener annotation. */
  datatype SqsListenerAnnotation = SqsListenerAnnotation(value: seq<string>, deletionPolicy: DeletionPolicy)

  /** A declared method: its name, its parameters in declaration order, and its @SqsListener. */
  datatype HandlerMethod = HandlerMethod(name: string, parameters: seq<Parameter>, listener: Option<SqsListenerAnnotation>)

  /**
   * A bean: an identity (Java object identity), the simple name of its class, and the
   * methods its target class declares, in the order getDeclaredMethods returns them
   * (an order Java leaves unspecified).
   */
  datatype Bean = Bean(identity: nat, className: string, declaredMethods: seq<HandlerMethod>)
}

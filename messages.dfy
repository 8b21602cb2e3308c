/**
 * Messages as the queue engine sees them: an opaque payload and a map of headers.
 * The Spring message and header types are library code; only what the engine reads is kept.
 */
module Messages {

  /** Java's 32-bit int range, used for the visibility timeouts stored as Integer. */
  const IntMin: int := -0x8000_0000
  const IntMax: int := 0x7fff_ffff
  type Int32 = x: int | IntMin <= x <= IntMax

  /** Class names used by payload conversion. */
  const ObjectClass: string := "java.lang.Object"
  const StringClass: string := "java.lang.String"
  const NumberClass: string := "java.lang.Number"
  const LongClass: string := "java.lang.Long"
  const UuidClass: string := "java.util.UUID"

  /**
   * A Java value carried as a payload or a header value: null, a string, an integral
   * number (a Long), or any other object, given by its class name and its toString text.
   */
  datatype Value =
    | Null
    | Str(s: string)
    | Num(n: int)
    | Obj(cls: string, text: string)

  datatype Message = Message(payload: Value, headers: map<string, Value>)

  /** The well-known header keys. */
  const IdHeader: string := "id"
  const ReceiptHandleHeader: string := "ReceiptHandle"
  /** The value of the library constant SqsMessageHeaders.SQS_DELAY_HEADER. */
  const DelayHeader: string := "delay"

  /** The runtime class of a non-null value. */
  function ClassOf(v: Value): (c: string)
    requires v != Null
  {
    match v
    case Str(_) => StringClass
    case Num(_) => LongClass
    case Obj(cls, _) => cls
  }

  /**
   * Class.isInstance for the classes the model knows: every object is an Object,
   * a Long is a Number, and otherwise the class must match exactly.
   */
  predicate InstanceOf(v: Value, target: string)
  {
    v != Null && (target == ObjectClass || target == ClassOf(v) || (v.Num? && target == NumberClass))
  }

  /** Decimal text of a natural number. */
  function NatText(n: nat): (t: string)
    ensures |t| > 0
    decreases n
  {
    var d := ['0', '1', '2', '3', '4', '5', '6', '7', '8', '9'][n % 10];
    if n < 10 then [d] else NatText(n / 10) + [d]
  }

  /** Objects.toString of a non-null value. */
  function Text(v: Value): string
  {
    match v
    case Null => "null"
    case Str(s) => s
    case Num(n) => if n < 0 then "-" + NatText(-n) else NatText(n)
    case Obj(_, text) => text
  }

  /**
   * The key a message is known by in the visibility-override table: the text of its
   * id header, or the empty string when the message has no id.
   */
  function IdKey(m: Message): (k: string)
    ensures IdHeader !in m.headers || m.headers[IdHeader] == Null ==> k == ""
    ensures IdHeader in m.headers && m.headers[IdHeader] != Null ==> k == Text(m.headers[IdHeader])
    ensures IdHeader in m.headers && m.headers[IdHeader].Str? ==> k == m.headers[IdHeader].s
  {
    if IdHeader in m.headers && m.headers[IdHeader] != Null then Text(m.headers[IdHeader]) else ""
  }
}

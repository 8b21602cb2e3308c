/**
 * The bean post-processor that wires @SqsListener methods to the template: for each
 * annotated method of a bean it asks the template to register (after initialization)
 * or unregister (before destruction) the method on the queues its annotation names.
 * The template calls are returned as a sequence of call records; the embedded value
 * resolver is the parameter `resolve` (None stands for a null resolution).
 */
module ListenerProcessing {

  import opened Wrappers
  import opened Reflection

  /** Java's String.trim strips every character up to and including U+0020. */
  predicate IsTrimmed(c: char)
  {
    c <= ' '
  }

  predicate AllTrimmed(s: string)
  {
    forall i :: 0 <= i < |s| ==> IsTrimmed(s[i])
  }

  /** s without its leading characters up to U+0020. */
  function TrimStart(s: string): (r: string)
    ensures |r| <= |s| && r == s[|s| - |r|..]
    ensures AllTrimmed(s[..|s| - |r|])
    ensures |r| > 0 ==> !IsTrimmed(r[0])
  {
    if |s| > 0 && IsTrimmed(s[0]) then
      var r := TrimStart(s[1..]);
      assert s[..|s| - |r|] == [s[0]] + s[1..][..|s[1..]| - |r|];
      r
    else s
  }

  /** s without its trailing characters up to U+0020. */
  function TrimEnd(s: string): (r: string)
    ensures |r| <= |s| && r == s[..|r|]
    ensures AllTrimmed(s[|r|..])
    ensures |r| > 0 ==> !IsTrimmed(r[|r| - 1])
  {
    if |s| > 0 && IsTrimmed(s[|s| - 1]) then
      var r := TrimEnd(s[..|s| - 1]);
      assert s[|r|..] == s[..|s| - 1][|r|..] + [s[|s| - 1]];
      r
    else s
  }

  /** String.trim. */
  function Trim(s: string): (r: string)
  {
    TrimEnd(TrimStart(s))
  }

  /**
   * trim keeps a middle part of the string, and what it cuts off at either end is made
   * of characters up to U+0020.
   */
  lemma TrimKeepsTheMiddle(s: string)
    ensures exists i, j :: 0 <= i <= j <= |s| && Trim(s) == s[i..j] && AllTrimmed(s[..i]) && AllTrimmed(s[j..])
  {
    var t := TrimStart(s);
    var i := |s| - |t|;
    var r := TrimEnd(t);
    var j := i + |r|;
    assert r == s[i..j];
    assert s[j..] == t[|r|..];
    assert 0 <= i <= j <= |s| && Trim(s) == s[i..j] && AllTrimmed(s[..i]) && AllTrimmed(s[j..]);
  }

  /** What trim keeps neither starts nor ends with a character up to U+0020. */
  lemma TrimmedEnds(s: string)
    ensures |Trim(s)| > 0 ==> !IsTrimmed(Trim(s)[0]) && !IsTrimmed(Trim(s)[|Trim(s)| - 1])
  {
    var t := TrimStart(s);
    var r := TrimEnd(t);
    if |r| > 0 {
      assert r[0] == t[0];
    }
  }

  /** Trimming twice is trimming once. */
  lemma TrimIdempotent(s: string)
    ensures Trim(Trim(s)) == Trim(s)
  {
    var r := Trim(s);
    TrimmedEnds(s);
    assert TrimStart(r) == r;
    assert TrimEnd(r) == r;
  }

  /** The pieces of s between commas, empty ones included (the regex split before the trailing cleanup). */
  function SplitAll(s: string): (pieces: seq<string>)
    ensures |pieces| > 0
    ensures forall i :: 0 <= i < |pieces| ==> ',' !in pieces[i]
    ensures JoinComma(pieces) == s
    decreases |s|
  {
    if ',' !in s then [s]
    else
      var k := FirstComma(s);
      assert s == s[..k] + [','] + s[k + 1..];
      [s[..k]] + SplitAll(s[k + 1..])
  }

  /** The index of the first comma. */
  function FirstComma(s: string): (k: nat)
    requires ',' in s
    ensures k < |s| && s[k] == ',' && ',' !in s[..k]
  {
    if s[0] == ',' then 0
    else
      assert ',' in s[1..] by {
        var i :| 0 <= i < |s| && s[i] == ',';
        assert s[1..][i - 1] == ',';
      }
      var k := FirstComma(s[1..]);
      assert s[..k + 1] == [s[0]] + s[1..][..k];
      k + 1
  }

  /** The pieces joined back with commas: String.join(",", pieces). */
  function JoinComma(pieces: seq<string>): string
    requires |pieces| > 0
  {
    if |pieces| == 1 then pieces[0] else pieces[0] + "," + JoinComma(pieces[1..])
  }

  /** Splitting a comma-join of comma-free pieces gives the pieces back. */
  lemma {:induction false} SplitJoin(pieces: seq<string>)
    requires |pieces| > 0
    requires forall i :: 0 <= i < |pieces| ==> ',' !in pieces[i]
    ensures SplitAll(JoinComma(pieces)) == pieces
  {
    if |pieces| > 1 {
      SplitAtFirstPiece(pieces[0], JoinComma(pieces[1..]));
      SplitJoin(pieces[1..]);
    }
  }

  /** Splitting a comma-free prefix, a comma and the rest yields the prefix, then the rest's pieces. */
  lemma SplitAtFirstPiece(a: string, rest: string)
    requires ',' !in a
    ensures SplitAll(a + "," + rest) == [a] + SplitAll(rest)
  {
    var s := a + "," + rest;
    assert s[|a|] == ',';
    var k := FirstComma(s);
    assert s[..|a|] == a;
    assert k == |a|;
    assert s[k + 1..] == rest;
  }

  /** The pieces without their trailing empty strings (split's limit 0). */
  function DropTrailingEmpty(pieces: seq<string>): (r: seq<string>)
    ensures |r| <= |pieces| && r == pieces[..|r|]
    ensures forall i :: |r| <= i < |pieces| ==> pieces[i] == ""
    ensures |r| > 0 ==> r[|r| - 1] != ""
  {
    if |pieces| > 0 && pieces[|pieces| - 1] == "" then DropTrailingEmpty(pieces[..|pieces| - 1]) else pieces
  }

  /**
   * String.split(","): the whole string when it has no comma; otherwise its pieces
   * between commas with the trailing empty ones removed.
   */
  function JavaSplitComma(s: string): seq<string>
  {
    if ',' !in s then [s] else DropTrailingEmpty(SplitAll(s))
  }

  /** The pieces of split(",") are comma-free and, joined with the dropped empty ones, give s back. */
  lemma JavaSplitCommaPieces(s: string)
    ensures forall i :: 0 <= i < |JavaSplitComma(s)| ==> ',' !in JavaSplitComma(s)[i]
    ensures ',' in s ==> exists extra :: |JavaSplitComma(s) + extra| > 0
                                         && JoinComma(JavaSplitComma(s) + extra) == s
                                         && forall i :: 0 <= i < |extra| ==> extra[i] == ""
  {
    if ',' in s {
      var all := SplitAll(s);
      var r := DropTrailingEmpty(all);
      var extra := all[|r|..];
      assert JavaSplitComma(s) == r;
      assert forall i :: 0 <= i < |r| ==> r[i] == all[i];
      assert r + extra == all;
      assert |r + extra| > 0 && JoinComma(r + extra) == s && forall i :: 0 <= i < |extra| ==> extra[i] == "";
    }
  }

  /** The queue names of one annotation value: its split(",") pieces, trimmed. */
  function PieceNames(value: string): set<string>
  {
    set p | p in JavaSplitComma(value) :: Trim(p)
  }

  /**
   * The queue names handed to register: every annotation value is resolved, null
   * resolutions are dropped, and the rest are split on commas and trimmed.
   */
  function RegisterQueueNames(values: seq<string>, resolve: string -> Option<string>): set<string>
  {
    if |values| == 0 then {}
    else
      (match resolve(values[0])
       case None => {}
       case Some(v) => PieceNames(v))
      + RegisterQueueNames(values[1..], resolve)
  }

  /** A name is registered exactly when it is the trimmed piece of some value that resolved to a string. */
  lemma {:induction false} RegisterQueueNamesMembers(values: seq<string>, resolve: string -> Option<string>, name: string)
    ensures name in RegisterQueueNames(values, resolve) <==>
              exists i :: 0 <= i < |values| && resolve(values[i]).Some? && name in PieceNames(resolve(values[i]).value)
  {
    if |values| > 0 {
      RegisterQueueNamesMembers(values[1..], resolve, name);
      if name in RegisterQueueNames(values[1..], resolve) {
        var i :| 0 <= i < |values[1..]| && resolve(values[1..][i]).Some? && name in PieceNames(resolve(values[1..][i]).value);
        assert values[i + 1] == values[1..][i];
      }
      if exists i :: 0 <= i < |values| && resolve(values[i]).Some? && name in PieceNames(resolve(values[i]).value) {
        var i :| 0 <= i < |values| && resolve(values[i]).Some? && name in PieceNames(resolve(values[i]).value);
        if i > 0 {
          assert values[1..][i - 1] == values[i];
        }
      }
    }
  }

  /** The values handed to unregister: resolved, with no split, no trim and no null filtering. */
  function UnregisterQueueNames(values: seq<string>, resolve: string -> Option<string>): (names: set<Option<string>>)
    ensures forall i :: 0 <= i < |values| ==> resolve(values[i]) in names
    ensures forall n :: n in names ==> exists i :: 0 <= i < |values| && resolve(values[i]) == n
  {
    set i | 0 <= i < |values| :: resolve(values[i])
  }

  /** A value that resolves to null reaches unregister as null but register not at all. */
  lemma NullResolutionsSkippedOnRegister(values: seq<string>, resolve: string -> Option<string>)
    requires forall i :: 0 <= i < |values| ==> resolve(values[i]).None?
    ensures RegisterQueueNames(values, resolve) == {}
    ensures |values| > 0 ==> UnregisterQueueNames(values, resolve) == {None}
  {
    forall name | name in RegisterQueueNames(values, resolve)
      ensures false
    {
      RegisterQueueNamesMembers(values, resolve, name);
    }
  }

  /**
   * A value with one comma is registered as its two trimmed pieces, but unregistered as
   * the one value, comma and blanks included.
   */
  lemma {:induction false} RegisterAndUnregisterDisagree(x: string, y: string)
    requires ',' !in x && ',' !in y && y != ""
    ensures RegisterQueueNames([x + "," + y], ResolveAsIs) == {Trim(x), Trim(y)}
    ensures UnregisterQueueNames([x + "," + y], ResolveAsIs) == {Some(x + "," + y)}
  {
    var v := x + "," + y;
    PieceNamesOfTwo(x, y);
    var values := [v];
    assert values[1..] == [];
    assert RegisterQueueNames(values, ResolveAsIs) == PieceNames(v) + RegisterQueueNames([], ResolveAsIs);
    var u := UnregisterQueueNames(values, ResolveAsIs);
    assert Some(v) in u;
    forall n | n in u
      ensures n == Some(v)
    {
    }
  }

  /** A value with one comma has the two trimmed pieces around it as its names. */
  lemma PieceNamesOfTwo(x: string, y: string)
    requires ',' !in x && ',' !in y && y != ""
    ensures PieceNames(x + "," + y) == {Trim(x), Trim(y)}
  {
    var v := x + "," + y;
    assert v[|x|] == ',';
    assert JoinComma([x, y]) == v;
    SplitJoin([x, y]);
    assert JavaSplitComma(v) == [x, y];
  }

  /** A resolver that returns every value as it is (no placeholders). */
  function ResolveAsIs(v: string): Option<string>
  {
    Some(v)
  }

  /** A call the post-processor makes on the template. */
  datatype TemplateCall =
    | RegisterCall(bean: Bean, handlerMethod: HandlerMethod, queueNames: set<string>, deletionPolicy: DeletionPolicy)
    | UnregisterCall(bean: Bean, handlerMethod: HandlerMethod, values: set<Option<string>>)

  /** Which hook is running: register after initialization, unregister before destruction. */
  datatype Phase = AfterInitialization | BeforeDestruction

  /** The template call for one annotated method. */
  function CallFor(bean: Bean, handlerMethod: HandlerMethod, annotation: SqsListenerAnnotation, phase: Phase,
                   resolve: string -> Option<string>): (c: TemplateCall)
    ensures c.bean == bean && c.handlerMethod == handlerMethod
    ensures phase == AfterInitialization <==> c.RegisterCall?
    ensures c.RegisterCall? ==> c.queueNames == RegisterQueueNames(annotation.value, resolve)
                                && c.deletionPolicy == annotation.deletionPolicy
    ensures c.UnregisterCall? ==> c.values == UnregisterQueueNames(annotation.value, resolve)
  {
    match phase
    case AfterInitialization =>
      RegisterCall(bean, handlerMethod, RegisterQueueNames(annotation.value, resolve), annotation.deletionPolicy)
    case BeforeDestruction =>
      UnregisterCall(bean, handlerMethod, UnregisterQueueNames(annotation.value, resolve))
  }

  /** The declared methods that carry @SqsListener, in the order the list gives them. */
  function Annotated(methods: seq<HandlerMethod>): (r: seq<HandlerMethod>)
    ensures |r| <= |methods|
    ensures forall i :: 0 <= i < |r| ==> r[i].listener.Some? && r[i] in methods
    ensures forall m :: m in methods && m.listener.Some? ==> m in r
  {
    if |methods| == 0 then []
    else (if methods[0].listener.Some? then [methods[0]] else []) + Annotated(methods[1..])
  }

  /** The calls process makes for a bean's declared methods. */
  function CallsFor(bean: Bean, methods: seq<HandlerMethod>, phase: Phase, resolve: string -> Option<string>)
    : seq<TemplateCall>
  {
    if |methods| == 0 then []
    else
      (if methods[0].listener.Some? then [CallFor(bean, methods[0], methods[0].listener.value, phase, resolve)] else [])
      + CallsFor(bean, methods[1..], phase, resolve)
  }

  /** The calls are those of the annotated methods, one each, in the order of `methods`. */
  lemma {:induction false} CallsForAnnotated(bean: Bean, methods: seq<HandlerMethod>, phase: Phase, resolve: string -> Option<string>)
    ensures var calls := CallsFor(bean, methods, phase, resolve);
            |calls| == |Annotated(methods)|
            && forall i :: 0 <= i < |calls| ==>
                 calls[i] == CallFor(bean, Annotated(methods)[i], Annotated(methods)[i].listener.value, phase, resolve)
  {
    if |methods| > 0 {
      CallsForAnnotated(bean, methods[1..], phase, resolve);
    }
  }

  /** process: for a non-null bean, one template call per annotated method, in the order of `declaredMethods`; none for null. */
  method Process(bean: Option<Bean>, phase: Phase, resolve: string -> Option<string>) returns (calls: seq<TemplateCall>)
    ensures bean.None? ==> calls == []
    ensures bean.Some? ==> calls == CallsFor(bean.value, bean.value.declaredMethods, phase, resolve)
  {
    calls := [];
    if bean.Some? {
      var methods := bean.value.declaredMethods;
      var i := 0;
      while i < |methods|
        invariant 0 <= i <= |methods|
        invariant calls + CallsFor(bean.value, methods[i..], phase, resolve) == CallsFor(bean.value, methods, phase, resolve)
      {
        assert methods[i..][1..] == methods[i + 1..];
        var handlerMethod := methods[i];
        assert CallsFor(bean.value, methods[i..], phase, resolve)
               == (if handlerMethod.listener.Some? then [CallFor(bean.value, handlerMethod, handlerMethod.listener.value, phase, resolve)] else [])
                  + CallsFor(bean.value, methods[i + 1..], phase, resolve);
        if handlerMethod.listener.Some? {
          calls := calls + [CallFor(bean.value, handlerMethod, handlerMethod.listener.value, phase, resolve)];
        }
        i := i + 1;
      }
    }
  }

  /** postProcessAfterInitialization: registers the bean's listeners and returns the bean (null stays null). */
  method PostProcessAfterInitialization(bean: Option<Bean>, beanName: string, resolve: string -> Option<string>)
    returns (result: Option<Bean>, calls: seq<TemplateCall>)
    ensures result == bean
    ensures bean.None? ==> calls == []
    ensures bean.Some? ==> calls == CallsFor(bean.value, bean.value.declaredMethods, AfterInitialization, resolve)
  {
    calls := Process(bean, AfterInitialization, resolve);
    result := bean;
  }

  /** postProcessBeforeDestruction: unregisters the bean's listeners. */
  method PostProcessBeforeDestruction(bean: Option<Bean>, beanName: string, resolve: string -> Option<string>)
    returns (calls: seq<TemplateCall>)
    ensures bean.None? ==> calls == []
    ensures bean.Some? ==> calls == CallsFor(bean.value, bean.value.declaredMethods, BeforeDestruction, resolve)
  {
    calls := Process(bean, BeforeDestruction, resolve);
  }

  /** postProcessBeforeInitialization: the bean, untouched. */
  function PostProcessBeforeInitialization(bean: Option<Bean>, beanName: string): (result: Option<Bean>)
    ensures result == bean
  {
    bean
  }

  /** requiresDestruction: every bean is offered to postProcessBeforeDestruction. */
  function RequiresDestruction(bean: Option<Bean>): (r: bool)
    ensures r
  {
    true
  }

  /**
   * Every annotated method gets exactly one call, naming that method; a method without
   * @SqsListener gets none.
   */
  lemma OneCallPerAnnotatedMethod(bean: Bean, phase: Phase, resolve: string -> Option<string>, m: HandlerMethod)
    ensures var calls := CallsFor(bean, bean.declaredMethods, phase, resolve);
            (m in bean.declaredMethods && m.listener.Some? ==> exists i :: 0 <= i < |calls| && calls[i].handlerMethod == m)
            && (m.listener.None? ==> forall i :: 0 <= i < |calls| ==> calls[i].handlerMethod != m)
  {
    var calls := CallsFor(bean, bean.declaredMethods, phase, resolve);
    var annotated := Annotated(bean.declaredMethods);
    CallsForAnnotated(bean, bean.declaredMethods, phase, resolve);
    if m in bean.declaredMethods && m.listener.Some? {
      var i :| 0 <= i < |annotated| && annotated[i] == m;
      assert calls[i].handlerMethod == m;
    }
  }
}

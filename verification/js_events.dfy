/** `JSEventCreator`: writes the JavaScript that builds a synthetic DOM event
    on a target element variable and optionally dispatches it. Mouse events
    use `initMouseEvent` (section 1.6.2, Mouse event types, of W3C DOM Level 2
    Events); keyboard events use Gecko's `initKeyEvent`. Every positional
    argument is written out: the supplied value verbatim, else its default. */
module JsEvents {
  import opened Wrappers

  /** The scripting engine behind the client port. */
  datatype Engine = Mozilla | OtherEngine

  /** A creator: the name of the script variable holding the target element,
      and the engine of its client port. */
  datatype Creator = Creator(target: string, engine: Engine)

  /** The two constructor shapes. */
  datatype EventShape = MouseShape | KeyboardShape

  /** A positional argument of an init call: its parameter name and default. */
  datatype Slot = Slot(name: string, default: string)

  /** The fourteen arguments of `initMouseEvent` after the type. */
  const MouseSlots: seq<Slot> := [
    Slot("bubbles", "true"), Slot("cancelable", "true"), Slot("windowObject", "null"),
    Slot("detail", "0"), Slot("screenX", "0"), Slot("screenY", "0"),
    Slot("clientX", "0"), Slot("clientY", "0"),
    Slot("ctrlKey", "false"), Slot("altKey", "false"), Slot("shiftKey", "false"), Slot("metaKey", "false"),
    Slot("button", "0"), Slot("relatedTarget", "null")
  ]

  /** The nine arguments of `initKeyEvent` after the type. */
  const KeyboardSlots: seq<Slot> := [
    Slot("bubbles", "true"), Slot("cancelable", "true"), Slot("windowObject", "null"),
    Slot("ctrlKey", "false"), Slot("altKey", "false"), Slot("shiftKey", "false"), Slot("metaKey", "false"),
    Slot("keyCode", "0"), Slot("charCode", "0")
  ]

  function SlotsOf(shape: EventShape): seq<Slot> {
    match shape
    case MouseShape => MouseSlots
    case KeyboardShape => KeyboardSlots
  }

  /** The event type names that take the keyboard shape. */
  const KeyboardEventTypes: set<string> := {"keydown", "keypress", "keyup"}

  /** The shape of an event type, chosen from its name alone. */
  function ShapeOf(eventType: string): EventShape {
    if eventType in KeyboardEventTypes then KeyboardShape else MouseShape
  }

  /** The DOM event type of an event name: a leading `on` is dropped. */
  function StripOn(eventName: string): (r: string)
    ensures "on" <= eventName ==> "on" + r == eventName
    ensures !("on" <= eventName) ==> r == eventName
  {
    if "on" <= eventName then eventName[2..] else eventName
  }

  /** The argument values: for each slot, the supplied value as given, or
      the slot's default when nothing is supplied under its name. */
  function ArgumentValues(slots: seq<Slot>, parameters: map<string, string>): (vs: seq<string>)
    ensures |vs| == |slots|
    ensures forall k :: 0 <= k < |slots| && slots[k].name in parameters ==> vs[k] == parameters[slots[k].name]
    ensures forall k :: 0 <= k < |slots| && slots[k].name !in parameters ==> vs[k] == slots[k].default
  {
    if |slots| == 0 then []
    else
      var v := if slots[0].name in parameters then parameters[slots[0].name] else slots[0].default;
      [v] + ArgumentValues(slots[1..], parameters)
  }

  /** Comma-separated list, built left to right. */
  function Join(vs: seq<string>): string {
    if |vs| == 0 then "" else if |vs| == 1 then vs[0] else Join(vs[..|vs| - 1]) + "," + vs[|vs| - 1]
  }

  /** The event module `createEvent` is asked for. */
  function EventModule(shape: EventShape): string {
    match shape
    case MouseShape => "MouseEvents"
    case KeyboardShape => "KeyboardEvent"
  }

  /** The init method of the event object. */
  function InitMethod(shape: EventShape): string {
    match shape
    case MouseShape => "initMouseEvent"
    case KeyboardShape => "initKeyEvent"
  }

  /** The statement creating the event from the target's document. */
  function CreateStatement(target: string, shape: EventShape): string {
    "var event = " + target + ".ownerDocument.createEvent(\"" + EventModule(shape) + "\");"
  }

  /** The init call up to and including the quoted event type. */
  function InitOpening(shape: EventShape, eventType: string): string {
    "event." + InitMethod(shape) + "('" + eventType + "',"
  }

  /** The positional arguments after the type, and the end of the call. */
  function ArgumentList(slots: seq<Slot>, parameters: map<string, string>): string {
    Join(ArgumentValues(slots, parameters)) + ");"
  }

  /** The construction statements of an event. */
  function InitCommand(target: string, shape: EventShape, eventType: string, parameters: map<string, string>): string {
    CreateStatement(target, shape) + InitOpening(shape, eventType) + ArgumentList(SlotsOf(shape), parameters)
  }

  /** The statement that dispatches the event and leaves its result as the value. */
  function DispatchTail(target: string): string {
    "var res = " + target + ".dispatchEvent(event);" + " if(res){true;}else{false;};"
  }

  /** `CreateMouseEventCommand`: the mouse construction, no dispatch. */
  function CreateMouseEventCommand(c: Creator, eventType: string, parameters: map<string, string>): (cmd: string)
    ensures CreateStatement(c.target, MouseShape) <= cmd
  {
    InitCommand(c.target, MouseShape, eventType, parameters)
  }

  /** `CreateKeyboardEventForMozilla`: the Gecko keyboard construction, no dispatch. */
  function CreateKeyboardEventForMozilla(c: Creator, eventType: string, parameters: map<string, string>): (cmd: string)
    ensures CreateStatement(c.target, KeyboardShape) <= cmd
  {
    InitCommand(c.target, KeyboardShape, eventType, parameters)
  }

  /** A keyboard event asked of an engine that has no keyboard shape here. */
  datatype EventError = NoKeyboardShape(engine: Engine)

  /** `CreateEvent`: strips `on`, picks the shape from the event type, and
      appends the dispatch statement when `returnResult` is set. */
  function CreateEvent(c: Creator, eventName: string, parameters: map<string, string>, returnResult: bool): (r: Result<string, EventError>)
    ensures r.Failure? <==> ShapeOf(StripOn(eventName)) == KeyboardShape && c.engine != Mozilla
    ensures r.Success? && ShapeOf(StripOn(eventName)) == MouseShape ==>
      r.value == CreateMouseEventCommand(c, StripOn(eventName), parameters) + (if returnResult then DispatchTail(c.target) else "")
    ensures r.Success? && ShapeOf(StripOn(eventName)) == KeyboardShape ==>
      r.value == CreateKeyboardEventForMozilla(c, StripOn(eventName), parameters) + (if returnResult then DispatchTail(c.target) else "")
  {
    var eventType := StripOn(eventName);
    var shape := ShapeOf(eventType);
    if shape == KeyboardShape && c.engine != Mozilla then Failure(NoKeyboardShape(c.engine))
    else
      var command := InitCommand(c.target, shape, eventType, parameters);
      Success(if returnResult then command + DispatchTail(c.target) else command)
  }

  // ----- Reading a command back -----

  /** Splits at every comma. */
  function Split(s: string): (parts: seq<string>)
    ensures |parts| >= 1
  {
    if |s| == 0 then [""]
    else
      var rest := Split(s[1..]);
      if s[0] == ',' then [""] + rest else [[s[0]] + rest[0]] + rest[1..]
  }

  /** Index of the first occurrence of `c`, or `|s|` when there is none. */
  function IndexOf(s: string, c: char): (i: nat)
    ensures i <= |s|
    ensures forall k :: 0 <= k < i ==> s[k] != c
    ensures i < |s| ==> s[i] == c
  {
    if |s| == 0 then 0 else if s[0] == c then 0 else 1 + IndexOf(s[1..], c)
  }

  /** What a construction command says: its shape, event type and arguments. */
  datatype DecodedEvent = DecodedEvent(shape: EventShape, eventType: string, arguments: seq<string>)

  /** Reads construction statements back: the create statement fixes the
      shape, the quoted text the type, and the comma-separated rest up to
      `);` the arguments. */
  function DecodeInitCommand(target: string, cmd: string): Option<DecodedEvent> {
    if CreateStatement(target, MouseShape) <= cmd then
      DecodeInitCall(MouseShape, cmd[|CreateStatement(target, MouseShape)|..])
    else if CreateStatement(target, KeyboardShape) <= cmd then
      DecodeInitCall(KeyboardShape, cmd[|CreateStatement(target, KeyboardShape)|..])
    else None
  }

  function DecodeInitCall(shape: EventShape, call: string): Option<DecodedEvent> {
    var opening := "event." + InitMethod(shape) + "('";
    if !(opening <= call) then None
    else
      var body := call[|opening|..];
      var q := IndexOf(body, '\'');
      if q + 2 > |body| || body[q + 1] != ',' then None
      else
        var tail := body[q + 2..];
        if |tail| < 2 || tail[|tail| - 2..] != ");" then None
        else Some(DecodedEvent(shape, body[..q], Split(tail[..|tail| - 2])))
  }

  /** Splitting at a comma splits the two sides separately. */
  lemma {:induction false} SplitAtComma(a: string, b: string)
    ensures Split(a + "," + b) == Split(a) + Split(b)
    decreases |a|
  {
    var s := a + "," + b;
    if |a| == 0 {
      assert s == "," + b;
      assert s[0] == ',' && s[1..] == b;
    } else {
      assert s[0] == a[0] && s[1..] == a[1..] + "," + b;
      SplitAtComma(a[1..], b);
    }
  }

  /** A comma-free string is one part. */
  lemma {:induction false} SplitCommaFree(v: string)
    requires ',' !in v
    ensures Split(v) == [v]
    decreases |v|
  {
    if |v| > 0 {
      SplitCommaFree(v[1..]);
      assert [v[0]] + v[1..] == v;
    }
  }

  /** Splitting undoes joining, as long as no value holds a comma. */
  lemma {:induction false} SplitJoin(vs: seq<string>)
    requires |vs| >= 1
    requires forall k :: 0 <= k < |vs| ==> ',' !in vs[k]
    ensures Split(Join(vs)) == vs
    decreases |vs|
  {
    if |vs| == 1 {
      SplitCommaFree(vs[0]);
    } else {
      var init := vs[..|vs| - 1];
      SplitJoin(init);
      SplitAtComma(Join(init), vs[|vs| - 1]);
      SplitCommaFree(vs[|vs| - 1]);
      assert vs == init + [vs[|vs| - 1]];
    }
  }

  /** The two create statements differ inside their common length, so
      neither construction can be read as the other. */
  lemma CreateStatementsDiffer(target: string, cmd: string)
    requires CreateStatement(target, KeyboardShape) <= cmd
    ensures !(CreateStatement(target, MouseShape) <= cmd)
  {
    var k := |"var event = " + target + ".ownerDocument.createEvent(\""|;
    assert CreateStatement(target, KeyboardShape)[k] == 'K';
    assert CreateStatement(target, MouseShape)[k] == 'M';
  }

  /** Reading a quoted type and arguments after any opening text. */
  lemma ReadQuotedCall(opening: string, eventType: string, args: string)
    requires '\'' !in eventType
    ensures var body := (opening + eventType + "'," + (args + ");"))[|opening|..];
      var q := IndexOf(body, '\'');
      q == |eventType| && q + 2 <= |body| && body[q + 1] == ',' && body[..q] == eventType
      && body[q + 2..] == args + ");"
  {
    var body := (opening + eventType + "'," + (args + ");"))[|opening|..];
    assert body == eventType + ("'," + (args + ");"));
    assert body[|eventType|] == '\'';
  }

  /** Past the create statement, the quoted type and the arguments are read back. */
  lemma DecodeInitCallRoundTrip(shape: EventShape, eventType: string, args: string)
    requires '\'' !in eventType
    ensures DecodeInitCall(shape, InitOpening(shape, eventType) + (args + ");"))
      == Some(DecodedEvent(shape, eventType, Split(args)))
  {
    var opening := "event." + InitMethod(shape) + "('";
    var call := InitOpening(shape, eventType) + (args + ");");
    assert call == opening + eventType + "'," + (args + ");");
    ReadQuotedCall(opening, eventType, args);
    var tail := args + ");";
    assert tail[|tail| - 2..] == ");";
    assert tail[..|tail| - 2] == args;
  }

  /** No slot's default holds a comma. */
  lemma DefaultsAreCommaFree(slots: seq<Slot>)
    requires slots == MouseSlots || slots == KeyboardSlots
    ensures forall k :: 0 <= k < |slots| ==> ',' !in slots[k].default
  {
  }

  /** When neither the defaults nor the supplied values hold a comma, no
      argument value does. */
  lemma ArgumentValuesCommaFree(slots: seq<Slot>, parameters: map<string, string>)
    requires forall k :: 0 <= k < |slots| ==> ',' !in slots[k].default
    requires forall k :: 0 <= k < |slots| && slots[k].name in parameters ==> ',' !in parameters[slots[k].name]
    ensures forall k :: 0 <= k < |ArgumentValues(slots, parameters)| ==> ',' !in ArgumentValues(slots, parameters)[k]
  {
  }

  /** The create statement selects the shape and is skipped. */
  lemma DecodeAfterCreate(target: string, shape: EventShape, call: string)
    ensures DecodeInitCommand(target, CreateStatement(target, shape) + call) == DecodeInitCall(shape, call)
  {
    var create := CreateStatement(target, shape);
    var cmd := create + call;
    assert create <= cmd;
    assert cmd[|create|..] == call;
    if shape == KeyboardShape {
      CreateStatementsDiffer(target, cmd);
    }
  }

  /** Reading construction statements back gives their shape, type and exact
      argument values, provided the type holds no quote and no value holds a
      comma: the serialiser loses nothing. */
  lemma DecodeInitCommandRoundTrip(target: string, shape: EventShape, eventType: string, parameters: map<string, string>)
    requires '\'' !in eventType
    requires forall k :: 0 <= k < |SlotsOf(shape)| && SlotsOf(shape)[k].name in parameters ==> ',' !in parameters[SlotsOf(shape)[k].name]
    ensures DecodeInitCommand(target, InitCommand(target, shape, eventType, parameters))
      == Some(DecodedEvent(shape, eventType, ArgumentValues(SlotsOf(shape), parameters)))
  {
    var vs := ArgumentValues(SlotsOf(shape), parameters);
    var call := InitOpening(shape, eventType) + (Join(vs) + ");");
    assert InitCommand(target, shape, eventType, parameters) == CreateStatement(target, shape) + call;
    DecodeAfterCreate(target, shape, call);
    DecodeInitCallRoundTrip(shape, eventType, Join(vs));
    DefaultsAreCommaFree(SlotsOf(shape));
    ArgumentValuesCommaFree(SlotsOf(shape), parameters);
    SplitJoin(vs);
  }

  /** A parameter under a name no slot has changes nothing. */
  lemma {:induction false} UnusedParameter(slots: seq<Slot>, parameters: map<string, string>, key: string)
    requires forall k :: 0 <= k < |slots| ==> slots[k].name != key
    ensures ArgumentValues(slots, parameters) == ArgumentValues(slots, parameters - {key})
    decreases |slots|
  {
    if |slots| > 0 {
      assert slots[0].name != key;
      UnusedParameter(slots[1..], parameters, key);
    }
  }

  /** No slot of either shape is called `type`. */
  lemma NoSlotIsCalledType(slots: seq<Slot>)
    requires slots == MouseSlots || slots == KeyboardSlots
    ensures forall k :: 0 <= k < |slots| ==> slots[k].name != "type"
  {
  }

  /** The `type` entry of the parameters is never used: the type slot comes
      from the event name. */
  lemma TypeParameterIsIgnored(c: Creator, eventType: string, parameters: map<string, string>)
    ensures CreateMouseEventCommand(c, eventType, parameters) == CreateMouseEventCommand(c, eventType, parameters - {"type"})
    ensures CreateKeyboardEventForMozilla(c, eventType, parameters) == CreateKeyboardEventForMozilla(c, eventType, parameters - {"type"})
  {
    NoSlotIsCalledType(MouseSlots);
    NoSlotIsCalledType(KeyboardSlots);
    UnusedParameter(MouseSlots, parameters, "type");
    UnusedParameter(KeyboardSlots, parameters, "type");
  }

  /** The keyboard shape never comes out as the mouse shape. */
  lemma KeyboardNeverMouse(c: Creator, eventName: string, parameters: map<string, string>, returnResult: bool)
    requires StripOn(eventName) in KeyboardEventTypes && c.engine == Mozilla
    ensures CreateEvent(c, eventName, parameters, returnResult).Success?
    ensures CreateStatement(c.target, KeyboardShape) <= CreateEvent(c, eventName, parameters, returnResult).value
    ensures !(CreateStatement(c.target, MouseShape) <= CreateEvent(c, eventName, parameters, returnResult).value)
  {
    var cmd := CreateEvent(c, eventName, parameters, returnResult).value;
    var init := CreateKeyboardEventForMozilla(c, StripOn(eventName), parameters);
    assert CreateStatement(c.target, KeyboardShape) <= init;
    CreateStatementsDiffer(c.target, cmd);
  }

  /** A prefix stays a prefix when the longer string is extended. */
  lemma PrefixExtends(a: string, b: string, c: string)
    requires a <= b
    ensures a <= b + c
  {
    assert (b + c)[..|a|] == b[..|a|];
  }

  /** A concatenation ends with its right part. */
  lemma EndsWith(a: string, b: string)
    ensures (a + b)[|a + b| - |b|..] == b
  {
  }

  /** Whatever the shape, a dispatched command is its construction followed
      by the dispatch tail. */
  lemma DispatchedCommand(c: Creator, eventName: string, parameters: map<string, string>)
    requires CreateEvent(c, eventName, parameters, true).Success?
    ensures var shape := ShapeOf(StripOn(eventName));
      CreateEvent(c, eventName, parameters, true).value
        == InitCommand(c.target, shape, StripOn(eventName), parameters) + DispatchTail(c.target)
  {
  }

  /** The target's name is the receiver of both `ownerDocument.createEvent`
      and `dispatchEvent`: a dispatched command starts with the create
      statement on the target and ends with the dispatch on the target. */
  lemma TargetNamesBothCalls(c: Creator, eventName: string, parameters: map<string, string>)
    requires CreateEvent(c, eventName, parameters, true).Success?
    ensures var cmd := CreateEvent(c, eventName, parameters, true).value;
      && "var event = " + c.target + ".ownerDocument.createEvent(\"" <= cmd
      && cmd[|cmd| - |DispatchTail(c.target)|..] == DispatchTail(c.target)
      && "var res = " + c.target + ".dispatchEvent(event);" <= DispatchTail(c.target)
  {
    var shape := ShapeOf(StripOn(eventName));
    var head := "var event = " + c.target + ".ownerDocument.createEvent(\"";
    var withModule := head + EventModule(shape);
    var create := withModule + "\");";
    var opening := create + InitOpening(shape, StripOn(eventName));
    var init := opening + ArgumentList(SlotsOf(shape), parameters);
    DispatchedCommand(c, eventName, parameters);
    assert head <= head;
    PrefixExtends(head, head, EventModule(shape));
    PrefixExtends(head, withModule, "\");");
    PrefixExtends(head, create, InitOpening(shape, StripOn(eventName)));
    PrefixExtends(head, opening, ArgumentList(SlotsOf(shape), parameters));
    PrefixExtends(head, init, DispatchTail(c.target));
    EndsWith(init, DispatchTail(c.target));
    var dispatch := "var res = " + c.target + ".dispatchEvent(event);";
    assert dispatch <= dispatch;
    PrefixExtends(dispatch, dispatch, " if(res){true;}else{false;};");
  }

  // ----- The commands the tests expect -----
  //
  // Each expected command below is written as one group of pieces per
  // statement; read together the pieces spell the exact text the
  // serialiser's tests compare against.

  lemma JoinFirst(vs: seq<string>)
    requires |vs| >= 1
    ensures Join(vs[..1]) == vs[0]
  {
  }

  /** One more value joined onto a known prefix. */
  lemma JoinStep(vs: seq<string>, k: nat, prefix: string)
    requires 1 <= k < |vs| && Join(vs[..k]) == prefix
    ensures Join(vs[..k + 1]) == prefix + "," + vs[k]
  {
    assert vs[..k + 1][..k] == vs[..k];
  }

  /** Joining two non-empty lists puts one comma between their joins. */
  lemma {:induction false} JoinConcat(a: seq<string>, b: seq<string>)
    requires |a| >= 1 && |b| >= 1
    ensures Join(a + b) == Join(a) + "," + Join(b)
    decreases |b|
  {
    var ab := a + b;
    if |b| == 1 {
      assert ab[..|ab| - 1] == a;
    } else {
      var init := b[..|b| - 1];
      JoinConcat(a, init);
      assert ab[..|ab| - 1] == a + init;
    }
  }

  // The Join...Part lemmas below split each test's argument list into chunks
  // only to keep every proof within the solver's resource budget; JoinConcat
  // puts the chunks back together.

  lemma JoinMouseDefaultsPart1(vs: seq<string>)
    requires |vs| == 4
    requires vs[0] == "true" && vs[1] == "true" && vs[2] == "null" && vs[3] == "0"
    ensures Join(vs) == "true,true,null,0"
  {
    JoinFirst(vs);
    JoinStep(vs, 1, "true");
    JoinStep(vs, 2, "true,true");
    JoinStep(vs, 3, "true,true,null");
    assert vs[..4] == vs;
  }

  lemma JoinMouseDefaultsPart2(vs: seq<string>)
    requires |vs| == 4
    requires vs[0] == "0" && vs[1] == "0" && vs[2] == "0" && vs[3] == "0"
    ensures Join(vs) == "0,0,0,0"
  {
    JoinFirst(vs);
    JoinStep(vs, 1, "0");
    JoinStep(vs, 2, "0,0");
    JoinStep(vs, 3, "0,0,0");
    assert vs[..4] == vs;
  }

  lemma JoinMouseDefaultsPart3(vs: seq<string>)
    requires |vs| == 3
    requires vs[0] == "false" && vs[1] == "false" && vs[2] == "false"
    ensures Join(vs) == "false,false,false"
  {
    JoinFirst(vs);
    JoinStep(vs, 1, "false");
    JoinStep(vs, 2, "false,false");
    assert vs[..3] == vs;
  }

  lemma JoinMouseDefaultsPart4(vs: seq<string>)
    requires |vs| == 3
    requires vs[0] == "false" && vs[1] == "0" && vs[2] == "null"
    ensures Join(vs) == "false,0,null"
  {
    JoinFirst(vs);
    JoinStep(vs, 1, "false");
    JoinStep(vs, 2, "false,0");
    assert vs[..3] == vs;
  }

  /** The fourteen mouse defaults, joined. */
  lemma JoinMouseDefaults(vs: seq<string>)
    requires vs ==
      ["true", "true", "null", "0", "0", "0", "0", "0", "false", "false", "false", "false", "0",
       "null"]
    ensures Join(vs) ==
      "true,true,null,0" + "," + "0,0,0,0" + "," + "false,false,false" + "," + "false,0,null"
  {
    JoinMouseDefaultsPart1(vs[..4]);
    JoinMouseDefaultsPart2(vs[4..8]);
    JoinMouseDefaultsPart3(vs[8..11]);
    JoinMouseDefaultsPart4(vs[11..]);
    JoinConcat(vs[..4], vs[4..8]);
    assert vs[..4] + vs[4..8] == vs[..8];
    JoinConcat(vs[..8], vs[8..11]);
    assert vs[..8] + vs[8..11] == vs[..11];
    JoinConcat(vs[..11], vs[11..]);
    assert vs[..11] + vs[11..] == vs;
  }

  lemma JoinMouseNamesPart1(vs: seq<string>)
    requires |vs| == 2
    requires vs[0] == "bubbles" && vs[1] == "cancelable"
    ensures Join(vs) == "bubbles,cancelable"
  {
    JoinFirst(vs);
    JoinStep(vs, 1, "bubbles");
    assert vs[..2] == vs;
  }

  lemma JoinMouseNamesPart2(vs: seq<string>)
    requires |vs| == 2
    requires vs[0] == "windowObject" && vs[1] == "detail"
    ensures Join(vs) == "windowObject,detail"
  {
    JoinFirst(vs);
    JoinStep(vs, 1, "windowObject");
    assert vs[..2] == vs;
  }

  lemma JoinMouseNamesPart3(vs: seq<string>)
    requires |vs| == 3
    requires vs[0] == "screenX" && vs[1] == "screenY" && vs[2] == "clientX"
    ensures Join(vs) == "screenX,screenY,clientX"
  {
    JoinFirst(vs);
    JoinStep(vs, 1, "screenX");
    JoinStep(vs, 2, "screenX,screenY");
    assert vs[..3] == vs;
  }

  lemma JoinMouseNamesPart4(vs: seq<string>)
    requires |vs| == 3
    requires vs[0] == "clientY" && vs[1] == "ctrlKey" && vs[2] == "altKey"
    ensures Join(vs) == "clientY,ctrlKey,altKey"
  {
    JoinFirst(vs);
    JoinStep(vs, 1, "clientY");
    JoinStep(vs, 2, "clientY,ctrlKey");
    assert vs[..3] == vs;
  }

  lemma JoinMouseNamesPart5(vs: seq<string>)
    requires |vs| == 2
    requires vs[0] == "shiftKey" && vs[1] == "metaKey"
    ensures Join(vs) == "shiftKey,metaKey"
  {
    JoinFirst(vs);
    JoinStep(vs, 1, "shiftKey");
    assert vs[..2] == vs;
  }

  lemma JoinMouseNamesPart6(vs: seq<string>)
    requires |vs| == 2
    requires vs[0] == "button" && vs[1] == "relatedTarget"
    ensures Join(vs) == "button,relatedTarget"
  {
    JoinFirst(vs);
    JoinStep(vs, 1, "button");
    assert vs[..2] == vs;
  }

  /** The fourteen mouse slot names, joined. */
  lemma JoinMouseNames(vs: seq<string>)
    requires vs ==
      ["bubbles", "cancelable", "windowObject", "detail", "screenX", "screenY", "clientX",
       "clientY", "ctrlKey", "altKey", "shiftKey", "metaKey", "button", "relatedTarget"]
    ensures Join(vs) ==
      "bubbles,cancelable" + "," + "windowObject,detail" + "," + "screenX,screenY,clientX" + "," + "clientY,ctrlKey,altKey" + "," + "shiftKey,metaKey" + "," + "button,relatedTarget"
  {
    JoinMouseNamesPart1(vs[..2]);
    JoinMouseNamesPart2(vs[2..4]);
    JoinMouseNamesPart3(vs[4..7]);
    JoinMouseNamesPart4(vs[7..10]);
    JoinMouseNamesPart5(vs[10..12]);
    JoinMouseNamesPart6(vs[12..]);
    JoinConcat(vs[..2], vs[2..4]);
    assert vs[..2] + vs[2..4] == vs[..4];
    JoinConcat(vs[..4], vs[4..7]);
    assert vs[..4] + vs[4..7] == vs[..7];
    JoinConcat(vs[..7], vs[7..10]);
    assert vs[..7] + vs[7..10] == vs[..10];
    JoinConcat(vs[..10], vs[10..12]);
    assert vs[..10] + vs[10..12] == vs[..12];
    JoinConcat(vs[..12], vs[12..]);
    assert vs[..12] + vs[12..] == vs;
  }

  lemma JoinKeyboardDefaultsPart1(vs: seq<string>)
    requires |vs| == 3
    requires vs[0] == "true" && vs[1] == "true" && vs[2] == "null"
    ensures Join(vs) == "true,true,null"
  {
    JoinFirst(vs);
    JoinStep(vs, 1, "true");
    JoinStep(vs, 2, "true,true");
    assert vs[..3] == vs;
  }

  lemma JoinKeyboardDefaultsPart2(vs: seq<string>)
    requires |vs| == 3
    requires vs[0] == "false" && vs[1] == "false" && vs[2] == "false"
    ensures Join(vs) == "false,false,false"
  {
    JoinFirst(vs);
    JoinStep(vs, 1, "false");
    JoinStep(vs, 2, "false,false");
    assert vs[..3] == vs;
  }

  lemma JoinKeyboardDefaultsPart3(vs: seq<string>)
    requires |vs| == 3
    requires vs[0] == "false" && vs[1] == "0" && vs[2] == "0"
    ensures Join(vs) == "false,0,0"
  {
    JoinFirst(vs);
    JoinStep(vs, 1, "false");
    JoinStep(vs, 2, "false,0");
    assert vs[..3] == vs;
  }

  /** The nine keyboard defaults, joined. */
  lemma JoinKeyboardDefaults(vs: seq<string>)
    requires vs ==
      ["true", "true", "null", "false", "false", "false", "false", "0", "0"]
    ensures Join(vs) ==
      "true,true,null" + "," + "false,false,false" + "," + "false,0,0"
  {
    JoinKeyboardDefaultsPart1(vs[..3]);
    JoinKeyboardDefaultsPart2(vs[3..6]);
    JoinKeyboardDefaultsPart3(vs[6..]);
    JoinConcat(vs[..3], vs[3..6]);
    assert vs[..3] + vs[3..6] == vs[..6];
    JoinConcat(vs[..6], vs[6..]);
    assert vs[..6] + vs[6..] == vs;
  }

  lemma JoinKeyboardNamesPart1(vs: seq<string>)
    requires |vs| == 2
    requires vs[0] == "bubbles" && vs[1] == "cancelable"
    ensures Join(vs) == "bubbles,cancelable"
  {
    JoinFirst(vs);
    JoinStep(vs, 1, "bubbles");
    assert vs[..2] == vs;
  }

  lemma JoinKeyboardNamesPart2(vs: seq<string>)
    requires |vs| == 2
    requires vs[0] == "windowObject" && vs[1] == "ctrlKey"
    ensures Join(vs) == "windowObject,ctrlKey"
  {
    JoinFirst(vs);
    JoinStep(vs, 1, "windowObject");
    assert vs[..2] == vs;
  }

  lemma JoinKeyboardNamesPart3(vs: seq<string>)
    requires |vs| == 2
    requires vs[0] == "altKey" && vs[1] == "shiftKey"
    ensures Join(vs) == "altKey,shiftKey"
  {
    JoinFirst(vs);
    JoinStep(vs, 1, "altKey");
    assert vs[..2] == vs;
  }

  lemma JoinKeyboardNamesPart4(vs: seq<string>)
    requires |vs| == 3
    requires vs[0] == "metaKey" && vs[1] == "keyCode" && vs[2] == "charCode"
    ensures Join(vs) == "metaKey,keyCode,charCode"
  {
    JoinFirst(vs);
    JoinStep(vs, 1, "metaKey");
    JoinStep(vs, 2, "metaKey,keyCode");
    assert vs[..3] == vs;
  }

  /** The nine keyboard slot names, joined. */
  lemma JoinKeyboardNames(vs: seq<string>)
    requires vs ==
      ["bubbles", "cancelable", "windowObject", "ctrlKey", "altKey", "shiftKey", "metaKey",
       "keyCode", "charCode"]
    ensures Join(vs) ==
      "bubbles,cancelable" + "," + "windowObject,ctrlKey" + "," + "altKey,shiftKey" + "," + "metaKey,keyCode,charCode"
  {
    JoinKeyboardNamesPart1(vs[..2]);
    JoinKeyboardNamesPart2(vs[2..4]);
    JoinKeyboardNamesPart3(vs[4..6]);
    JoinKeyboardNamesPart4(vs[6..]);
    JoinConcat(vs[..2], vs[2..4]);
    assert vs[..2] + vs[2..4] == vs[..4];
    JoinConcat(vs[..4], vs[4..6]);
    assert vs[..4] + vs[4..6] == vs[..6];
    JoinConcat(vs[..6], vs[6..]);
    assert vs[..6] + vs[6..] == vs;
  }


  /** With nothing supplied, the mouse arguments are the defaults. */
  lemma MouseDefaultValues(slots: seq<Slot>, parameters: map<string, string>)
    requires slots == MouseSlots && parameters == map[]
    ensures ArgumentValues(slots, parameters) ==
      ["true", "true", "null", "0", "0", "0", "0", "0", "false", "false", "false", "false", "0",
       "null"]
  {
    var vs := ArgumentValues(slots, parameters);
    assert forall k :: 0 <= k < |slots| ==> vs[k] == slots[k].default;
  }

  /** With nothing supplied, the keyboard arguments are the defaults. */
  lemma KeyboardDefaultValues(slots: seq<Slot>, parameters: map<string, string>)
    requires slots == KeyboardSlots && parameters == map[]
    ensures ArgumentValues(slots, parameters) ==
      ["true", "true", "null", "false", "false", "false", "false", "0", "0"]
  {
    var vs := ArgumentValues(slots, parameters);
    assert forall k :: 0 <= k < |slots| ==> vs[k] == slots[k].default;
  }

  /** Every slot has a value supplied, and it is the slot's own name. */
  predicate SuppliesOwnNames(slots: seq<Slot>, parameters: map<string, string>) {
    forall k :: 0 <= k < |slots| ==> slots[k].name in parameters && parameters[slots[k].name] == slots[k].name
  }

  /** With every mouse slot supplied under its own name, the arguments are
      the names, in `initMouseEvent` order. */
  lemma MouseNamedValues(slots: seq<Slot>, parameters: map<string, string>)
    requires slots == MouseSlots && SuppliesOwnNames(slots, parameters)
    ensures ArgumentValues(slots, parameters) ==
      ["bubbles", "cancelable", "windowObject", "detail", "screenX", "screenY", "clientX",
       "clientY", "ctrlKey", "altKey", "shiftKey", "metaKey", "button", "relatedTarget"]
  {
    var vs := ArgumentValues(slots, parameters);
    assert forall k :: 0 <= k < |slots| ==> vs[k] == slots[k].name;
  }

  /** With every keyboard slot supplied under its own name, the arguments
      are the names, in `initKeyEvent` order. */
  lemma KeyboardNamedValues(slots: seq<Slot>, parameters: map<string, string>)
    requires slots == KeyboardSlots && SuppliesOwnNames(slots, parameters)
    ensures ArgumentValues(slots, parameters) ==
      ["bubbles", "cancelable", "windowObject", "ctrlKey", "altKey", "shiftKey", "metaKey",
       "keyCode", "charCode"]
  {
    var vs := ArgumentValues(slots, parameters);
    assert forall k :: 0 <= k < |slots| ==> vs[k] == slots[k].name;
  }

  /** With nothing supplied, the mouse argument list of the tests. */
  lemma MouseDefaultArgumentList(slots: seq<Slot>, parameters: map<string, string>)
    requires slots == MouseSlots && parameters == map[]
    ensures ArgumentList(slots, parameters)
      == "true,true,null,0" + "," + "0,0,0,0" + "," + "false,false,false" + "," + "false,0,null" + ");"
  {
    MouseDefaultValues(slots, parameters);
    JoinMouseDefaults(ArgumentValues(slots, parameters));
  }

  /** With nothing supplied, the keyboard argument list of the tests. */
  lemma KeyboardDefaultArgumentList(slots: seq<Slot>, parameters: map<string, string>)
    requires slots == KeyboardSlots && parameters == map[]
    ensures ArgumentList(slots, parameters) == "true,true,null" + "," + "false,false,false" + "," + "false,0,0" + ");"
  {
    KeyboardDefaultValues(slots, parameters);
    JoinKeyboardDefaults(ArgumentValues(slots, parameters));
  }

  /** `onmousedown` with nothing supplied, dispatched, on the target `test`:
      the exact command of FireEventTests. */
  lemma MouseDownDefaultsCommand(c: Creator, parameters: map<string, string>)
    requires c.target == "test" && parameters == map[]
    ensures CreateEvent(c, "onmousedown", parameters, true) == Success(
      ("var event = " + "test" + ".ownerDocument.createEvent(\"" + "MouseEvents" + "\");")
      + ("event." + "initMouseEvent" + "('" + "mousedown" + "',")
      + ("true,true,null,0" + "," + "0,0,0,0" + "," + "false,false,false" + "," + "false,0,null" + ");")
      + ("var res = " + "test" + ".dispatchEvent(event);" + " if(res){true;}else{false;};"))
  {
    assert StripOn("onmousedown") == "mousedown";
    MouseDefaultArgumentList(MouseSlots, parameters);
  }

  /** `click`, which has no `on` to strip, with nothing supplied and
      dispatched: the exact command of FireEventTests. */
  lemma ClickDefaultsCommand(c: Creator, parameters: map<string, string>)
    requires c.target == "test" && parameters == map[]
    ensures CreateEvent(c, "click", parameters, true) == Success(
      ("var event = " + "test" + ".ownerDocument.createEvent(\"" + "MouseEvents" + "\");")
      + ("event." + "initMouseEvent" + "('" + "click" + "',")
      + ("true,true,null,0" + "," + "0,0,0,0" + "," + "false,false,false" + "," + "false,0,null" + ");")
      + ("var res = " + "test" + ".dispatchEvent(event);" + " if(res){true;}else{false;};"))
  {
    assert "click"[0] != "on"[0];
    assert StripOn("click") == "click";
    assert ShapeOf("click") == MouseShape;
    MouseDefaultArgumentList(MouseSlots, parameters);
  }

  /** Every mouse slot supplied under its own name, no dispatch: the exact
      command of FireEventTests. */
  lemma MouseNamedCommand(c: Creator, parameters: map<string, string>)
    requires c.target == "test" && SuppliesOwnNames(MouseSlots, parameters)
    ensures CreateMouseEventCommand(c, "mousedown", parameters) ==
      ("var event = " + "test" + ".ownerDocument.createEvent(\"" + "MouseEvents" + "\");")
      + ("event." + "initMouseEvent" + "('" + "mousedown" + "',")
      + ("bubbles,cancelable" + "," + "windowObject,detail" + "," + "screenX,screenY,clientX" + ","
         + "clientY,ctrlKey,altKey" + "," + "shiftKey,metaKey" + "," + "button,relatedTarget" + ");")
  {
    MouseNamedValues(MouseSlots, parameters);
    JoinMouseNames(ArgumentValues(MouseSlots, parameters));
  }

  /** `onkeydown` on the Gecko engine with nothing supplied, dispatched: the
      exact command of FireEventTests. */
  lemma KeyDownDefaultsCommand(c: Creator, parameters: map<string, string>)
    requires c.target == "test" && c.engine == Mozilla && parameters == map[]
    ensures CreateEvent(c, "onkeydown", parameters, true) == Success(
      ("var event = " + "test" + ".ownerDocument.createEvent(\"" + "KeyboardEvent" + "\");")
      + ("event." + "initKeyEvent" + "('" + "keydown" + "',")
      + ("true,true,null" + "," + "false,false,false" + "," + "false,0,0" + ");")
      + ("var res = " + "test" + ".dispatchEvent(event);" + " if(res){true;}else{false;};"))
  {
    assert StripOn("onkeydown") == "keydown";
    KeyboardDefaultArgumentList(KeyboardSlots, parameters);
  }

  /** Every keyboard slot supplied under its own name, no dispatch: the
      exact command of FireEventTests. */
  lemma KeyNamedCommand(c: Creator, parameters: map<string, string>)
    requires c.target == "test" && SuppliesOwnNames(KeyboardSlots, parameters)
    ensures CreateKeyboardEventForMozilla(c, "keydown", parameters) ==
      ("var event = " + "test" + ".ownerDocument.createEvent(\"" + "KeyboardEvent" + "\");")
      + ("event." + "initKeyEvent" + "('" + "keydown" + "',")
      + ("bubbles,cancelable" + "," + "windowObject,ctrlKey" + "," + "altKey,shiftKey" + ","
         + "metaKey,keyCode,charCode" + ");")
  {
    KeyboardNamedValues(KeyboardSlots, parameters);
    JoinKeyboardNames(ArgumentValues(KeyboardSlots, parameters));
  }
}

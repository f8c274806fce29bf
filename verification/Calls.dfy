/** Calls between JavaScript and native code: ExternalCall, which lets JavaScript call a native
    function, and InternalCall, which lets native code call a JavaScript function
    (src/module.cpp). */
module Calls {
  import opened Options
  import opened Conversions

  datatype Property = Property(type_: ValueType, isRef: bool)

  datatype Method = Method(params: seq<Property>, ret: ValueType)

  /** One 64-bit parameter: the value itself, or the address of a cell. */
  datatype Slot = Immediate(value: Native) | Pointer(cell: nat)

  /** What a JavaScript function does when called. */
  datatype Completion = Throws | Returns(value: JsValue)

  type JsFunction = seq<JsValue> -> Completion

  /** What a native function does to the cells it was given, and the value it returns directly. */
  datatype Reply = Reply(cells: seq<Native>, value: Native)

  type NativeFunction = (seq<Slot>, seq<Native>) -> Reply

  /** What JavaScript sees of a call. */
  datatype Answer = Threw | Answered(value: JsValue)

  /** Types whose values are passed by address even when the parameter is by value. */
  predicate ByAddress(t: ValueType) {
    t.Vec? || (t.One? && (t.scalar.Text? || t.scalar.Opaque?))
  }

  /** The parameter has a cell in the caller's storage. */
  predicate InStorage(p: Property) {
    p.isRef || ByAddress(p.type_)
  }

  /** ValueUtils::IsHiddenParam: the result is written to a cell whose address is passed first. Some
      types that are passed by address are returned directly. */
  predicate Hidden(t: ValueType) {
    ByAddress(t) && !(t.One? && t.scalar.Opaque? && t.scalar.direct)
  }

  /** The value-initialised value of a type: the fallback return, and the initial hidden cell. */
  function Default(t: ValueType): Native {
    match t
    case Void => NBool(false)
    case Vec(_) => NVector([])
    case One(Bool) => NBool(false)
    case One(Integer(_, _)) => NInteger(0)
    case One(Char16) => NUnit(0)
    case One(Text) => NText([])
    case One(Opaque(class_, _)) => NOpaque(class_, 0)
  }

  // ---------------------------------------------------------------- ExternalCall

  datatype ArgsScope = ArgsScope(params: seq<Slot>, storage: seq<Native>)

  function BeginExternalCall(ret: ValueType): ArgsScope {
    if Hidden(ret) then ArgsScope([Pointer(0)], [Default(ret)]) else ArgsScope([], [])
  }

  /** PushObjectAsParam and PushObjectAsRefParam. */
  function Push(p: Property, v: JsValue, a: ArgsScope): Option<ArgsScope> {
    match FromJs(p.type_, v)
    case None => None
    case Some(n) =>
      Some(if InStorage(p) then ArgsScope(a.params + [Pointer(|a.storage|)], a.storage + [n])
           else ArgsScope(a.params + [Immediate(n)], a.storage))
  }

  /** The arguments pushed so far, and for each reference parameter the cell it was given. */
  datatype Pushed = Pushed(scope: ArgsScope, refs: seq<nat>)

  /** The first loop of ExternalCall, from the i-th parameter on. */
  function PushAll(params: seq<Property>, args: seq<JsValue>, i: nat, pushed: Pushed): Option<Pushed>
    requires i <= |params| == |args|
    decreases |params| - i
  {
    if i == |params| then Some(pushed)
    else
      var refs := if params[i].isRef then pushed.refs + [|pushed.scope.storage|] else pushed.refs;
      match Push(params[i], args[i], pushed.scope)
      case None => None
      case Some(scope) => PushAll(params, args, i + 1, Pushed(scope, refs))
  }

  function Call(callee: NativeFunction, a: ArgsScope, ret: ValueType): (Option<JsValue>, seq<Native>) {
    var reply := callee(a.params, a.storage);
    var result :=
      if ret.Void? then Some(Undefined)
      else if Hidden(ret) then (if reply.cells == [] then None else ToJs(ret, reply.cells[0]))
      else ToJs(ret, reply.value);
    (result, reply.cells)
  }

  function CellToJs(t: ValueType, cells: seq<Native>, c: nat): Option<JsValue> {
    if c < |cells| then ToJs(t, cells[c]) else None
  }

  /** The second loop: the reference parameters from the i-th parameter on, read from the cells
      recorded for them from the j-th on. */
  function Collect(params: seq<Property>, cells: seq<Native>, refs: seq<nat>, i: nat, j: nat): Option<seq<JsValue>>
    requires i <= |params|
    decreases |params| - i
  {
    if i == |params| then Some([])
    else if !params[i].isRef then Collect(params, cells, refs, i + 1, j)
    else if j >= |refs| then None
    else
      match CellToJs(params[i].type_, cells, refs[j])
      case None => None
      case Some(v) =>
        match Collect(params, cells, refs, i + 1, j + 1)
        case None => None
        case Some(vs) => Some([v] + vs)
  }

  function ExternalCall(m: Method, args: seq<JsValue>, callee: NativeFunction): Answer {
    if |args| != |m.params| then Threw
    else
      match PushAll(m.params, args, 0, Pushed(BeginExternalCall(m.ret), []))
      case None => Threw
      case Some(pushed) =>
        match Call(callee, pushed.scope, m.ret)
        case (None, _) => Threw
        case (Some(result), cells) =>
          if pushed.refs == [] then Answered(result)
          else
            match Collect(m.params, cells, pushed.refs, 0, 0)
            case None => Threw
            case Some(vs) => Answered(Array([result] + vs))
  }

  // ---------------------------------------------------------------- InternalCall

  /** The number of reference parameters among the first i. */
  function RefCount(params: seq<Property>, i: nat): (k: nat)
    requires i <= |params|
    ensures k <= i
  {
    if i == 0 then 0 else RefCount(params, i - 1) + if params[i - 1].isRef then 1 else 0
  }

  /** ParamToObject and ParamRefToObject. */
  function ReadParam(p: Property, slot: Slot, cells: seq<Native>): Option<JsValue> {
    if !InStorage(p) then (if slot.Immediate? then ToJs(p.type_, slot.value) else None)
    else if slot.Pointer? then CellToJs(p.type_, cells, slot.cell)
    else None
  }

  function ReadAll(params: seq<Property>, slots: seq<Slot>, cells: seq<Native>, i: nat): Option<seq<JsValue>>
    requires i <= |params| <= |slots|
    decreases |params| - i
  {
    if i == |params| then Some([])
    else
      match (ReadParam(params[i], slots[i], cells), ReadAll(params, slots, cells, i + 1))
      case (Some(v), Some(vs)) => Some([v] + vs)
      case _ => None
  }

  /** SetRefParam: an element that does not convert leaves the cell as it is. */
  function SetRefParam(p: Property, v: JsValue, slot: Slot, cells: seq<Native>): (cells': seq<Native>)
    ensures |cells'| == |cells|
  {
    var n := FromJs(p.type_, v);
    if n.Some? && slot.Pointer? && slot.cell < |cells| then cells[slot.cell := n.value] else cells
  }

  /** The loop that hands the elements 1, 2, ... of the result to the reference parameters, from the
      i-th parameter on, with k elements handed out so far. */
  function SetRefs(params: seq<Property>, slots: seq<Slot>, cells: seq<Native>, elements: seq<JsValue>, i: nat, k: nat)
    : (cells': seq<Native>)
    requires i <= |params| <= |slots| && k == RefCount(params, i)
    requires |elements| == 1 + RefCount(params, |params|)
    ensures |cells'| == |cells|
    decreases |params| - i
  {
    if i == |params| then cells
    else if !params[i].isRef then SetRefs(params, slots, cells, elements, i + 1, k)
    else
      RefCountMonotone(params, i + 1, |params|);
      var cells' := SetRefParam(params[i], elements[1 + k], slots[i], cells);
      if k + 1 == RefCount(params, |params|) then cells'
      else SetRefs(params, slots, cells', elements, i + 1, k + 1)
  }

  lemma {:induction false} RefCountMonotone(params: seq<Property>, i: nat, j: nat)
    requires i <= j <= |params|
    ensures RefCount(params, i) <= RefCount(params, j)
    decreases j - i
  {
    if i < j { RefCountMonotone(params, i, j - 1); }
  }

  /** SetReturn, or the fallback where it fails. */
  function ReturnValue(ret: ValueType, v: JsValue): Native {
    if ret.Void? then Default(ret)
    else
      match FromJs(ret, v)
      case None => Default(ret)
      case Some(n) => n
  }

  function InternalCall(m: Method, f: JsFunction, slots: seq<Slot>, cells: seq<Native>): Reply
    requires |m.params| <= |slots|
  {
    match ReadAll(m.params, slots, cells, 0)
    case None => Reply(cells, Default(m.ret))
    case Some(args) =>
      match f(args)
      case Throws => Reply(cells, Default(m.ret))
      case Returns(result) =>
        var refs := RefCount(m.params, |m.params|);
        if refs == 0 then Reply(cells, ReturnValue(m.ret, result))
        else if !result.Array? || |result.elements| != 1 + refs then Reply(cells, Default(m.ret))
        else
          Reply(SetRefs(m.params, slots, cells, result.elements, 0, 0), ReturnValue(m.ret, result.elements[0]))
  }

  /** The native address that stands for a JavaScript function: the generated code hands the
      parameters on, and a hidden result to the cell passed for it. */
  function Trampoline(m: Method, f: JsFunction): NativeFunction {
    (slots: seq<Slot>, cells: seq<Native>) =>
      var hidden := Hidden(m.ret);
      if |slots| < |m.params| + (if hidden then 1 else 0) then Reply(cells, Default(m.ret))
      else
        var reply := InternalCall(m, f, if hidden then slots[1..] else slots, cells);
        if hidden && slots[0].Pointer? && slots[0].cell < |reply.cells| then
          Reply(reply.cells[slots[0].cell := reply.value], reply.value)
        else reply
  }
}

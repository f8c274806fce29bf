/** The two calls as the code performs them: loops over the signature that fill a bounded storage and
    read it back, and loops that write results through the addresses they were given. */
module CallMethods {
  import opened Options
  import opened Conversions
  import opened Calls
  import opened CallTransparency

  /** The parameters and the bounded storage of one external call. */
  class ArgsBuffer {
    var params: seq<Slot>
    var storage: seq<Native>
    const capacity: nat

    ghost function Scope(): ArgsScope
      reads this
    {
      ArgsScope(params, storage)
    }

    constructor (capacity: nat)
      ensures Scope() == ArgsScope([], []) && this.capacity == capacity
    {
      params, storage := [], [];
      this.capacity := capacity;
    }

    /** storage.emplace_back, which fails beyond the capacity: its address. */
    method EmplaceBack(n: Native) returns (address: Slot)
      requires |storage| < capacity
      modifies `storage
      ensures storage == old(storage) + [n] && address == Pointer(|old(storage)|)
    {
      address := Pointer(|storage|);
      storage := storage + [n];
    }

    method Begin(ret: ValueType)
      requires Scope() == ArgsScope([], []) && capacity > 0 && Hidden(ret)
      modifies this
      ensures Scope() == BeginExternalCall(ret)
    {
      var value := EmplaceBack(Default(ret));
      params := params + [value];
    }

    method PushObjectAsParam(p: Property, item: JsValue) returns (pushed: bool)
      requires |storage| < capacity && !p.isRef
      modifies this
      ensures pushed <==> Push(p, item, old(Scope())).Some?
      ensures pushed ==> Scope() == Push(p, item, old(Scope())).value
    {
      var value := FromJs(p.type_, item);
      if value.None? {
        return false;
      }
      var slot := Immediate(value.value);
      if ByAddress(p.type_) {
        slot := EmplaceBack(value.value);
      }
      params := params + [slot];
      return true;
    }

    method PushObjectAsRefParam(p: Property, item: JsValue) returns (pushed: bool)
      requires |storage| < capacity && p.isRef
      modifies this
      ensures pushed <==> Push(p, item, old(Scope())).Some?
      ensures pushed ==> Scope() == Push(p, item, old(Scope())).value
    {
      var value := FromJs(p.type_, item);
      if value.None? {
        return false;
      }
      var slot := EmplaceBack(value.value);
      params := params + [slot];
      return true;
    }
  }

  /** The first loop: None if an argument does not convert. The storage has room for all of it. */
  method PushArguments(m: Method, args: seq<JsValue>, a: ArgsBuffer) returns (refs: Option<seq<nat>>)
    requires |args| == |m.params| && a.Scope() == BeginExternalCall(m.ret) && a.capacity == |args| + 1
    modifies a
    ensures var all := PushAll(m.params, args, 0, Pushed(BeginExternalCall(m.ret), []));
      if refs.Some? then all == Some(Pushed(a.Scope(), refs.value)) else all == None
  {
    var refStorageIndices: seq<nat> := [];
    ghost var begun := Pushed(BeginExternalCall(m.ret), []);
    var i := 0;
    while i < |args|
      invariant i <= |args| && LaidOut(m, args, i, Pushed(a.Scope(), refStorageIndices))
      invariant PushAll(m.params, args, i, Pushed(a.Scope(), refStorageIndices)) ==
                PushAll(m.params, args, 0, begun)
    {
      ghost var before := Pushed(a.Scope(), refStorageIndices);
      CellCountMonotone(m.params, i, |args|);
      var pushed: bool;
      if m.params[i].isRef {
        refStorageIndices := refStorageIndices + [|a.storage|];
        pushed := a.PushObjectAsRefParam(m.params[i], args[i]);
      } else {
        pushed := a.PushObjectAsParam(m.params[i], args[i]);
      }
      if !pushed {
        return None;
      }
      LaidOutNext(m, args, i, before, Pushed(a.Scope(), refStorageIndices));
      i := i + 1;
    }
    return Some(refStorageIndices);
  }

  lemma LaidOutNext(m: Method, args: seq<JsValue>, i: nat, before: Pushed, after: Pushed)
    requires i < |m.params| == |args| && LaidOut(m, args, i, before)
    requires Push(m.params[i], args[i], before.scope) == Some(after.scope)
    requires after.refs == if m.params[i].isRef then before.refs + [|before.scope.storage|] else before.refs
    ensures LaidOut(m, args, i + 1, after)
  {
    forall k | 0 <= k < i + 1 ensures Placed(m, args, k, after) {
      assert k < i ==> Placed(m, args, k, before);
    }
  }

  /** The second loop: the new values of the reference parameters. */
  method CollectRefs(params: seq<Property>, cells: seq<Native>, refs: seq<nat>) returns (values: Option<seq<JsValue>>)
    ensures values == Collect(params, cells, refs, 0, 0)
  {
    var collected: seq<JsValue> := [];
    var i, j := 0, 0;
    assert forall rest: seq<JsValue> :: collected + rest == rest;
    while i < |params|
      invariant i <= |params|
      invariant Collect(params, cells, refs, 0, 0) ==
        match Collect(params, cells, refs, i, j)
        case None => None
        case Some(rest) => Some(collected + rest)
    {
      if params[i].isRef {
        if j >= |refs| {
          return None;
        }
        var ref := CellToJs(params[i].type_, cells, refs[j]);
        if ref.None? {
          return None;
        }
        assert forall rest :: collected + ([ref.value] + rest) == (collected + [ref.value]) + rest;
        collected := collected + [ref.value];
        j := j + 1;
      }
      i := i + 1;
    }
    assert collected + [] == collected;
    return Some(collected);
  }

  /** JavaScript calls a native function. */
  method CallExternal(m: Method, args: seq<JsValue>, callee: NativeFunction) returns (answer: Answer)
    ensures answer == ExternalCall(m, args, callee)
  {
    if |args| != |m.params| {
      return Threw;
    }
    var a := new ArgsBuffer(|m.params| + 1);
    if Hidden(m.ret) {
      a.Begin(m.ret);
    }
    var refs := PushArguments(m, args, a);
    if refs.None? {
      return Threw;
    }
    var (result, cells) := Call(callee, ArgsScope(a.params, a.storage), m.ret);
    if result.None? {
      return Threw;
    }
    if refs.value == [] {
      return Answered(result.value);
    }
    var values := CollectRefs(m.params, cells, refs.value);
    if values.None? {
      return Threw;
    }
    return Answered(Array([result.value] + values.value));
  }

  /** The first loop of InternalCall: the arguments for the JavaScript function. */
  method ReadArguments(params: seq<Property>, slots: seq<Slot>, cells: array<Native>) returns (args: Option<seq<JsValue>>)
    requires |params| <= |slots|
    ensures args == ReadAll(params, slots, cells[..], 0)
  {
    var read: seq<JsValue> := [];
    var index := 0;
    assert forall rest: seq<JsValue> :: read + rest == rest;
    while index < |params|
      invariant index <= |params|
      invariant ReadAll(params, slots, cells[..], 0) ==
        match ReadAll(params, slots, cells[..], index)
        case None => None
        case Some(rest) => Some(read + rest)
    {
      var arg := ReadParam(params[index], slots[index], cells[..]);
      if arg.None? {
        return None;
      }
      assert forall rest :: read + ([arg.value] + rest) == (read + [arg.value]) + rest;
      read := read + [arg.value];
      index := index + 1;
    }
    assert read + [] == read;
    return Some(read);
  }

  /** The second loop of InternalCall: each reference parameter is given its element of the result. */
  method WriteRefs(params: seq<Property>, slots: seq<Slot>, cells: array<Native>, elements: seq<JsValue>)
    requires |params| <= |slots| && |elements| == 1 + RefCount(params, |params|)
    modifies cells
    ensures cells[..] == SetRefs(params, slots, old(cells[..]), elements, 0, 0)
  {
    var k, index := 0, 0;
    while index < |params|
      invariant index <= |params| && k == RefCount(params, index)
      invariant SetRefs(params, slots, cells[..], elements, index, k) ==
                SetRefs(params, slots, old(cells[..]), elements, 0, 0)
    {
      if params[index].isRef {
        RefCountMonotone(params, index + 1, |params|);
        ghost var before := cells[..];
        var value := FromJs(params[index].type_, elements[1 + k]);
        var slot := slots[index];
        if value.Some? && slot.Pointer? && slot.cell < cells.Length {
          cells[slot.cell] := value.value;
        }
        assert cells[..] == SetRefParam(params[index], elements[1 + k], slot, before);
        k := k + 1;
        if k + 1 == |elements| {
          return;
        }
      }
      index := index + 1;
    }
  }

  /** Native code calls a JavaScript function; the result is the value for the return slot. */
  method CallInternal(m: Method, f: JsFunction, slots: seq<Slot>, cells: array<Native>) returns (value: Native)
    requires |m.params| <= |slots|
    modifies cells
    ensures Reply(cells[..], value) == InternalCall(m, f, slots, old(cells[..]))
  {
    var args := ReadArguments(m.params, slots, cells);
    if args.None? {
      return Default(m.ret);
    }
    var completion := f(args.value);
    if completion.Throws? {
      return Default(m.ret);
    }
    var result := completion.value;
    var refs := RefCount(m.params, |m.params|);
    if refs == 0 {
      return ReturnValue(m.ret, result);
    }
    if !result.Array? || |result.elements| != 1 + refs {
      return Default(m.ret);
    }
    WriteRefs(m.params, slots, cells, result.elements);
    return ReturnValue(m.ret, result.elements[0]);
  }
}

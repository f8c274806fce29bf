/** What crosses the border in a call, by the types of the signature alone: which arguments are passed
    as they are and which by address, what a native function's answer becomes, and what a JavaScript
    function that fails answers. */
module CallLayout {
  import opened Options
  import opened Conversions
  import opened Calls
  import opened CallTransparency

  /** Values that fit a 64-bit slot. */
  predicate FitsSlot(t: ValueType) {
    t.One? && (t.scalar.Bool? || t.scalar.Integer? || t.scalar.Char16?)
  }

  /** Results that the caller provides a cell for. */
  predicate NeedsCell(t: ValueType) {
    t.Vec? || (t.One? && (t.scalar.Text? || (t.scalar.Opaque? && !t.scalar.direct)))
  }

  function Extra(ret: ValueType): nat {
    if NeedsCell(ret) then 1 else 0
  }

  /** The slot passes n to a parameter of this kind: as it is, or by the address of a cell. */
  predicate Carries(p: Property, slot: Slot, cells: seq<Native>, n: Native) {
    if !p.isRef && FitsSlot(p.type_) then slot == Immediate(n)
    else slot.Pointer? && slot.cell < |cells| && cells[slot.cell] == n
  }

  lemma ByType(p: Property, ret: ValueType)
    ensures !p.type_.Void? ==> (InStorage(p) <==> p.isRef || !FitsSlot(p.type_))
    ensures HiddenCells(ret) == Extra(ret) && (Hidden(ret) <==> NeedsCell(ret))
  {
  }

  // ---------------------------------------------------------------- from JavaScript to native code

  /** The slot of the k-th argument. */
  function SlotOf(m: Method, slots: seq<Slot>, k: nat): Slot
    requires Extra(m.ret) + k < |slots|
  {
    slots[Extra(m.ret) + k]
  }

  lemma SlotByType(m: Method, args: seq<JsValue>, pushed: Pushed, k: nat)
    requires k < |m.params| == |args| && LaidOut(m, args, |args|, pushed)
    ensures Extra(m.ret) + k < |pushed.scope.params| && FromJs(m.params[k].type_, args[k]).Some?
    ensures var slot := SlotOf(m, pushed.scope.params, k);
      && Carries(m.params[k], slot, pushed.scope.storage, FromJs(m.params[k].type_, args[k]).value)
      && (slot.Pointer? ==> slot.cell == CellOf(m, k) && InStorage(m.params[k]))
  {
    hide FromJs;
    assert Placed(m, args, k, pushed);
    VoidDoesNotConvert(args[k]);
    ByType(m.params[k], m.ret);
  }

  /** Parameters have cells of their own, behind the one of the result. */
  lemma OwnCells(m: Method, i: nat, j: nat)
    requires i < j < |m.params| && InStorage(m.params[i])
    ensures CellOf(m, i) != CellOf(m, j)
  {
    CellsDiffer(m, i, j);
  }

  /** The slots that a native function gets: first, for a result that needs one, the address of a cell;
      then for each argument its converted value, as it is for a boolean, a number or a character by
      value, and otherwise in a cell of its own. */
  lemma SlotsByType(m: Method, args: seq<JsValue>, pushed: Pushed)
    requires |args| == |m.params|
    requires PushAll(m.params, args, 0, Pushed(BeginExternalCall(m.ret), [])) == Some(pushed)
    ensures var slots, cells := pushed.scope.params, pushed.scope.storage;
      && |slots| == Extra(m.ret) + |args|
      && (NeedsCell(m.ret) ==> slots[0] == Pointer(0) && cells != [])
      && (forall k :: 0 <= k < |args| ==>
            && FromJs(m.params[k].type_, args[k]).Some?
            && Carries(m.params[k], SlotOf(m, slots, k), cells, FromJs(m.params[k].type_, args[k]).value)
            && (SlotOf(m, slots, k).Pointer? ==> SlotOf(m, slots, k).cell >= Extra(m.ret)))
      && (forall i, j :: 0 <= i < j < |args| && SlotOf(m, slots, i).Pointer? ==>
            SlotOf(m, slots, i) != SlotOf(m, slots, j))
  {
    hide FromJs, PushAll, Placed, Carries, InStorage, CellCount;
    ArgumentsLaidOut(m, args);
    ByType(Property(Void, false), m.ret);
    var slots := pushed.scope.params;
    forall k | 0 <= k < |args|
      ensures FromJs(m.params[k].type_, args[k]).Some?
      ensures Carries(m.params[k], SlotOf(m, slots, k), pushed.scope.storage, FromJs(m.params[k].type_, args[k]).value)
      ensures SlotOf(m, slots, k).Pointer? ==> SlotOf(m, slots, k).cell >= Extra(m.ret)
    {
      SlotByType(m, args, pushed, k);
    }
    forall i, j | 0 <= i < j < |args| && SlotOf(m, slots, i).Pointer?
      ensures SlotOf(m, slots, i) != SlotOf(m, slots, j)
    {
      SlotByType(m, args, pushed, i);
      SlotByType(m, args, pushed, j);
      OwnCells(m, i, j);
    }
  }

  lemma VoidDoesNotConvert(v: JsValue)
    ensures FromJs(Void, v).None?
  {
  }

  /** Whatever the native function does: what JavaScript gets. */
  ghost predicate AnswersWith(m: Method, pushed: Pushed, reply: Reply, answer: Answer) {
    var slots, extra := pushed.scope.params, Extra(m.ret);
    var result :=
      if m.ret.Void? then Some(Undefined)
      else if NeedsCell(m.ret) then CellToJs(m.ret, reply.cells, 0)
      else ToJs(m.ret, reply.value);
    if result.None? then answer == Threw
    else if forall k :: 0 <= k < |m.params| ==> !m.params[k].isRef then answer == Answered(result.value)
    else if exists k :: 0 <= k < |m.params| && m.params[k].isRef && RefAfter(m, slots, reply.cells, k).None? then
      answer == Threw
    else
      && answer.Answered? && answer.value.Array?
      && |answer.value.elements| == 1 + RefCount(m.params, |m.params|)
      && answer.value.elements[0] == result.value
      && forall k :: 0 <= k < |m.params| && m.params[k].isRef ==> ElementIs(m, slots, reply.cells, answer.value.elements, k)
  }

  /** What the cell whose address was passed for the k-th parameter holds after the call. */
  function RefAfter(m: Method, slots: seq<Slot>, cells: seq<Native>, k: nat): Option<JsValue>
    requires k < |m.params|
  {
    var slot := Extra(m.ret) + k;
    if slot < |slots| && slots[slot].Pointer? then CellToJs(m.params[k].type_, cells, slots[slot].cell) else None
  }

  ghost predicate ElementIs(m: Method, slots: seq<Slot>, cells: seq<Native>, elements: seq<JsValue>, k: nat)
    requires k < |m.params|
  {
    var r := 1 + RefCount(m.params, k);
    r < |elements| && RefAfter(m, slots, cells, k) == Some(elements[r])
  }

  /** What is read for the k-th parameter, a reference, from the cell recorded for it. */
  function RecordedRef(params: seq<Property>, cells: seq<Native>, refs: seq<nat>, k: nat): Option<JsValue>
    requires k < |params|
  {
    var r := RefCount(params, k);
    if r < |refs| then CellToJs(params[k].type_, cells, refs[r]) else None
  }

  lemma {:induction false} CollectStops(params: seq<Property>, cells: seq<Native>, refs: seq<nat>, i: nat, k: nat)
    requires i <= k < |params| && params[k].isRef && RecordedRef(params, cells, refs, k).None?
    ensures Collect(params, cells, refs, i, RefCount(params, i)).None?
    decreases k - i
  {
    hide CellToJs;
    if i < k {
      CollectStops(params, cells, refs, i + 1, k);
    }
  }

  /** The k-th parameter's value among those collected from the i-th parameter on. */
  ghost predicate Collected(
      params: seq<Property>, cells: seq<Native>, refs: seq<nat>, i: nat, vs: seq<JsValue>, k: nat)
    requires i <= k < |params|
  {
    var at := RefCount(params, k) - RefCount(params, i);
    0 <= at < |vs| && RecordedRef(params, cells, refs, k) == Some(vs[at])
  }

  lemma {:induction false} CollectGivesAll(params: seq<Property>, cells: seq<Native>, refs: seq<nat>, i: nat)
    requires i <= |params|
    requires forall k :: i <= k < |params| && params[k].isRef ==> RecordedRef(params, cells, refs, k).Some?
    ensures var vs := Collect(params, cells, refs, i, RefCount(params, i));
      && vs.Some?
      && |vs.value| == RefCount(params, |params|) - RefCount(params, i)
      && forall k :: i <= k < |params| && params[k].isRef ==> Collected(params, cells, refs, i, vs.value, k)
    decreases |params| - i
  {
    hide CellToJs;
    if i < |params| {
      CollectGivesAll(params, cells, refs, i + 1);
      var rest := Collect(params, cells, refs, i + 1, RefCount(params, i + 1)).value;
      var vs := Collect(params, cells, refs, i, RefCount(params, i)).value;
      assert params[i].isRef ==> vs[1..] == rest && RecordedRef(params, cells, refs, i) == Some(vs[0]);
      forall k | i <= k < |params| && params[k].isRef ensures Collected(params, cells, refs, i, vs, k) {
        if k > i {
          assert Collected(params, cells, refs, i + 1, rest, k);
        }
      }
    }
  }

  lemma {:induction false} NoRefs(params: seq<Property>, i: nat)
    requires i <= |params|
    ensures RefCount(params, i) == 0 <==> forall k :: 0 <= k < i ==> !params[k].isRef
  {
    if i > 0 {
      NoRefs(params, i - 1);
    }
  }

  lemma RefsAreRecorded(m: Method, args: seq<JsValue>, pushed: Pushed, cells: seq<Native>, k: nat)
    requires |args| == |m.params| && LaidOut(m, args, |args|, pushed) && k < |m.params| && m.params[k].isRef
    ensures RefAfter(m, pushed.scope.params, cells, k) == RecordedRef(m.params, cells, pushed.refs, k)
  {
    hide FromJs, CellToJs;
    assert Placed(m, args, k, pushed);
    ByType(m.params[k], m.ret);
  }

  /** What is collected, by the parameters. */
  lemma CollectedByParameter(m: Method, args: seq<JsValue>, pushed: Pushed, cells: seq<Native>)
    requires |args| == |m.params| && LaidOut(m, args, |args|, pushed)
    ensures var slots, vs := pushed.scope.params, Collect(m.params, cells, pushed.refs, 0, 0);
      if exists k :: 0 <= k < |m.params| && m.params[k].isRef && RefAfter(m, slots, cells, k).None? then vs.None?
      else
        && vs.Some? && |vs.value| == RefCount(m.params, |m.params|)
        && forall k :: 0 <= k < |m.params| && m.params[k].isRef ==>
             RefCount(m.params, k) < |vs.value| && RefAfter(m, slots, cells, k) == Some(vs.value[RefCount(m.params, k)])
  {
    hide LaidOut, RefAfter, RecordedRef, Collect;
    var slots := pushed.scope.params;
    forall k | 0 <= k < |m.params| && m.params[k].isRef
      ensures RefAfter(m, slots, cells, k) == RecordedRef(m.params, cells, pushed.refs, k)
    {
      RefsAreRecorded(m, args, pushed, cells, k);
    }
    if k :| 0 <= k < |m.params| && m.params[k].isRef && RefAfter(m, slots, cells, k).None? {
      CollectStops(m.params, cells, pushed.refs, 0, k);
    } else {
      CollectGivesAll(m.params, cells, pushed.refs, 0);
      var vs := Collect(m.params, cells, pushed.refs, 0, 0).value;
      forall k | 0 <= k < |m.params| && m.params[k].isRef
        ensures RefCount(m.params, k) < |vs| && RefAfter(m, slots, cells, k) == Some(vs[RefCount(m.params, k)])
      {
        assert Collected(m.params, cells, pushed.refs, 0, vs, k);
      }
    }
  }

  lemma RefsCounted(m: Method, args: seq<JsValue>, pushed: Pushed)
    requires |args| == |m.params| && LaidOut(m, args, |args|, pushed)
    ensures |pushed.refs| == RefCount(m.params, |m.params|)
  {
  }

  lemma PushedAnswers(m: Method, args: seq<JsValue>, callee: NativeFunction, pushed: Pushed)
    requires |args| == |m.params| && LaidOut(m, args, |args|, pushed)
    requires PushAll(m.params, args, 0, Pushed(BeginExternalCall(m.ret), [])) == Some(pushed)
    ensures AnswersWith(m, pushed, callee(pushed.scope.params, pushed.scope.storage), ExternalCall(m, args, callee))
  {
    hide ToJs, Collect, PushAll, RefAfter, LaidOut, RefCount, Hidden, NeedsCell;
    var cells := callee(pushed.scope.params, pushed.scope.storage).cells;
    CollectedByParameter(m, args, pushed, cells);
    NoRefs(m.params, |m.params|);
    ByType(Property(Void, false), m.ret);
    RefsCounted(m, args, pushed);
  }

  /** A call of any native function: JavaScript gets its result, read from the extra cell if the type
      needs one, and after it what the cells of the reference parameters hold afterwards, in the order of
      the parameters. */
  lemma NativeAnswers(m: Method, args: seq<JsValue>, callee: NativeFunction)
    ensures |args| != |m.params| ==> ExternalCall(m, args, callee) == Threw
    ensures |args| == |m.params| ==>
      match PushAll(m.params, args, 0, Pushed(BeginExternalCall(m.ret), []))
      case None => ExternalCall(m, args, callee) == Threw
      case Some(pushed) =>
        AnswersWith(m, pushed, callee(pushed.scope.params, pushed.scope.storage), ExternalCall(m, args, callee))
  {
    hide AnswersWith, PushAll, Collect, Call, LaidOut;
    if |args| == |m.params| {
      ArgumentsLaidOut(m, args);
      match PushAll(m.params, args, 0, Pushed(BeginExternalCall(m.ret), []))
      case None =>
      case Some(pushed) => PushedAnswers(m, args, callee, pushed);
    }
  }

  // ---------------------------------------------------------------- from native code to JavaScript

  /** However native code lays out its arguments: the JavaScript function gets the values that the slots
      carry, in the order of the parameters. */
  lemma {:induction false} NativeArgumentsArrive(
      m: Method, slots: seq<Slot>, cells: seq<Native>, values: seq<Native>, shown: seq<JsValue>, i: nat)
    requires i <= |m.params| == |values| == |shown| <= |slots|
    requires forall k :: 0 <= k < |values| ==>
      Carries(m.params[k], slots[k], cells, values[k]) && ToJs(m.params[k].type_, values[k]) == Some(shown[k])
    ensures ReadAll(m.params, slots, cells, i) == Some(shown[i..])
    decreases |shown| - i
  {
    if i == |shown| {
      assert shown[i..] == [];
    } else {
      ByType(m.params[i], m.ret);
      NativeArgumentsArrive(m, slots, cells, values, shown, i + 1);
      assert shown[i..] == [shown[i]] + shown[i + 1..];
    }
  }

  /** And native code gets the value that it returns, or a default where it throws or returns something
      else; without reference parameters nothing else changes. */
  lemma NativeCallAnswered(
      m: Method, f: JsFunction, slots: seq<Slot>, cells: seq<Native>, values: seq<Native>, shown: seq<JsValue>)
    requires |m.params| == |values| == |shown| <= |slots|
    requires forall k :: 0 <= k < |values| ==>
      Carries(m.params[k], slots[k], cells, values[k]) && ToJs(m.params[k].type_, values[k]) == Some(shown[k])
    requires forall k :: 0 <= k < |m.params| ==> !m.params[k].isRef
    ensures var reply := InternalCall(m, f, slots, cells);
      && reply.cells == cells
      && reply.value ==
           if f(shown).Returns? && FromJs(m.ret, f(shown).value).Some? then FromJs(m.ret, f(shown).value).value
           else Default(m.ret)
  {
    NativeArgumentsArrive(m, slots, cells, values, shown, 0);
    NoRefs(m.params, |m.params|);
    assert shown[0..] == shown;
    hide FromJs, ToJs, ReadAll;
    if f(shown).Returns? {
      VoidDoesNotConvert(f(shown).value);
    }
  }

  /** What JavaScript sees of a default. */
  function Blank(t: ValueType): JsValue {
    match t
    case Void => Undefined
    case Vec(_) => Array([])
    case One(Bool) => Boolean(false)
    case One(Integer(64, _)) => BigInt(0)
    case One(Integer(_, _)) => Number(0)
    case One(Char16) => String([])
    case One(Text) => String([])
    case One(Opaque(class_, _)) => Object(class_, 0)
  }

  /** A JavaScript function that throws, called through both wrappers, answers false, zero, the empty
      string, the empty array or an empty object, or undefined where nothing is returned. */
  lemma ThrowingFunctionAnswersBlank(m: Method, f: JsFunction, args: seq<JsValue>)
    requires AllConvert(m, args) && f(Arguments(m, args)) == Throws
    requires forall k :: 0 <= k < |m.params| ==> !m.params[k].isRef
    ensures ExternalCall(m, args, Trampoline(m, f)) == Answered(Blank(m.ret))
  {
    hide ExternalCall, Arguments, AllConvert, RefCount, Updates, DefaultJs, Blank;
    Transparent(m, f, args);
    NoRefs(m.params, |m.params|);
    DefaultIsBlank(m.ret);
  }

  lemma DefaultIsBlank(t: ValueType)
    ensures DefaultJs(t) == Blank(t)
  {
  }
}

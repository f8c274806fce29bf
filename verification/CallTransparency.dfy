/** Where ExternalCall puts arguments, where InternalCall puts results, and that a JavaScript
    function called through both behaves as if it had been called directly. */
module CallTransparency {
  import opened Options
  import opened Conversions
  import opened Calls

  // ---------------------------------------------------------------- the layout of the storage

  /** The number of cells that the first i parameters take. */
  function CellCount(params: seq<Property>, i: nat): (c: nat)
    requires i <= |params|
    ensures c <= i
  {
    if i == 0 then 0 else CellCount(params, i - 1) + if InStorage(params[i - 1]) then 1 else 0
  }

  function HiddenCells(ret: ValueType): nat {
    if Hidden(ret) then 1 else 0
  }

  /** The cell of the i-th parameter. */
  function CellOf(m: Method, i: nat): nat
    requires i <= |m.params|
  {
    HiddenCells(m.ret) + CellCount(m.params, i)
  }

  lemma {:induction false} CellCountMonotone(params: seq<Property>, i: nat, j: nat)
    requires i <= j <= |params|
    ensures CellCount(params, i) <= CellCount(params, j)
    decreases j - i
  {
    if i < j { CellCountMonotone(params, i, j - 1); }
  }

  /** Different parameters have different cells, in the order of the parameters. */
  lemma CellsDiffer(m: Method, i: nat, j: nat)
    requires i < j < |m.params| && InStorage(m.params[i])
    ensures CellOf(m, i) < CellOf(m, j)
  {
    CellCountMonotone(m.params, i + 1, j);
  }

  /** The first i parameters have been pushed: each converted value is in its slot or in the cell its
      slot points to, and refs lists the cells of the reference parameters in order. */
  ghost predicate LaidOut(m: Method, args: seq<JsValue>, i: nat, pushed: Pushed)
    requires i <= |m.params| == |args|
  {
    var h := HiddenCells(m.ret);
    var slots, cells := pushed.scope.params, pushed.scope.storage;
    && |slots| == h + i && |cells| == CellOf(m, i)
    && (h == 1 ==> slots[0] == Pointer(0) && cells[0] == Default(m.ret))
    && |pushed.refs| == RefCount(m.params, i)
    && forall k :: 0 <= k < i ==> Placed(m, args, k, pushed)
  }

  ghost predicate Placed(m: Method, args: seq<JsValue>, k: nat, pushed: Pushed)
    requires k < |m.params| == |args|
  {
    var slots, cells := pushed.scope.params, pushed.scope.storage;
    var p, slot := m.params[k], HiddenCells(m.ret) + k;
    var n := FromJs(p.type_, args[k]);
    && n.Some? && slot < |slots|
    && (if InStorage(p) then
          slots[slot] == Pointer(CellOf(m, k)) && CellOf(m, k) < |cells| && cells[CellOf(m, k)] == n.value
        else
          slots[slot] == Immediate(n.value))
    && (p.isRef ==> RefCount(m.params, k) < |pushed.refs| && pushed.refs[RefCount(m.params, k)] == CellOf(m, k))
  }

  lemma {:induction false} PushAllLaysOut(m: Method, args: seq<JsValue>, i: nat, pushed: Pushed)
    requires i <= |m.params| == |args| && LaidOut(m, args, i, pushed)
    ensures var all := PushAll(m.params, args, i, pushed);
      && (all.Some? <==> forall k :: i <= k < |args| ==> FromJs(m.params[k].type_, args[k]).Some?)
      && (all.Some? ==> LaidOut(m, args, |args|, all.value))
    decreases |args| - i
  {
    if i < |args| {
      var scope := Push(m.params[i], args[i], pushed.scope);
      if scope.Some? {
        var refs := if m.params[i].isRef then pushed.refs + [|pushed.scope.storage|] else pushed.refs;
        forall k | 0 <= k < i + 1 ensures Placed(m, args, k, Pushed(scope.value, refs)) {
          assert k < i ==> Placed(m, args, k, pushed);
        }
        PushAllLaysOut(m, args, i + 1, Pushed(scope.value, refs));
      }
    }
  }

  /** The marshalled arguments of a call whose arguments all convert: the storage never outgrows the
      parameters and one hidden cell, the recorded cells are strictly increasing, and the one
      recorded for each reference parameter is the one whose address was passed for it. */
  lemma ArgumentsLaidOut(m: Method, args: seq<JsValue>)
    requires |args| == |m.params|
    ensures var all := PushAll(m.params, args, 0, Pushed(BeginExternalCall(m.ret), []));
      && (all.Some? <==> forall k :: 0 <= k < |args| ==> FromJs(m.params[k].type_, args[k]).Some?)
      && (all.Some? ==>
            && LaidOut(m, args, |args|, all.value)
            && |all.value.scope.storage| <= |m.params| + 1)
  {
    PushAllLaysOut(m, args, 0, Pushed(BeginExternalCall(m.ret), []));
  }

  lemma RefCellsIncrease(m: Method, args: seq<JsValue>, pushed: Pushed, i: nat, j: nat)
    requires i < j < |m.params| == |args| && m.params[i].isRef && m.params[j].isRef
    requires LaidOut(m, args, |args|, pushed)
    ensures RefCount(m.params, i) < RefCount(m.params, j) < |pushed.refs|
    ensures pushed.refs[RefCount(m.params, i)] < pushed.refs[RefCount(m.params, j)]
    ensures pushed.scope.params[HiddenCells(m.ret) + j] == Pointer(pushed.refs[RefCount(m.params, j)])
  {
    hide FromJs;
    RefCountMonotone(m.params, i + 1, j);
    CellsDiffer(m, i, j);
    assert Placed(m, args, i, pushed) && Placed(m, args, j, pushed);
    hide RefCount, CellCount;
  }

  // ---------------------------------------------------------------- handing out results

  /** The slots that InternalCall sees: every stored parameter by the address of its own cell. */
  ghost predicate Addressed(m: Method, slots: seq<Slot>, cells: seq<Native>) {
    && |m.params| <= |slots|
    && forall k :: 0 <= k < |m.params| && InStorage(m.params[k]) ==>
         slots[k] == Pointer(CellOf(m, k)) && CellOf(m, k) < |cells|
  }

  function Updated(p: Property, v: JsValue, old_: Native): Native {
    match FromJs(p.type_, v)
    case None => old_
    case Some(n) => n
  }

  /** No reference parameter from the i-th on has its value in cell c. */
  ghost predicate NotAimedAt(m: Method, i: nat, c: nat) {
    forall k :: i <= k < |m.params| && m.params[k].isRef ==> CellOf(m, k) != c
  }

  ghost predicate HandedOut(m: Method, cells: seq<Native>, cells': seq<Native>, elements: seq<JsValue>, k: nat)
    requires k < |m.params|
  {
    var r := 1 + RefCount(m.params, k);
    && r < |elements| && CellOf(m, k) < |cells| == |cells'|
    && cells'[CellOf(m, k)] == Updated(m.params[k], elements[r], cells[CellOf(m, k)])
  }

  /** Element 1 + k of the result goes to the k-th reference parameter and to nothing else; an element
      that does not convert leaves its own cell alone and does not affect the others. */
  lemma {:induction false} SetRefsHandsOut(
      m: Method, slots: seq<Slot>, cells: seq<Native>, elements: seq<JsValue>, i: nat)
    requires Addressed(m, slots, cells) && i <= |m.params|
    requires |elements| == 1 + RefCount(m.params, |m.params|)
    ensures var cells' := SetRefs(m.params, slots, cells, elements, i, RefCount(m.params, i));
      && (forall k :: i <= k < |m.params| && m.params[k].isRef ==> HandedOut(m, cells, cells', elements, k))
      && (forall c :: 0 <= c < |cells| && NotAimedAt(m, i, c) ==> cells'[c] == cells[c])
    decreases |m.params| - i
  {
    hide FromJs, CellCount, HiddenCells;
    var params := m.params;
    if i < |params| && !params[i].isRef {
      SetRefsHandsOut(m, slots, cells, elements, i + 1);
      assert forall c :: NotAimedAt(m, i, c) ==> NotAimedAt(m, i + 1, c);
    } else if i < |params| {
      var r := RefCount(params, i);
      RefCountMonotone(params, i + 1, |params|);
      var cells1 := SetRefParam(params[i], elements[1 + r], slots[i], cells);
      var cells' := SetRefs(params, slots, cells, elements, i, r);
      assert HandedOut(m, cells, cells1, elements, i);
      LaterCellsDiffer(m, i);
      if r + 1 == RefCount(params, |params|) {
        NoLaterRef(params, i);
      } else {
        SetRefsHandsOut(m, slots, cells1, elements, i + 1);
        forall k | i < k < |params| && params[k].isRef ensures HandedOut(m, cells, cells', elements, k) {
          assert HandedOut(m, cells1, cells', elements, k);
        }
        assert forall c :: NotAimedAt(m, i, c) ==> NotAimedAt(m, i + 1, c);
      }
    }
  }

  lemma LaterCellsDiffer(m: Method, i: nat)
    requires i < |m.params| && m.params[i].isRef
    ensures NotAimedAt(m, i + 1, CellOf(m, i))
  {
    forall k | i < k < |m.params| && m.params[k].isRef ensures CellOf(m, k) != CellOf(m, i) {
      CellsDiffer(m, i, k);
    }
  }

  lemma NoLaterRef(params: seq<Property>, i: nat)
    requires i < |params| && params[i].isRef && RefCount(params, i) + 1 == RefCount(params, |params|)
    ensures forall k :: i < k < |params| ==> !params[k].isRef
  {
    forall k | i < k < |params| ensures !params[k].isRef {
      RefCountMonotone(params, i + 1, k);
      RefCountMonotone(params, k + 1, |params|);
    }
  }

  // ---------------------------------------------------------------- the direct call

  predicate AllConvert(m: Method, args: seq<JsValue>) {
    |args| == |m.params| && forall k :: 0 <= k < |args| ==> FromJs(m.params[k].type_, args[k]).Some?
  }

  /** v as a value of type t, or the other value where v is not one. */
  function As(t: ValueType, v: JsValue, other: JsValue): JsValue {
    JsTrip(t, v);
    match FromJs(t, v)
    case None => other
    case Some(n) => ToJs(t, n).value
  }

  function DefaultJs(t: ValueType): JsValue {
    if t.Void? then Undefined
    else if ToJs(t, Default(t)).Some? then ToJs(t, Default(t)).value
    else Undefined
  }

  /** The arguments as values of the parameter types. */
  function Arguments(m: Method, args: seq<JsValue>): seq<JsValue>
    requires |args| == |m.params|
  {
    seq(|args|, k requires 0 <= k < |args| => As(m.params[k].type_, args[k], Undefined))
  }

  /** What JavaScript finds in the reference parameters from the i-th on: the elements of the result
      handed out to them, or what it passed in. */
  function Updates(m: Method, sent: seq<JsValue>, elements: Option<seq<JsValue>>, i: nat): seq<JsValue>
    requires i <= |m.params| == |sent|
    requires elements.Some? ==> |elements.value| == 1 + RefCount(m.params, |m.params|)
    decreases |sent| - i
  {
    if i == |sent| then []
    else if !m.params[i].isRef then Updates(m, sent, elements, i + 1)
    else
      RefCountMonotone(m.params, i + 1, |m.params|);
      [UpdateOf(m, sent, elements, i)] + Updates(m, sent, elements, i + 1)
  }

  function UpdateOf(m: Method, sent: seq<JsValue>, elements: Option<seq<JsValue>>, i: nat): JsValue
    requires i < |m.params| == |sent|
  {
    var r := 1 + RefCount(m.params, i);
    if elements.Some? && r < |elements.value| then As(m.params[i].type_, elements.value[r], sent[i]) else sent[i]
  }

  /** The elements of a result that has the form required of a function with reference parameters. */
  function Elements(m: Method, c: Completion): Option<seq<JsValue>> {
    if c.Returns? && c.value.Array? && |c.value.elements| == 1 + RefCount(m.params, |m.params|)
    then Some(c.value.elements) else None
  }

  /** Calling f without crossing into native code: f is given the arguments as values of the
      parameter types, and its result is read as a value of the return type or, with reference
      parameters, as an array of the return value and their new values. What is not of the right
      form counts as the default return value and as leaving a reference parameter alone. */
  function DirectCall(m: Method, f: JsFunction, args: seq<JsValue>): Answer {
    if !AllConvert(m, args) then Threw
    else
      var sent := Arguments(m, args);
      var completion := f(sent);
      if RefCount(m.params, |m.params|) == 0 then Answered(FirstOf(m, completion))
      else Answered(Array([FirstOf(m, completion)] + Updates(m, sent, Elements(m, completion), 0)))
  }

  /** The return value as JavaScript sees it. */
  function FirstOf(m: Method, completion: Completion): JsValue {
    var value :=
      if RefCount(m.params, |m.params|) == 0 then
        (if completion.Returns? then Some(completion.value) else None)
      else
        match Elements(m, completion)
        case None => None
        case Some(elements) => Some(elements[0]);
    if value.Some? then ReturnJs(m.ret, value.value) else DefaultJs(m.ret)
  }

  function ReturnJs(t: ValueType, v: JsValue): JsValue {
    if t.Void? then Undefined else As(t, v, DefaultJs(t))
  }

  // ---------------------------------------------------------------- transparency

  lemma DefaultIsPresentable(t: ValueType)
    requires !t.Void?
    ensures ToJs(t, Default(t)) == Some(DefaultJs(t))
  {
  }

  lemma ReturnValueShows(t: ValueType, v: JsValue)
    requires !t.Void?
    ensures ToJs(t, ReturnValue(t, v)) == Some(ReturnJs(t, v))
  {
    DefaultIsPresentable(t);
    JsTrip(t, v);
  }

  /** InternalCall reads back exactly the arguments. */
  lemma {:induction false} ReadAllReads(m: Method, args: seq<JsValue>, pushed: Pushed, slots: seq<Slot>, i: nat)
    requires AllConvert(m, args) && i <= |args| && LaidOut(m, args, |args|, pushed)
    requires slots == pushed.scope.params[HiddenCells(m.ret)..]
    ensures ReadAll(m.params, slots, pushed.scope.storage, i) == Some(Arguments(m, args)[i..])
    decreases |args| - i
  {
    var sent := Arguments(m, args);
    if i == |args| {
      assert sent[i..] == [];
    } else {
      assert Placed(m, args, i, pushed);
      assert slots[i] == pushed.scope.params[HiddenCells(m.ret) + i];
      JsTrip(m.params[i].type_, args[i]);
      ReadAllReads(m, args, pushed, slots, i + 1);
      assert sent[i..] == [sent[i]] + sent[i + 1..];
    }
  }

  /** ExternalCall reads back what the cells of the reference parameters hold. */
  lemma {:induction false} CollectReads(
      m: Method, cells: seq<Native>, refs: seq<nat>, sent: seq<JsValue>, elements: Option<seq<JsValue>>, i: nat)
    requires i <= |m.params| == |sent|
    requires elements.Some? ==> |elements.value| == 1 + RefCount(m.params, |m.params|)
    requires forall k :: i <= k < |m.params| && m.params[k].isRef ==> Shows(m, cells, refs, sent, elements, k)
    ensures Collect(m.params, cells, refs, i, RefCount(m.params, i)) == Some(Updates(m, sent, elements, i))
    decreases |m.params| - i
  {
    if i < |m.params| {
      CollectReads(m, cells, refs, sent, elements, i + 1);
      if m.params[i].isRef {
        assert Shows(m, cells, refs, sent, elements, i);
      }
    }
  }

  /** The cell recorded for the k-th parameter, a reference, holds its new value. */
  ghost predicate Shows(
      m: Method, cells: seq<Native>, refs: seq<nat>, sent: seq<JsValue>, elements: Option<seq<JsValue>>, k: nat)
    requires k < |m.params| == |sent|
  {
    var r := RefCount(m.params, k);
    && r < |refs| && refs[r] == CellOf(m, k) && CellOf(m, k) < |cells|
    && ToJs(m.params[k].type_, cells[CellOf(m, k)]) == Some(UpdateOf(m, sent, elements, k))
  }

  lemma PlacedShows(m: Method, args: seq<JsValue>, pushed: Pushed, cells: seq<Native>, k: nat)
    requires AllConvert(m, args) && LaidOut(m, args, |args|, pushed) && k < |args| && m.params[k].isRef
    requires cells == pushed.scope.storage
    ensures Shows(m, cells, pushed.refs, Arguments(m, args), None, k)
  {
    hide FromJs, ToJs, Has, Canonical, RefCount, CellCount;
    assert Placed(m, args, k, pushed);
    JsTrip(m.params[k].type_, args[k]);
  }

  lemma HandedOutShows(
      m: Method, args: seq<JsValue>, pushed: Pushed, cells: seq<Native>, elements: seq<JsValue>, k: nat)
    requires AllConvert(m, args) && LaidOut(m, args, |args|, pushed) && k < |args| && m.params[k].isRef
    requires HandedOut(m, pushed.scope.storage, cells, elements, k)
    ensures Shows(m, cells, pushed.refs, Arguments(m, args), Some(elements), k)
  {
    hide FromJs, ToJs, Has, Canonical, RefCount, CellCount;
    assert Placed(m, args, k, pushed);
    JsTrip(m.params[k].type_, args[k]);
    JsTrip(m.params[k].type_, elements[1 + RefCount(m.params, k)]);
  }

  lemma SlotsAreAddressed(m: Method, args: seq<JsValue>, pushed: Pushed)
    requires AllConvert(m, args) && LaidOut(m, args, |args|, pushed)
    ensures Addressed(m, pushed.scope.params[HiddenCells(m.ret)..], pushed.scope.storage)
  {
    var slots := pushed.scope.params[HiddenCells(m.ret)..];
    forall k | 0 <= k < |m.params| && InStorage(m.params[k])
      ensures slots[k] == Pointer(CellOf(m, k)) && CellOf(m, k) < |pushed.scope.storage|
    {
      assert Placed(m, args, k, pushed);
    }
  }

  /** What the inner call leaves behind: the value to return, and in the reference cells the new
      values. */
  lemma InnerCall(m: Method, f: JsFunction, args: seq<JsValue>, pushed: Pushed)
    requires AllConvert(m, args) && LaidOut(m, args, |args|, pushed)
    ensures var slots := pushed.scope.params[HiddenCells(m.ret)..];
      var reply := InternalCall(m, f, slots, pushed.scope.storage);
      var sent, refs := Arguments(m, args), RefCount(m.params, |m.params|);
      var completion := f(sent);
      var elements := Elements(m, completion);
      && |reply.cells| == |pushed.scope.storage|
      && (refs > 0 ==> forall k :: 0 <= k < |args| && m.params[k].isRef ==>
            Shows(m, reply.cells, pushed.refs, sent, elements, k))
      && (!m.ret.Void? ==> ToJs(m.ret, reply.value) == Some(FirstOf(m, completion)))
  {
    var slots := pushed.scope.params[HiddenCells(m.ret)..];
    var cells := pushed.scope.storage;
    var sent := Arguments(m, args);
    ReadAllReads(m, args, pushed, slots, 0);
    assert sent[0..] == sent;
    var completion := f(sent);
    var elements := Elements(m, completion);
    if !m.ret.Void? {
      DefaultIsPresentable(m.ret);
      if completion.Returns? { ReturnValueShows(m.ret, completion.value); }
      if elements.Some? { ReturnValueShows(m.ret, elements.value[0]); }
    }
    if RefCount(m.params, |m.params|) > 0 {
      if elements.Some? {
        SlotsAreAddressed(m, args, pushed);
        SetRefsHandsOut(m, slots, cells, elements.value, 0);
        var cells' := SetRefs(m.params, slots, cells, elements.value, 0, 0);
        forall k | 0 <= k < |args| && m.params[k].isRef ensures Shows(m, cells', pushed.refs, sent, elements, k) {
          assert HandedOut(m, cells, cells', elements.value, k);
          HandedOutShows(m, args, pushed, cells', elements.value, k);
        }
      } else {
        forall k | 0 <= k < |args| && m.params[k].isRef ensures Shows(m, cells, pushed.refs, sent, None, k) {
          PlacedShows(m, args, pushed, cells, k);
        }
      }
    }
  }

  /** A JavaScript function called through ExternalCall and InternalCall answers as if it had been
      called directly, whatever the signature, the arguments and what the function does. */
  lemma Transparent(m: Method, f: JsFunction, args: seq<JsValue>)
    ensures ExternalCall(m, args, Trampoline(m, f)) == DirectCall(m, f, args)
  {
    if |args| == |m.params| {
      ArgumentsLaidOut(m, args);
      var all := PushAll(m.params, args, 0, Pushed(BeginExternalCall(m.ret), []));
      if all.Some? {
        TransparentOncePushed(m, f, args, all.value);
      }
    }
  }

  /** The generated code adds the hidden result and nothing else. */
  lemma TrampolineReplies(m: Method, f: JsFunction, slots: seq<Slot>, cells: seq<Native>)
    requires |slots| == HiddenCells(m.ret) + |m.params|
    requires HiddenCells(m.ret) == 1 ==> slots[0] == Pointer(0) && cells != []
    requires |InternalCall(m, f, slots[HiddenCells(m.ret)..], cells).cells| == |cells|
    ensures var inner := InternalCall(m, f, slots[HiddenCells(m.ret)..], cells);
      var reply := Trampoline(m, f)(slots, cells);
      && reply.value == inner.value
      && reply.cells == if Hidden(m.ret) then inner.cells[0 := inner.value] else inner.cells
  {
    hide InternalCall;
    assert slots[0..] == slots;
  }

  lemma CallReplies(m: Method, f: JsFunction, args: seq<JsValue>, pushed: Pushed)
    requires AllConvert(m, args) && LaidOut(m, args, |args|, pushed)
    ensures var (result, cells) := Call(Trampoline(m, f), pushed.scope, m.ret);
      var sent, refs := Arguments(m, args), RefCount(m.params, |m.params|);
      var completion := f(sent);
      var elements := Elements(m, completion);
      && (refs > 0 ==> forall k :: 0 <= k < |args| && m.params[k].isRef ==>
            Shows(m, cells, pushed.refs, sent, elements, k))
      && result == Some(FirstOf(m, completion))
  {
    var slots, cells := pushed.scope.params, pushed.scope.storage;
    InnerCall(m, f, args, pushed);
    TrampolineReplies(m, f, slots, cells);
    hide InternalCall, Trampoline, FirstOf, ToJs, Placed, Shows, Elements, Arguments;
    var inner := InternalCall(m, f, slots[HiddenCells(m.ret)..], cells);
    var after := Trampoline(m, f)(slots, cells).cells;
    if RefCount(m.params, |m.params|) > 0 {
      var sent := Arguments(m, args);
      var elements := Elements(m, f(sent));
      forall k | 0 <= k < |args| && m.params[k].isRef ensures Shows(m, after, pushed.refs, sent, elements, k) {
        if Hidden(m.ret) {
          HiddenResultHidesNothing(m, inner.cells, pushed.refs, sent, elements, k, inner.value);
        }
      }
    }
    VoidShows(m, f(Arguments(m, args)));
  }

  lemma HiddenResultHidesNothing(
      m: Method, cells: seq<Native>, refs: seq<nat>, sent: seq<JsValue>, elements: Option<seq<JsValue>>, k: nat,
      value: Native)
    requires Hidden(m.ret) && k < |m.params| == |sent| && cells != []
    requires Shows(m, cells, refs, sent, elements, k)
    ensures Shows(m, cells[0 := value], refs, sent, elements, k)
  {
  }

  lemma VoidShows(m: Method, completion: Completion)
    ensures m.ret.Void? ==> FirstOf(m, completion) == Undefined
  {
  }

  lemma TransparentOncePushed(m: Method, f: JsFunction, args: seq<JsValue>, pushed: Pushed)
    requires AllConvert(m, args) && LaidOut(m, args, |args|, pushed)
    requires PushAll(m.params, args, 0, Pushed(BeginExternalCall(m.ret), [])) == Some(pushed)
    ensures ExternalCall(m, args, Trampoline(m, f)) == DirectCall(m, f, args)
  {
    hide Call, Push, PushAll, Updates, As, Placed, Shows;
    CallReplies(m, f, args, pushed);
    if RefCount(m.params, |m.params|) > 0 {
      var sent := Arguments(m, args);
      CollectReads(m, Call(Trampoline(m, f), pushed.scope, m.ret).1, pushed.refs, sent, Elements(m, f(sent)), 0);
    }
  }

  /** With canonical arguments, a function that returns a value of the form its signature asks for
      is called with the arguments as they are and its result comes back as it is. */
  lemma CanonicalCall(m: Method, f: JsFunction, args: seq<JsValue>, result: JsValue)
    requires |args| == |m.params| && forall k :: 0 <= k < |args| ==> Canonical(m.params[k].type_, args[k])
    requires f(args) == Returns(result) && Fitting(m, result)
    ensures ExternalCall(m, args, Trampoline(m, f)) == Answered(result)
  {
    Transparent(m, f, args);
    CanonicalArguments(m, args);
    var refs := RefCount(m.params, |m.params|);
    if refs == 0 {
      JsTrip(m.ret, result);
    } else {
      JsTrip(m.ret, result.elements[0]);
      CanonicalUpdates(m, args, result.elements, 0);
      hide Updates, As, ExternalCall;
      assert result.elements == [result.elements[0]] + result.elements[1..];
    }
  }

  lemma CanonicalArguments(m: Method, args: seq<JsValue>)
    requires |args| == |m.params| && forall k :: 0 <= k < |args| ==> Canonical(m.params[k].type_, args[k])
    ensures AllConvert(m, args) && Arguments(m, args) == args
  {
    forall k | 0 <= k < |args|
      ensures FromJs(m.params[k].type_, args[k]).Some? && As(m.params[k].type_, args[k], Undefined) == args[k]
    {
      JsTrip(m.params[k].type_, args[k]);
    }
  }

  predicate FittingReturn(t: ValueType, v: JsValue) {
    if t.Void? then v == Undefined else Canonical(t, v)
  }

  /** A value of the return type, or with reference parameters an array of one and a value for each
      of them in order. */
  predicate Fitting(m: Method, result: JsValue) {
    var refs := RefCount(m.params, |m.params|);
    if refs == 0 then FittingReturn(m.ret, result)
    else
      && result.Array? && |result.elements| == 1 + refs
      && FittingReturn(m.ret, result.elements[0])
      && forall k :: 0 <= k < |m.params| && m.params[k].isRef ==> FittingUpdate(m, result.elements, k)
  }

  predicate FittingUpdate(m: Method, elements: seq<JsValue>, k: nat)
    requires k < |m.params|
  {
    var r := 1 + RefCount(m.params, k);
    r < |elements| && Canonical(m.params[k].type_, elements[r])
  }

  lemma {:induction false} CanonicalUpdates(m: Method, sent: seq<JsValue>, elements: seq<JsValue>, i: nat)
    requires i <= |m.params| == |sent| && |elements| == 1 + RefCount(m.params, |m.params|)
    requires forall k :: i <= k < |m.params| && m.params[k].isRef ==> FittingUpdate(m, elements, k)
    ensures RefCount(m.params, i) < |elements|
    ensures Updates(m, sent, Some(elements), i) == elements[1 + RefCount(m.params, i)..]
    decreases |sent| - i
  {
    RefCountMonotone(m.params, i, |m.params|);
    if i == |sent| {
      assert elements[1 + RefCount(m.params, i)..] == [];
    } else {
      CanonicalUpdates(m, sent, elements, i + 1);
      if m.params[i].isRef {
        assert FittingUpdate(m, elements, i);
        JsTrip(m.params[i].type_, elements[1 + RefCount(m.params, i)]);
      }
    }
  }
}

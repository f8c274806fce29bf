/** Conversion of single values between JavaScript and native code (src/module.cpp), for one
    representative of each family of types. */
module Conversions {
  import opened Options
  import opened Utf

  type Width = n: nat | n == 8 || n == 16 || n == 32 || n == 64 witness 8

  /** Opaque stands for the types that are passed as whole objects, such as vectors and matrices;
      `direct` are those that the platform returns in registers all the same. */
  datatype Scalar =
    | Bool
    | Integer(width: Width, signed: bool)
    | Char16
    | Text
    | Opaque(class_: nat, direct: bool)

  datatype ValueType = Void | One(scalar: Scalar) | Vec(scalar: Scalar)

  /** Number carries the integer value that V8 reports for a JavaScript number. */
  datatype JsValue =
    | Undefined
    | Boolean(b: bool)
    | Number(n: int)
    | BigInt(n: int)
    | String(units: seq<Unit>)
    | Array(elements: seq<JsValue>)
    | Object(class_: nat, content: int)

  datatype Native =
    | NBool(b: bool)
    | NInteger(n: int)
    | NUnit(u: Unit)
    | NText(units: seq<Unit>)
    | NOpaque(class_: nat, content: int)
    | NVector(elements: seq<Native>)

  // ---------------------------------------------------------------- integers

  function Modulus(width: Width): (m: nat)
    ensures m >= 0x100 && m % 2 == 0
  {
    match width
    case 8 => 0x100
    case 16 => 0x1_0000
    case 32 => 0x1_0000_0000
    case _ => 0x1_0000_0000_0000_0000
  }

  predicate Fits(width: Width, signed: bool, n: int) {
    if signed then -(Modulus(width) / 2) <= n < Modulus(width) / 2 else 0 <= n < Modulus(width)
  }

  /** static_cast to an integer type. */
  function Wrap(width: Width, signed: bool, n: int): int {
    var m := n % Modulus(width);
    if signed && m >= Modulus(width) / 2 then m - Modulus(width) else m
  }

  /** The cast gives the only number of the type that is congruent to n, so it changes exactly the
      numbers that do not fit. */
  lemma WrapIsCongruent(width: Width, signed: bool, n: int)
    ensures Fits(width, signed, Wrap(width, signed, n))
    ensures exists k :: Wrap(width, signed, n) == n + k * Modulus(width)
    ensures Wrap(width, signed, n) == n <==> Fits(width, signed, n)
  {
    var m, modulus := n % Modulus(width), Modulus(width);
    var q := n / modulus;
    assert n == q * modulus + m;
    assert 0 <= m < modulus;
    if Wrap(width, signed, n) == m {
      assert m == n + -q * modulus;
    } else {
      assert m - modulus == n + (-q - 1) * modulus;
    }
    if Fits(width, signed, n) {
      assert q >= 1 ==> q * modulus >= modulus;
      assert q <= -2 ==> q * modulus <= -2 * modulus;
      assert q == 0 || q == -1;
    }
  }

  lemma AddMultiple(n: int, j: int, modulus: int)
    requires modulus > 0
    ensures (n + j * modulus) % modulus == n % modulus
  {
    var a := n + j * modulus;
    var d := a / modulus - n / modulus - j;
    assert a == a / modulus * modulus + a % modulus;
    assert n == n / modulus * modulus + n % modulus;
    assert d * modulus == n % modulus - a % modulus;
    assert d >= 1 ==> d * modulus >= modulus;
    assert d <= -1 ==> d * modulus <= -modulus;
  }

  /** How many times a narrower modulus goes into 2^64. */
  function Times(width: Width): (times: nat)
    ensures Modulus(64) == times * Modulus(width)
  {
    match width
    case 8 => 0x100_0000_0000_0000
    case 16 => 0x1_0000_0000_0000
    case 32 => 0x1_0000_0000
    case _ => 1
  }

  /** A 64-bit detour, as for BigInt arguments, does not change the result. */
  lemma WrapTwice(width: Width, signed: bool, n: int)
    ensures Wrap(width, signed, Wrap(64, true, n)) == Wrap(width, signed, n)
  {
    WrapIsCongruent(64, true, n);
    var k :| Wrap(64, true, n) == n + k * Modulus(64);
    hide Fits;
    SameMultiple(k, Times(width), Modulus(width));
    AddMultiple(n, k * Times(width), Modulus(width));
  }

  lemma SameMultiple(k: int, times: int, modulus: int)
    ensures k * (times * modulus) == k * times * modulus
  {
  }

  // ---------------------------------------------------------------- strings

  predicate High(u: Unit) {
    0xD800 <= u < 0xDC00
  }

  predicate Low(u: Unit) {
    0xDC00 <= u < 0xE000
  }

  /** V8 writes a lone surrogate as U+FFFD when it converts a string to UTF-8. */
  function WellFormed(units: seq<Unit>): seq<Unit> {
    if units == [] then []
    else if High(units[0]) && |units| > 1 && Low(units[1]) then units[..2] + WellFormed(units[2..])
    else [if Surrogate(units[0]) then 0xFFFD else units[0]] + WellFormed(units[1..])
  }

  lemma {:induction false} WellFormedTwice(units: seq<Unit>)
    ensures WellFormed(WellFormed(units)) == WellFormed(units)
  {
    if units != [] {
      if High(units[0]) && |units| > 1 && Low(units[1]) {
        WellFormedTwice(units[2..]);
        var w := WellFormed(units);
        assert w[..2] == units[..2] && w[2..] == WellFormed(units[2..]);
      } else {
        WellFormedTwice(units[1..]);
        var w := WellFormed(units);
        assert !Surrogate(w[0]) && w[1..] == WellFormed(units[1..]);
      }
    }
  }

  /** The UTF-8 bytes that V8 gives for a string of one code unit. */
  function Utf8Value(u: Unit): seq<Byte> {
    if Surrogate(u) then [0xEF, 0xBF, 0xBD]
    else if u < 0x80 then [u]
    else if u < 0x800 then [0xC0 + u / 0x40, 0x80 + u % 0x40]
    else [0xE0 + u / 0x1000, 0x80 + u / 0x40 % 0x40, 0x80 + u % 0x40]
  }

  lemma Utf8ValueIsUtf8(u: Unit)
    ensures IsUtf8Of(Utf8Value(u), if Surrogate(u) then 0xFFFD else u)
  {
  }

  /** The code unit of the string that V8 makes of these bytes; other sequences do not occur. */
  function FromUtf8(bytes: seq<Byte>): Unit {
    if |bytes| == 1 then bytes[0]
    else if |bytes| == 2 then Wide(bytes[0] % 0x20) * 0x40 + Wide(bytes[1] % 0x40)
    else if |bytes| == 3 then
      Wide(bytes[0] % 0x10) * 0x1000 + Wide(bytes[1] % 0x40) * 0x40 + Wide(bytes[2] % 0x40)
    else 0xFFFD
  }

  lemma FromUtf8Inverts(bytes: seq<Byte>, u: Unit)
    requires IsUtf8Of(bytes, u)
    ensures FromUtf8(bytes) == u
  {
  }

  // ---------------------------------------------------------------- single values

  /** ValueFromObject; None is the type error or exception that the code throws. */
  function ScalarFromJs(t: Scalar, v: JsValue): Option<Native> {
    match (t, v)
    case (Bool, Boolean(b)) => Some(NBool(b))
    case (Integer(width, signed), Number(n)) => Some(NInteger(Wrap(width, signed, n)))
    case (Integer(width, signed), BigInt(n)) => Some(NInteger(Wrap(width, signed, Wrap(64, true, n))))
    case (Char16, String(units)) =>
      if units == [] then Some(NUnit(0))
      else if |units| > 1 then None
      else
        var (rc, ch) := ConvertUtf8ToUtf16(Utf8Value(units[0]));
        if 0 <= rc then Some(NUnit(ch)) else None
    case (Text, String(units)) => Some(NText(WellFormed(units)))
    case (Opaque(class_, _), Object(other, content)) =>
      if class_ == other then Some(NOpaque(class_, content)) else None
    case _ => None
  }

  /** CreateJsObject; None is the empty handle. */
  function ScalarToJs(t: Scalar, n: Native): Option<JsValue> {
    match (t, n)
    case (Bool, NBool(b)) => Some(Boolean(b))
    case (Integer(width, signed), NInteger(i)) => Some(if width == 64 then BigInt(i) else Number(i))
    case (Char16, NUnit(u)) =>
      if u == 0 then Some(String([]))
      else
        var (rc, bytes) := ConvertUtf16ToUtf8(u);
        if rc == -1 then None else Some(String([FromUtf8(bytes[..rc])]))
    case (Text, NText(units)) => Some(String(units))
    case (Opaque(class_, _), NOpaque(other, content)) =>
      if class_ == other then Some(Object(class_, content)) else None
    case _ => None
  }

  // ---------------------------------------------------------------- vectors

  /** ArrayFromObject: one element that does not convert refuses the whole array. */
  function AllFromJs(t: Scalar, vs: seq<JsValue>): Option<seq<Native>> {
    if vs == [] then Some([])
    else
      match (ScalarFromJs(t, vs[0]), AllFromJs(t, vs[1..]))
      case (Some(n), Some(ns)) => Some([n] + ns)
      case _ => None
  }

  /** CreateJsObjectList. */
  function AllToJs(t: Scalar, ns: seq<Native>): Option<seq<JsValue>> {
    if ns == [] then Some([])
    else
      match (ScalarToJs(t, ns[0]), AllToJs(t, ns[1..]))
      case (Some(v), Some(vs)) => Some([v] + vs)
      case _ => None
  }

  function FromJs(t: ValueType, v: JsValue): Option<Native> {
    match t
    case Void => None
    case One(s) => ScalarFromJs(s, v)
    case Vec(s) =>
      if !v.Array? then None
      else
        match AllFromJs(s, v.elements)
        case None => None
        case Some(ns) => Some(NVector(ns))
  }

  function ToJs(t: ValueType, n: Native): Option<JsValue> {
    match t
    case Void => None
    case One(s) => ScalarToJs(s, n)
    case Vec(s) =>
      if !n.NVector? then None
      else
        match AllToJs(s, n.elements)
        case None => None
        case Some(vs) => Some(Array(vs))
  }

  // ---------------------------------------------------------------- round trips

  predicate ScalarHas(t: Scalar, n: Native) {
    match (t, n)
    case (Bool, NBool(_)) => true
    case (Integer(width, signed), NInteger(i)) => Fits(width, signed, i)
    case (Char16, NUnit(_)) => true
    case (Text, NText(units)) => WellFormed(units) == units
    case (Opaque(class_, _), NOpaque(other, _)) => class_ == other
    case _ => false
  }

  /** n is a value of the native type t. */
  predicate Has(t: ValueType, n: Native) {
    match t
    case Void => false
    case One(s) => ScalarHas(s, n)
    case Vec(s) => n.NVector? && forall i :: 0 <= i < |n.elements| ==> ScalarHas(s, n.elements[i])
  }

  predicate ScalarCanonical(t: Scalar, v: JsValue) {
    match (t, v)
    case (Bool, Boolean(_)) => true
    case (Integer(width, signed), Number(n)) => width != 64 && Fits(width, signed, n)
    case (Integer(width, signed), BigInt(n)) => width == 64 && Fits(width, signed, n)
    case (Char16, String(units)) =>
      units == [] || (|units| == 1 && units[0] != 0 && !Surrogate(units[0]))
    case (Text, String(units)) => WellFormed(units) == units
    case (Opaque(class_, _), Object(other, _)) => class_ == other
    case _ => false
  }

  /** v is the form in which a value of type t arrives in JavaScript. */
  predicate Canonical(t: ValueType, v: JsValue) {
    match t
    case Void => false
    case One(s) => ScalarCanonical(s, v)
    case Vec(s) => v.Array? && AllCanonical(s, v.elements)
  }

  predicate AllCanonical(t: Scalar, vs: seq<JsValue>) {
    forall i :: 0 <= i < |vs| ==> ScalarCanonical(t, vs[i])
  }

  lemma AllCanonicalSplit(t: Scalar, vs: seq<JsValue>)
    requires vs != []
    ensures AllCanonical(t, vs) <==> ScalarCanonical(t, vs[0]) && AllCanonical(t, vs[1..])
  {
    assert forall i :: 0 <= i < |vs[1..]| ==> vs[i + 1] == vs[1..][i];
    if ScalarCanonical(t, vs[0]) && AllCanonical(t, vs[1..]) {
      forall i | 0 <= i < |vs| ensures ScalarCanonical(t, vs[i]) {
        if i > 0 { assert vs[i] == vs[1..][i - 1]; }
      }
    }
  }

  predicate Presentable(t: Scalar, n: Native) {
    t.Char16? && n.NUnit? ==> !Surrogate(n.u)
  }

  lemma Char16ToJs(u: Unit)
    requires u != 0 && !Surrogate(u)
    ensures ScalarToJs(Char16, NUnit(u)) == Some(String([u]))
  {
    EncoderIsUtf8(u);
    var (rc, bytes) := ConvertUtf16ToUtf8(u);
    FromUtf8Inverts(bytes[..rc], u);
  }

  lemma Char16FromJs(u: Unit)
    ensures ScalarFromJs(Char16, String([u])) == Some(NUnit(if Surrogate(u) then 0xFFFD else u))
  {
    var seen := if Surrogate(u) then 0xFFFD else u;
    Utf8ValueIsUtf8(u);
    if u != 0 {
      DecoderInverts(Utf8Value(u), seen, []);
      assert Utf8Value(u) + [] == Utf8Value(u);
    }
  }

  /** The range check after the cast compares the result with its own type (IsInRange with one type)
      and never fails: no integer is refused, and those that do not fit wrap around, a BigInt also
      through 64 bits. */
  lemma IntegersWrapAround(width: Width, signed: bool, v: JsValue)
    requires v.Number? || v.BigInt?
    ensures var received := ScalarFromJs(Integer(width, signed), v);
      && received.Some? && received.value.NInteger?
      && Fits(width, signed, received.value.n)
      && (exists k :: received.value.n == v.n + k * Modulus(width))
      && (received.value.n == v.n <==> Fits(width, signed, v.n))
  {
    WrapIsCongruent(width, signed, v.n);
    WrapTwice(width, signed, v.n);
  }

  /** Native to JavaScript and back is the identity; only a surrogate cannot make the journey. */
  lemma ScalarNativeTrip(t: Scalar, n: Native)
    requires ScalarHas(t, n)
    ensures ScalarToJs(t, n).Some? <==> Presentable(t, n)
    ensures Presentable(t, n) ==> ScalarCanonical(t, ScalarToJs(t, n).value)
    ensures Presentable(t, n) ==> ScalarFromJs(t, ScalarToJs(t, n).value) == Some(n)
  {
    if t.Integer? {
      WrapIsCongruent(t.width, t.signed, n.n);
      WrapTwice(t.width, t.signed, n.n);
    } else if t.Char16? && n.u != 0 {
      EncoderIsUtf8(n.u);
      if !Surrogate(n.u) {
        Char16ToJs(n.u);
        Char16FromJs(n.u);
      }
    }
  }

  /** What converts from JavaScript can be shown to JavaScript again, and comes back as it was
      exactly when it was canonical. */
  lemma ScalarJsTrip(t: Scalar, v: JsValue)
    ensures ScalarCanonical(t, v) ==> ScalarFromJs(t, v).Some?
    ensures ScalarFromJs(t, v).Some? ==>
      var n := ScalarFromJs(t, v).value;
      ScalarHas(t, n) && Presentable(t, n) && (ScalarToJs(t, n) == Some(v) <==> ScalarCanonical(t, v))
  {
    if t.Integer? && (v.Number? || v.BigInt?) {
      var n := v.n;
      WrapIsCongruent(t.width, t.signed, n);
      WrapIsCongruent(64, true, n);
      WrapTwice(t.width, t.signed, n);
    } else if t.Char16? && v.String? && |v.units| == 1 {
      Char16FromJs(v.units[0]);
      var u := if Surrogate(v.units[0]) then 0xFFFD else v.units[0];
      assert v.units == [v.units[0]];
      assert [u] == v.units <==> u == v.units[0];
      if u != 0 {
        Char16ToJs(u);
      }
    } else if t.Text? && v.String? {
      WellFormedTwice(v.units);
    }
  }

  /** Vectors: the identity, unless an element cannot make the journey, which refuses the whole. */
  lemma {:induction false} AllNativeTrip(t: Scalar, ns: seq<Native>)
    requires forall i :: 0 <= i < |ns| ==> ScalarHas(t, ns[i])
    ensures AllToJs(t, ns).Some? <==> forall i :: 0 <= i < |ns| ==> Presentable(t, ns[i])
    ensures AllToJs(t, ns).Some? ==>
      var vs := AllToJs(t, ns).value;
      |vs| == |ns| && AllFromJs(t, vs) == Some(ns)
      && AllCanonical(t, vs)
  {
    if ns != [] {
      ScalarNativeTrip(t, ns[0]);
      AllNativeTrip(t, ns[1..]);
      hide ScalarFromJs, ScalarToJs, ScalarCanonical, ScalarHas, Presentable, AllCanonical;
      assert ns == [ns[0]] + ns[1..];
      assert forall i :: 0 <= i < |ns| - 1 ==> ns[i + 1] == ns[1..][i];
      assert (forall i :: 0 <= i < |ns| ==> Presentable(t, ns[i])) <==>
             Presentable(t, ns[0]) && forall i :: 0 <= i < |ns[1..]| ==> Presentable(t, ns[1..][i]);
      if AllToJs(t, ns).Some? {
        var vs := AllToJs(t, ns).value;
        assert vs[1..] == AllToJs(t, ns[1..]).value;
        AllCanonicalSplit(t, vs);
      }
    }
  }

  lemma {:induction false} AllJsTrip(t: Scalar, vs: seq<JsValue>)
    ensures AllCanonical(t, vs) ==> AllFromJs(t, vs).Some?
    ensures AllFromJs(t, vs).Some? ==>
      var ns := AllFromJs(t, vs).value;
      && |ns| == |vs|
      && (forall i :: 0 <= i < |ns| ==> ScalarHas(t, ns[i]) && Presentable(t, ns[i]))
      && AllToJs(t, ns).Some?
      && (AllToJs(t, ns) == Some(vs) <==> AllCanonical(t, vs))
  {
    if vs != [] {
      ScalarJsTrip(t, vs[0]);
      AllJsTrip(t, vs[1..]);
      AllCanonicalSplit(t, vs);
      hide ScalarFromJs, ScalarToJs, ScalarCanonical, ScalarHas, Presentable, AllCanonical;
      if AllFromJs(t, vs).Some? {
        var ns := AllFromJs(t, vs).value;
        assert ns[1..] == AllFromJs(t, vs[1..]).value;
        var back := [ScalarToJs(t, ns[0]).value] + AllToJs(t, ns[1..]).value;
        assert AllToJs(t, ns) == Some(back);
        assert vs == [vs[0]] + vs[1..];
        assert back == vs <==> back[0] == vs[0] && back[1..] == vs[1..];
      }
    }
  }

  lemma JsTrip(t: ValueType, v: JsValue)
    ensures Canonical(t, v) ==> FromJs(t, v).Some?
    ensures FromJs(t, v).Some? ==>
      var n := FromJs(t, v).value;
      Has(t, n) && ToJs(t, n).Some? && (ToJs(t, n) == Some(v) <==> Canonical(t, v))
  {
    match t
    case Void =>
    case One(s) =>
      ScalarJsTrip(s, v);
      if FromJs(t, v).Some? { ScalarNativeTrip(s, FromJs(t, v).value); }
    case Vec(s) => if v.Array? { AllJsTrip(s, v.elements); }
  }

  /** A vector of char16_t comes back from JavaScript as it was, or, if it holds a surrogate, is
      refused as a whole. */
  lemma Char16VectorTrip(units: seq<Unit>)
    ensures var n := NVector(seq(|units|, i requires 0 <= i < |units| => NUnit(units[i])));
      if exists i :: 0 <= i < |units| && Surrogate(units[i]) then
        ToJs(Vec(Char16), n) == None
      else
        ToJs(Vec(Char16), n).Some? && FromJs(Vec(Char16), ToJs(Vec(Char16), n).value) == Some(n)
  {
    var ns := seq(|units|, i requires 0 <= i < |units| => NUnit(units[i]));
    AllNativeTrip(Char16, ns);
    assert forall i :: 0 <= i < |units| ==> ns[i] == NUnit(units[i]);
  }

  // ---------------------------------------------------------------- the loops

  lemma Regroup<T>(made: seq<T>, value: T)
    ensures forall rest: seq<T> :: made + ([value] + rest) == (made + [value]) + rest
  {
  }

  method ArrayFromObject(t: Scalar, arrayValue: JsValue) returns (array_: Option<seq<Native>>)
    ensures FromJs(Vec(t), arrayValue) == if array_.Some? then Some(NVector(array_.value)) else None
  {
    hide ScalarFromJs;
    if !arrayValue.Array? {
      return None;
    }
    var elements := arrayValue.elements;
    var converted: seq<Native> := [];
    var i := 0;
    assert elements[0..] == elements && forall rest: seq<Native> :: converted + rest == rest;
    while i < |elements|
      invariant i <= |elements|
      invariant AllFromJs(t, elements) ==
        match AllFromJs(t, elements[i..])
        case None => None
        case Some(rest) => Some(converted + rest)
    {
      assert elements[i..][1..] == elements[i + 1..];
      var value := ScalarFromJs(t, elements[i]);
      if value.None? {
        return None;
      }
      Regroup(converted, value.value);
      converted := converted + [value.value];
      i := i + 1;
    }
    assert converted + [] == converted;
    return Some(converted);
  }

  method CreateJsObjectList(t: Scalar, arrayArg: seq<Native>) returns (arrayObject: Option<JsValue>)
    ensures arrayObject == ToJs(Vec(t), NVector(arrayArg))
  {
    hide ScalarToJs;
    var made: seq<JsValue> := [];
    var i := 0;
    assert arrayArg[0..] == arrayArg && forall rest: seq<JsValue> :: made + rest == rest;
    while i < |arrayArg|
      invariant i <= |arrayArg|
      invariant AllToJs(t, arrayArg) ==
        match AllToJs(t, arrayArg[i..])
        case None => None
        case Some(rest) => Some(made + rest)
    {
      assert arrayArg[i..][1..] == arrayArg[i + 1..];
      var value := ScalarToJs(t, arrayArg[i]);
      if value.None? {
        return None;
      }
      Regroup(made, value.value);
      made := made + [value.value];
      i := i + 1;
    }
    assert made + [] == made;
    return Some(Array(made));
  }
}

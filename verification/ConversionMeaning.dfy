/** What a converted value means: which JavaScript values and native values stand for each other, which
    are refused, and in which order the elements of a vector go. */
module ConversionMeaning {
  import opened Options
  import opened Utf
  import opened Conversions

  /** The two stand for the same thing. */
  predicate Same(v: JsValue, n: Native) {
    match (v, n)
    case (Boolean(a), NBool(b)) => a == b
    case (Number(i), NInteger(j)) => i == j
    case (BigInt(i), NInteger(j)) => i == j
    case (String(units), NUnit(u)) => units == if u == 0 then [] else [u]
    case (String(a), NText(b)) => a == b
    case (Object(class_, content), NOpaque(other, same)) => class_ == other && content == same
    case _ => false
  }

  /** The JavaScript values that are taken for a type at all. */
  predicate Accepts(t: Scalar, v: JsValue) {
    match t
    case Bool => v.Boolean?
    case Integer(_, _) => v.Number? || v.BigInt?
    case Char16 => v.String? && |v.units| <= 1
    case Text => v.String?
    case Opaque(class_, _) => v.Object? && v.class_ == class_
  }

  lemma AcceptedIff(t: Scalar, v: JsValue)
    ensures ScalarFromJs(t, v).Some? <==> Accepts(t, v)
  {
    if t.Char16? && v.String? && |v.units| == 1 {
      Char16FromJs(v.units[0]);
      assert v.units == [v.units[0]];
    }
  }

  /** A native value is presented as the JavaScript value that means the same; integers of 64 bits as
      BigInt, others as Number. */
  lemma PresentedAsSame(t: Scalar, n: Native)
    requires ScalarHas(t, n) && ScalarToJs(t, n).Some?
    ensures Same(ScalarToJs(t, n).value, n)
    ensures t.Integer? ==> (ScalarToJs(t, n).value.BigInt? <==> t.width == 64)
  {
    if t.Char16? && n.u != 0 {
      EncoderIsUtf8(n.u);
      if !Surrogate(n.u) {
        Char16ToJs(n.u);
      }
    }
  }

  /** A JavaScript value arrives as the native value that means the same, but for integers that do not fit
      and surrogates. */
  lemma ArrivesAsSame(t: Scalar, v: JsValue)
    requires ScalarFromJs(t, v).Some?
    ensures var n := ScalarFromJs(t, v).value;
      match t
      case Integer(width, signed) => n.NInteger? && (Fits(width, signed, v.n) ==> Same(v, n))
      case Char16 => if v.units == [] || !Surrogate(v.units[0]) then n == NUnit(if v.units == [] then 0 else v.units[0])
                     else n == NUnit(0xFFFD)
      case Text => n.NText? && |n.units| == |v.units| &&
                   forall i :: 0 <= i < |v.units| ==>
                     n.units[i] == if Surrogate(v.units[i]) && !InPair(v.units, i) then 0xFFFD else v.units[i]
      case _ => Same(v, n)
  {
    AcceptedIff(t, v);
    match t
    case Integer(width, signed) => IntegersWrapAround(width, signed, v);
    case Char16 =>
      if v.units != [] {
        Char16FromJs(v.units[0]);
        assert v.units == [v.units[0]];
      }
    case Text => LoneSurrogatesReplaced(v.units);
    case _ =>
  }

  /** The unit is one half of a surrogate pair. */
  predicate InPair(units: seq<Unit>, i: nat)
    requires i < |units|
  {
    || (0xD800 <= units[i] < 0xDC00 && i + 1 < |units| && 0xDC00 <= units[i + 1] < 0xE000)
    || (0xDC00 <= units[i] < 0xE000 && i > 0 && 0xD800 <= units[i - 1] < 0xDC00)
  }

  lemma {:induction false} LoneSurrogatesReplaced(units: seq<Unit>)
    ensures |WellFormed(units)| == |units|
    ensures forall i :: 0 <= i < |units| ==>
      WellFormed(units)[i] == if Surrogate(units[i]) && !InPair(units, i) then 0xFFFD else units[i]
  {
    if units != [] {
      var k := if High(units[0]) && |units| > 1 && Low(units[1]) then 2 else 1;
      var rest := units[k..];
      LoneSurrogatesReplaced(rest);
      forall i | 0 <= i < |units|
        ensures WellFormed(units)[i] == if Surrogate(units[i]) && !InPair(units, i) then 0xFFFD else units[i]
      {
        if i >= k {
          assert WellFormed(units)[i] == WellFormed(rest)[i - k] && rest[i - k] == units[i];
          assert InPair(rest, i - k) <==> InPair(units, i);
        }
      }
    }
  }

  /** The numbers of each integer type. */
  lemma IntegerRanges(n: int)
    ensures Fits(8, false, n) <==> 0 <= n <= 255
    ensures Fits(8, true, n) <==> -128 <= n <= 127
    ensures Fits(16, false, n) <==> 0 <= n <= 65_535
    ensures Fits(16, true, n) <==> -32_768 <= n <= 32_767
    ensures Fits(32, false, n) <==> 0 <= n <= 4_294_967_295
    ensures Fits(32, true, n) <==> -2_147_483_648 <= n <= 2_147_483_647
    ensures Fits(64, false, n) <==> 0 <= n <= 18_446_744_073_709_551_615
    ensures Fits(64, true, n) <==> -9_223_372_036_854_775_808 <= n <= 9_223_372_036_854_775_807
  {
  }

  // ---------------------------------------------------------------- vectors

  /** Elements are converted one by one and stay in order; one that does not convert refuses the array. */
  lemma {:induction false} ElementsArrive(t: Scalar, vs: seq<JsValue>)
    ensures AllFromJs(t, vs).Some? <==> forall i :: 0 <= i < |vs| ==> ScalarFromJs(t, vs[i]).Some?
    ensures AllFromJs(t, vs).Some? ==>
      |AllFromJs(t, vs).value| == |vs|
      && forall i :: 0 <= i < |vs| ==> ScalarFromJs(t, vs[i]) == Some(AllFromJs(t, vs).value[i])
  {
    hide ScalarFromJs;
    if vs != [] {
      ElementsArrive(t, vs[1..]);
      assert vs == [vs[0]] + vs[1..];
    }
  }

  lemma {:induction false} ElementsPresented(t: Scalar, ns: seq<Native>)
    ensures AllToJs(t, ns).Some? <==> forall i :: 0 <= i < |ns| ==> ScalarToJs(t, ns[i]).Some?
    ensures AllToJs(t, ns).Some? ==>
      |AllToJs(t, ns).value| == |ns|
      && forall i :: 0 <= i < |ns| ==> ScalarToJs(t, ns[i]) == Some(AllToJs(t, ns).value[i])
  {
    hide ScalarToJs;
    if ns != [] {
      ElementsPresented(t, ns[1..]);
      assert ns == [ns[0]] + ns[1..];
    }
  }

  /** Only an array is taken for a vector, and nothing for a type without values. */
  lemma WholeValues(t: ValueType, s: Scalar, v: JsValue, n: Native)
    ensures FromJs(Void, v).None? && ToJs(Void, n).None?
    ensures FromJs(One(s), v) == ScalarFromJs(s, v) && ToJs(One(s), n) == ScalarToJs(s, n)
    ensures FromJs(Vec(s), v).Some? <==> v.Array? && AllFromJs(s, v.elements).Some?
    ensures FromJs(Vec(s), v).Some? ==> FromJs(Vec(s), v) == Some(NVector(AllFromJs(s, v.elements).value))
    ensures ToJs(Vec(s), n).Some? <==> n.NVector? && AllToJs(s, n.elements).Some?
    ensures ToJs(Vec(s), n).Some? ==> ToJs(Vec(s), n) == Some(Array(AllToJs(s, n.elements).value))
  {
  }
}

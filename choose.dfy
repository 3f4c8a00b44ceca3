/** The current tree's discriminated unions `Choose<T0, T1>` … `Choose<T0, …, T4>`
    (src/FunSharp/FunSharp/Choose.cs). Each is a readonly struct holding an `int` tag and
    one slot per alternative; a constructor sets the tag and its own slot and leaves the
    others at their defaults. */
module Chooses {
  import opened DotNet

  datatype Choose2<T0, T1> = Choose2(index: int, value0: T0, value1: T1)
  datatype Choose3<T0, T1, T2> = Choose3(index: int, value0: T0, value1: T1, value2: T2)
  datatype Choose4<T0, T1, T2, T3> = Choose4(index: int, value0: T0, value1: T1, value2: T2, value3: T3)
  datatype Choose5<T0, T1, T2, T3, T4> =
    Choose5(index: int, value0: T0, value1: T1, value2: T2, value3: T3, value4: T4)

  // ---------------------------------------------------------------- two alternatives

  /** `default(Choose<T0, T1>)`: tag 0 and every slot at its default. */
  function Default2<T0, T1>(k0: TypeInfo<T0>, k1: TypeInfo<T1>): Choose2<T0, T1> {
    Choose2(0, k0.dflt, k1.dflt)
  }

  /** The implicit conversion from `T0`. */
  function From2v0<T0, T1>(k0: TypeInfo<T0>, k1: TypeInfo<T1>, v: T0): (c: Choose2<T0, T1>)
    ensures c.index == 0 && c.value0 == v && c.value1 == k1.dflt
  {
    Default2(k0, k1).(value0 := v)
  }

  /** The implicit conversion from `T1`. */
  function From2v1<T0, T1>(k0: TypeInfo<T0>, k1: TypeInfo<T1>, v: T1): (c: Choose2<T0, T1>)
    ensures c.index == 1 && c.value1 == v && c.value0 == k0.dflt
  {
    Default2(k0, k1).(index := 1, value1 := v)
  }

  /** `Match(function0, function1)`: dispatches on the tag; any other tag throws
      `ArgumentException("Invalid index.")`. */
  function Match2<T0, T1, X>(c: Choose2<T0, T1>, f0: T0 -> X, f1: T1 -> X): (r: Outcome<X>)
    ensures r.Ok? <==> 0 <= c.index < 2
    ensures r.Throw? ==> r.exception == InvalidIndex
    ensures c.index == 0 ==> r.value == f0(c.value0)
    ensures c.index == 1 ==> r.value == f1(c.value1)
  {
    if c.index == 0 then Ok(f0(c.value0))
    else if c.index == 1 then Ok(f1(c.value1))
    else Throw(InvalidIndex)
  }

  /** Injecting and matching gives the handler of the injected alternative, applied to the
      injected value. */
  lemma Match2RoundTrip<T0, T1, X>(k0: TypeInfo<T0>, k1: TypeInfo<T1>, v0: T0, v1: T1, f0: T0 -> X, f1: T1 -> X)
    ensures Match2(From2v0(k0, k1, v0), f0, f1) == Ok(f0(v0))
    ensures Match2(From2v1(k0, k1, v1), f0, f1) == Ok(f1(v1))
  {
  }

  // ---------------------------------------------------------------- three alternatives

  function Default3<T0, T1, T2>(k0: TypeInfo<T0>, k1: TypeInfo<T1>, k2: TypeInfo<T2>): Choose3<T0, T1, T2> {
    Choose3(0, k0.dflt, k1.dflt, k2.dflt)
  }

  function From3v0<T0, T1, T2>(k0: TypeInfo<T0>, k1: TypeInfo<T1>, k2: TypeInfo<T2>, v: T0): (c: Choose3<T0, T1, T2>)
    ensures c.index == 0 && c.value0 == v && c.value1 == k1.dflt && c.value2 == k2.dflt
  {
    Default3(k0, k1, k2).(value0 := v)
  }

  function From3v1<T0, T1, T2>(k0: TypeInfo<T0>, k1: TypeInfo<T1>, k2: TypeInfo<T2>, v: T1): (c: Choose3<T0, T1, T2>)
    ensures c.index == 1 && c.value1 == v && c.value0 == k0.dflt && c.value2 == k2.dflt
  {
    Default3(k0, k1, k2).(index := 1, value1 := v)
  }

  function From3v2<T0, T1, T2>(k0: TypeInfo<T0>, k1: TypeInfo<T1>, k2: TypeInfo<T2>, v: T2): (c: Choose3<T0, T1, T2>)
    ensures c.index == 2 && c.value2 == v && c.value0 == k0.dflt && c.value1 == k1.dflt
  {
    Default3(k0, k1, k2).(index := 2, value2 := v)
  }

  function Match3<T0, T1, T2, X>(c: Choose3<T0, T1, T2>, f0: T0 -> X, f1: T1 -> X, f2: T2 -> X): (r: Outcome<X>)
    ensures r.Ok? <==> 0 <= c.index < 3
    ensures r.Throw? ==> r.exception == InvalidIndex
    ensures c.index == 0 ==> r.value == f0(c.value0)
    ensures c.index == 1 ==> r.value == f1(c.value1)
    ensures c.index == 2 ==> r.value == f2(c.value2)
  {
    if c.index == 0 then Ok(f0(c.value0))
    else if c.index == 1 then Ok(f1(c.value1))
    else if c.index == 2 then Ok(f2(c.value2))
    else Throw(InvalidIndex)
  }

  lemma Match3RoundTrip<T0, T1, T2, X>(k0: TypeInfo<T0>, k1: TypeInfo<T1>, k2: TypeInfo<T2>,
                                       v0: T0, v1: T1, v2: T2, f0: T0 -> X, f1: T1 -> X, f2: T2 -> X)
    ensures Match3(From3v0(k0, k1, k2, v0), f0, f1, f2) == Ok(f0(v0))
    ensures Match3(From3v1(k0, k1, k2, v1), f0, f1, f2) == Ok(f1(v1))
    ensures Match3(From3v2(k0, k1, k2, v2), f0, f1, f2) == Ok(f2(v2))
  {
  }

  // ---------------------------------------------------------------- four alternatives

  function Default4<T0, T1, T2, T3>(k0: TypeInfo<T0>, k1: TypeInfo<T1>, k2: TypeInfo<T2>, k3: TypeInfo<T3>)
    : Choose4<T0, T1, T2, T3>
  {
    Choose4(0, k0.dflt, k1.dflt, k2.dflt, k3.dflt)
  }

  function From4v0<T0, T1, T2, T3>(k0: TypeInfo<T0>, k1: TypeInfo<T1>, k2: TypeInfo<T2>, k3: TypeInfo<T3>, v: T0)
    : (c: Choose4<T0, T1, T2, T3>)
    ensures c.index == 0 && c.value0 == v && c.value1 == k1.dflt && c.value2 == k2.dflt && c.value3 == k3.dflt
  {
    Default4(k0, k1, k2, k3).(value0 := v)
  }

  function From4v1<T0, T1, T2, T3>(k0: TypeInfo<T0>, k1: TypeInfo<T1>, k2: TypeInfo<T2>, k3: TypeInfo<T3>, v: T1)
    : (c: Choose4<T0, T1, T2, T3>)
    ensures c.index == 1 && c.value1 == v && c.value0 == k0.dflt && c.value2 == k2.dflt && c.value3 == k3.dflt
  {
    Default4(k0, k1, k2, k3).(index := 1, value1 := v)
  }

  function From4v2<T0, T1, T2, T3>(k0: TypeInfo<T0>, k1: TypeInfo<T1>, k2: TypeInfo<T2>, k3: TypeInfo<T3>, v: T2)
    : (c: Choose4<T0, T1, T2, T3>)
    ensures c.index == 2 && c.value2 == v && c.value0 == k0.dflt && c.value1 == k1.dflt && c.value3 == k3.dflt
  {
    Default4(k0, k1, k2, k3).(index := 2, value2 := v)
  }

  function From4v3<T0, T1, T2, T3>(k0: TypeInfo<T0>, k1: TypeInfo<T1>, k2: TypeInfo<T2>, k3: TypeInfo<T3>, v: T3)
    : (c: Choose4<T0, T1, T2, T3>)
    ensures c.index == 3 && c.value3 == v && c.value0 == k0.dflt && c.value1 == k1.dflt && c.value2 == k2.dflt
  {
    Default4(k0, k1, k2, k3).(index := 3, value3 := v)
  }

  function Match4<T0, T1, T2, T3, X>(c: Choose4<T0, T1, T2, T3>, f0: T0 -> X, f1: T1 -> X, f2: T2 -> X,
                                     f3: T3 -> X): (r: Outcome<X>)
    ensures r.Ok? <==> 0 <= c.index < 4
    ensures r.Throw? ==> r.exception == InvalidIndex
    ensures c.index == 0 ==> r.value == f0(c.value0)
    ensures c.index == 1 ==> r.value == f1(c.value1)
    ensures c.index == 2 ==> r.value == f2(c.value2)
    ensures c.index == 3 ==> r.value == f3(c.value3)
  {
    if c.index == 0 then Ok(f0(c.value0))
    else if c.index == 1 then Ok(f1(c.value1))
    else if c.index == 2 then Ok(f2(c.value2))
    else if c.index == 3 then Ok(f3(c.value3))
    else Throw(InvalidIndex)
  }

  lemma Match4RoundTrip<T0, T1, T2, T3, X>(k0: TypeInfo<T0>, k1: TypeInfo<T1>, k2: TypeInfo<T2>, k3: TypeInfo<T3>,
                                           v0: T0, v1: T1, v2: T2, v3: T3,
                                           f0: T0 -> X, f1: T1 -> X, f2: T2 -> X, f3: T3 -> X)
    ensures Match4(From4v0(k0, k1, k2, k3, v0), f0, f1, f2, f3) == Ok(f0(v0))
    ensures Match4(From4v1(k0, k1, k2, k3, v1), f0, f1, f2, f3) == Ok(f1(v1))
    ensures Match4(From4v2(k0, k1, k2, k3, v2), f0, f1, f2, f3) == Ok(f2(v2))
    ensures Match4(From4v3(k0, k1, k2, k3, v3), f0, f1, f2, f3) == Ok(f3(v3))
  {
  }

  // ---------------------------------------------------------------- five alternatives

  function Default5<T0, T1, T2, T3, T4>(k0: TypeInfo<T0>, k1: TypeInfo<T1>, k2: TypeInfo<T2>, k3: TypeInfo<T3>,
                                        k4: TypeInfo<T4>): Choose5<T0, T1, T2, T3, T4>
  {
    Choose5(0, k0.dflt, k1.dflt, k2.dflt, k3.dflt, k4.dflt)
  }

  function From5v0<T0, T1, T2, T3, T4>(k0: TypeInfo<T0>, k1: TypeInfo<T1>, k2: TypeInfo<T2>, k3: TypeInfo<T3>,
                                       k4: TypeInfo<T4>, v: T0): (c: Choose5<T0, T1, T2, T3, T4>)
    ensures c.index == 0 && c.value0 == v
    ensures c.value1 == k1.dflt && c.value2 == k2.dflt && c.value3 == k3.dflt && c.value4 == k4.dflt
  {
    Default5(k0, k1, k2, k3, k4).(value0 := v)
  }

  function From5v1<T0, T1, T2, T3, T4>(k0: TypeInfo<T0>, k1: TypeInfo<T1>, k2: TypeInfo<T2>, k3: TypeInfo<T3>,
                                       k4: TypeInfo<T4>, v: T1): (c: Choose5<T0, T1, T2, T3, T4>)
    ensures c.index == 1 && c.value1 == v
    ensures c.value0 == k0.dflt && c.value2 == k2.dflt && c.value3 == k3.dflt && c.value4 == k4.dflt
  {
    Default5(k0, k1, k2, k3, k4).(index := 1, value1 := v)
  }

  function From5v2<T0, T1, T2, T3, T4>(k0: TypeInfo<T0>, k1: TypeInfo<T1>, k2: TypeInfo<T2>, k3: TypeInfo<T3>,
                                       k4: TypeInfo<T4>, v: T2): (c: Choose5<T0, T1, T2, T3, T4>)
    ensures c.index == 2 && c.value2 == v
    ensures c.value0 == k0.dflt && c.value1 == k1.dflt && c.value3 == k3.dflt && c.value4 == k4.dflt
  {
    Default5(k0, k1, k2, k3, k4).(index := 2, value2 := v)
  }

  function From5v3<T0, T1, T2, T3, T4>(k0: TypeInfo<T0>, k1: TypeInfo<T1>, k2: TypeInfo<T2>, k3: TypeInfo<T3>,
                                       k4: TypeInfo<T4>, v: T3): (c: Choose5<T0, T1, T2, T3, T4>)
    ensures c.index == 3 && c.value3 == v
    ensures c.value0 == k0.dflt && c.value1 == k1.dflt && c.value2 == k2.dflt && c.value4 == k4.dflt
  {
    Default5(k0, k1, k2, k3, k4).(index := 3, value3 := v)
  }

  function From5v4<T0, T1, T2, T3, T4>(k0: TypeInfo<T0>, k1: TypeInfo<T1>, k2: TypeInfo<T2>, k3: TypeInfo<T3>,
                                       k4: TypeInfo<T4>, v: T4): (c: Choose5<T0, T1, T2, T3, T4>)
    ensures c.index == 4 && c.value4 == v
    ensures c.value0 == k0.dflt && c.value1 == k1.dflt && c.value2 == k2.dflt && c.value3 == k3.dflt
  {
    Default5(k0, k1, k2, k3, k4).(index := 4, value4 := v)
  }

  function Match5<T0, T1, T2, T3, T4, X>(c: Choose5<T0, T1, T2, T3, T4>, f0: T0 -> X, f1: T1 -> X,
                                         f2: T2 -> X, f3: T3 -> X, f4: T4 -> X): (r: Outcome<X>)
    ensures r.Ok? <==> 0 <= c.index < 5
    ensures r.Throw? ==> r.exception == InvalidIndex
    ensures c.index == 0 ==> r.value == f0(c.value0)
    ensures c.index == 1 ==> r.value == f1(c.value1)
    ensures c.index == 2 ==> r.value == f2(c.value2)
    ensures c.index == 3 ==> r.value == f3(c.value3)
    ensures c.index == 4 ==> r.value == f4(c.value4)
  {
    if c.index == 0 then Ok(f0(c.value0))
    else if c.index == 1 then Ok(f1(c.value1))
    else if c.index == 2 then Ok(f2(c.value2))
    else if c.index == 3 then Ok(f3(c.value3))
    else if c.index == 4 then Ok(f4(c.value4))
    else Throw(InvalidIndex)
  }

  lemma Match5RoundTrip<T0, T1, T2, T3, T4, X>(k0: TypeInfo<T0>, k1: TypeInfo<T1>, k2: TypeInfo<T2>,
                                               k3: TypeInfo<T3>, k4: TypeInfo<T4>,
                                               v0: T0, v1: T1, v2: T2, v3: T3, v4: T4,
                                               f0: T0 -> X, f1: T1 -> X, f2: T2 -> X, f3: T3 -> X, f4: T4 -> X)
    ensures Match5(From5v0(k0, k1, k2, k3, k4, v0), f0, f1, f2, f3, f4) == Ok(f0(v0))
    ensures Match5(From5v1(k0, k1, k2, k3, k4, v1), f0, f1, f2, f3, f4) == Ok(f1(v1))
    ensures Match5(From5v2(k0, k1, k2, k3, k4, v2), f0, f1, f2, f3, f4) == Ok(f2(v2))
    ensures Match5(From5v3(k0, k1, k2, k3, k4, v3), f0, f1, f2, f3, f4) == Ok(f3(v3))
    ensures Match5(From5v4(k0, k1, k2, k3, k4, v4), f0, f1, f2, f3, f4) == Ok(f4(v4))
  {
  }

  // ---------------------------------------------------------------- no empty state

  /** `default(Choose<…>)` is not an empty union: it matches as alternative 0 holding
      `default(T0)`, for every arity. */
  lemma DefaultIsFirstAlternative<T0, T1, T2, T3, T4, X>(k0: TypeInfo<T0>, k1: TypeInfo<T1>, k2: TypeInfo<T2>,
                                                         k3: TypeInfo<T3>, k4: TypeInfo<T4>,
                                                         f0: T0 -> X, f1: T1 -> X, f2: T2 -> X,
                                                         f3: T3 -> X, f4: T4 -> X)
    ensures Default2(k0, k1) == From2v0(k0, k1, k0.dflt)
    ensures Match2(Default2(k0, k1), f0, f1) == Ok(f0(k0.dflt))
    ensures Match3(Default3(k0, k1, k2), f0, f1, f2) == Ok(f0(k0.dflt))
    ensures Match4(Default4(k0, k1, k2, k3), f0, f1, f2, f3) == Ok(f0(k0.dflt))
    ensures Match5(Default5(k0, k1, k2, k3, k4), f0, f1, f2, f3, f4) == Ok(f0(k0.dflt))
  {
  }

  /** The two-alternative test: `Choose<int, string>` from 50 matches "int", from a string
      matches "string". */
  lemma Choose2Scenario(s: string)
    ensures Match2(From2v0(IntType, StringType, 50), _ => "int", _ => "string") == Ok("int")
    ensures Match2(From2v1(IntType, StringType, NonNull(s)), _ => "int", _ => "string") == Ok("string")
  {
  }
}

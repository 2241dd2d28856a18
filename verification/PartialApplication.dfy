/** The run-time side of partial application: the context built from a binding, and the wrapper function
    that passes constants and forwarded arguments to the original. */
module PartialApplication {
  import opened Options
  import opened Types
  import opened Signature

  /** One entry of a Context.  Pointers, structs and modules are constants of their own. */
  datatype Argument =
    | Forward(index: nat)
    | Int(value: int)
    | Float(real)
    | IntRange(current: int)
    | Opaque(id: nat)

  /** A run-time value, with its type. */
  datatype Value = BoolValue(bool) | IntValue(width: nat, bits: int) | FloatValue(real) | OpaqueValue(ty: Ty, id: nat)

  function TypeOf(v: Value): Ty {
    match v
    case BoolValue(_) => BoolTy
    case IntValue(w, _) => IntTy(w)
    case FloatValue(_) => FloatTy
    case OpaqueValue(t, _) => t
  }

  /** One argument of the binding as the programmer writes it. */
  datatype Actual =
    | Ph(index: nat, spelling: nat)
    | Tuned(current: int)
    | IntActual(value: int)
    | FloatActual(number: real)
    | OtherActual(id: nat)

  function Pow2(n: nat): (p: int)
    ensures p > 0
  {
    if n == 0 then 1 else 2 * Pow2(n - 1)
  }

  const INT64_BITS: nat := 64

  /** The value of `v` as a two's complement integer of `w` bits. */
  function SignedBits(v: int, w: nat): int
    requires w > 0
  {
    var m := v % Pow2(w);
    if m >= Pow2(w - 1) then m - Pow2(w) else m
  }

  /** ConstantInt::get: the bits of a constant in a parameter of `w` bits. */
  function BitsIn(v: int, w: nat): int {
    v % Pow2(w)
  }

  /** The program accepts any number for an integral parameter, bool included, and for a floating one. */
  predicate Suits(param: Ty, actual: Actual) {
    match actual
    case Ph(index, _) => index > 0
    case Tuned(_) => param == IntTy(32)
    case OtherActual(_) => param.PointerTy? || param.ClassTy?
    case _ => param.BoolTy? || param.IntTy? || param.FloatTy?
  }

  predicate AllSuit(params: seq<Ty>, actuals: seq<Actual>) {
    |params| == |actuals| && forall i :: 0 <= i < |params| ==> Suits(params[i], actuals[i])
  }

  predicate IsNumber(actual: Actual) {
    actual.IntActual? || actual.FloatActual?
  }

  /** Conversion of a floating number to an integer type: towards zero. */
  function Truncate(r: real): int {
    if r >= 0.0 then r.Floor else -((-r).Floor)
  }

  function AsInt(actual: Actual): int
    requires IsNumber(actual)
  {
    if actual.IntActual? then actual.value else Truncate(actual.number)
  }

  function AsReal(actual: Actual): real
    requires IsNumber(actual)
  {
    if actual.IntActual? then actual.value as real else actual.number
  }

  /** set_param, chosen by the parameter's type: a number for an integral parameter passes through int64_t
      on its way into the context. */
  function ArgumentFor(param: Ty, actual: Actual): Argument {
    match actual
    case Ph(index, _) => Forward(if index > 0 then index - 1 else 0)
    case Tuned(current) => IntRange(current)
    case OtherActual(id) => Opaque(id)
    case _ => if param.FloatTy? then Float(AsReal(actual)) else Int(SignedBits(AsInt(actual), INT64_BITS))
  }

  function ContextFor(params: seq<Ty>, actuals: seq<Actual>): seq<Argument>
    requires |actuals| <= |params|
  {
    seq(|actuals|, i requires 0 <= i < |actuals| => ArgumentFor(params[i], actuals[i]))
  }

  lemma ContextHead(params: seq<Ty>, actuals: seq<Actual>)
    requires actuals != [] && |actuals| <= |params|
    ensures ContextFor(params, actuals) == [ArgumentFor(params[0], actuals[0])] + ContextFor(params[1..], actuals[1..])
  {
  }

  class Context {
    var mapping: seq<Argument>

    constructor ()
      ensures mapping == []
    {
      mapping := [];
    }

    method SetArg(a: Argument)
      modifies this
      ensures mapping == old(mapping) + [a]
    {
      mapping := mapping + [a];
    }

    /** set_parameters: one argument per parameter, in order. */
    method SetParameters(params: seq<Ty>, actuals: seq<Actual>)
      requires AllSuit(params, actuals)
      modifies this
      ensures mapping == old(mapping) + ContextFor(params, actuals)
      decreases |params|
    {
      if params == [] {
        assert ContextFor(params, actuals) == [];
      } else {
        ContextHead(params, actuals);
        hide ContextFor, ArgumentFor, Suits;
        SetArg(ArgumentFor(params[0], actuals[0]));
        SetParameters(params[1..], actuals[1..]);
      }
    }
  }

  // ----- the wrapper's type

  /** One more than the largest forwarded index. */
  function NewArgCount(c: seq<Argument>): nat {
    if c == [] then 0
    else
      var m, last := NewArgCount(c[..|c| - 1]), c[|c| - 1];
      if last.Forward? && last.index + 1 > m then last.index + 1 else m
  }

  method GetNewArgCount(c: seq<Argument>) returns (max: nat)
    ensures max == NewArgCount(c)
    ensures forall i :: 0 <= i < |c| && c[i].Forward? ==> c[i].index < max
    ensures max > 0 ==> Forward(max - 1) in c
  {
    ForwardsInRange(c);
    max := 0;
    for i := 0 to |c|
      invariant max == NewArgCount(c[..i])
    {
      assert c[..i + 1][..i] == c[..i];
      if c[i].Forward? && c[i].index + 1 > max {
        max := c[i].index + 1;
      }
    }
    assert c[..|c|] == c;
  }

  lemma {:induction false} ForwardsInRange(c: seq<Argument>)
    ensures forall i :: 0 <= i < |c| && c[i].Forward? ==> c[i].index < NewArgCount(c)
    ensures NewArgCount(c) > 0 ==> Forward(NewArgCount(c) - 1) in c
    decreases |c|
  {
    if c != [] {
      ForwardsInRange(c[..|c| - 1]);
      assert c == c[..|c| - 1] + [c[|c| - 1]];
    }
  }

  /** The type of wrapper parameter `k`: that of the first parameter it is forwarded to, if any. */
  function SlotType(params: seq<Ty>, c: seq<Argument>, k: nat): Option<Ty>
    requires |c| <= |params|
  {
    if c == [] then None
    else
      var before, last := SlotType(params, c[..|c| - 1], k), c[|c| - 1];
      if before.Some? then before else if last == Forward(k) then Some(params[|c| - 1]) else None
  }

  function WrapperTypes(params: seq<Ty>, c: seq<Argument>): seq<Option<Ty>>
    requires |c| <= |params|
  {
    seq(NewArgCount(c), k requires 0 <= k => SlotType(params, c, k))
  }

  /** GetWrapperTy: fill the parameter types by index, first use first. */
  method GetWrapperTy(params: seq<Ty>, c: seq<Argument>) returns (args: array<Option<Ty>>)
    requires |c| == |params|
    ensures args[..] == WrapperTypes(params, c)
  {
    var newArgCount := GetNewArgCount(c);
    ForwardsInRange(c);
    args := new Option<Ty>[newArgCount](_ => None);
    for i := 0 to |c|
      invariant forall k :: 0 <= k < args.Length ==> args[k] == SlotType(params, c[..i], k)
    {
      assert c[..i + 1][..i] == c[..i];
      if c[i].Forward? {
        var paramIdx := c[i].index;
        if args[paramIdx].None? {
          args[paramIdx] := Some(params[i]);
        }
      }
    }
    assert c[..|c|] == c;
  }

  // ----- the wrapper's call

  /** ConstantInt::get for an integral parameter; a bool is an integer of one bit. */
  function IntegralConstant(param: Ty, v: int): Value {
    match param
    case BoolTy => BoolValue(BitsIn(v, 1) == 1)
    case IntTy(w) => IntValue(w, BitsIn(v, w))
    case _ => OpaqueValue(param, 0)
  }

  /** The value that one context entry passes to the original. */
  function InlineArg(param: Ty, a: Argument, wrapperArgs: seq<Value>): Value
    requires a.Forward? ==> a.index < |wrapperArgs|
  {
    match a
    case Forward(k) => wrapperArgs[k]
    case Int(v) => IntegralConstant(param, v)
    case IntRange(v) => IntegralConstant(param, v)
    case Float(r) => FloatValue(r)
    case Opaque(id) => OpaqueValue(param, id)
  }

  /** GetInlineArgs: the argument list of the call inside the wrapper. */
  method GetInlineArgs(params: seq<Ty>, c: seq<Argument>, wrapperArgs: seq<Value>) returns (args: seq<Value>)
    requires |c| == |params| && |wrapperArgs| == NewArgCount(c)
    ensures |args| == |c|
    ensures forall i :: 0 <= i < |c| && c[i].Forward? ==> c[i].index < |wrapperArgs|
    ensures forall i :: 0 <= i < |c| ==> args[i] == InlineArg(params[i], c[i], wrapperArgs)
  {
    ForwardsInRange(c);
    args := [];
    for i := 0 to |c|
      invariant |args| == i
      invariant forall j :: 0 <= j < i ==> args[j] == InlineArg(params[j], c[j], wrapperArgs)
    {
      args := args + [InlineArg(params[i], c[i], wrapperArgs)];
    }
  }

  /** What calling the original directly would pass: the caller's argument for a placeholder, and the bound
      value converted to the parameter's type for anything else.  A number becomes a bool by comparison
      with zero. */
  function DirectArg(param: Ty, actual: Actual, callArgs: seq<Value>): Value
    requires Suits(param, actual) && (actual.Ph? ==> actual.index <= |callArgs|)
  {
    match actual
    case Ph(k, _) => callArgs[k - 1]
    case Tuned(v) => IntValue(param.width, BitsIn(v, param.width))
    case OtherActual(id) => OpaqueValue(param, id)
    case _ =>
      match param
      case BoolTy => BoolValue(AsReal(actual) != 0.0)
      case IntTy(w) => IntValue(w, BitsIn(AsInt(actual), w))
      case _ => FloatValue(AsReal(actual))
  }

  lemma {:induction false} Pow2Splits(a: nat, b: nat)
    ensures Pow2(a + b) == Pow2(a) * Pow2(b)
    decreases a
  {
    if a > 0 {
      Pow2Splits(a - 1, b);
    }
  }

  lemma ModUnique(v: int, m: int, q: int, r: int)
    requires m > 0 && v == q * m + r && 0 <= r < m
    ensures v % m == r
  {
    var q', r' := v / m, v % m;
    var d := q - q';
    assert d * m == r' - r by {
      assert v == q' * m + r';
      Distribute(q, q', m);
    }
    SmallMultipleIsZero(d, m);
  }

  lemma Distribute(a: int, b: int, m: int)
    ensures (a - b) * m == a * m - b * m
  {
  }

  lemma SmallMultipleIsZero(d: int, m: int)
    requires m > 0 && -m < d * m < m
    ensures d == 0
  {
  }

  /** Dropping a multiple of the modulus changes no bits. */
  lemma ModDrops(v: int, m: int, k: int)
    requires m > 0
    ensures (v + k * m) % m == v % m
  {
    assert v + k * m == (v / m + k) * m + v % m by {
      assert v == (v / m) * m + v % m;
      assert (v / m + k) * m == (v / m) * m + k * m;
    }
    ModUnique(v + k * m, m, v / m + k, v % m);
  }

  /** The detour through int64_t differs from the value by a multiple of 2^64. */
  lemma DetourBy(v: int) returns (k: int)
    ensures v == SignedBits(v, INT64_BITS) + k * Pow2(INT64_BITS)
    ensures -Pow2(INT64_BITS - 1) <= SignedBits(v, INT64_BITS) < Pow2(INT64_BITS - 1)
  {
    k := SignedBitsBy(v, INT64_BITS);
  }

  lemma SignedBitsBy(v: int, w: nat) returns (k: int)
    requires w > 0
    ensures v == SignedBits(v, w) + k * Pow2(w)
    ensures -Pow2(w - 1) <= SignedBits(v, w) < Pow2(w - 1)
  {
    var p := Pow2(w);
    assert p == 2 * Pow2(w - 1);
    var m := v % p;
    k := if m >= Pow2(w - 1) then v / p + 1 else v / p;
    assert v == (v / p) * p + m;
    Distribute(v / p + 1, 1, p);
  }

  /** A constant bound to a parameter of at most 64 bits keeps its bits. */
  lemma NarrowConstantsExact(v: int, w: nat)
    requires w <= INT64_BITS
    ensures BitsIn(SignedBits(v, INT64_BITS), w) == BitsIn(v, w)
  {
    hide Pow2, SignedBits;
    var k := DetourBy(v);
    var a, b := Pow2(INT64_BITS - w), Pow2(w);
    Pow2Splits(INT64_BITS - w, w);
    Reassociate(k, a, b);
    ModDrops(SignedBits(v, INT64_BITS), b, k * a);
  }

  lemma Reassociate(k: int, a: int, b: int)
    ensures k * (a * b) == (k * a) * b
  {
  }

  /** `u` as a two's complement integer of `w` bits is the one value in range with the same bits. */
  lemma SignedBitsUnique(v: int, u: int, w: nat)
    requires w > 0 && -Pow2(w - 1) <= u < Pow2(w - 1) && u % Pow2(w) == v % Pow2(w)
    ensures SignedBits(v, w) == u
  {
    var k := SignedBitsBy(v, w);
    var s, p := SignedBits(v, w), Pow2(w);
    assert p == 2 * Pow2(w - 1);
    hide Pow2, SignedBits;
    ModDrops(s, p, k);
    SameBitsNear(u, s, p);
  }

  /** What fits int64_t, as a signed number. */
  predicate FitsInt64(v: int) {
    -Pow2(INT64_BITS - 1) <= v < Pow2(INT64_BITS - 1)
  }

  /** In a parameter of any width a constant keeps its bits exactly when, read as a signed number of that
      width, it fits int64_t. */
  lemma WideConstantsExactIff(v: int, w: nat)
    requires w > INT64_BITS
    ensures BitsIn(SignedBits(v, INT64_BITS), w) == BitsIn(v, w) <==> FitsInt64(SignedBits(v, w))
  {
    var s, u := SignedBits(v, INT64_BITS), SignedBits(v, w);
    var k := DetourBy(v);
    var l := SignedBitsBy(v, w);
    Pow2Grows(INT64_BITS - 1, w - 1);
    var a, b := Pow2(w - INT64_BITS), Pow2(INT64_BITS);
    Pow2Splits(w - INT64_BITS, INT64_BITS);
    assert Pow2(w) == a * b;
    hide Pow2, SignedBits;
    if BitsIn(s, w) == BitsIn(v, w) {
      SignedBitsUnique(v, s, w);
    }
    if FitsInt64(u) {
      Reassociate(l, a, b);
      ModDrops(u, b, l * a);
      SignedBitsUnique(v, u, INT64_BITS);
      ModDrops(u, Pow2(w), l);
    }
  }

  /** The largest unsigned constant does not fit int64_t and keeps all its bits. */
  lemma LargestUnsignedIsExact(w: nat)
    requires w > INT64_BITS
    ensures !FitsInt64(Pow2(w) - 1)
    ensures BitsIn(SignedBits(Pow2(w) - 1, INT64_BITS), w) == BitsIn(Pow2(w) - 1, w)
  {
    Pow2Grows(INT64_BITS - 1, w - 1);
    assert Pow2(w) == 2 * Pow2(w - 1);
    ModDrops(-1, Pow2(w), 1);
    SignedBitsUnique(Pow2(w) - 1, -1, w);
    WideConstantsExactIff(Pow2(w) - 1, w);
  }

  lemma SameBitsNear(v: int, s: int, p: int)
    requires p > 0 && v % p == s % p && -p < v - s < p
    ensures v == s
  {
    assert v == (v / p) * p + v % p && s == (s / p) * p + s % p;
    Distribute(v / p, s / p, p);
    SmallMultipleIsZero(v / p - s / p, p);
  }

  lemma {:induction false} Pow2Grows(a: nat, b: nat)
    requires a < b
    ensures 2 * Pow2(a) <= Pow2(b)
    decreases b
  {
    if a + 1 < b { Pow2Grows(a, b - 1); }
  }

  /** The detour keeps the lowest bit, so a bool constant is right exactly for zero and for odd integers. */
  lemma BoolConstantsExactIff(actual: Actual)
    requires IsNumber(actual)
    ensures IntegralConstant(BoolTy, SignedBits(AsInt(actual), INT64_BITS)) == DirectArg(BoolTy, actual, [])
            <==> AsReal(actual) == 0.0 || AsInt(actual) % 2 == 1
  {
    NarrowConstantsExact(AsInt(actual), 1);
    assert Pow2(1) == 2 * Pow2(0) == 2;
    hide SignedBits, Pow2;
  }

  /** Two is bound as false and passed as true. */
  lemma TwoIsBoundAsFalse()
    ensures IntegralConstant(BoolTy, SignedBits(2, INT64_BITS)) == BoolValue(false)
    ensures DirectArg(BoolTy, IntActual(2), []) == BoolValue(true)
  {
    BoolConstantsExactIff(IntActual(2));
  }

  /** The bound constant reaches the original unchanged. */
  predicate Exact(param: Ty, actual: Actual) {
    IsNumber(actual) ==>
      match param
      case BoolTy => AsReal(actual) == 0.0 || AsInt(actual) % 2 == 1
      case IntTy(w) => w <= INT64_BITS || FitsInt64(SignedBits(AsInt(actual), w))
      case _ => true
  }

  /** Calling the wrapper passes the original, for each parameter, what a direct call with the bound values
      in place would, exactly when the constant is one that survives. */
  lemma WrapperCallsOriginal(params: seq<Ty>, actuals: seq<Actual>, callArgs: seq<Value>, i: nat)
    requires AllSuit(params, actuals) && i < |params|
    requires |callArgs| == NewArgCount(ContextFor(params, actuals))
    ensures ContextFor(params, actuals)[i].Forward? ==> ContextFor(params, actuals)[i].index < |callArgs|
    ensures actuals[i].Ph? ==> actuals[i].index <= |callArgs|
    ensures InlineArg(params[i], ContextFor(params, actuals)[i], callArgs) == DirectArg(params[i], actuals[i], callArgs)
            <==> Exact(params[i], actuals[i])
  {
    ForwardsInRange(ContextFor(params, actuals));
    assert Suits(params[i], actuals[i]);
    hide SignedBits, Pow2, FitsInt64, Truncate;
    if IsNumber(actuals[i]) {
      NumberArrives(params[i], actuals[i]);
    }
  }

  lemma NumberArrives(param: Ty, actual: Actual)
    requires IsNumber(actual) && Suits(param, actual)
    ensures InlineArg(param, ArgumentFor(param, actual), []) == DirectArg(param, actual, []) <==> Exact(param, actual)
  {
    hide SignedBits, Pow2, FitsInt64, Truncate, AsInt, AsReal;
    match param
    case BoolTy => BoolConstantsExactIff(actual);
    case IntTy(w) =>
      if w <= INT64_BITS {
        NarrowConstantsExact(AsInt(actual), w);
      } else {
        WideConstantsExactIff(AsInt(actual), w);
      }
    case _ =>
  }

  // ----- the value that arrives, told from the constant alone

  lemma Pow2Values()
    ensures Pow2(8) == 0x100 && Pow2(16) == 0x1_0000 && Pow2(32) == 0x1_0000_0000 && Pow2(64) == 0x1_0000_0000_0000_0000
  {
    assert Pow2(4) == 2 * Pow2(3) == 4 * Pow2(2) == 8 * Pow2(1) == 16 * Pow2(0);
    Pow2Splits(4, 4);
    Pow2Splits(8, 8);
    Pow2Splits(16, 16);
    Pow2Splits(32, 32);
  }

  /** A floating parameter receives the number bound to it. */
  lemma FloatingConstantArrives(r: real, v: int)
    ensures InlineArg(FloatTy, ArgumentFor(FloatTy, FloatActual(r)), []) == FloatValue(r)
    ensures InlineArg(FloatTy, ArgumentFor(FloatTy, IntActual(v)), []) == FloatValue(v as real)
  {
  }

  /** A number of `w` bits congruent to `v`. */
  predicate IsBits(b: int, v: int, w: nat) {
    0 <= b < Pow2(w) && (v - b) % Pow2(w) == 0
  }

  /** `b` is the one there is. */
  ghost predicate AreBitsOf(b: int, v: int, w: nat) {
    IsBits(b, v, w) && forall c :: IsBits(c, v, w) ==> c == b
  }

  lemma BitsAreBits(v: int, w: nat)
    ensures AreBitsOf(BitsIn(v, w), v, w)
  {
    var m := Pow2(w);
    hide Pow2;
    var b := v % m;
    assert v == (v / m) * m + b;
    MultipleHasNoRest(v / m, m);
    assert v - b == (v / m) * m;
    forall c | IsBits(c, v, w) ensures c == b {
      var q := (v - c) / m;
      assert v - c == q * m + (v - c) % m;
      ModUnique(v, m, q, c);
    }
  }

  lemma MultipleHasNoRest(q: int, m: int)
    requires m > 0
    ensures (q * m) % m == 0
  {
    ModUnique(q * m, m, q, 0);
  }

  /** An integer parameter of at most 64 bits receives the constant's bits in two's complement. */
  lemma IntegerConstantArrives(v: int, w: nat) returns (b: int)
    requires w <= 64
    ensures InlineArg(IntTy(w), ArgumentFor(IntTy(w), IntActual(v)), []) == IntValue(w, b)
    ensures AreBitsOf(b, v, w)
  {
    b := BitsIn(v, w);
    NarrowConstantsExact(v, w);
    BitsAreBits(v, w);
    hide SignedBits, BitsIn, Pow2, AreBitsOf;
  }

  /** `z` is `r` without its fraction. */
  predicate IsTruncationOf(z: int, r: real) {
    if r >= 0.0 then 0.0 <= z as real <= r < (z + 1) as real else (z - 1) as real < r <= z as real <= 0.0
  }

  /** A floating number bound to an integer parameter loses its fraction first. */
  lemma FloatingBecomesInteger(r: real, z: int, w: nat)
    requires IsTruncationOf(z, r)
    ensures InlineArg(IntTy(w), ArgumentFor(IntTy(w), FloatActual(r)), []) == InlineArg(IntTy(w), ArgumentFor(IntTy(w), IntActual(z)), [])
    ensures InlineArg(BoolTy, ArgumentFor(BoolTy, FloatActual(r)), []) == InlineArg(BoolTy, ArgumentFor(BoolTy, IntActual(z)), [])
  {
    assert Truncate(r) == z;
    hide SignedBits, Pow2, Truncate;
  }

  /** A bool parameter receives the constant's lowest bit. */
  lemma BoolConstantArrives(v: int)
    ensures InlineArg(BoolTy, ArgumentFor(BoolTy, IntActual(v)), []) == BoolValue(v % 2 == 1)
  {
    NarrowConstantsExact(v, 1);
    assert Pow2(1) == 2 * Pow2(0) == 2;
    hide SignedBits, Pow2;
  }

  /** A tuned int parameter receives its current value, a pointer or class parameter what was bound, and a
      parameter bound to placeholder k the caller's argument number k. */
  lemma OthersArrive(params: seq<Ty>, actuals: seq<Actual>, callArgs: seq<Value>, i: nat)
    requires AllSuit(params, actuals) && i < |params| && !IsNumber(actuals[i])
    requires |callArgs| == NewArgCount(ContextFor(params, actuals))
    ensures ContextFor(params, actuals)[i].Forward? ==> ContextFor(params, actuals)[i].index < |callArgs|
    ensures var v := InlineArg(params[i], ContextFor(params, actuals)[i], callArgs);
      match actuals[i]
      case Ph(k, _) => 1 <= k <= |callArgs| && v == callArgs[k - 1]
      case Tuned(current) => v.IntValue? && v.width == 32 && AreBitsOf(v.bits, current, 32)
      case OtherActual(id) => v == OpaqueValue(params[i], id)
      case _ => true
  {
    ForwardsInRange(ContextFor(params, actuals));
    assert Suits(params[i], actuals[i]);
    if actuals[i].Tuned? {
      BitsAreBits(actuals[i].current, 32);
    }
    hide BitsIn, Pow2, AreBitsOf;
  }

  // ----- typing

  function SomeValue(t: Ty): (v: Value)
    ensures TypeOf(v) == t
  {
    match t
    case BoolTy => BoolValue(false)
    case IntTy(w) => IntValue(w, 0)
    case FloatTy => FloatValue(0.0)
    case _ => OpaqueValue(t, 0)
  }

  /** The caller's arguments have the wrapper's parameter types; an unfilled slot has no type to respect. */
  predicate CallTyped(params: seq<Ty>, c: seq<Argument>, callArgs: seq<Value>)
    requires |c| == |params|
  {
    && |callArgs| == NewArgCount(c)
    && forall k :: 0 <= k < |callArgs| && SlotType(params, c, k).Some? ==> TypeOf(callArgs[k]) == SlotType(params, c, k).value
  }

  /** Inside the wrapper, every argument of the call to the original has its parameter's type. */
  ghost predicate AlwaysWellTyped(params: seq<Ty>, c: seq<Argument>)
    requires |c| == |params|
  {
    forall callArgs :: CallTyped(params, c, callArgs) ==>
      forall i :: 0 <= i < |c| && c[i].Forward? ==> c[i].index < |callArgs| && TypeOf(callArgs[c[i].index]) == params[i]
  }

  /** All uses of a placeholder are for parameters of one type. */
  predicate UsesAgree(params: seq<Ty>, c: seq<Argument>)
    requires |c| == |params|
  {
    forall i, j :: 0 <= i < |c| && 0 <= j < |c| && c[i].Forward? && c[i] == c[j] ==> params[i] == params[j]
  }

  lemma {:induction false} SlotTypeIs(params: seq<Ty>, c: seq<Argument>, k: nat)
    requires |c| <= |params|
    ensures SlotType(params, c, k).Some? <==> Forward(k) in c
    ensures SlotType(params, c, k).Some? ==> exists i :: 0 <= i < |c| && c[i] == Forward(k) && params[i] == SlotType(params, c, k).value
    decreases |c|
  {
    if c != [] {
      SlotTypeIs(params, c[..|c| - 1], k);
      assert c == c[..|c| - 1] + [c[|c| - 1]];
      if SlotType(params, c[..|c| - 1], k).Some? {
        var i :| 0 <= i < |c| - 1 && c[..|c| - 1][i] == Forward(k) && params[i] == SlotType(params, c[..|c| - 1], k).value;
        assert c[i] == Forward(k);
      }
    }
  }

  /** The call in the wrapper is well typed for all typed callers exactly when the uses of each placeholder agree. */
  lemma WellTypedIffUsesAgree(params: seq<Ty>, c: seq<Argument>)
    requires |c| == |params|
    ensures AlwaysWellTyped(params, c) <==> UsesAgree(params, c)
  {
    ForwardsInRange(c);
    if UsesAgree(params, c) {
      forall callArgs, i | CallTyped(params, c, callArgs) && 0 <= i < |c| && c[i].Forward?
        ensures c[i].index < |callArgs| && TypeOf(callArgs[c[i].index]) == params[i]
      {
        SlotTypeIs(params, c, c[i].index);
      }
    }
    if AlwaysWellTyped(params, c) {
      var callArgs := seq(NewArgCount(c), k requires 0 <= k =>
        var t := SlotType(params, c, k); SomeValue(if t.Some? then t.value else FloatTy));
      assert CallTyped(params, c, callArgs);
    }
  }

  // ----- compile time and run time agree

  function TypeLevel(a: Actual): ArgTy {
    if a.Ph? then Placeholder(a.index, a.spelling) else OtherArg
  }

  function TypeLevels(actuals: seq<Actual>): seq<ArgTy> {
    seq(|actuals|, i requires 0 <= i < |actuals| => TypeLevel(actuals[i]))
  }

  predicate ProperPlaceholders(actuals: seq<Actual>) {
    forall i :: 0 <= i < |actuals| && actuals[i].Ph? ==> actuals[i].index > 0
  }

  lemma {:induction false} SlotIsFirstUse(params: seq<Ty>, actuals: seq<Actual>, k: nat)
    requires ProperPlaceholders(actuals) && |actuals| <= |params|
    ensures var u := FirstUse(TypeLevels(actuals), k + 1);
            SlotType(params, ContextFor(params, actuals), k) == if u.Some? then Some(params[u.value]) else None
    decreases |actuals|
  {
    if actuals != [] {
      var n := |actuals| - 1;
      Fronts(params, actuals);
      var al, c := TypeLevels(actuals), ContextFor(params, actuals);
      assert al[n] == TypeLevel(actuals[n]) && c[n] == ArgumentFor(params[n], actuals[n]) && |al| == |c| == n + 1;
      hide TypeLevels, ContextFor;
      SlotIsFirstUse(params, actuals[..n], k);
    }
  }

  lemma Fronts(params: seq<Ty>, actuals: seq<Actual>)
    requires actuals != [] && |actuals| <= |params|
    ensures var n := |actuals| - 1;
            && TypeLevels(actuals)[..n] == TypeLevels(actuals[..n])
            && ContextFor(params, actuals)[..n] == ContextFor(params, actuals[..n])
  {
  }

  lemma MaxSnoc(al: seq<ArgTy>)
    requires al != []
    ensures var n, m := |al| - 1, MaxPlaceholder(al[..|al| - 1]);
            MaxPlaceholder(al) == if PlaceholderValue(al[n]) > m then PlaceholderValue(al[n]) else m
  {
    MaxFromSnoc(al, 0);
  }

  lemma {:induction false} MaxFromSnoc(al: seq<ArgTy>, max: nat)
    requires al != []
    ensures var n, m := |al| - 1, MaxFrom(al[..|al| - 1], max);
            MaxFrom(al, max) == if PlaceholderValue(al[n]) > m then PlaceholderValue(al[n]) else m
    decreases |al|
  {
    if |al| > 1 {
      assert al[1..][..|al| - 2] == al[..|al| - 1][1..];
      MaxFromSnoc(al[1..], if PlaceholderValue(al[0]) > max then PlaceholderValue(al[0]) else max);
    }
  }

  lemma {:induction false} CountIsMax(params: seq<Ty>, actuals: seq<Actual>)
    requires ProperPlaceholders(actuals) && |actuals| <= |params|
    ensures NewArgCount(ContextFor(params, actuals)) == MaxPlaceholder(TypeLevels(actuals))
    decreases |actuals|
  {
    if actuals != [] {
      var n := |actuals| - 1;
      Fronts(params, actuals);
      var al, c := TypeLevels(actuals), ContextFor(params, actuals);
      assert al[n] == TypeLevel(actuals[n]) && c[n] == ArgumentFor(params[n], actuals[n]) && |al| == |c| == n + 1;
      hide TypeLevels, ContextFor;
      CountIsMax(params, actuals[..n]);
      MaxSnoc(al);
    }
  }

  /** The two parameter lists of a binding, without its options. */
  lemma ListsAgree(params: seq<Ty>, actuals: seq<Actual>)
    requires AllSuit(params, actuals)
    ensures MapPlaceholders(params, TypeLevels(actuals)).Some? ==>
      && MapPlaceholders(params, TypeLevels(actuals)).value == WrapperTypes(params, ContextFor(params, actuals))
      && None !in WrapperTypes(params, ContextFor(params, actuals))
    ensures None !in WrapperTypes(params, ContextFor(params, actuals)) <==>
      AllOccur(TypeLevels(actuals), MaxPlaceholder(TypeLevels(actuals)))
  {
    var al, ts := TypeLevels(actuals), WrapperTypes(params, ContextFor(params, actuals));
    assert ProperPlaceholders(actuals) by {
      forall i | 0 <= i < |actuals| && actuals[i].Ph? ensures actuals[i].index > 0 {
        assert Suits(params[i], actuals[i]);
      }
    }
    CountIsMax(params, actuals);
    forall k | 0 <= k < |ts| ensures ts[k] == (if Occurs(al, k + 1) then Some(params[FirstUse(al, k + 1).value]) else None) {
      SlotIsFirstUse(params, actuals, k);
    }
    if AllOccur(al, MaxPlaceholder(al)) {
      forall k | 0 <= k < |ts| ensures ts[k].Some? { assert Occurs(al, k + 1); }
    }
    if None !in ts {
      forall k | 1 <= k <= MaxPlaceholder(al) ensures Occurs(al, k) { assert ts[k - 1] in ts; }
    }
    if MapPlaceholders(params, al).Some? {
      MapSucceedsIff(params, al);
      var r := MapPlaceholders(params, al).value;
      forall k | 0 <= k < |r| ensures r[k] == ts[k] && ts[k].Some? {
        assert SlotTyped(params, al, r, k);
      }
      assert r == ts;
    }
  }

  /** For every signature and binding, as the programmer writes it with its options at the end: if the
      compile-time parameter list exists it is the run-time wrapper's list, with no slot unfilled; and no
      run-time slot is unfilled exactly when placeholders 1..N all occur. */
  lemma CompileTimeAgreesWithRunTime(params: seq<Ty>, actuals: seq<Actual>, options: seq<ArgTy>)
    requires AllSuit(params, actuals)
    requires forall i :: 0 <= i < |options| ==> options[i].OptionArg?
    ensures var al, ts := DiscardOptions(TypeLevels(actuals) + options), WrapperTypes(params, ContextFor(params, actuals));
            && (MapPlaceholders(params, al).Some? ==> MapPlaceholders(params, al).value == ts && None !in ts)
            && (None !in ts <==> AllOccur(al, MaxPlaceholder(al)))
            && (OneSpelling(al) ==> (MapPlaceholders(params, al).Some? <==> None !in ts))
  {
    var al := TypeLevels(actuals);
    TrailingOptionsGo(al, options);
    ListsAgree(params, actuals);
    if OneSpelling(al) {
      MapSucceedsIffAllOccur(params, al);
    }
  }
}

/** Boxed Java values as the engine sees them, and the numeric cell a loop
    variable is bound to. */
module ValueWrappers {
  import opened Wrappers
  import opened JString

  /** A non-null Integer, Double or String. */
  datatype Boxed = BoxedInt(i: int) | BoxedDouble(d: real) | BoxedString(s: string)

  /** toString of a boxed value. */
  function Text(b: Boxed): string {
    match b
    case BoxedInt(i) => IntToString(i)
    case BoxedDouble(d) => FormatDouble(d)
    case BoxedString(s) => s
  }

  datatype WrapperError =
    | IllegalArgument   // not a valid number
    | Arithmetic        // division by a null or near-zero divisor
    | NullPointer       // a comparison with something that is no number

  /** Divisors whose magnitude is at most this count as zero. */
  const ZeroThreshold: real := 0.0000000001

  /** The stored number; it is never null once construction succeeded. */
  datatype ValueWrapper = ValueWrapper(value: real)

  /** transformToDouble: Double.parseDouble of the value's text, or nothing.
    * An Integer's decimal text always reads back as the Integer itself
    * (ToDoubleParses), so its value is taken directly. */
  function ToDouble(b: Boxed): Option<real> {
    match b
    case BoxedInt(i) => Some(i as real)
    case _ => ParseDouble(Text(b))
  }

  /** ToDouble is Double.parseDouble of the value's text, for every kind of value. */
  lemma ToDoubleParses(b: Boxed)
    ensures ToDouble(b) == ParseDouble(Text(b))
  {
    if b.BoxedInt? {
      IntParsesAsDouble(b.i);
    }
  }

  /** The operand of an update: null counts as 0, anything else must parse. */
  function Operand(o: Option<Boxed>): (r: Option<real>)
    ensures o.None? ==> r == Some(0.0)
    ensures o.Some? ==> r == ToDouble(o.value)
  {
    match o
    case None => Some(0.0)
    case Some(b) => ToDouble(b)
  }

  /** The constructor: 0 for null, the parsed number otherwise. */
  function NewWrapper(o: Option<Boxed>): (r: Result<ValueWrapper, WrapperError>)
    ensures o.None? ==> r == Ok(ValueWrapper(0.0))
    ensures o.Some? ==> (r.Ok? <==> ToDouble(o.value).Some?)
    ensures o.Some? && r.Ok? ==> ToDouble(o.value) == Some(r.value.value)
    ensures r.Err? ==> r.error == IllegalArgument
  {
    match Operand(o)
    case None => Err(IllegalArgument)
    case Some(x) => Ok(ValueWrapper(x))
  }

  /** setValue: the previous value plays no part; the new one is read as the
      constructor reads it. */
  function SetValue(w: ValueWrapper, o: Option<Boxed>): (r: Result<ValueWrapper, WrapperError>)
    ensures o.None? ==> r == Ok(ValueWrapper(0.0))
    ensures o.Some? ==> (r.Ok? <==> ToDouble(o.value).Some?)
    ensures o.Some? && r.Ok? ==> ToDouble(o.value) == Some(r.value.value)
    ensures r.Err? ==> r.error == IllegalArgument
  {
    NewWrapper(o)
  }

  function Increment(w: ValueWrapper, o: Option<Boxed>): (r: Result<ValueWrapper, WrapperError>)
    ensures r.Err? <==> Operand(o).None?
    ensures r.Err? ==> r.error == IllegalArgument
    ensures r.Ok? ==> r.value.value - w.value == Operand(o).value
  {
    match Operand(o)
    case None => Err(IllegalArgument)
    case Some(x) => Ok(Plus(w, x))
  }

  /** The stored number plus an operand already read. */
  function Plus(w: ValueWrapper, x: real): (r: ValueWrapper)
    ensures r.value - w.value == x
  {
    ValueWrapper(w.value + x)
  }

  function Decrement(w: ValueWrapper, o: Option<Boxed>): (r: Result<ValueWrapper, WrapperError>)
    ensures r.Err? <==> Operand(o).None?
    ensures r.Err? ==> r.error == IllegalArgument
    ensures r.Ok? ==> w.value - r.value.value == Operand(o).value
  {
    match Operand(o)
    case None => Err(IllegalArgument)
    case Some(x) => Ok(ValueWrapper(w.value - x))
  }

  function Multiply(w: ValueWrapper, o: Option<Boxed>): (r: Result<ValueWrapper, WrapperError>)
    ensures r.Err? <==> Operand(o).None?
    ensures r.Err? ==> r.error == IllegalArgument
    ensures r.Ok? ==> Scaled(w.value, Operand(o).value, r.value.value)
  {
    match Operand(o)
    case None => Err(IllegalArgument)
    case Some(x) => Ok(Scale(w, x))
  }

  /** divide: a null divisor is a division by zero; an unparsable one is an
      illegal argument; one within the zero threshold is a division by zero. */
  function Divide(w: ValueWrapper, o: Option<Boxed>): (r: Result<ValueWrapper, WrapperError>)
    ensures o.None? ==> r == Err(Arithmetic)
    ensures o.Some? && ToDouble(o.value).None? ==> r == Err(IllegalArgument)
    ensures r.Ok? <==> o.Some? && ToDouble(o.value).Some? && Abs(ToDouble(o.value).value) > ZeroThreshold
    ensures r.Ok? ==> Scaled(r.value.value, ToDouble(o.value).value, w.value)
  {
    match o
    case None => Err(Arithmetic)
    case Some(b) =>
      match ToDouble(b)
      case None => Err(IllegalArgument)
      case Some(x) =>
        if Abs(x) <= ZeroThreshold then Err(Arithmetic)
        else Ok(Quotient(w, x))
  }

  /** `p` is `a` scaled by `x`: dividing by a non-zero `x` gives `a` back,
      and a zero factor gives zero. */
  predicate Scaled(a: real, x: real, p: real) {
    (x != 0.0 ==> p / x == a) && (x == 0.0 ==> p == 0.0)
  }

  /** The stored number times `x`. */
  function Scale(w: ValueWrapper, x: real): (r: ValueWrapper)
    ensures Scaled(w.value, x, r.value)
  {
    ValueWrapper(w.value * x)
  }

  /** The stored number divided by a non-zero `x`. */
  function Quotient(w: ValueWrapper, x: real): (r: ValueWrapper)
    requires x != 0.0
    ensures Scaled(r.value, x, w.value)
  {
    ValueWrapper(w.value / x)
  }

  function Abs(x: real): real {
    if x < 0.0 then -x else x
  }

  /** getValue: an Integer when the number is whole, the Double otherwise. The
      Integer is the double's intValue, so a whole value outside the int range
      comes out clamped to its nearer end. */
  function GetValue(w: ValueWrapper): (r: Boxed)
    ensures IsWhole(w.value) ==> r.BoxedInt? && MinInt <= r.i <= MaxInt
    ensures IsWhole(w.value) && MinInt as real <= w.value <= MaxInt as real ==> r == BoxedInt(w.value.Floor)
    ensures IsWhole(w.value) && w.value > MaxInt as real ==> r == BoxedInt(MaxInt)
    ensures IsWhole(w.value) && w.value < MinInt as real ==> r == BoxedInt(MinInt)
    ensures !IsWhole(w.value) ==> r == BoxedDouble(w.value)
  {
    if IsWhole(w.value) then BoxedInt(IntValue(w.value)) else BoxedDouble(w.value)
  }

  /** The integer part, rounding toward zero. */
  function Truncate(x: real): (n: int)
    ensures x >= 0.0 ==> 0.0 <= n as real <= x < n as real + 1.0
    ensures x < 0.0 ==> n as real - 1.0 < x <= n as real <= 0.0
  {
    if x >= 0.0 then x.Floor else -((-x).Floor)
  }

  /** Double.intValue: the integer part, clamped to the int range. */
  function IntValue(x: real): (n: int)
    ensures MinInt <= n <= MaxInt
    ensures MinInt as real <= x <= MaxInt as real ==> n == Truncate(x)
    ensures x > MaxInt as real ==> n == MaxInt
    ensures x < MinInt as real ==> n == MinInt
  {
    var t := Truncate(x);
    if t > MaxInt then MaxInt else if t < MinInt then MinInt else t
  }

  /** numCompare: the intValue of the difference of the stored value and the
      argument (null counts as 0); an argument that is no number fails
      when it is unboxed. */
  function NumCompare(w: ValueWrapper, o: Option<Boxed>): (r: Result<int, WrapperError>)
    ensures r.Err? <==> Operand(o).None?
    ensures r.Err? ==> r.error == NullPointer
    ensures r.Ok? ==> (r.value < 0 ==> w.value < Operand(o).value)
    ensures r.Ok? ==> (r.value > 0 ==> w.value > Operand(o).value)
    ensures r.Ok? ==> (r.value == 0 <==> -1.0 < w.value - Operand(o).value < 1.0)
  {
    match Operand(o)
    case None => Err(NullPointer)
    case Some(x) => Ok(CompareWith(w, x))
  }

  /** The comparison with an operand already read: the intValue of the
      difference. */
  function CompareWith(w: ValueWrapper, x: real): (r: int)
    ensures r < 0 ==> w.value < x
    ensures r > 0 ==> w.value > x
    ensures r == 0 <==> -1.0 < w.value - x < 1.0
  {
    IntValue(w.value - x)
  }

  // ---------------------------------------------------------------------------
  // Properties

  /** An Integer operand is read as its own value. */
  lemma IntOperand(i: int)
    ensures Operand(Some(BoxedInt(i))) == Some(i as real)
  {
    IntParsesAsDouble(i);
  }

  /** A whole stored value comes out of getValue as an Integer that a new
      wrapper reads back as the same value. */
  lemma WholeValueRoundTrip(w: ValueWrapper)
    requires IsWhole(w.value) && MinInt as real <= w.value <= MaxInt as real
    ensures NewWrapper(Some(GetValue(w))) == Ok(w)
  {
    IntOperand(w.value.Floor);
  }

  /** Decrementing by what was just added restores the value. */
  lemma IncrementDecrement(w: ValueWrapper, o: Option<Boxed>)
    requires Operand(o).Some?
    ensures Increment(w, o).Ok? && Decrement(Increment(w, o).value, o) == Ok(w)
  {
    var x := Operand(o).value;
    IncrementBy(w, o, x);
    var d := Decrement(ValueWrapper(w.value + x), o);
    assert d.Ok? && d.value.value == w.value;
  }

  /** Dividing by a non-zero factor just multiplied in restores the value. */
  lemma MultiplyDivide(w: ValueWrapper, o: Option<Boxed>)
    requires o.Some? && ToDouble(o.value).Some? && Abs(ToDouble(o.value).value) > ZeroThreshold
    ensures Multiply(w, o).Ok? && Divide(Multiply(w, o).value, o) == Ok(w)
  {
  }

  /** Counting up by an Integer step from an Integer start: after `k` steps the
      value is start + k * step. */
  lemma RepeatedIncrement(start: int, step: int, k: nat)
    ensures Iterate(ValueWrapper(start as real), BoxedInt(step), k) == Ok(ValueWrapper((start + k * step) as real))
  {
    IterateReaches(start, step, k);
    ReachSum(start, step, k);
  }

  /** `start` after `k` additions of `step`. */
  function Reach(start: int, step: int, k: nat): int {
    if k == 0 then start else Reach(start, step, k - 1) + step
  }

  lemma {:induction false} IterateReaches(start: int, step: int, k: nat)
    ensures Iterate(ValueWrapper(start as real), BoxedInt(step), k) == Ok(ValueWrapper(Reach(start, step, k) as real))
  {
    if k > 0 {
      IterateReaches(start, step, k - 1);
      IterateIntStep(ValueWrapper(start as real), step, k, Reach(start, step, k - 1));
    }
  }

  /** One more Integer increment after `k - 1` of them. */
  lemma IterateIntStep(w: ValueWrapper, step: int, k: nat, n: int)
    requires k > 0 && Iterate(w, BoxedInt(step), k - 1) == Ok(ValueWrapper(n as real))
    ensures Iterate(w, BoxedInt(step), k) == Ok(ValueWrapper((n + step) as real))
  {
    IntIncrement(n, step);
  }

  lemma {:induction false} ReachSum(start: int, step: int, k: nat)
    ensures Reach(start, step, k) == start + k * step
  {
    if k > 0 {
      ReachSum(start, step, k - 1);
      assert (k - 1) * step + step == k * step;
    }
  }

  /** An Integer step added to a whole value gives the whole sum. */
  lemma IntIncrement(n: int, step: int)
    ensures Increment(ValueWrapper(n as real), Some(BoxedInt(step))) == Ok(ValueWrapper((n + step) as real))
  {
    IntOperand(step);
    IncrementBy(ValueWrapper(n as real), Some(BoxedInt(step)), step as real);
  }

  /** Incrementing by an operand that reads as `x` adds `x`. */
  lemma IncrementBy(w: ValueWrapper, o: Option<Boxed>, x: real)
    requires Operand(o) == Some(x)
    ensures Increment(w, o) == Ok(ValueWrapper(w.value + x))
  {
  }

  /** `k` increments by `b` in a row. */
  function Iterate(w: ValueWrapper, b: Boxed, k: nat): Result<ValueWrapper, WrapperError> {
    if k == 0 then Ok(w)
    else
      match Iterate(w, b, k - 1)
      case Err(e) => Err(e)
      case Ok(v) => Increment(v, Some(b))
  }

  /** The comparison agrees with the numeric order whenever the two values are
      at least 1 apart, and reports 0 only when they are less than 1 apart. */
  lemma NumCompareOrder(w: ValueWrapper, i: int)
    ensures NumCompare(w, Some(BoxedInt(i))).Ok?
    ensures w.value <= i as real - 1.0 ==> NumCompare(w, Some(BoxedInt(i))).value < 0
    ensures w.value >= i as real + 1.0 ==> NumCompare(w, Some(BoxedInt(i))).value > 0
    ensures IsWhole(w.value) ==> (NumCompare(w, Some(BoxedInt(i))).value <= 0 <==> w.value <= i as real)
  {
    IntOperand(i);
    var r := CompareWith(w, i as real);
    assert NumCompare(w, Some(BoxedInt(i))) == Ok(r);
    if IsWhole(w.value) {
      var d := w.value.Floor - i;
      assert w.value - i as real == d as real;
      assert r == 0 ==> d == 0;
    }
  }
}

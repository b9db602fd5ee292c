/** What the `Array.from` expressions the transformer emits for `range(...)`
    denote, next to what Python's `range` produces.

    The emitted text has the shape `Array.from({length: L}, (_, i) => E)`.
    JavaScript's `Array.from` on an array-like object reads `length` through
    ToLength, which turns a negative length into 0, and then calls the
    mapping function on the indices `0 .. L-1`. `Math.ceil(a / b)` divides
    exactly and rounds up. Over integer arguments this is `Denote`; the
    lemma `RangeAgrees` shows it is Python's `range`.

    The IR converter writes a `for (let t = a; t < b; t += s)` loop instead;
    `CountingValues` is the values such a loop gives `t`, and
    `CountingAgrees` shows they are `range(a, b, s)` when `s` is
    positive. */
module JsRange {

  /** The three arities of `range` the transformer rewrites. */
  datatype RangeCall<T> = Range1(stop: T) | Range2(start: T, stop: T) | Range3(start: T, stop: T, step: T)

  /** The JavaScript text emitted for a `range` call with argument texts. */
  function Render(rc: RangeCall<string>): string {
    match rc
    case Range1(stop) =>
      "Array.from({length: " + stop + "}, (_, i) => i)"
    case Range2(start, stop) =>
      "Array.from({length: " + stop + " - " + start + "}, (_, i) => i + " + start + ")"
    case Range3(start, stop, step) =>
      "Array.from({length: Math.ceil((" + stop + " - " + start + ") / " + step
      + ")}, (_, i) => i * " + step + " + " + start + ")"
  }

  /** floor(a / b) over the rationals. */
  function FloorDiv(a: int, b: int): int
    requires b != 0
  {
    if b > 0 then a / b else (-a) / (-b)
  }

  /** JavaScript's `Math.ceil(a / b)` for integers `a`, `b` with `b != 0`. */
  function CeilDiv(a: int, b: int): (q: int)
    requires b != 0
    ensures b > 0 ==> (q - 1) * b < a <= q * b
    ensures b < 0 ==> (q - 1) * b > a >= q * b
  {
    -FloorDiv(-a, b)
  }

  /** `Array.from({length: n}, (_, i) => f(i))`. */
  function ArrayFrom(n: int, f: int -> int): (r: seq<int>)
    ensures |r| == (if n < 0 then 0 else n)
    ensures forall i :: 0 <= i < |r| ==> r[i] == f(i)
  {
    if n <= 0 then [] else seq(n, i => f(i))
  }

  /** The value of the emitted expression when the arguments are integers. */
  function Denote(rc: RangeCall<int>): seq<int>
    requires rc.Range3? ==> rc.step != 0
  {
    match rc
    case Range1(stop) => ArrayFrom(stop, i => i)
    case Range2(start, stop) => ArrayFrom(stop - start, i => i + start)
    case Range3(start, stop, step) => ArrayFrom(CeilDiv(stop - start, step), i => i * step + start)
  }

  /** Python's `range(start, stop, step)`: start, start + step, ... while
      strictly before `stop` in the direction of `step`. */
  function PyRange(start: int, stop: int, step: int): seq<int>
    requires step != 0
    decreases if step > 0 then stop - start else start - stop
  {
    if (step > 0 && start < stop) || (step < 0 && start > stop) then
      [start] + PyRange(start + step, stop, step)
    else []
  }

  /** `range(stop)`, `range(start, stop)`, `range(start, stop, step)`. */
  function PyRangeOf(rc: RangeCall<int>): seq<int>
    requires rc.Range3? ==> rc.step != 0
  {
    match rc
    case Range1(stop) => PyRange(0, stop, 1)
    case Range2(start, stop) => PyRange(start, stop, 1)
    case Range3(start, stop, step) => PyRange(start, stop, step)
  }

  lemma MulMono(x: int, y: int, b: int)
    requires x <= y && b >= 0
    ensures x * b <= y * b
  {
    assert y * b - x * b == (y - x) * b;
  }

  /** The bounds in `CeilDiv`'s contract determine it. */
  lemma CeilDivUnique(a: int, b: int, q1: int, q2: int)
    requires b > 0
    requires (q1 - 1) * b < a <= q1 * b && (q2 - 1) * b < a <= q2 * b
    ensures q1 == q2
  {
    if q1 < q2 {
      MulMono(q1, q2 - 1, b);
    } else if q2 < q1 {
      MulMono(q2, q1 - 1, b);
    }
  }

  lemma CeilDivStepPositive(d: int, step: int)
    requires step > 0
    ensures CeilDiv(d, step) == 1 + CeilDiv(d - step, step)
  {
    var q := CeilDiv(d, step);
    var q' := CeilDiv(d - step, step);
    assert (q' + 1) * step == q' * step + step;
    assert (q' - 1) * step == q' * step - step;
    CeilDivUnique(d, step, q, q' + 1);
  }

  /** A negative divisor divides like the negated dividend by the negated
      divisor. */
  lemma CeilDivNegate(d: int, step: int)
    requires step < 0
    ensures CeilDiv(d, step) == CeilDiv(-d, -step)
  {
    assert FloorDiv(-d, step) == d / -step;
    assert FloorDiv(d, -step) == d / -step;
  }

  lemma CeilDivStep(d: int, step: int)
    requires step != 0
    ensures CeilDiv(d, step) == 1 + CeilDiv(d - step, step)
  {
    if step > 0 {
      CeilDivStepPositive(d, step);
    } else {
      CeilDivNegate(d, step);
      CeilDivNegate(d - step, step);
      assert -(d - step) == -d - -step;
      CeilDivStepPositive(-d, -step);
    }
  }

  lemma CeilDivPositive(d: int, step: int)
    requires step != 0
    ensures CeilDiv(d, step) > 0 <==> (step > 0 && d > 0) || (step < 0 && d < 0)
  {
    var q := CeilDiv(d, step);
    if q > 0 {
      assert (q - 1) * step >= 0 || (q - 1) * step <= 0;
      if step > 0 {
        assert (q - 1) * step >= 0;
      } else {
        assert (q - 1) * step <= 0;
      }
    } else {
      if step > 0 {
        assert q * step <= 0;
      } else {
        assert q * step >= 0;
      }
    }
  }

  /** Python's `range` has length ceil((stop - start) / step), clamped at 0,
      and its i-th element is start + i * step. */
  lemma {:induction false} PyRangeClosedForm(start: int, stop: int, step: int)
    requires step != 0
    ensures |PyRange(start, stop, step)| == (if CeilDiv(stop - start, step) < 0 then 0 else CeilDiv(stop - start, step))
    ensures forall i :: 0 <= i < |PyRange(start, stop, step)| ==> PyRange(start, stop, step)[i] == i * step + start
    decreases if step > 0 then stop - start else start - stop
  {
    var r := PyRange(start, stop, step);
    CeilDivPositive(stop - start, step);
    if (step > 0 && start < stop) || (step < 0 && start > stop) {
      PyRangeClosedForm(start + step, stop, step);
      CeilDivStep(stop - start, step);
      assert stop - (start + step) == stop - start - step;
      var tail := PyRange(start + step, stop, step);
      assert r == [start] + tail;
      forall i | 0 <= i < |r| ensures r[i] == i * step + start {
        if i > 0 {
          assert r[i] == tail[i - 1] == (i - 1) * step + (start + step);
        }
      }
    }
  }

  lemma {:induction false} SteppedAgrees(start: int, stop: int, step: int)
    requires step != 0
    ensures ArrayFrom(CeilDiv(stop - start, step), i => i * step + start) == PyRange(start, stop, step)
  {
    var a := ArrayFrom(CeilDiv(stop - start, step), i => i * step + start);
    var b := PyRange(start, stop, step);
    PyRangeClosedForm(start, stop, step);
    assert |a| == |b|;
    forall i | 0 <= i < |a| ensures a[i] == b[i] {
      assert a[i] == i * step + start;
    }
  }

  /** The emitted `Array.from` expression denotes exactly Python's `range`,
      for every arity, including the empty ranges (negative lengths). */
  lemma RangeAgrees(rc: RangeCall<int>)
    requires rc.Range3? ==> rc.step != 0
    ensures Denote(rc) == PyRangeOf(rc)
  {
    match rc
    case Range1(stop) =>
      SteppedAgrees(0, stop, 1);
      assert CeilDiv(stop - 0, 1) == stop;
      var a := ArrayFrom(stop, i => i);
      var b := ArrayFrom(CeilDiv(stop - 0, 1), i => i * 1 + 0);
      assert |a| == |b|;
      assert forall i :: 0 <= i < |a| ==> a[i] == b[i];
    case Range2(start, stop) =>
      SteppedAgrees(start, stop, 1);
      assert CeilDiv(stop - start, 1) == stop - start;
      var a := ArrayFrom(stop - start, i => i + start);
      var b := ArrayFrom(CeilDiv(stop - start, 1), i => i * 1 + start);
      assert |a| == |b|;
      assert forall i :: 0 <= i < |a| ==> a[i] == b[i];
    case Range3(start, stop, step) =>
      SteppedAgrees(start, stop, step);
  }

  /** The argument texts go in without parentheses, so `Denote` is what
      the text means only when each argument is a single term. With the
      start `a - b`, the length is written `stop - a - b`, which
      JavaScript reads as `(stop - a) - b`: the range is shorter by `2 * b`
      than `range(a - b, stop)`. */
  lemma StartNotGrouped(a: string, b: string, stop: string)
    ensures Render(Range2(a + " - " + b, stop))
         == "Array.from({length: " + stop + " - " + a + " - " + b + "}, (_, i) => i + " + a + " - " + b + ")"
  {
    var start := a + " - " + b;
    assert "Array.from({length: " + stop + " - " + start == "Array.from({length: " + stop + " - " + a + " - " + b;
    assert "}, (_, i) => i + " + start + ")" == "}, (_, i) => i + " + a + " - " + b + ")";
  }

  // ---------------------------------------------------------------------
  // Counting loops

  /** The values `for (let t = start; t < stop; t += step)` gives `t`. The
      loop ends when the step is positive or it never runs. */
  function CountingValues(start: int, stop: int, step: int): (r: seq<int>)
    requires step > 0 || start >= stop
    ensures start >= stop <==> r == []
    decreases stop - start
  {
    if start < stop then [start] + CountingValues(start + step, stop, step) else []
  }

  /** With a positive step the counting loop visits exactly `range`. */
  lemma {:induction false} CountingAgrees(start: int, stop: int, step: int)
    requires step > 0
    ensures CountingValues(start, stop, step) == PyRange(start, stop, step)
    decreases stop - start
  {
    if start < stop {
      CountingAgrees(start + step, stop, step);
    }
  }
}

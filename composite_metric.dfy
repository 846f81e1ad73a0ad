/** The composite engine: `CompositeMetric.for` and the three composites `Sum`,
    `Division` and `Multiplication`, each of which combines the two series it is
    built from position by position (Ruby's `zip`, then `map`, then `compact` for the
    two that drop positions). */
module CompositeMetric {
  import opened Series

  /** The three composite classes. */
  datatype Composite = Sum | Division | Multiplication

  /** The compose function name that selects each composite. */
  function Name(c: Composite): string
  {
    match c
    case Sum => "sum"
    case Division => "divide"
    case Multiplication => "multiply"
  }

  /** `CompositeMetric.for`: exact string match; anything else is MetricNotComposite. */
  function For(name: string): Result<Composite>
  {
    if name == "sum" then Ok(Sum)
    else if name == "divide" then Ok(Division)
    else if name == "multiply" then Ok(Multiplication)
    else Err(MetricNotComposite("invalid compose function: " + name))
  }

  /** `For` resolves exactly the three names, each back to its composite, and fails
      naming the input otherwise. */
  lemma ForInvertsName(name: string)
    ensures forall c :: For(Name(c)) == Ok(c)
    ensures For(name).Ok? ==> Name(For(name).value) == name
    ensures For(name).Err? <==> name !in {"sum", "divide", "multiply"}
    ensures For(name).Err? ==> For(name).error == MetricNotComposite("invalid compose function: " + name)
  {
  }

  // ---------------------------------------------------------------------------
  // Ruby's collection operations, as the composites use them

  /** `a.zip(b)`: one pair per element of `a`; `b` is padded with nil. */
  function Zip(a: seq<Sample>, b: seq<Sample>): (z: seq<(Sample, Sample)>)
    ensures |z| == |a|
    ensures forall i :: 0 <= i < |a| ==> z[i] == (a[i], if i < |b| then b[i] else None)
  {
    seq(|a|, i requires 0 <= i < |a| => (a[i], if i < |b| then b[i] else None))
  }

  /** `map` with a block that cannot raise. */
  function Map<X, Y>(s: seq<X>, f: X -> Y): (r: seq<Y>)
    ensures |r| == |s| && forall i :: 0 <= i < |s| ==> r[i] == f(s[i])
  {
    seq(|s|, i requires 0 <= i < |s| => f(s[i]))
  }

  /** `map` with a block that may raise: the first exception aborts the whole map. */
  function MapAll<X, Y>(s: seq<X>, f: X -> Result<Y>): Result<seq<Y>>
  {
    if s == [] then Ok([])
    else
      match f(s[0])
      case Err(e) => Err(e)
      case Ok(y) =>
        match MapAll(s[1..], f)
        case Err(e) => Err(e)
        case Ok(ys) => Ok([y] + ys)
  }

  /** The map succeeds iff the block succeeds on every element, and then holds the
      block's results in order; otherwise it fails with the error of the first
      element on which the block fails. */
  lemma {:induction false} MapAllSpec<X, Y>(s: seq<X>, f: X -> Result<Y>)
    ensures MapAll(s, f).Ok? <==> forall i :: 0 <= i < |s| ==> f(s[i]).Ok?
    ensures MapAll(s, f).Ok? ==>
      |MapAll(s, f).value| == |s| &&
      forall i :: 0 <= i < |s| ==> MapAll(s, f).value[i] == f(s[i]).value
    ensures MapAll(s, f).Err? ==>
      exists i :: 0 <= i < |s| && f(s[i]).Err? && MapAll(s, f).error == f(s[i]).error &&
        forall j :: 0 <= j < i ==> f(s[j]).Ok?
  {
    if s != [] {
      MapAllSpec(s[1..], f);
      if f(s[0]).Ok? && MapAll(s[1..], f).Err? {
        var i :| 0 <= i < |s[1..]| && f(s[1..][i]).Err? && MapAll(s[1..], f).error == f(s[1..][i]).error &&
          forall j :: 0 <= j < i ==> f(s[1..][j]).Ok?;
        assert f(s[i + 1]).Err?;
        assert forall j :: 0 <= j < i + 1 ==> f(s[j]).Ok? by {
          forall j | 0 <= j < i + 1 ensures f(s[j]).Ok? {
            if j > 0 { assert s[j] == s[1..][j - 1]; }
          }
        }
      } else if f(s[0]).Ok? {
        forall i | 0 <= i < |s| ensures f(s[i]).Ok? && MapAll(s, f).value[i] == f(s[i]).value {
          if i > 0 { assert s[i] == s[1..][i - 1]; }
        }
      }
    }
  }

  /** `compact`: drops the nils, keeping the order of what remains. */
  function Compact(s: seq<Sample>): (r: seq<real>)
    ensures |r| <= |s|
  {
    if s == [] then [] else (if s[0].Some? then [s[0].value] else []) + Compact(s[1..])
  }

  lemma {:induction false} CompactSnoc(s: seq<Sample>, x: Sample)
    ensures Compact(s + [x]) == Compact(s) + (if x.Some? then [x.value] else [])
  {
    if s != [] {
      assert (s + [x])[1..] == s[1..] + [x];
      CompactSnoc(s[1..], x);
    }
  }

  /** The positions at which `mask` holds, in ascending order: the reference for
      which positions a composite keeps. */
  ghost function Positions(mask: seq<bool>): seq<nat>
  {
    if mask == [] then []
    else Positions(mask[..|mask| - 1]) + (if mask[|mask| - 1] then [|mask| - 1] else [])
  }

  ghost predicate Ascending(idx: seq<nat>) {
    forall j, k :: 0 <= j < k < |idx| ==> idx[j] < idx[k]
  }

  /** Positions lists only positions at which the mask holds, in ascending order. */
  lemma {:induction false} PositionsSound(mask: seq<bool>)
    ensures |Positions(mask)| <= |mask|
    ensures forall k :: 0 <= k < |Positions(mask)| ==>
      Positions(mask)[k] < |mask| && mask[Positions(mask)[k]]
    ensures Ascending(Positions(mask))
  {
    if mask != [] {
      var n := |mask| - 1;
      var front := mask[..n];
      PositionsSound(front);
      assert forall i :: 0 <= i < n ==> front[i] == mask[i];
    }
  }

  /** Positions lists every position at which the mask holds. */
  lemma {:induction false} PositionsComplete(mask: seq<bool>)
    ensures forall i :: 0 <= i < |mask| && mask[i] ==> i in Positions(mask)
  {
    if mask != [] {
      var n := |mask| - 1;
      var front := mask[..n];
      PositionsComplete(front);
      forall i | 0 <= i < |mask| && mask[i] ensures i in Positions(mask) {
        if i < n {
          assert front[i] == mask[i];
        }
      }
    }
  }

  /** Positions lists all positions iff the mask holds everywhere. */
  lemma {:induction false} PositionsAll(mask: seq<bool>)
    ensures |Positions(mask)| == |mask| <==> forall i :: 0 <= i < |mask| ==> mask[i]
  {
    if mask != [] {
      var n := |mask| - 1;
      var front := mask[..n];
      PositionsAll(front);
      PositionsSound(front);
      assert forall i :: 0 <= i < n ==> front[i] == mask[i];
    }
  }

  /** Positions lists every position at which the mask holds, and only those, each
      once and in ascending order; it lists them all iff the mask holds everywhere. */
  lemma PositionsSpec(mask: seq<bool>)
    ensures Ascending(Positions(mask))
    ensures forall k :: 0 <= k < |Positions(mask)| ==>
      Positions(mask)[k] < |mask| && mask[Positions(mask)[k]]
    ensures forall i :: 0 <= i < |mask| && mask[i] ==> i in Positions(mask)
    ensures |Positions(mask)| <= |mask|
    ensures |Positions(mask)| == |mask| <==> forall i :: 0 <= i < |mask| ==> mask[i]
  {
    PositionsSound(mask);
    PositionsComplete(mask);
    PositionsAll(mask);
  }

  /** `compact` keeps exactly the non-nil samples, at the positions where they stood. */
  lemma {:induction false} CompactSpec(s: seq<Sample>, mask: seq<bool>)
    requires |mask| == |s|
    requires forall i :: 0 <= i < |s| ==> (mask[i] <==> s[i].Some?)
    ensures |Compact(s)| == |Positions(mask)|
    ensures forall k :: 0 <= k < |Positions(mask)| ==>
      Positions(mask)[k] < |s| && s[Positions(mask)[k]] == Some(Compact(s)[k])
  {
    PositionsSpec(mask);
    if s != [] {
      var n := |s| - 1;
      assert s == s[..n] + [s[n]];
      CompactSnoc(s[..n], s[n]);
      CompactSpec(s[..n], mask[..n]);
    }
  }

  /** With no nil in it, `compact` changes nothing. */
  lemma {:induction false} CompactAllPresent(s: seq<Sample>)
    requires AllPresent(s)
    ensures Compact(s) == Values(s)
  {
    if s != [] {
      CompactAllPresent(s[1..]);
    }
  }

  // ---------------------------------------------------------------------------
  // Sum

  /** One position of `Sum`: `items.inject(0) { |sum, i| sum += i }`; a nil operand
      raises a TypeError. */
  function SumItems(items: (Sample, Sample)): Result<real>
  {
    if items.0.None? || items.1.None? then Err(UnexpectedError)
    else Ok(0.0 + items.0.value + items.1.value)
  }

  /** `Sum.new(a, b).value`. */
  function SumValue(a: seq<Sample>, b: seq<Sample>): Result<seq<real>>
  {
    MapAll(Zip(a, b), SumItems)
  }

  /** Sum succeeds iff the second series is at least as long as the first and
      neither holds a nil in the first |a| positions; it then has exactly |a|
      entries, each the sum of the two operands at that position. */
  lemma SumPointwise(a: seq<Sample>, b: seq<Sample>)
    ensures SumValue(a, b).Ok? <==>
      |b| >= |a| && forall i :: 0 <= i < |a| ==> a[i].Some? && b[i].Some?
    ensures SumValue(a, b).Ok? ==>
      |SumValue(a, b).value| == |a| &&
      forall i :: 0 <= i < |a| ==> SumValue(a, b).value[i] == a[i].value + b[i].value
  {
    var z := Zip(a, b);
    MapAllSpec(z, SumItems);
    if |b| < |a| {
      assert SumItems(z[|b|]).Err?;
    }
  }

  /** The total of a sum is the total of its operands (b read up to |a|). */
  lemma SumTotal(a: seq<Sample>, b: seq<Sample>)
    requires SumValue(a, b).Ok?
    ensures |b| >= |a| && AllPresent(a) && AllPresent(b[..|a|])
    ensures Total(SumValue(a, b).value) == Total(Values(a)) + Total(Values(b[..|a|]))
  {
    SumPointwise(a, b);
    TotalOfPointwiseSum(Values(a), Values(b[..|a|]), SumValue(a, b).value);
  }

  // ---------------------------------------------------------------------------
  // Division

  /** Ruby's `nil.to_f` is 0.0. */
  function ToF(v: Sample): real
  {
    match v
    case None => 0.0
    case Some(x) => x
  }

  /** One position of `Division`: nil where the divisor is nil or zero. */
  function DivideItems(items: (Sample, Sample)): Option<real>
  {
    if items.1.None? || items.1.value == 0.0 then None else Some(ToF(items.0) / items.1.value)
  }

  function DivisionSteps(a: seq<Sample>, b: seq<Sample>): (s: seq<Sample>)
    ensures |s| == |a|
  {
    Map(Zip(a, b), DivideItems)
  }

  /** `Division.new(a, b).value`. It never raises. */
  function DivisionValue(a: seq<Sample>, b: seq<Sample>): seq<real>
  {
    Compact(DivisionSteps(a, b))
  }

  /** Position i of the first series has a divisor that Division uses. */
  predicate UsableDivisor(b: seq<Sample>, i: int)
  {
    0 <= i < |b| && b[i].Some? && b[i].value != 0.0
  }

  function DivisionMask(a: seq<Sample>, b: seq<Sample>): (m: seq<bool>)
    ensures |m| == |a|
  {
    seq(|a|, i requires 0 <= i < |a| => UsableDivisor(b, i))
  }

  /** Division holds, in ascending order of position, one quotient `a[i].to_f / b[i]`
      for each i < |a| whose divisor exists and is not zero, and nothing else;
      positions of b beyond |a| play no part. */
  lemma DivisionSelectsUsableDivisors(a: seq<Sample>, b: seq<Sample>)
    ensures var r, idx := DivisionValue(a, b), Positions(DivisionMask(a, b));
      && |r| == |idx|
      && Ascending(idx)
      && (forall i :: 0 <= i < |a| ==> (i in idx <==> UsableDivisor(b, i)))
      && (forall k :: 0 <= k < |idx| ==>
            idx[k] < |a| && UsableDivisor(b, idx[k]) && r[k] == ToF(a[idx[k]]) / b[idx[k]].value)
  {
    var mask := DivisionMask(a, b);
    PositionsSpec(mask);
    CompactSpec(DivisionSteps(a, b), mask);
  }

  /** Division is never longer than the first series, and is exactly as long iff no
      position is dropped. */
  lemma DivisionLength(a: seq<Sample>, b: seq<Sample>)
    ensures |DivisionValue(a, b)| <= |a|
    ensures |DivisionValue(a, b)| == |a| <==> forall i :: 0 <= i < |a| ==> UsableDivisor(b, i)
  {
    var mask := DivisionMask(a, b);
    PositionsSpec(mask);
    CompactSpec(DivisionSteps(a, b), mask);
  }

  /** When every divisor is usable, Division keeps every position. */
  lemma DivisionKeepsEveryPosition(a: seq<Sample>, b: seq<Sample>)
    requires forall i :: 0 <= i < |a| ==> UsableDivisor(b, i)
    ensures |DivisionValue(a, b)| == |a|
    ensures forall i :: 0 <= i < |a| ==>
      UsableDivisor(b, i) && DivisionValue(a, b)[i] == ToF(a[i]) / b[i].value
  {
    var steps := DivisionSteps(a, b);
    assert AllPresent(steps) by {
      forall i | 0 <= i < |a| ensures steps[i].Some? {
        assert UsableDivisor(b, i);
      }
    }
    CompactAllPresent(steps);
  }

  // ---------------------------------------------------------------------------
  // Multiplication

  /** One position of `Multiplication`: nil where the second operand is nil;
      `nil * v2` raises a NoMethodError. */
  function MultiplyItems(items: (Sample, Sample)): Result<Sample>
  {
    if items.1.None? then Ok(None)
    else if items.0.None? then Err(UnexpectedError)
    else Ok(Some(items.0.value * items.1.value))
  }

  /** `Multiplication.new(a, b).value`. */
  function MultiplicationValue(a: seq<Sample>, b: seq<Sample>): Result<seq<real>>
  {
    match MapAll(Zip(a, b), MultiplyItems)
    case Err(e) => Err(e)
    case Ok(steps) => Ok(Compact(steps))
  }

  /** Position i has a second operand (zero included). */
  predicate PresentOperand(b: seq<Sample>, i: int)
  {
    0 <= i < |b| && b[i].Some?
  }

  function MultiplicationMask(a: seq<Sample>, b: seq<Sample>): (m: seq<bool>)
    ensures |m| == |a|
  {
    seq(|a|, i requires 0 <= i < |a| => PresentOperand(b, i))
  }

  /** Multiplication fails iff some first operand is nil where its second operand
      exists, and then with the generic error. */
  lemma MultiplicationSucceeds(a: seq<Sample>, b: seq<Sample>)
    ensures MultiplicationValue(a, b).Ok? <==>
      forall i :: 0 <= i < |a| && PresentOperand(b, i) ==> a[i].Some?
    ensures MultiplicationValue(a, b).Err? ==> MultiplicationValue(a, b).error == UnexpectedError
  {
    var z := Zip(a, b);
    MapAllSpec(z, MultiplyItems);
    assert forall i :: 0 <= i < |a| ==>
      (MultiplyItems(z[i]).Ok? <==> (PresentOperand(b, i) ==> a[i].Some?));
    if MultiplicationValue(a, b).Err? {
      var i :| 0 <= i < |z| && MultiplyItems(z[i]).Err? && MapAll(z, MultiplyItems).error == MultiplyItems(z[i]).error;
    }
  }

  /** What the map of `Multiplication` yields at each position, when it succeeds. */
  lemma MultiplicationSteps(a: seq<Sample>, b: seq<Sample>)
    requires MapAll(Zip(a, b), MultiplyItems).Ok?
    ensures var steps := MapAll(Zip(a, b), MultiplyItems).value;
      && |steps| == |a|
      && forall i :: 0 <= i < |a| ==>
           if PresentOperand(b, i) then a[i].Some? && steps[i] == Some(a[i].value * b[i].value)
           else steps[i] == None
  {
    var z := Zip(a, b);
    MapAllSpec(z, MultiplyItems);
    forall i | 0 <= i < |a|
      ensures PresentOperand(b, i) ==> a[i].Some? && MultiplyItems(z[i]) == Ok(Some(a[i].value * b[i].value))
      ensures !PresentOperand(b, i) ==> MultiplyItems(z[i]) == Ok(None)
    {
      assert MultiplyItems(z[i]).Ok?;
      if PresentOperand(b, i) {
        assert z[i] == (a[i], b[i]);
        assert z[i].0.value * z[i].1.value == a[i].value * b[i].value;
      }
    }
  }

  /** When it succeeds, Multiplication holds, in ascending order of position, one
      product a[i] * b[i] for each i < |a| whose second operand exists (zero
      products are kept), and nothing else. */
  lemma MultiplicationSelectsPresentOperands(a: seq<Sample>, b: seq<Sample>)
    requires MultiplicationValue(a, b).Ok?
    ensures var r, idx := MultiplicationValue(a, b).value, Positions(MultiplicationMask(a, b));
      && |r| == |idx|
      && Ascending(idx)
      && (forall i :: 0 <= i < |a| ==> (i in idx <==> PresentOperand(b, i)))
      && (forall k :: 0 <= k < |idx| ==>
            idx[k] < |a| && PresentOperand(b, idx[k]) && a[idx[k]].Some? &&
            r[k] == a[idx[k]].value * b[idx[k]].value)
  {
    MultiplicationSteps(a, b);
    var steps := MapAll(Zip(a, b), MultiplyItems).value;
    var mask := MultiplicationMask(a, b);
    PositionsSpec(mask);
    CompactSpec(steps, mask);
  }

  /** Multiplication is never longer than the first series, and is exactly as long
      when every position has its second operand. */
  lemma MultiplicationLength(a: seq<Sample>, b: seq<Sample>)
    requires MultiplicationValue(a, b).Ok?
    ensures |MultiplicationValue(a, b).value| <= |a|
    ensures |MultiplicationValue(a, b).value| == |a| <==> forall i :: 0 <= i < |a| ==> PresentOperand(b, i)
  {
    MultiplicationSelectsPresentOperands(a, b);
    PositionsSpec(MultiplicationMask(a, b));
    assert forall i :: 0 <= i < |a| ==> MultiplicationMask(a, b)[i] == PresentOperand(b, i);
  }

  /** When no operand is nil and b covers a, Multiplication keeps every position. */
  lemma MultiplicationKeepsEveryPosition(a: seq<Sample>, b: seq<Sample>)
    requires forall i :: 0 <= i < |a| ==> a[i].Some? && PresentOperand(b, i)
    ensures MultiplicationValue(a, b).Ok?
    ensures |MultiplicationValue(a, b).value| == |a|
    ensures forall i :: 0 <= i < |a| ==>
      a[i].Some? && PresentOperand(b, i) && MultiplicationValue(a, b).value[i] == a[i].value * b[i].value
  {
    MultiplicationSucceeds(a, b);
    MultiplicationSteps(a, b);
    CompactAllPresent(MapAll(Zip(a, b), MultiplyItems).value);
  }

  // ---------------------------------------------------------------------------
  // Round trips between the two dropping composites

  /** Dividing a product by its second operand gives the first operand back. */
  lemma DivisionUndoesMultiplication(a: seq<Sample>, b: seq<Sample>)
    requires forall i :: 0 <= i < |a| ==> a[i].Some? && UsableDivisor(b, i)
    ensures MultiplicationValue(a, b).Ok?
    ensures AllPresent(a) && DivisionValue(Lift(MultiplicationValue(a, b).value), b) == Values(a)
  {
    assert forall i :: 0 <= i < |a| ==> a[i].Some? && PresentOperand(b, i) by {
      forall i | 0 <= i < |a| ensures a[i].Some? && PresentOperand(b, i) {
        assert UsableDivisor(b, i);
      }
    }
    MultiplicationKeepsEveryPosition(a, b);
    var p := Lift(MultiplicationValue(a, b).value);
    assert |p| == |a|;
    DivisionKeepsEveryPosition(p, b);
    forall i | 0 <= i < |a| ensures DivisionValue(p, b)[i] == a[i].value {
      assert UsableDivisor(b, i);
      var x, y := a[i].value, b[i].value;
      assert ToF(p[i]) == x * y;
      assert (x * y) / y == x;
    }
  }

  /** Multiplying a quotient by its divisor gives the dividend back. */
  lemma MultiplicationUndoesDivision(a: seq<Sample>, b: seq<Sample>)
    requires forall i :: 0 <= i < |a| ==> a[i].Some? && UsableDivisor(b, i)
    ensures AllPresent(a) && MultiplicationValue(Lift(DivisionValue(a, b)), b) == Ok(Values(a))
  {
    DivisionKeepsEveryPosition(a, b);
    var q := Lift(DivisionValue(a, b));
    MultiplicationKeepsEveryPosition(q, b);
    var r := MultiplicationValue(q, b).value;
    forall i | 0 <= i < |a| ensures r[i] == a[i].value {
      assert UsableDivisor(b, i);
      var x, y := a[i].value, b[i].value;
      assert q[i] == Some(x / y);
      assert r[i] == q[i].value * y;
      assert (x / y) * y == x;
    }
    assert r == Values(a);
  }

  // The composites on small inputs.

  lemma SumExample()
    ensures SumValue([Some(1.0), Some(2.0), Some(3.0)], [Some(4.0), Some(5.0), Some(6.0)]) == Ok([5.0, 7.0, 9.0])
  {
    var a, b := [Some(1.0), Some(2.0), Some(3.0)], [Some(4.0), Some(5.0), Some(6.0)];
    SumPointwise(a, b);
    assert forall i :: 0 <= i < |a| ==> a[i].Some? && b[i].Some?;
    var r := SumValue(a, b).value;
    assert |r| == 3 && r[0] == 5.0 && r[1] == 7.0 && r[2] == 9.0;
    assert r == [5.0, 7.0, 9.0];
  }

  /** A zero divisor drops its position. */
  lemma DivisionExample()
    ensures DivisionValue([Some(10.0), Some(20.0)], [Some(2.0), Some(0.0)]) == [5.0]
  {
    DivisionSelectsUsableDivisors([Some(10.0), Some(20.0)], [Some(2.0), Some(0.0)]);
  }

  /** A missing second operand drops its position. */
  lemma MultiplicationExample()
    ensures MultiplicationValue([Some(2.0), Some(3.0)], [Some(4.0)]) == Ok([8.0])
  {
    var a, b := [Some(2.0), Some(3.0)], [Some(4.0)];
    MultiplicationSucceeds(a, b);
    assert !PresentOperand(b, 1);
    MultiplicationSelectsPresentOperands(a, b);
    assert MultiplicationMask(a, b) == [true, false];
    assert Positions([true, false]) == [0] by {
      assert [true, false][..1] == [true];
      assert [true][..0] == [];
    }
    var r := MultiplicationValue(a, b).value;
    assert |r| == 1 && r[0] == 8.0;
    assert r == [8.0];
  }

  // ---------------------------------------------------------------------------

  /** `composite.new(a, b).value` for the composite `For` resolved. */
  function Apply(c: Composite, a: seq<Sample>, b: seq<Sample>): Result<seq<real>>
  {
    match c
    case Sum => SumValue(a, b)
    case Division => Ok(DivisionValue(a, b))
    case Multiplication => MultiplicationValue(a, b)
  }
}

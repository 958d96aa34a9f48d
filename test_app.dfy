/** The `Program` class of the console test application: a private C#
    `int` field `x`, the derived property `Y`, a validity guard on `Y` and an
    increment that throws when the guard fails. C# arithmetic on `int` is
    unchecked by default, so `x + 10` and `x++` wrap around at 32 bits. */
module TestApp {

  const Int32Min: int := -0x8000_0000
  const Int32Max: int := 0x7FFF_FFFF

  /** A C# `int`. */
  newtype Int32 = n: int | Int32Min <= n <= Int32Max

  /** Unchecked 32-bit two's-complement arithmetic: the `int` congruent to
      `n` modulo 2^32. */
  function Wrap(n: int): (r: Int32)
    ensures (r as int - n) % 0x1_0000_0000 == 0
    ensures Int32Min <= n <= Int32Max ==> r as int == n
  {
    var m := (n - Int32Min) % 0x1_0000_0000 + Int32Min;
    assert (m - n) % 0x1_0000_0000 == 0 by {
      assert m - n == (n - Int32Min) % 0x1_0000_0000 - (n - Int32Min);
    }
    m as Int32
  }

  /** How a call ends: normally, or by an exception with its message. */
  datatype Outcome = Done | Thrown(message: string)

  class Program {
    var x: Int32

    /** `new Program()`: the field starts at C#'s default 0. */
    constructor()
      ensures x == 0
    {
      x := 0;
    }

    /** `Y => x + 10`, wrapping past `int.MaxValue`. */
    function Y(): (y: Int32)
      reads this
      ensures x as int <= Int32Max - 10 ==> y as int == x as int + 10
      ensures x as int > Int32Max - 10 ==> y as int == x as int + 10 - 0x1_0000_0000
    {
      Wrap(x as int + 10)
    }

    /** `SetX(value)`. */
    method SetX(value: Int32)
      modifies this
      ensures x == value
      ensures value as int <= Int32Max - 10 ==> Y() as int == value as int + 10
    {
      x := value;
    }

    /** `IsValid()`: `Y > 18`, which holds exactly when `x` is above 8 and
        `x + 10` does not wrap. */
    predicate IsValid()
      reads this
      ensures IsValid() <==> 8 < x as int <= Int32Max - 10
    {
      Y() > 18
    }

    /** `Increment18()`: on a valid instance `x` goes up by exactly one (the
        guard leaves no room for `x++` to wrap) and the instance stays valid
        unless `x` reaches the top of the valid range; on an invalid one it
        throws "Invalid operation" and leaves `x` as it was. */
    method Increment18() returns (outcome: Outcome)
      modifies this
      ensures old(IsValid()) ==> outcome == Done && x as int == old(x) as int + 1
      ensures old(IsValid()) ==> (IsValid() <==> old(x) as int < Int32Max - 10)
      ensures !old(IsValid()) ==> outcome == Thrown("Invalid operation") && x == old(x)
    {
      if IsValid() {
        x := Wrap(x as int + 1);
        outcome := Done;
      } else {
        outcome := Thrown("Invalid operation");
      }
    }
  }

  /** The xUnit scenarios for `Program`, each on a fresh instance: after
      `SetX(10)` `Y` is 20 and the instance is valid, after `SetX(5)` it is
      not; incrementing from 10 gives `Y == 21`, incrementing from 5 throws
      "Invalid operation". */
  method UnitTestScenarios() returns (y: Int32, valid10: bool, valid5: bool, yAfter: Int32, failure: Outcome)
    ensures y == 20 && valid10 && !valid5
    ensures yAfter == 21
    ensures failure == Thrown("Invalid operation")
  {
    var p := new Program();
    p.SetX(10);
    y := p.Y();

    p := new Program();
    p.SetX(10);
    valid10 := p.IsValid();

    p := new Program();
    p.SetX(5);
    valid5 := p.IsValid();

    p := new Program();
    p.SetX(10);
    var done := p.Increment18();
    yAfter := p.Y();

    p := new Program();
    p.SetX(5);
    failure := p.Increment18();
  }

  /** The largest valid `x` is the one from which `Increment18` succeeds
      but leaves the instance invalid: the next call throws. */
  method IncrementAtTopOfRange() returns (first: Outcome, second: Outcome)
    ensures first == Done && second == Thrown("Invalid operation")
  {
    var p := new Program();
    p.SetX((Int32Max - 10) as Int32);
    first := p.Increment18();
    second := p.Increment18();
  }

}

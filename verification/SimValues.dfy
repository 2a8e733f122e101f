/** Values as the simulation computes with them: exact numbers in place of floating point,
    and points in time as nanoseconds since some start. */
module SimValues {
  import opened Machine
  import opened BacnetTypes

  datatype SimValue =
    | Null
    | Boolean(flag: bool)
    | Unsigned(unsigned: U32)
    | Integer(integer: int)
    | Real(real32: real)
    | Double(real64: real)
    | Enumerated(enumerated: U32)
    | CharacterString(text: Bytes)
    | Other(value: PropertyValue)
  {
    function AsF32(): Option<real> {
      match this
      case Real(v) => Some(v)
      case Double(v) => Some(v)
      case Unsigned(v) => Some(v as real)
      case Integer(v) => Some(v as real)
      case _ => None
    }

    function AsBool(): Option<bool> {
      match this
      case Boolean(v) => Some(v)
      case Enumerated(v) => Some(v != 0)
      case _ => None
    }
  }

  const SECOND: nat := 1_000_000_000

  /** A duration never runs backwards. */
  function Since(now: nat, start: nat): nat {
    if now < start then 0 else now - start
  }

  function Max(a: real, b: real): real {
    if a < b then b else a
  }

  // ---- Total variation -----------------------------------------------------------------

  /** How far a sequence of readings moves in all, beginning at `start`. */
  function Variation(start: real, readings: seq<real>): (v: real)
    ensures v >= 0.0
    decreases |readings|
  {
    if readings == [] then 0.0 else Abs(readings[0] - start) + Variation(readings[0], readings[1..])
  }

  /** Moving the start costs at most the distance moved. */
  lemma VariationFrom(a: real, b: real, readings: seq<real>)
    ensures Variation(a, readings) <= Abs(a - b) + Variation(b, readings)
  {
  }

  /** The last of the readings, or what was there before. */
  function Latest<T>(before: T, readings: seq<T>): T {
    if readings == [] then before else readings[|readings| - 1]
  }

  lemma LatestTail<T>(before: T, readings: seq<T>)
    requires readings != []
    ensures Latest(before, readings) == Latest(readings[0], readings[1..])
  {
  }

  lemma {:induction false} VariationAppend(start: real, readings: seq<real>, y: real)
    ensures Variation(start, readings + [y]) == Variation(start, readings) + Abs(y - Latest(start, readings))
    decreases |readings|
  {
    if readings == [] {
      assert readings + [y] == [y];
    } else {
      VariationAppend(readings[0], readings[1..], y);
      LatestTail(start, readings);
      assert (readings + [y])[1..] == readings[1..] + [y];
    }
  }

  /** `n` times the price `d`. */
  function Cost(d: real, n: nat): real {
    d * (n as real)
  }

  lemma OneMore(d: real, n: nat)
    ensures Cost(d, n + 1) == d + Cost(d, n) && Cost(d, 0) == 0.0
  {
  }
}

/** The JSON values the modelled code reads and writes. */
module Json {

  /** Int stands for both integer kinds of the library, Real for its floating kind. */
  datatype Json =
    | Null
    | Bool(b: bool)
    | Int(i: int)
    | Real(r: real)
    | Str(s: string)
    | Arr(items: seq<Json>)
    | Obj(fields: map<string, Json>)
  {
    predicate IsNumber() {
      Int? || Real?
    }

    /** The number as a floating value. */
    function Number(): real
      requires IsNumber()
    {
      if Int? then i as real else r
    }

    predicate Has(key: string) {
      Obj? && key in fields
    }
  }

  // ----- machine integers

  type Int32 = x: int | -0x8000_0000 <= x < 0x8000_0000
  type Int64 = x: int | -0x8000_0000_0000_0000 <= x < 0x8000_0000_0000_0000

  function Wrap32(n: int): Int32 {
    (n + 0x8000_0000) % 0x1_0000_0000 - 0x8000_0000
  }

  /** Reading a number as `int`: a fraction is cut off toward zero, a wide integer wraps. */
  function AsInt(j: Json): Int32
    requires j.IsNumber()
  {
    if j.Int? then Wrap32(j.i)
    else if j.r >= 0.0 then Wrap32(j.r.Floor)
    else Wrap32(-(-j.r).Floor)
  }

  /** A wide integer keeps its lowest 32 bits, a narrow one its value. */
  lemma WrapMeans(n: int)
    ensures Wrap32(n) % 0x1_0000_0000 == n % 0x1_0000_0000
    ensures -0x8000_0000 <= n < 0x8000_0000 ==> Wrap32(n) == n
  {
  }

  /** The integer read from a fraction is the nearest one toward zero. */
  lemma CutMeans(r: real)
    requires -2147483649.0 < r < 2147483648.0
    ensures r >= 0.0 ==> 0 <= AsInt(Real(r)) && AsInt(Real(r)) as real <= r < (AsInt(Real(r)) + 1) as real
    ensures r <= 0.0 ==> AsInt(Real(r)) <= 0 && (AsInt(Real(r)) - 1) as real < r <= AsInt(Real(r)) as real
  {
    WrapMeans(r.Floor);
    WrapMeans(-(-r).Floor);
  }
}

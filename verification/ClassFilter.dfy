/** Picking the members of one class out of a list, as the loops of helpers/track_manager.hpp:176-177 do. */
module ClassFilter {

  /** The positions of c in cs, in order. */
  function Positions(cs: seq<string>, c: string): (ps: seq<nat>)
    ensures |ps| <= |cs|
    ensures forall k :: 0 <= k < |ps| ==> ps[k] < |cs| && cs[ps[k]] == c
    ensures forall a, b :: 0 <= a < b < |ps| ==> ps[a] < ps[b]
  {
    if cs == [] then []
    else Positions(cs[..|cs| - 1], c) + (if cs[|cs| - 1] == c then [|cs| - 1] else [])
  }

  /** How many of the first i entries are c: the place of entry i among its class. */
  function PlaceOf(cs: seq<string>, c: string, i: nat): nat
    requires i <= |cs|
  {
    |Positions(cs[..i], c)|
  }

  lemma {:induction false} PlaceInClass(cs: seq<string>, c: string, i: nat)
    requires i < |cs|
    ensures PlaceOf(cs, c, i + 1) == PlaceOf(cs, c, i) + (if cs[i] == c then 1 else 0)
    ensures PlaceOf(cs, c, i) <= |Positions(cs, c)|
    ensures cs[i] == c ==> PlaceOf(cs, c, i) < |Positions(cs, c)| && Positions(cs, c)[PlaceOf(cs, c, i)] == i
  {
    assert cs[..i + 1][..i] == cs[..i];
    if i == |cs| - 1 {
      assert cs[..i + 1] == cs;
    } else {
      var front := cs[..|cs| - 1];
      PlaceInClass(front, c, i);
      assert front[..i] == cs[..i];
    }
  }

  lemma PlaceOfPosition(cs: seq<string>, c: string, k: nat)
    requires k < |Positions(cs, c)|
    ensures PlaceOf(cs, c, Positions(cs, c)[k]) == k
  {
    var ps := Positions(cs, c);
    PlaceInClass(cs, c, ps[k]);
    var r := PlaceOf(cs, c, ps[k]);
    assert !(r < k) && !(k < r);
  }

  lemma {:induction false} PositionsOfUniform(cs: seq<string>, c: string)
    requires forall i :: 0 <= i < |cs| ==> cs[i] == c
    ensures |Positions(cs, c)| == |cs|
    ensures forall i :: 0 <= i < |cs| ==> Positions(cs, c)[i] == i
  {
    if cs != [] {
      PositionsOfUniform(cs[..|cs| - 1], c);
    }
  }

  function Select<T>(xs: seq<T>, ps: seq<nat>): (ys: seq<T>)
    requires forall k :: 0 <= k < |ps| ==> ps[k] < |xs|
    ensures |ys| == |ps|
    ensures forall k :: 0 <= k < |ps| ==> ys[k] == xs[ps[k]]
  {
    seq(|ps|, k requires 0 <= k < |ps| => xs[ps[k]])
  }
}

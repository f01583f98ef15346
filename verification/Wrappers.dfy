/** The optional values that stand for Go's nil results, and selections from sequences. */
module Wrappers {
  datatype Option<+T> = None | Some(value: T)

  lemma Assoc<T>(x: seq<T>, y: seq<T>, z: seq<T>)
    ensures x + y + z == x + (y + z)
  {
  }

  /** The positions of the elements that count, in order. */
  function Positions<T>(xs: seq<T>, counts: T -> bool): (ps: seq<nat>)
    ensures forall k :: 0 <= k < |ps| ==> ps[k] < |xs| && counts(xs[ps[k]])
    ensures forall j, k :: 0 <= j < k < |ps| ==> ps[j] < ps[k]
    ensures forall i :: 0 <= i < |xs| && counts(xs[i]) ==> i in ps
  {
    if xs == [] then []
    else
      var init := xs[..|xs| - 1];
      Positions(init, counts) + if counts(xs[|xs| - 1]) then [|xs| - 1] else []
  }

  lemma PositionsNext<T>(xs: seq<T>, x: T, counts: T -> bool)
    ensures Positions(xs + [x], counts) == Positions(xs, counts) + if counts(x) then [|xs|] else []
  {
    assert (xs + [x])[..|xs|] == xs;
  }

  /** The elements that count, all of them and in order. */
  ghost predicate Selects<T(!new)>(xs: seq<T>, kept: seq<T>, counts: T -> bool) {
    var ps := Positions(xs, counts);
    |kept| == |ps| && forall k :: 0 <= k < |ps| ==> kept[k] == xs[ps[k]]
  }

  lemma SelectsNext<T(!new)>(xs: seq<T>, kept: seq<T>, x: T, counts: T -> bool)
    requires Selects(xs, kept, counts)
    ensures Selects(xs + [x], kept + if counts(x) then [x] else [], counts)
  {
    PositionsNext(xs, x, counts);
    var ps, more := Positions(xs, counts), Positions(xs + [x], counts);
    forall k | 0 <= k < |ps| ensures more[k] == ps[k] && (xs + [x])[ps[k]] == xs[ps[k]] {
    }
  }
}

/**
Shared by the models: optional values, suffixes of strings, concatenation of sequences.
*/
module Basics {
  datatype Option<+T> = None | Some(value: T)

  /** `strings.HasSuffix`. */
  predicate HasSuffix(s: string, t: string) { |t| <= |s| && s[|s| - |t|..] == t }

  function Flat<T>(xs: seq<seq<T>>): seq<T> {
    if xs == [] then [] else xs[0] + Flat(xs[1..])
  }

  lemma {:induction false} FlatAppend<T>(xs: seq<seq<T>>, ys: seq<seq<T>>)
    ensures Flat(xs + ys) == Flat(xs) + Flat(ys)
  {
    if xs == [] {
      assert xs + ys == ys;
    } else {
      assert (xs + ys)[1..] == xs[1..] + ys;
      FlatAppend(xs[1..], ys);
    }
  }

  lemma {:induction false} FlatNext<T>(xs: seq<seq<T>>, i: nat)
    requires i < |xs|
    ensures Flat(xs[..i + 1]) == Flat(xs[..i]) + xs[i]
  {
    assert xs[..i + 1] == xs[..i] + [xs[i]];
    FlatAppend(xs[..i], [xs[i]]);
    assert Flat([xs[i]]) == xs[i] + Flat([]) == xs[i];
  }
}

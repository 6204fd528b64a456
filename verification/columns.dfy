/** Which columns reach the output. Every loop of the converter that walks
    the columns skips those typed `SKIP` and keeps the rest in header
    order; `Keep` is that walk, `KeptIndices` the positions it keeps. */
module Columns {
  import opened Settings

  /** The positions `from ..` whose type is not `SKIP`, ascending. */
  function KeptFrom(types: seq<string>, from: nat): (ks: seq<nat>)
    requires from <= |types|
    ensures forall k :: 0 <= k < |ks| ==> from <= ks[k] < |types| && types[ks[k]] != Skip
    ensures forall k, l :: 0 <= k < l < |ks| ==> ks[k] < ks[l]
    ensures forall i :: from <= i < |types| && types[i] != Skip ==> i in ks
    decreases |types| - from
  {
    if from == |types| then []
    else (if types[from] == Skip then [] else [from]) + KeptFrom(types, from + 1)
  }

  /** The positions of all columns not typed `SKIP`, ascending. */
  function KeptIndices(types: seq<string>): (ks: seq<nat>)
    ensures forall k :: 0 <= k < |ks| ==> ks[k] < |types| && types[ks[k]] != Skip
    ensures forall k, l :: 0 <= k < l < |ks| ==> ks[k] < ks[l]
    ensures forall i :: 0 <= i < |types| && types[i] != Skip ==> i in ks
  {
    KeptFrom(types, 0)
  }

  function KeepFrom<T>(types: seq<string>, xs: seq<T>, from: nat): (r: seq<T>)
    requires |types| == |xs| && from <= |types|
    ensures |r| == |KeptFrom(types, from)|
    ensures forall k :: 0 <= k < |r| ==> r[k] == xs[KeptFrom(types, from)[k]]
    decreases |types| - from
  {
    if from == |types| then []
    else (if types[from] == Skip then [] else [xs[from]]) + KeepFrom(types, xs, from + 1)
  }

  /** The entries of `xs` at the columns not typed `SKIP`, in order. */
  function Keep<T>(types: seq<string>, xs: seq<T>): (r: seq<T>)
    requires |types| == |xs|
    ensures |r| == |KeptIndices(types)|
    ensures forall k :: 0 <= k < |r| ==> r[k] == xs[KeptIndices(types)[k]]
  {
    KeepFrom(types, xs, 0)
  }
}

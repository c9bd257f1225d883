/** Picking entries out of a list: which ones, in which order. */
module Selections {
  import opened Options

  /** `after` is the entries of `before` at these indices, each once and in order. */
  predicate Selects<T(==)>(before: seq<T>, after: seq<T>, at: seq<nat>)
  {
    && |at| == |after|
    && (forall k :: 0 <= k < |at| ==> at[k] < |before| && after[k] == before[at[k]])
    && (forall j, k :: 0 <= j < k < |at| ==> at[j] < at[k])
  }

  /** The indices below n that are kept. */
  function Chosen(keep: seq<bool>, n: nat): (at: seq<nat>)
    requires n <= |keep|
    ensures forall k :: 0 <= k < |at| ==> at[k] < n
  {
    if n == 0 then [] else Chosen(keep, n - 1) + if keep[n - 1] then [n - 1] else []
  }

  lemma {:induction false} ChosenHas(keep: seq<bool>, n: nat, i: nat)
    requires n <= |keep|
    ensures i in Chosen(keep, n) <==> i < n && keep[i]
  {
    if n > 0 {
      ChosenHas(keep, n - 1, i);
    }
  }

  lemma {:induction false} ChosenAscends(keep: seq<bool>, n: nat)
    requires n <= |keep|
    ensures forall j, k :: 0 <= j < k < |Chosen(keep, n)| ==> Chosen(keep, n)[j] < Chosen(keep, n)[k]
  {
    if n > 0 {
      ChosenAscends(keep, n - 1);
    }
  }

  /** `out` is the values that are there, each once and in order, those at these indices. */
  ghost predicate Gathers<T>(values: seq<Option<T>>, out: seq<T>, at: seq<nat>)
  {
    && |at| == |out|
    && (forall k :: 0 <= k < |at| ==> at[k] < |values| && values[at[k]] == Some(out[k]))
    && (forall j, k :: 0 <= j < k < |at| ==> at[j] < at[k])
    && (forall i: nat :: i in at <==> i < |values| && values[i].Some?)
  }

  function Filled<T>(values: seq<Option<T>>): seq<bool>
  {
    seq(|values|, i requires 0 <= i < |values| => values[i].Some?)
  }

  lemma ChosenGathers<T>(values: seq<Option<T>>, out: seq<T>)
    requires
      var at := Chosen(Filled(values), |values|);
      |at| == |out| && forall k :: 0 <= k < |at| ==> values[at[k]] == Some(out[k])
    ensures Gathers(values, out, Chosen(Filled(values), |values|))
  {
    hide Chosen;
    ChosenAscends(Filled(values), |values|);
    forall i: nat ensures i in Chosen(Filled(values), |values|) <==> i < |values| && values[i].Some? {
      ChosenHas(Filled(values), |values|, i);
    }
  }
}

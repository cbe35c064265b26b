/**
 * A Python `dict` as the sequence of its items in insertion order, and the
 * keys it iterates over.
 */
module Dicts {
  /** `list(d)`: the keys, position by position. */
  function Keys<V>(d: seq<(string, V)>): (ks: seq<string>)
    ensures |ks| == |d| && forall i :: 0 <= i < |d| ==> ks[i] == d[i].0
  {
    if d == [] then [] else [d[0].0] + Keys(d[1..])
  }

  /** Items whose names are `names`, position by position, have exactly those keys. */
  lemma KeysOf<V>(d: seq<(string, V)>, names: seq<string>)
    requires |d| == |names| && forall j :: 0 <= j < |d| ==> d[j].0 == names[j]
    ensures Keys(d) == names
  {
  }
}

/** Sequences of blocks laid end to end. */
module Seqs {

  /** The concatenation of a sequence of blocks, in order. */
  function Flatten<T>(ss: seq<seq<T>>): seq<T>
    decreases |ss|
  {
    if |ss| == 0 then [] else Flatten(ss[..|ss| - 1]) + ss[|ss| - 1]
  }

  lemma {:induction false} FlattenMember<T>(ss: seq<seq<T>>, x: T)
    ensures x in Flatten(ss) <==> exists i :: 0 <= i < |ss| && x in ss[i]
    decreases |ss|
  {
    if |ss| > 0 {
      var n := |ss| - 1;
      FlattenMember(ss[..n], x);
      if i :| 0 <= i < |ss| && x in ss[i] {
        if i < n {
          assert ss[..n][i] == ss[i];
        }
      }
    }
  }

  /** Element k of block i sits at position m of the concatenation. */
  lemma {:induction false} FlattenAt<T>(ss: seq<seq<T>>, i: nat, k: nat) returns (m: nat)
    requires i < |ss| && k < |ss[i]|
    ensures m < |Flatten(ss)| && Flatten(ss)[m] == ss[i][k]
    decreases |ss|
  {
    var n := |ss| - 1;
    var init := Flatten(ss[..n]);
    assert Flatten(ss) == init + ss[n];
    if i < n {
      assert ss[..n][i] == ss[i];
      m := FlattenAt(ss[..n], i, k);
    } else {
      m := |init| + k;
    }
  }
}

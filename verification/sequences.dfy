/**
  Reversal of a sequence, the operation behind Python's `text[::-1]`.

  `Reverse` is the reference definition; `ReverseBySlice` walks the indices
  in the order a slice with step -1 and default bounds visits them.
 */
module Sequences {

  /** The elements of `s` in the opposite order. */
  function Reverse<T>(s: seq<T>): (r: seq<T>)
    ensures |r| == |s|
    decreases |s|
  {
    if s == [] then [] else Reverse(s[1..]) + [s[0]]
  }

  /** Position `i` of the reversal holds the element at the mirrored position. */
  lemma {:induction false} ReverseIndex<T>(s: seq<T>)
    ensures forall i :: 0 <= i < |s| ==> Reverse(s)[i] == s[|s| - 1 - i]
    decreases |s|
  {
    if s != [] {
      ReverseIndex(s[1..]);
      assert Reverse(s) == Reverse(s[1..]) + [s[0]];
    }
  }

  /** Length and mirrored indexing determine the reversal completely. */
  lemma ReverseCharacterised<T>(s: seq<T>, t: seq<T>)
    ensures t == Reverse(s) <==>
              |t| == |s| && forall i :: 0 <= i < |s| ==> t[i] == s[|s| - 1 - i]
  {
    ReverseIndex(s);
    if |t| == |s| && forall i :: 0 <= i < |s| ==> t[i] == s[|s| - 1 - i] {
      var r := Reverse(s);
      assert forall i :: 0 <= i < |t| ==> t[i] == r[i];
    }
  }

  lemma ReverseEmpty<T>()
    ensures Reverse<T>([]) == []
  {
  }

  /** Reversing twice gives back the original sequence. */
  lemma {:induction false} ReverseInvolution<T>(s: seq<T>)
    ensures Reverse(Reverse(s)) == s
    decreases |s|
  {
    if s != [] {
      var r := Reverse(s);
      assert r == Reverse(s[1..]) + [s[0]];
      ReverseConcat(Reverse(s[1..]), [s[0]]);
      ReverseInvolution(s[1..]);
      assert Reverse([s[0]]) == [s[0]];
      assert [s[0]] + s[1..] == s;
    }
  }

  /** Reversal turns a concatenation around. */
  lemma {:induction false} ReverseConcat<T>(s: seq<T>, t: seq<T>)
    ensures Reverse(s + t) == Reverse(t) + Reverse(s)
    decreases |s|
  {
    if s == [] {
      assert s + t == t;
      assert Reverse(t) + [] == Reverse(t);
    } else {
      assert (s + t)[1..] == s[1..] + t;
      assert (s + t)[0] == s[0];
      ReverseConcat(s[1..], t);
      calc {
        Reverse(s + t);
        Reverse(s[1..] + t) + [s[0]];
        (Reverse(t) + Reverse(s[1..])) + [s[0]];
        Reverse(t) + (Reverse(s[1..]) + [s[0]]);
        Reverse(t) + Reverse(s);
      }
    }
  }

  /**
    Builds the reversal by visiting `s[|s|-1]`, `s[|s|-2]`, ..., `s[0]`:
    a slice with step -1 starts at the last index and stops after index 0.
   */
  method ReverseBySlice<T>(s: seq<T>) returns (r: seq<T>)
    ensures r == Reverse(s)
  {
    r := [];
    var j := |s| - 1;
    while j >= 0
      invariant -1 <= j < |s|
      invariant |r| == |s| - 1 - j
      invariant forall k :: 0 <= k < |r| ==> r[k] == s[|s| - 1 - k]
    {
      r := r + [s[j]];
      j := j - 1;
    }
    ReverseCharacterised(s, r);
  }
}

/** Conversion of an attribute set to an MFEM marker array. */
module Marker {
  import Sets

  /** The marker of `s`: position i holds 1 when attribute i + 1 is in `s`
      and 0 otherwise. */
  function MarkerOf(s: set<int>, size: nat): (m: seq<int>)
    ensures |m| == size
    ensures forall i :: 0 <= i < size ==> (m[i] == 1 <==> i + 1 in s)
    ensures forall i :: 0 <= i < size ==> (m[i] == 0 || m[i] == 1)
  {
    seq(size, i => if i + 1 in s then 1 else 0)
  }

  /** Number of ones in a sequence. */
  function CountOnes(m: seq<int>): (n: nat)
    ensures n <= |m|
  {
    if m == [] then 0 else CountOnes(m[..|m| - 1]) + (if m[|m| - 1] == 1 then 1 else 0)
  }

  /** The marker has exactly one 1 per attribute of the set, when every
      attribute lies in 1..size. */
  lemma {:induction false} MarkerCountsAttributes(s: set<int>, size: nat)
    requires forall v :: v in s ==> 0 < v <= size
    ensures CountOnes(MarkerOf(s, size)) == |s|
  {
    if size == 0 {
      if s != {} {
        ghost var w := Sets.Witness(s);
        assert false;
      }
    } else {
      var m := MarkerOf(s, size);
      var rest := s - {size};
      MarkerCountsAttributes(rest, size - 1);
      assert m[..size - 1] == MarkerOf(rest, size - 1);
      if size in s {
        assert s == rest + {size};
      } else {
        assert s == rest;
      }
    }
  }

  /** set2marker: an array of `size` zeros with a 1 at v - 1 for every v in
      `s`; each v must satisfy 0 < v and v - 1 < size. */
  method SetToMarker(s: set<int>, size: nat) returns (res: array<int>)
    requires forall v :: v in s ==> v > 0 && v - 1 < size
    ensures res.Length == size
    ensures res[..] == MarkerOf(s, size)
  {
    res := new int[size](_ => 0);
    var todo := s;
    while todo != {}
      invariant todo <= s
      invariant forall i :: 0 <= i < size ==> res[i] == (if i + 1 in s - todo then 1 else 0)
      decreases |todo|
    {
      ghost var w := Sets.Witness(todo);
      var v :| v in todo;
      res[v - 1] := 1;
      todo := todo - {v};
    }
    assert s - todo == s;
  }
}

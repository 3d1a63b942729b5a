/** The clone-owning list of form-language objects (integrators, functions).
    Each stored element is a fresh clone of what was added; clones are
    modelled by their values, so `items` is the sequence of stored values. */
module FormList {

  /** Copy-assignment as the class writes it: unless the source is the target
      itself, the source's clones are appended to what the target already
      holds. */
  function CopyAssignAsWritten<T>(target: seq<T>, source: seq<T>, selfAssign: bool): (r: seq<T>)
    ensures selfAssign ==> r == target
    ensures !selfAssign ==> |r| == |target| + |source|
    ensures !selfAssign ==> r[..|target|] == target && r[|target|..] == source
  {
    if selfAssign then target else target + source
  }

  /** Copy-assignment as a copy assignment is meant to behave: the target
      ends up with the source's contents. */
  function CopyAssign<T>(target: seq<T>, source: seq<T>, selfAssign: bool): (r: seq<T>)
    requires selfAssign ==> target == source
    ensures r == source
  {
    if selfAssign then target else source
  }

  /** The appending assignment differs from a copy as soon as the target is
      not empty: assigning [b] to a list holding [a] leaves [a, b]. */
  lemma CopyAssignAppends<T>(a: T, b: T)
    ensures CopyAssignAsWritten([a], [b], false) == [a, b]
    ensures CopyAssignAsWritten([a], [b], false) != CopyAssign([a], [b], false)
  {
    assert |CopyAssignAsWritten([a], [b], false)| == 2;
  }

  /** The two assignments agree exactly when the target starts empty or the
      assignment is a self-assignment. */
  lemma CopyAssignAgreement<T>(target: seq<T>, source: seq<T>, selfAssign: bool)
    requires selfAssign ==> target == source
    ensures CopyAssignAsWritten(target, source, selfAssign) == CopyAssign(target, source, selfAssign)
        <==> selfAssign || target == []
  {
    if !selfAssign && target != [] {
      assert |CopyAssignAsWritten(target, source, selfAssign)| != |source|;
    }
  }

  class List<T> {
    /** The stored clones, in insertion order. */
    var items: seq<T>

    /** The default constructor: an empty list. */
    constructor ()
      ensures items == []
    {
      items := [];
    }

    /** The copy constructor: the same elements in the same order, held in a
        new list of their own. */
    constructor Copy(other: List<T>)
      ensures items == other.items
    {
      items := other.items;
    }

    /** The move constructor takes over the other list's storage. */
    constructor Move(other: List<T>)
      modifies other
      ensures items == old(other.items)
      ensures other.items == []
    {
      items := other.items;
      other.items := [];
    }

    /** Copy-assignment as written: appends clones without clearing first;
        assigning a list to itself changes nothing. */
    method AssignCopy(other: List<T>)
      modifies this
      ensures items == CopyAssignAsWritten(old(items), old(other.items), this == other)
    {
      if this != other {
        items := items + other.items;
      }
    }

    /** Copy-assignment with the intended meaning, which the rest of the model
        uses: the list ends up equal to `other`. */
    method AssignCopyCorrected(other: List<T>)
      modifies this
      ensures items == old(other.items)
    {
      if this != other {
        items := other.items;
      }
    }

    /** Move-assignment takes over the other list's storage. */
    method AssignMove(other: List<T>)
      requires other != this
      modifies this, other
      ensures items == old(other.items)
      ensures other.items == []
    {
      items := other.items;
      other.items := [];
    }

    /** add(v): a clone of v goes at the end. */
    method Add(v: T)
      modifies this
      ensures items == old(items) + [v]
      ensures |items| == |old(items)| + 1 && items[|items| - 1] == v
    {
      items := items + [v];
    }

    /** add(list): clones of every element of `other`, in order, go at the
        end; adding a list to itself doubles it. */
    method AddAll(other: List<T>)
      modifies this
      ensures items == old(items) + old(other.items)
    {
      var source := other.items;
      var i := 0;
      while i < |source|
        invariant 0 <= i <= |source|
        invariant items == old(items) + source[..i]
      {
        items := items + [source[i]];
        i := i + 1;
        assert source[..i] == source[..i - 1] + [source[i - 1]];
      }
      assert source[..|source|] == source;
    }

    /** clear() empties the list. */
    method Clear()
      modifies this
      ensures items == []
    {
      items := [];
    }

    function Size(): (n: nat)
      reads this
      ensures n == |items|
    {
      |items|
    }

    /** copy(): a new list equal to this one. */
    method Clone() returns (r: List<T>)
      ensures fresh(r) && r.items == items
    {
      r := new List.Copy(this);
    }
  }
}

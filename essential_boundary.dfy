/** The essential boundary of a variational problem: the Dirichlet values
    imposed on whole trial functions and on single components of them,
    each with the boundary attributes it applies on. */
module EssentialBoundaries {
  import Sets
  import opened RangeShapes

  /** A trial function's identity (its uuid). */
  type Uuid = nat

  /** A prescribed function, reduced to what the boundary keeps of it: an
      identity standing for its expression and its range type. A deep
      copy (FunctionBase::copy) is an equal value. */
  datatype Function = Function(id: nat, range: RangeType)

  /** The prescribed value and the boundary attributes it is imposed on. */
  datatype Value = Value(value: Function, attributes: set<int>)

  /** The component map with component idx of trial function u set (or
      overwritten) to v; the map of u is created when absent. */
  function ComponentAdded(m: map<Uuid, map<int, Value>>, u: Uuid, idx: int, v: Value): (r: map<Uuid, map<int, Value>>)
    ensures r.Keys == m.Keys + {u}
    ensures r[u].Keys == (if u in m then m[u].Keys else {}) + {idx} && r[u][idx] == v
    ensures u in m ==> forall j :: j in m[u] && j != idx ==> r[u][j] == m[u][j]
    ensures forall w :: w in m && w != u ==> r[w] == m[w]
  {
    m[u := (if u in m then m[u] else map[])[idx := v]]
  }

  /** Every trial function in the component map has a component. */
  predicate NoEmptyEntries(m: map<Uuid, map<int, Value>>)
  {
    forall u :: u in m ==> m[u] != map[]
  }

  /** The entries of the component map that hold at least one component. */
  function NonEmptyEntries(m: map<Uuid, map<int, Value>>): (r: map<Uuid, map<int, Value>>)
    ensures forall u :: u in r <==> u in m && m[u] != map[]
    ensures forall u :: u in r ==> r[u] == m[u]
  {
    map u | u in m && m[u] != map[] :: m[u]
  }

  /** Adding a component never leaves an empty entry behind. */
  lemma ComponentAddedNoEmpty(m: map<Uuid, map<int, Value>>, u: Uuid, idx: int, v: Value)
    requires NoEmptyEntries(m)
    ensures NoEmptyEntries(ComponentAdded(m, u, idx, v))
  {
    var r := ComponentAdded(m, u, idx, v);
    forall w | w in r ensures r[w] != map[] {
      if w == u {
        assert idx in r[u];
      }
    }
  }

  /** Without empty entries, keeping the non-empty ones keeps everything. */
  lemma NonEmptyEntriesAll(m: map<Uuid, map<int, Value>>)
    requires NoEmptyEntries(m)
    ensures NonEmptyEntries(m) == m
  {
    var r := NonEmptyEntries(m);
    assert r.Keys == m.Keys;
  }

  /** An empty entry is not carried over. */
  lemma NonEmptyEntriesDrops(m: map<Uuid, map<int, Value>>, u: Uuid)
    requires u in m && m[u] == map[]
    ensures NonEmptyEntries(m) != m
  {
    assert u !in NonEmptyEntries(m);
  }

  /** Copies the entries of m one key at a time. */
  method CopyValues(m: map<Uuid, Value>) returns (r: map<Uuid, Value>)
    ensures r == m
  {
    r := map[];
    var todo := m.Keys;
    while todo != {}
      invariant todo <= m.Keys
      invariant r.Keys == m.Keys - todo
      invariant forall u :: u in r ==> r[u] == m[u]
      decreases |todo|
    {
      ghost var w := Sets.Witness(todo);
      var u :| u in todo;
      r := r[u := m[u]];
      todo := todo - {u};
    }
  }

  lemma SameMap(c: map<int, Value>, comps: map<int, Value>)
    requires c.Keys == comps.Keys
    requires forall j :: j in c ==> c[j] == comps[j]
    ensures c == comps
  {
    assert forall j :: j in comps ==> j in c && c[j] == comps[j];
  }

  /** One write m_tfCompVal[uuid][idx] = v of the copy: whether or not the
      entry of u existed, it now holds what was copied so far. */
  lemma ComponentStep(r0: map<Uuid, map<int, Value>>, u: Uuid, r: map<Uuid, map<int, Value>>, c: map<int, Value>, idx: int, v: Value)
    requires u !in r0
    requires r == r0 || (c != map[] && r == r0[u := c])
    requires r == r0 ==> c == map[]
    ensures r[u := (if u in r then r[u] else map[])[idx := v]] == r0[u := c[idx := v]]
  {
    if r == r0 {
      assert u !in r;
    }
  }

  /** Copies the components of trial function u into r, as
      m_tfCompVal[uuid][idx] = value does: the entry of u is created with
      its first component. */
  method CopyComponents(r0: map<Uuid, map<int, Value>>, u: Uuid, comps: map<int, Value>) returns (r: map<Uuid, map<int, Value>>)
    requires u !in r0
    ensures comps == map[] ==> r == r0
    ensures comps != map[] ==> r == r0[u := comps]
  {
    r := r0;
    var todo := comps.Keys;
    ghost var c: map<int, Value> := map[];
    while todo != {}
      invariant todo <= comps.Keys && c.Keys == comps.Keys - todo
      invariant forall j :: j in c ==> c[j] == comps[j]
      invariant r == if todo == comps.Keys then r0 else r0[u := c]
      decreases |todo|
    {
      ghost var w := Sets.Witness(todo);
      var idx :| idx in todo;
      ComponentStep(r0, u, r, c, idx, comps[idx]);
      r := r[u := (if u in r then r[u] else map[])[idx := comps[idx]]];
      c := c[idx := comps[idx]];
      todo := todo - {idx};
    }
    SameMap(c, comps);
  }

  /** Copies the component map entry by entry; an entry without
      components is not recreated. */
  method CopyComponentMap(m: map<Uuid, map<int, Value>>) returns (r: map<Uuid, map<int, Value>>)
    ensures r == NonEmptyEntries(m)
  {
    r := map[];
    var todo := m.Keys;
    while todo != {}
      invariant todo <= m.Keys
      invariant forall w :: w in r <==> w in m && w !in todo && m[w] != map[]
      invariant forall w :: w in r ==> r[w] == m[w]
      decreases |todo|
    {
      ghost var w := Sets.Witness(todo);
      var u :| u in todo;
      r := CopyComponents(r, u, m[u]);
      todo := todo - {u};
    }
    assert r.Keys == NonEmptyEntries(m).Keys;
  }

  /** EssentialBoundary: the values imposed on whole trial functions and
      on components of trial functions. */
  class EssentialBoundary {
    var tfVal: map<Uuid, Value>
    var tfCompVal: map<Uuid, map<int, Value>>

    /** A component entry exists only once a component was added. */
    predicate Valid()
      reads this
    {
      NoEmptyEntries(tfCompVal)
    }

    /** The default constructor: no values. */
    constructor ()
      ensures tfVal == map[] && tfCompVal == map[] && Valid()
    {
      tfVal, tfCompVal := map[], map[];
    }

    /** The copy constructor: every value and every component value is
        copied with its attributes. */
    constructor Copy(other: EssentialBoundary)
      ensures tfVal == other.tfVal && tfCompVal == NonEmptyEntries(other.tfCompVal)
      ensures other.Valid() ==> tfCompVal == other.tfCompVal && Valid()
    {
      var v := CopyValues(other.tfVal);
      var c := CopyComponentMap(other.tfCompVal);
      if other.Valid() {
        NonEmptyEntriesAll(other.tfCompVal);
      }
      tfVal, tfCompVal := v, c;
    }

    /** add(DirichletBC on a trial function): the value must have the trial
        function's range type; it replaces any value given before. */
    method Add(trial: Uuid, trialRange: RangeType, value: Function, attributes: set<int>)
      requires trialRange == value.range
      modifies this
      ensures tfVal == old(tfVal)[trial := Value(value, attributes)]
      ensures tfCompVal == old(tfCompVal)
    {
      tfVal := tfVal[trial := Value(value, attributes)];
    }

    /** add(DirichletBC on a component): the value must be scalar; it is
        filed under the trial function and the component index. */
    method AddComponent(trial: Uuid, index: int, value: Function, attributes: set<int>)
      requires value.range == Scalar
      modifies this
      ensures tfCompVal == ComponentAdded(old(tfCompVal), trial, index, Value(value, attributes))
      ensures tfVal == old(tfVal)
      ensures old(Valid()) ==> Valid()
    {
      if NoEmptyEntries(tfCompVal) {
        ComponentAddedNoEmpty(tfCompVal, trial, index, Value(value, attributes));
      }
      tfCompVal := ComponentAdded(tfCompVal, trial, index, Value(value, attributes));
    }
  }
}

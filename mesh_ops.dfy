/** Whole-mesh operations: volume and perimeter sums, element queries and
    edits, connected-component labelling, the element and boundary
    selection of keep, and trace. Element volumes and boundary element
    areas are computed by quadrature in the library; here they are inputs,
    one real per element. Predicates and edit callbacks receive an element
    as its index together with its value. */
module MeshOperations {
  import opened Wrappers
  import opened Elements
  import opened Meshes

  // ----- sums over elements -----

  /** v[0] + ... + v[upto - 1]. */
  function Sum(v: seq<real>, upto: nat): real
    requires upto <= |v|
  {
    if upto == 0 then 0.0 else Sum(v, upto - 1) + v[upto - 1]
  }

  /** 1.0 when the condition holds, else 0.0: a bool used as a factor. */
  function Indicator(b: bool): real
  {
    if b then 1.0 else 0.0
  }

  /** The sum of v[i] * (parts[i].attribute == attr) over i < upto. */
  function AttributeSum(v: seq<real>, parts: seq<Polytope>, attr: int, upto: nat): real
    requires upto <= |v| && upto <= |parts|
  {
    if upto == 0 then 0.0
    else AttributeSum(v, parts, attr, upto - 1) + v[upto - 1] * Indicator(parts[upto - 1].attribute == attr)
  }

  /** The sum of v[i] over the parts whose attribute is not attr. */
  function OtherSum(v: seq<real>, parts: seq<Polytope>, attr: int, upto: nat): real
    requires upto <= |v| && upto <= |parts|
  {
    if upto == 0 then 0.0
    else OtherSum(v, parts, attr, upto - 1) + (if parts[upto - 1].attribute == attr then 0.0 else v[upto - 1])
  }

  /** The weighted sum counts each part exactly when its attribute is attr:
      together with the other parts it gives the total. */
  lemma {:induction false} AttributeSumSplits(v: seq<real>, parts: seq<Polytope>, attr: int, upto: nat)
    requires upto <= |v| && upto <= |parts|
    ensures Sum(v, upto) == AttributeSum(v, parts, attr, upto) + OtherSum(v, parts, attr, upto)
  {
    if upto > 0 {
      AttributeSumSplits(v, parts, attr, upto - 1);
    }
  }

  /** No part with attribute attr: the weighted sum is zero. */
  lemma {:induction false} AttributeSumAbsent(v: seq<real>, parts: seq<Polytope>, attr: int, upto: nat)
    requires upto <= |v| && upto <= |parts|
    requires forall i :: 0 <= i < upto ==> parts[i].attribute != attr
    ensures AttributeSum(v, parts, attr, upto) == 0.0
  {
    if upto > 0 {
      AttributeSumAbsent(v, parts, attr, upto - 1);
    }
  }

  /** getVolume(): the sum of the element volumes. */
  method GetVolume(m: Mesh, volume: seq<real>) returns (total: real)
    requires |volume| == |m.elements|
    ensures total == Sum(volume, |volume|)
  {
    total := 0.0;
    var i := 0;
    while i < |m.elements|
      invariant 0 <= i <= |volume| && total == Sum(volume, i)
    {
      total := total + volume[i];
      i := i + 1;
    }
  }

  /** getVolume(attr): each volume times (attribute == attr). */
  method GetVolumeOf(m: Mesh, volume: seq<real>, attr: int) returns (total: real)
    requires |volume| == |m.elements|
    ensures total == AttributeSum(volume, m.elements, attr, |volume|)
  {
    total := 0.0;
    var i := 0;
    while i < |m.elements|
      invariant 0 <= i <= |volume| && total == AttributeSum(volume, m.elements, attr, i)
    {
      total := total + volume[i] * Indicator(m.elements[i].attribute == attr);
      i := i + 1;
    }
  }

  /** getPerimeter() as written: the loop runs over the element count while
      reading boundary element areas, so it needs at least as many boundary
      elements as elements and sums only the first |elements| areas. */
  method GetPerimeterAsWritten(m: Mesh, area: seq<real>) returns (total: real)
    requires |area| == |m.boundary| && |m.elements| <= |area|
    ensures total == Sum(area, |m.elements|)
  {
    total := 0.0;
    var i := 0;
    while i < |m.elements|
      invariant 0 <= i <= |m.elements| && total == Sum(area, i)
    {
      total := total + area[i];
      i := i + 1;
    }
  }

  /** getPerimeter() as intended: the sum of all boundary element areas. */
  method GetPerimeter(m: Mesh, area: seq<real>) returns (total: real)
    requires |area| == |m.boundary|
    ensures total == Sum(area, |area|)
  {
    total := 0.0;
    var i := 0;
    while i < |m.boundary|
      invariant 0 <= i <= |area| && total == Sum(area, i)
    {
      total := total + area[i];
      i := i + 1;
    }
  }

  /** A single triangle has one element and three boundary edges: the loop
      as written adds one edge length instead of three. */
  lemma PerimeterAsWrittenMissesEdges()
    ensures Sum([1.0, 1.0, 1.0], 1) == 1.0
    ensures Sum([1.0, 1.0, 1.0], 3) == 3.0
  {
    assert Sum([1.0, 1.0, 1.0], 1) == 1.0;
    assert Sum([1.0, 1.0, 1.0], 2) == 2.0;
  }

  /** getPerimeter(attr): each boundary area times (attribute == attr). */
  method GetPerimeterOf(m: Mesh, area: seq<real>, attr: int) returns (total: real)
    requires |area| == |m.boundary|
    ensures total == AttributeSum(area, m.boundary, attr, |area|)
  {
    total := 0.0;
    var i := 0;
    while i < |m.boundary|
      invariant 0 <= i <= |area| && total == AttributeSum(area, m.boundary, attr, i)
    {
      total := total + area[i] * Indicator(m.boundary[i].attribute == attr);
      i := i + 1;
    }
  }

  // ----- queries and edits -----

  /** where(p): exactly the indices of the elements satisfying p. */
  method Where(m: Mesh, p: (nat, Polytope) -> bool) returns (r: set<nat>)
    ensures forall i: nat :: i in r <==> i < |m.elements| && p(i, m.elements[i])
  {
    r := {};
    var i := 0;
    while i < |m.elements|
      invariant 0 <= i <= |m.elements|
      invariant forall j: nat :: j in r <==> j < i && p(j, m.elements[j])
    {
      if p(i, m.elements[i]) {
        r := r + {i};
      }
      i := i + 1;
    }
  }

  /** The element after a callback that either sets its attribute or
      leaves it alone. */
  function Edited(e: Polytope, change: Option<int>): (r: Polytope)
    ensures r.geometry == e.geometry && r.vertices == e.vertices
    ensures r.attribute == if change.Some? then change.value else e.attribute
  {
    match change
    case Some(a) => e.(attribute := a)
    case None => e
  }

  /** edit(f): calls f on every element view; a view can only set its own
      attribute, which f returns here. */
  method Edit(m: Mesh, f: (nat, Polytope) -> Option<int>)
    requires m.Valid()
    modifies m`elements
    ensures m.Valid() && |m.elements| == |old(m.elements)|
    ensures forall i :: 0 <= i < |m.elements| ==> m.elements[i] == Edited(old(m.elements)[i], f(i, old(m.elements)[i]))
  {
    var i := 0;
    while i < |m.elements|
      invariant m.Valid() && 0 <= i <= |m.elements| == |old(m.elements)|
      invariant forall j :: 0 <= j < i ==> m.elements[j] == Edited(old(m.elements)[j], f(j, old(m.elements)[j]))
      invariant forall j :: i <= j < |m.elements| ==> m.elements[j] == old(m.elements)[j]
    {
      var change := f(i, m.elements[i]);
      if change.Some? {
        m.SetElementAttribute(i, change.value);
      }
      i := i + 1;
    }
  }

  /** edit(f) on boundary element views. */
  method EditBoundary(m: Mesh, f: (nat, Polytope) -> Option<int>)
    requires m.Valid()
    modifies m`boundary
    ensures m.Valid() && |m.boundary| == |old(m.boundary)|
    ensures forall i :: 0 <= i < |m.boundary| ==> m.boundary[i] == Edited(old(m.boundary)[i], f(i, old(m.boundary)[i]))
  {
    var i := 0;
    while i < |m.boundary|
      invariant m.Valid() && 0 <= i <= |m.boundary| == |old(m.boundary)|
      invariant forall j :: 0 <= j < i ==> m.boundary[j] == Edited(old(m.boundary)[j], f(j, old(m.boundary)[j]))
      invariant forall j :: i <= j < |m.boundary| ==> m.boundary[j] == old(m.boundary)[j]
    {
      var change := f(i, m.boundary[i]);
      if change.Some? {
        m.SetBoundaryAttribute(i, change.value);
      }
      i := i + 1;
    }
  }

  /** edit(f, elements): calls f on the listed elements only (an ordered
      set of ids, each of which must be an element). */
  method EditSome(m: Mesh, f: (nat, Polytope) -> Option<int>, els: seq<nat>)
    requires m.Valid() && StrictlyIncreasing(els)
    requires forall k :: 0 <= k < |els| ==> els[k] < |m.elements|
    modifies m`elements
    ensures m.Valid() && |m.elements| == |old(m.elements)|
    ensures forall i :: 0 <= i < |m.elements| && i in els ==> m.elements[i] == Edited(old(m.elements)[i], f(i, old(m.elements)[i]))
    ensures forall i :: 0 <= i < |m.elements| && i !in els ==> m.elements[i] == old(m.elements)[i]
  {
    var k := 0;
    while k < |els|
      invariant m.Valid() && 0 <= k <= |els| && |m.elements| == |old(m.elements)|
      invariant forall i :: 0 <= i < |m.elements| && i in els[..k] ==> m.elements[i] == Edited(old(m.elements)[i], f(i, old(m.elements)[i]))
      invariant forall i :: 0 <= i < |m.elements| && i !in els[..k] ==> m.elements[i] == old(m.elements)[i]
    {
      var el := els[k];
      assert forall a :: 0 <= a < k ==> els[..k][a] < el;
      assert els[..k + 1] == els[..k] + [el];
      var change := f(el, m.elements[el]);
      if change.Some? {
        m.SetElementAttribute(el, change.value);
      }
      k := k + 1;
    }
    assert els[..k] == els;
  }

  // ----- connected-component labelling -----

  /** The union of the components. */
  function Union(res: seq<set<nat>>): set<nat>
  {
    if |res| == 0 then {} else Union(res[..|res| - 1]) + res[|res| - 1]
  }

  /** Every member of a component is in the union. */
  lemma {:induction false} UnionMember(res: seq<set<nat>>, k: nat, x: nat)
    requires k < |res| && x in res[k]
    ensures x in Union(res)
  {
    if k < |res| - 1 {
      UnionMember(res[..|res| - 1], k, x);
    }
  }

  predicate PairwiseDisjoint(res: seq<set<nat>>)
  {
    forall a, b :: 0 <= a < b < |res| ==> res[a] !! res[b]
  }

  /** Component k is closed under the edges (x, n) of the element-to-element
      table that p accepts, up to components found before it. */
  predicate Closed(adj: seq<seq<nat>>, p: (nat, nat) -> bool, res: seq<set<nat>>, k: nat)
    requires k < |res|
  {
    forall x, j :: x in res[k] && x < |adj| && 0 <= j < |adj[x]| && p(x, adj[x][j]) ==> adj[x][j] in Union(res[..k + 1])
  }

  /** A set of naturals below n has at most n members. */
  lemma {:induction false} BoundedSetSize(s: set<nat>, n: nat)
    requires forall x :: x in s ==> x < n
    ensures |s| <= n
  {
    if n > 0 {
      BoundedSetSize(s - {n - 1}, n - 1);
    } else {
      assert s == {};
    }
  }

  /** An edge (x, y) of the element-to-element table that p accepts. */
  predicate Step(adj: seq<seq<nat>>, p: (nat, nat) -> bool, x: nat, y: nat)
  {
    x < |adj| && y in adj[x] && p(x, y)
  }

  /** A walk along accepted edges of the table. */
  predicate Walk(adj: seq<seq<nat>>, p: (nat, nat) -> bool, w: seq<nat>)
  {
    |w| > 0 && forall k :: 0 <= k < |w| - 1 ==> Step(adj, p, w[k], w[k + 1])
  }

  /** A walk that stays inside the set c. */
  predicate WalkIn(adj: seq<seq<nat>>, p: (nat, nat) -> bool, w: seq<nat>, c: set<nat>)
  {
    Walk(adj, p, w) && forall k :: 0 <= k < |w| ==> w[k] in c
  }

  /** Every member of c is reached from seed by a walk along accepted
      edges that does not leave c. */
  ghost predicate Spanned(adj: seq<seq<nat>>, p: (nat, nat) -> bool, c: set<nat>, seed: nat)
  {
    forall x :: x in c ==> exists w :: WalkIn(adj, p, w, c) && w[0] == seed && w[|w| - 1] == x
  }

  /** A walk extended by one accepted edge is a walk. */
  lemma WalkSnoc(adj: seq<seq<nat>>, p: (nat, nat) -> bool, w: seq<nat>, y: nat)
    requires Walk(adj, p, w) && Step(adj, p, w[|w| - 1], y)
    ensures Walk(adj, p, w + [y])
  {
    var w' := w + [y];
    forall k | 0 <= k < |w'| - 1 ensures Step(adj, p, w'[k], w'[k + 1]) {
      if k < |w| - 1 {
        assert w'[k] == w[k] && w'[k + 1] == w[k + 1];
      }
    }
  }

  /** A component spanned from a seed without accepted edges is the seed
      alone: two elements that p never links end up in two components. */
  lemma IsolatedSeedAlone(adj: seq<seq<nat>>, p: (nat, nat) -> bool, c: set<nat>, seed: nat)
    requires Spanned(adj, p, c, seed)
    requires seed < |adj| && forall y :: y in adj[seed] ==> !p(seed, y)
    ensures c <= {seed}
  {
    forall x | x in c ensures x == seed {
      var w :| WalkIn(adj, p, w, c) && w[0] == seed && w[|w| - 1] == x;
      assert |w| == 1 || Step(adj, p, w[0], w[1]);
    }
  }

  /** The search of one component (the inner while loop of ccl): pops the
      last element of the stack, and when it is newly visited adds it to the
      component and pushes its neighbours accepted by p. */
  method Explore(adj: seq<seq<nat>>, p: (nat, nat) -> bool, seed: nat, visited0: set<nat>)
    returns (visited: set<nat>, component: set<nat>)
    requires seed < |adj| && seed !in visited0
    requires forall i, j :: 0 <= i < |adj| && 0 <= j < |adj[i]| ==> adj[i][j] < |adj|
    requires forall x :: x in visited0 ==> x < |adj|
    ensures visited == visited0 + component && component !! visited0
    ensures seed in component
    ensures forall x :: x in component ==> x < |adj|
    ensures forall x, j :: x in component && 0 <= j < |adj[x]| && p(x, adj[x][j]) ==> adj[x][j] in visited
    ensures Spanned(adj, p, component, seed)
  {
    visited, component := visited0, {};
    var stack: seq<nat> := [seed];
    // paths[x] is a walk from the seed to x inside the component; via[k]
    // is a walk from the seed to stack[k] whose earlier elements are in it
    ghost var paths: map<nat, seq<nat>> := map[];
    ghost var via: seq<seq<nat>> := [[seed]];
    BoundedSetSize(visited, |adj|);
    while |stack| > 0
      invariant Searching(adj, p, seed, visited0, visited, component, stack, paths, via)
      invariant |visited| <= |adj|
      decreases |adj| - |visited|, |stack|
    {
      visited, component, stack, paths, via := SearchStep(adj, p, seed, visited0, visited, component, stack, paths, via);
    }
    PathsSpan(adj, p, paths, component, seed);
  }

  /** The state of the search of one component: the visited elements are
      the earlier ones and the component; every accepted edge out of the
      component ends at a visited element or on the stack; the ghost walks
      reach the component's members and the stack entries from the seed. */
  predicate Searching(adj: seq<seq<nat>>, p: (nat, nat) -> bool, seed: nat, visited0: set<nat>, visited: set<nat>, component: set<nat>,
                      stack: seq<nat>, paths: map<nat, seq<nat>>, via: seq<seq<nat>>)
  {
    visited == visited0 + component && component !! visited0 && seed !in visited0
    && (forall x :: x in visited ==> x < |adj|)
    && (forall k :: 0 <= k < |stack| ==> stack[k] < |adj|)
    && (seed in component || seed in stack)
    && (forall x, j :: x in component && 0 <= j < |adj[x]| && p(x, adj[x][j]) ==> adj[x][j] in visited || adj[x][j] in stack)
    && PathsTo(adj, p, paths, component, seed)
    && StackReached(adj, p, via, stack, component, seed)
  }

  /** One iteration of the search: pops the last element of the stack;
      when it was not visited yet, it joins the component and its accepted
      neighbours are pushed. */
  method SearchStep(adj: seq<seq<nat>>, p: (nat, nat) -> bool, seed: nat, visited0: set<nat>, visited: set<nat>, component: set<nat>,
                    stack: seq<nat>, ghost paths: map<nat, seq<nat>>, ghost via: seq<seq<nat>>)
    returns (visited': set<nat>, component': set<nat>, stack': seq<nat>, ghost paths': map<nat, seq<nat>>, ghost via': seq<seq<nat>>)
    requires forall i, j :: 0 <= i < |adj| && 0 <= j < |adj[i]| ==> adj[i][j] < |adj|
    requires |stack| > 0 && Searching(adj, p, seed, visited0, visited, component, stack, paths, via)
    ensures Searching(adj, p, seed, visited0, visited', component', stack', paths', via')
    ensures |visited'| <= |adj|
    ensures stack[|stack| - 1] !in visited ==> visited' == visited + {stack[|stack| - 1]} && component' == component + {stack[|stack| - 1]}
    ensures stack[|stack| - 1] in visited ==> visited' == visited && component' == component && stack' == stack[..|stack| - 1]
  {
    var el: nat := stack[|stack| - 1];
    ghost var w := via[|via| - 1];
    var rest := stack[..|stack| - 1];
    if el in visited {
      SkipSearching(adj, p, seed, visited0, visited, component, stack, paths, via);
      visited', component', stack', paths', via' := visited, component, rest, paths, via[..|via| - 1];
    } else {
      StackPop(adj, p, via, stack, component, seed);
      Visit(adj, p, paths, via[..|via| - 1], rest, component, seed, el, w);
      visited', component', paths' := visited + {el}, component + {el}, paths[el := w];
      stack', via' := PushAccepted(adj, p, el, rest, via[..|via| - 1], w, component', seed);
      VisitSearching(adj, p, seed, visited0, visited, component, stack, paths, via, el, stack', via');
    }
    BoundedSetSize(visited', |adj|);
  }

  /** Popping an element already visited keeps the search's state. */
  lemma SkipSearching(adj: seq<seq<nat>>, p: (nat, nat) -> bool, seed: nat, visited0: set<nat>, visited: set<nat>, component: set<nat>,
                      stack: seq<nat>, paths: map<nat, seq<nat>>, via: seq<seq<nat>>)
    requires |stack| > 0 && Searching(adj, p, seed, visited0, visited, component, stack, paths, via)
    requires stack[|stack| - 1] in visited
    ensures Searching(adj, p, seed, visited0, visited, component, stack[..|stack| - 1], paths, via[..|via| - 1])
  {
    StackPop(adj, p, via, stack, component, seed);
    SplitLast(stack);
  }

  /** Visiting the popped element and pushing its accepted neighbours keeps
      the search's state. */
  lemma VisitSearching(adj: seq<seq<nat>>, p: (nat, nat) -> bool, seed: nat, visited0: set<nat>, visited: set<nat>, component: set<nat>,
                       stack: seq<nat>, paths: map<nat, seq<nat>>, via: seq<seq<nat>>, el: nat, stack': seq<nat>, via': seq<seq<nat>>)
    requires |stack| > 0 && Searching(adj, p, seed, visited0, visited, component, stack, paths, via)
    requires el == stack[|stack| - 1] && el !in visited && el < |adj|
    requires forall k :: 0 <= k < |stack'| ==> stack'[k] < |adj|
    requires |stack'| >= |stack| - 1 && stack'[..|stack| - 1] == stack[..|stack| - 1]
    requires forall j :: 0 <= j < |adj[el]| && p(el, adj[el][j]) ==> adj[el][j] in stack'
    requires StackReached(adj, p, via', stack', component + {el}, seed)
    ensures Searching(adj, p, seed, visited0, visited + {el}, component + {el}, stack', paths[el := via[|via| - 1]], via')
  {
    var rest := stack[..|stack| - 1];
    StackPop(adj, p, via, stack, component, seed);
    Visit(adj, p, paths, via[..|via| - 1], rest, component, seed, el, via[|via| - 1]);
    SplitLast(stack);
    PrefixMembers(rest, stack');
  }

  /** The for loop over the neighbours of a newly visited element: pushes
      those that p accepts, in the order of the table, each with the walk
      that reaches it. */
  method PushAccepted(adj: seq<seq<nat>>, p: (nat, nat) -> bool, el: nat, stack0: seq<nat>, ghost via0: seq<seq<nat>>,
                      ghost w: seq<nat>, ghost c: set<nat>, seed: nat)
    returns (stack: seq<nat>, ghost via: seq<seq<nat>>)
    requires el < |adj|
    requires forall i, j :: 0 <= i < |adj| && 0 <= j < |adj[i]| ==> adj[i][j] < |adj|
    requires forall k :: 0 <= k < |stack0| ==> stack0[k] < |adj|
    requires StackReached(adj, p, via0, stack0, c, seed)
    requires Walk(adj, p, w) && w[0] == seed && w[|w| - 1] == el && forall i :: 0 <= i < |w| ==> w[i] in c
    ensures forall k :: 0 <= k < |stack| ==> stack[k] < |adj|
    ensures |stack| >= |stack0| && stack[..|stack0|] == stack0
    ensures forall j :: 0 <= j < |adj[el]| && p(el, adj[el][j]) ==> adj[el][j] in stack
    ensures forall y :: y in stack[|stack0|..] ==> y in adj[el] && p(el, y)
    ensures StackReached(adj, p, via, stack, c, seed)
  {
    stack, via := stack0, via0;
    var row := adj[el];
    var j := 0;
    while j < |row|
      invariant 0 <= j <= |row|
      invariant forall k :: 0 <= k < |stack| ==> stack[k] < |adj|
      invariant |stack| >= |stack0| && stack[..|stack0|] == stack0
      invariant forall jj :: 0 <= jj < j && p(el, row[jj]) ==> row[jj] in stack
      invariant forall y :: y in stack[|stack0|..] ==> y in row && p(el, y)
      invariant StackReached(adj, p, via, stack, c, seed)
    {
      if p(el, row[j]) {
        PushReaching(adj, p, via, stack, w, c, seed, row[j]);
        stack := stack + [row[j]];
        via := via + [w + [row[j]]];
      }
      j := j + 1;
    }
  }

  /** w is a walk from seed to y whose elements before y are in c. */
  predicate Reaching(adj: seq<seq<nat>>, p: (nat, nat) -> bool, w: seq<nat>, c: set<nat>, seed: nat, y: nat)
  {
    Walk(adj, p, w) && w[0] == seed && w[|w| - 1] == y && forall i :: 0 <= i < |w| - 1 ==> w[i] in c
  }

  /** Every stack entry is reached from the seed through c. */
  predicate StackReached(adj: seq<seq<nat>>, p: (nat, nat) -> bool, via: seq<seq<nat>>, stack: seq<nat>, c: set<nat>, seed: nat)
  {
    |via| == |stack| && forall k :: 0 <= k < |via| ==> Reaching(adj, p, via[k], c, seed, stack[k])
  }

  /** paths holds, for every member of c, a walk from the seed inside c. */
  predicate PathsTo(adj: seq<seq<nat>>, p: (nat, nat) -> bool, paths: map<nat, seq<nat>>, c: set<nat>, seed: nat)
  {
    paths.Keys == c && forall x :: x in c ==> WalkIn(adj, p, paths[x], c) && paths[x][0] == seed && paths[x][|paths[x]| - 1] == x
  }

  lemma PrefixMembers(a: seq<nat>, b: seq<nat>)
    requires |b| >= |a| && b[..|a|] == a
    ensures forall y :: y in a ==> y in b
  {
    forall y | y in a ensures y in b {
      var k :| 0 <= k < |a| && a[k] == y;
      assert b[k] == y;
    }
  }

  lemma SplitLast(s: seq<nat>)
    requires |s| > 0
    ensures s == s[..|s| - 1] + [s[|s| - 1]]
  {
  }

  /** Popping the stack keeps the walks of the other entries, and gives one
      for the popped entry. */
  lemma StackPop(adj: seq<seq<nat>>, p: (nat, nat) -> bool, via: seq<seq<nat>>, stack: seq<nat>, c: set<nat>, seed: nat)
    requires StackReached(adj, p, via, stack, c, seed) && |stack| > 0
    ensures StackReached(adj, p, via[..|via| - 1], stack[..|stack| - 1], c, seed)
    ensures Reaching(adj, p, via[|via| - 1], c, seed, stack[|stack| - 1])
  {
  }

  /** Visiting el, reached by w, extends the walks to the component. */
  lemma Visit(adj: seq<seq<nat>>, p: (nat, nat) -> bool, paths: map<nat, seq<nat>>, via: seq<seq<nat>>, stack: seq<nat>,
              c: set<nat>, seed: nat, el: nat, w: seq<nat>)
    requires PathsTo(adj, p, paths, c, seed) && StackReached(adj, p, via, stack, c, seed)
    requires Reaching(adj, p, w, c, seed, el)
    ensures PathsTo(adj, p, paths[el := w], c + {el}, seed)
    ensures StackReached(adj, p, via, stack, c + {el}, seed)
    ensures Walk(adj, p, w) && w[0] == seed && w[|w| - 1] == el && forall i :: 0 <= i < |w| ==> w[i] in c + {el}
  {
    var c', paths' := c + {el}, paths[el := w];
    forall x | x in c' ensures WalkIn(adj, p, paths'[x], c') && paths'[x][0] == seed && paths'[x][|paths'[x]| - 1] == x {
      if x != el {
        assert paths'[x] == paths[x];
      }
    }
  }

  /** A walk to a visited element, followed by an accepted edge out of it,
      reaches the edge's end; pushing it keeps every stack entry reached. */
  lemma PushReaching(adj: seq<seq<nat>>, p: (nat, nat) -> bool, via: seq<seq<nat>>, stack: seq<nat>, w: seq<nat>, c: set<nat>, seed: nat, y: nat)
    requires StackReached(adj, p, via, stack, c, seed)
    requires Walk(adj, p, w) && w[0] == seed && forall i :: 0 <= i < |w| ==> w[i] in c
    requires Step(adj, p, w[|w| - 1], y)
    ensures StackReached(adj, p, via + [w + [y]], stack + [y], c, seed)
  {
    WalkSnoc(adj, p, w, y);
    var via', stack' := via + [w + [y]], stack + [y];
    forall k | 0 <= k < |via'| ensures Reaching(adj, p, via'[k], c, seed, stack'[k]) {
      if k < |via| {
        assert via'[k] == via[k] && stack'[k] == stack[k];
      }
    }
  }

  /** The walks held for every member make the component spanned. */
  lemma PathsSpan(adj: seq<seq<nat>>, p: (nat, nat) -> bool, paths: map<nat, seq<nat>>, c: set<nat>, seed: nat)
    requires PathsTo(adj, p, paths, c, seed)
    ensures Spanned(adj, p, c, seed)
  {
    forall x | x in c ensures exists w :: WalkIn(adj, p, w, c) && w[0] == seed && w[|w| - 1] == x {
      assert WalkIn(adj, p, paths[x], c);
    }
  }

  lemma UnionAppend(before: seq<set<nat>>, c: set<nat>)
    ensures Union(before + [c]) == Union(before) + c
  {
    assert (before + [c])[..|before|] == before;
  }

  /** Appending a component disjoint from the earlier ones keeps the
      components pairwise disjoint. */
  lemma DisjointAppend(before: seq<set<nat>>, c: set<nat>)
    requires PairwiseDisjoint(before) && c !! Union(before)
    ensures PairwiseDisjoint(before + [c])
  {
    var res := before + [c];
    forall a, b | 0 <= a < b < |res| ensures res[a] !! res[b] {
      if b == |before| {
        forall x | x in res[a] ensures x !in c {
          UnionMember(before, a, x);
        }
      }
    }
  }

  /** Appending a component whose accepted edges stay inside the visited
      elements keeps every component closed. */
  lemma ClosedAppend(adj: seq<seq<nat>>, p: (nat, nat) -> bool, before: seq<set<nat>>, c: set<nat>)
    requires forall k :: 0 <= k < |before| ==> Closed(adj, p, before, k)
    requires forall x, j :: x in c && x < |adj| && 0 <= j < |adj[x]| && p(x, adj[x][j]) ==> adj[x][j] in Union(before) + c
    ensures forall k :: 0 <= k < |before| + 1 ==> Closed(adj, p, before + [c], k)
  {
    forall k | 0 <= k < |before| + 1 ensures Closed(adj, p, before + [c], k) {
      if k < |before| {
        ClosedKept(adj, p, before, c, k);
      } else {
        ClosedLast(adj, p, before, c);
      }
    }
  }

  lemma ClosedLast(adj: seq<seq<nat>>, p: (nat, nat) -> bool, before: seq<set<nat>>, c: set<nat>)
    requires forall x, j :: x in c && x < |adj| && 0 <= j < |adj[x]| && p(x, adj[x][j]) ==> adj[x][j] in Union(before) + c
    ensures Closed(adj, p, before + [c], |before|)
  {
    var res := before + [c];
    assert res[..|before| + 1] == res;
    assert res[|before|] == c;
    UnionAppend(before, c);
  }

  lemma ClosedKept(adj: seq<seq<nat>>, p: (nat, nat) -> bool, before: seq<set<nat>>, c: set<nat>, k: nat)
    requires k < |before| && Closed(adj, p, before, k)
    ensures Closed(adj, p, before + [c], k)
  {
    var res := before + [c];
    assert res[..k + 1] == before[..k + 1];
    assert res[k] == before[k];
  }

  /** ccl(p): labels the elements by components. Each index not yet
      visited, in ascending order, seeds a new component, which is searched
      depth first along the table edges p accepts. The components partition
      the elements, are closed under the accepted edges, and come out in
      ascending order of their seeds, each seed being its component's least
      element. */
  method Ccl(m: Mesh, p: (nat, nat) -> bool) returns (res: seq<set<nat>>, ghost seeds: seq<nat>)
    requires m.Finalized()
    ensures PairwiseDisjoint(res)
    ensures forall x: nat :: x < |m.elements| <==> x in Union(res)
    ensures |seeds| == |res| && StrictlyIncreasing(seeds)
    ensures forall k :: 0 <= k < |res| ==> seeds[k] in res[k] && forall x :: x in res[k] ==> seeds[k] <= x
    ensures forall k :: 0 <= k < |res| ==> Closed(m.adjacency, p, res, k)
    ensures forall k :: 0 <= k < |res| ==> Spanned(m.adjacency, p, res[k], seeds[k])
  {
    var adj := m.adjacency;
    var visited: set<nat> := {};
    res, seeds := [], [];
    var i := 0;
    while i < |m.elements|
      invariant 0 <= i <= |adj|
      invariant visited == Union(res)
      invariant forall x :: x in visited ==> x < |adj|
      invariant forall x: nat :: x < i ==> x in visited
      invariant PairwiseDisjoint(res)
      invariant Labelled(adj, p, res, seeds, i)
      invariant forall k :: 0 <= k < |res| ==> Closed(adj, p, res, k)
    {
      if i !in visited {
        var component;
        visited, component := Explore(adj, p, i, visited);
        UnionAppend(res, component);
        DisjointAppend(res, component);
        ClosedAppend(adj, p, res, component);
        LabelledAppend(adj, p, res, seeds, i, component);
        res := res + [component];
        seeds := seeds + [i];
      }
      i := i + 1;
    }
  }

  /** The seeds found before index i: ascending and below i, each the
      least member of its component, from which every member is reached. */
  ghost predicate Labelled(adj: seq<seq<nat>>, p: (nat, nat) -> bool, res: seq<set<nat>>, seeds: seq<nat>, i: nat)
  {
    |seeds| == |res| && StrictlyIncreasing(seeds)
    && (forall k :: 0 <= k < |seeds| ==> seeds[k] < i)
    && (forall k :: 0 <= k < |res| ==> seeds[k] in res[k] && forall x :: x in res[k] ==> seeds[k] <= x)
    && (forall k :: 0 <= k < |res| ==> Spanned(adj, p, res[k], seeds[k]))
  }

  /** A component seeded at i, whose members are all at least i, extends
      the labelling. */
  lemma LabelledAppend(adj: seq<seq<nat>>, p: (nat, nat) -> bool, res: seq<set<nat>>, seeds: seq<nat>, i: nat, c: set<nat>)
    requires Labelled(adj, p, res, seeds, i)
    requires i in c && (forall x :: x in c ==> i <= x) && Spanned(adj, p, c, i)
    ensures Labelled(adj, p, res + [c], seeds + [i], i + 1)
  {
    var res', seeds' := res + [c], seeds + [i];
    forall k | 0 <= k < |res'| ensures Spanned(adj, p, res'[k], seeds'[k]) {
      if k < |res| {
        assert res'[k] == res[k] && seeds'[k] == seeds[k];
      }
    }
  }

  // ----- keep and trim -----

  /** Some element adjacent to face f has an attribute in attrs. */
  predicate Touches(elements: seq<Polytope>, f: Face, attrs: set<int>)
  {
    exists e :: e in FaceElements(f) && 0 <= e < |elements| && elements[e].attribute in attrs
  }

  /** The inner loop of keep over the elements beside one face: stops at
      the first whose attribute is in attrs. */
  method FindTouching(elements: seq<Polytope>, f: Face, attrs: set<int>) returns (found: bool)
    requires forall e :: e in FaceElements(f) ==> e < |elements|
    ensures found <==> Touches(elements, f, attrs)
  {
    var elems := FaceElementList(f);
    var k := 0;
    while k < |elems|
      invariant 0 <= k <= |elems|
      invariant forall a :: 0 <= a < k ==> elements[elems[a]].attribute !in attrs
    {
      if elements[elems[k]].attribute in attrs {
        return true;
      }
      k := k + 1;
    }
    return false;
  }

  /** The selection made by keep(attrs): the elements whose attribute is in
      attrs, then each boundary element once, as soon as one of the elements
      beside its face has such an attribute. */
  method KeepSelection(m: Mesh, attrs: set<int>) returns (els: seq<nat>, bes: seq<nat>)
    requires m.Finalized()
    ensures StrictlyIncreasing(els)
    ensures forall i: nat :: i in els <==> i < |m.elements| && m.elements[i].attribute in attrs
    ensures StrictlyIncreasing(bes)
    ensures forall i: nat :: i in bes <==> i < |m.boundary| && Touches(m.elements, m.faces[m.bdrFace[i]], attrs)
  {
    els := m.KeepIndices(attrs);
    bes := [];
    var i := 0;
    while i < |m.boundary|
      invariant 0 <= i <= |m.boundary|
      invariant StrictlyIncreasing(bes) && forall k :: 0 <= k < |bes| ==> bes[k] < i
      invariant forall j: nat :: j in bes <==> j < i && Touches(m.elements, m.faces[m.bdrFace[j]], attrs)
    {
      var found := FindTouching(m.elements, m.faces[m.bdrFace[i]], attrs);
      if found {
        bes := bes + [i];
      }
      i := i + 1;
    }
  }

  /** The selection made by trim(attrs): keep with the complement of attrs
      in the mesh's attributes, that is, every element whose attribute is not
      in attrs. */
  method TrimSelection(m: Mesh, attrs: set<int>) returns (els: seq<nat>, bes: seq<nat>)
    requires m.Finalized()
    ensures StrictlyIncreasing(els)
    ensures forall i: nat :: i in els <==> i < |m.elements| && m.elements[i].attribute !in attrs
    ensures StrictlyIncreasing(bes)
    ensures forall i: nat :: i in bes <==> i < |m.boundary| && Touches(m.elements, m.faces[m.bdrFace[i]], m.Attributes() - attrs)
  {
    var complement := m.Attributes() - attrs;
    els, bes := KeepSelection(m, complement);
    forall i: nat | i < |m.elements| ensures m.elements[i].attribute in m.Attributes() {
    }
  }

  // ----- trace -----

  /** The attribute pair of a face between two elements. */
  function TraceKey(elements: seq<Polytope>, f: Face): (k: set<int>)
    requires |FaceElements(f)| == 2 && forall e :: e in FaceElements(f) ==> e < |elements|
    ensures forall a :: a in k <==> exists e :: e in FaceElements(f) && 0 <= e < |elements| && elements[e].attribute == a
  {
    var l := FaceElementList(f);
    assert l[0] in FaceElements(f) && l[1] in FaceElements(f);
    {elements[l[0]].attribute, elements[l[1]].attribute}
  }

  /** A face is traced when it lies between two elements whose attribute
      pair is a key of the map. */
  predicate IsTraced(elements: seq<Polytope>, f: Face, boundaries: map<set<int>, int>)
    requires forall e :: e in FaceElements(f) ==> e < |elements|
  {
    |FaceElements(f)| == 2 && TraceKey(elements, f) in boundaries
  }

  /** The traced faces among faces 0 .. upto - 1, in ascending order. */
  function TracedFaces(faces: seq<Face>, elements: seq<Polytope>, boundaries: map<set<int>, int>, upto: nat): (r: seq<nat>)
    requires upto <= |faces|
    requires forall f :: 0 <= f < |faces| ==> faces[f].elem1 < |elements| && faces[f].elem2 < |elements|
    ensures StrictlyIncreasing(r) && forall k :: 0 <= k < |r| ==> r[k] < upto
    ensures forall x: nat :: x in r <==> x < upto && IsTraced(elements, faces[x], boundaries)
  {
    if upto == 0 then []
    else
      var y: nat := upto - 1;
      var rest := TracedFaces(faces, elements, boundaries, y);
      var traced := IsTraced(elements, faces[y], boundaries);
      var r := if traced then rest + [y] else rest;
      IncreasingSnoc(rest, y, traced, r);
      r
  }

  /** Appending an index above every member, or nothing, keeps a list
      ascending and adds exactly that index. */
  lemma IncreasingSnoc(rest: seq<nat>, y: nat, add: bool, r: seq<nat>)
    requires StrictlyIncreasing(rest) && forall k :: 0 <= k < |rest| ==> rest[k] < y
    requires r == if add then rest + [y] else rest
    ensures StrictlyIncreasing(r) && forall k :: 0 <= k < |r| ==> r[k] < y + 1
    ensures forall x :: x in r <==> x in rest || (add && x == y)
  {
  }

  /** The boundary element trace adds for a traced face: the face's
      geometry and vertices, with the attribute the map gives its pair. */
  function TracedElement(elements: seq<Polytope>, f: Face, boundaries: map<set<int>, int>): (b: Polytope)
    requires forall e :: e in FaceElements(f) ==> e < |elements|
    requires IsTraced(elements, f, boundaries)
    ensures b.geometry == f.geometry && b.vertices == f.vertices
    ensures b.attribute == boundaries[TraceKey(elements, f)]
  {
    Polytope(f.geometry, f.vertices, boundaries[TraceKey(elements, f)])
  }

  /** The boundary elements added for the traced faces below upto. */
  predicate TraceAppended(b0: seq<Polytope>, b: seq<Polytope>, faces: seq<Face>, elements: seq<Polytope>,
                          boundaries: map<set<int>, int>, upto: nat)
    requires upto <= |faces|
    requires forall f :: 0 <= f < |faces| ==> faces[f].elem1 < |elements| && faces[f].elem2 < |elements|
  {
    var traced := TracedFaces(faces, elements, boundaries, upto);
    |b| == |b0| + |traced| && b[..|b0|] == b0 &&
    forall k :: 0 <= k < |traced| ==> b[|b0| + k] == TracedElement(elements, faces[traced[k]], boundaries)
  }

  /** One more face: its boundary element, if any, is appended. */
  lemma TraceStep(b0: seq<Polytope>, b: seq<Polytope>, faces: seq<Face>, elements: seq<Polytope>,
                  boundaries: map<set<int>, int>, i: nat)
    requires i < |faces|
    requires forall f :: 0 <= f < |faces| ==> faces[f].elem1 < |elements| && faces[f].elem2 < |elements|
    requires TraceAppended(b0, b, faces, elements, boundaries, i)
    ensures IsTraced(elements, faces[i], boundaries) ==>
      TraceAppended(b0, b + [TracedElement(elements, faces[i], boundaries)], faces, elements, boundaries, i + 1)
    ensures !IsTraced(elements, faces[i], boundaries) ==> TraceAppended(b0, b, faces, elements, boundaries, i + 1)
  {
    var traced := TracedFaces(faces, elements, boundaries, i);
    if IsTraced(elements, faces[i], boundaries) {
      var b' := b + [TracedElement(elements, faces[i], boundaries)];
      var t' := TracedFaces(faces, elements, boundaries, i + 1);
      assert t' == traced + [i];
      assert b'[..|b0|] == b[..|b0|];
      forall k | 0 <= k < |t'| ensures b'[|b0| + k] == TracedElement(elements, faces[t'[k]], boundaries) {
        if k < |traced| {
          assert t'[k] == traced[k];
        }
      }
    }
  }

  /** trace(boundaries): adds, in face order, one boundary element for each
      face between two elements whose attribute pair is a key. */
  method Trace(m: Mesh, boundaries: map<set<int>, int>)
    requires m.Valid()
    modifies m`boundary
    ensures m.Valid()
    ensures TraceAppended(old(m.boundary), m.boundary, m.faces, m.elements, boundaries, |m.faces|)
  {
    var i := 0;
    while i < |m.faces|
      invariant m.Valid() && 0 <= i <= |m.faces|
      invariant TraceAppended(old(m.boundary), m.boundary, m.faces, m.elements, boundaries, i)
    {
      TraceNext(m, boundaries, i, old(m.boundary));
      i := i + 1;
    }
  }

  /** One face of trace: a boundary element is added when the face lies
      between two elements whose attribute pair is a key. */
  method TraceNext(m: Mesh, boundaries: map<set<int>, int>, i: nat, ghost b0: seq<Polytope>)
    requires m.Valid() && i < |m.faces|
    requires TraceAppended(b0, m.boundary, m.faces, m.elements, boundaries, i)
    modifies m`boundary
    ensures m.Valid()
    ensures TraceAppended(b0, m.boundary, m.faces, m.elements, boundaries, i + 1)
  {
    TraceStep(b0, m.boundary, m.faces, m.elements, boundaries, i);
    var fc := m.faces[i];
    var elems := FaceElementList(fc);
    FaceElementsPair(fc);
    if |elems| == 2 {
      var k := {m.elements[elems[0]].attribute, m.elements[elems[1]].attribute};
      assert k == TraceKey(m.elements, fc);
      if k in boundaries {
        assert fc.vertices[..VertexCount(fc.geometry)] == fc.vertices;
        m.AddFace(fc.geometry, fc.vertices, boundaries[k]);
      }
    }
  }
}

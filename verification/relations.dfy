/**
 * associate_parent_tasks_with_sub_tasks (src/task_list.cpp:943-1008): the
 * four passes that turn parentIds / superTaskIds into the top-level list
 * and one slab of sub-task lists carved into per-parent ranges. Tasks are
 * indices into the task store; the id map is id_to_sorted_folder_task.
 */
module Relations {

  // ---------------------------------------------------------------------------
  // Specification
  // ---------------------------------------------------------------------------

  /** How often `x` occurs in `s`. */
  function Occurrences<T(==)>(s: seq<T>, x: T): (k: nat)
    ensures k <= |s|
  {
    if s == [] then 0
    else Occurrences(s[..|s| - 1], x) + (if s[|s| - 1] == x then 1 else 0)
  }

  function Repeat(x: nat, k: nat): (r: seq<nat>)
    ensures |r| == k && forall j :: 0 <= j < k ==> r[j] == x
  {
    if k == 0 then [] else Repeat(x, k - 1) + [x]
  }

  lemma {:induction false} OccurrencesAppend(a: seq<nat>, b: seq<nat>, x: nat)
    ensures Occurrences(a + b, x) == Occurrences(a, x) + Occurrences(b, x)
    decreases |b|
  {
    if b == [] {
      assert a + b == a;
    } else {
      assert (a + b)[..|a + b| - 1] == a + b[..|b| - 1];
      OccurrencesAppend(a, b[..|b| - 1], x);
    }
  }

  /** The top-level list after the first pass over tasks[..n]. */
  function TopLevel(folderIds: seq<seq<int>>, folder: int, n: nat): seq<nat>
    requires n <= |folderIds|
  {
    if n == 0 then []
    else TopLevel(folderIds, folder, n - 1) + Repeat(n - 1, Occurrences(folderIds[n - 1], folder))
  }

  /** A resolved superTaskIds entry: `child` is a sub-task of `parent`. */
  datatype Edge = Edge(child: nat, parent: nat)

  /** The edge one superTaskIds entry contributes: none when the id is not in the index. */
  function EdgeFor(index: map<int, nat>, child: nat, id: int): seq<Edge>
  {
    if id in index then [Edge(child, index[id])] else []
  }

  /** The resolved entries of one task's superTaskIds, in order; ids missing from the index are dropped. */
  function EdgesOf(index: map<int, nat>, child: nat, ids: seq<int>): seq<Edge>
  {
    if ids == [] then []
    else EdgesOf(index, child, ids[..|ids| - 1]) + EdgeFor(index, child, ids[|ids| - 1])
  }

  /** All resolved entries of tasks[..n], in task-store order. */
  function Edges(superIds: seq<seq<int>>, index: map<int, nat>, n: nat): seq<Edge>
    requires n <= |superIds|
  {
    if n == 0 then []
    else Edges(superIds, index, n - 1) + EdgesOf(index, n - 1, superIds[n - 1])
  }

  /** The children of `parent` in an edge list, in order. */
  function ChildrenIn(edges: seq<Edge>, parent: nat): seq<nat>
  {
    if edges == [] then []
    else
      var e := edges[|edges| - 1];
      ChildrenIn(edges[..|edges| - 1], parent) + (if e.parent == parent then [e.child] else [])
  }

  /** The sub-task list the builder gives `parent`. */
  function SubTasks(superIds: seq<seq<int>>, index: map<int, nat>, parent: nat): seq<nat>
  {
    ChildrenIn(Edges(superIds, index, |superIds|), parent)
  }

  function Sum(s: seq<nat>): nat
  {
    if s == [] then 0 else Sum(s[..|s| - 1]) + s[|s| - 1]
  }

  /** Every index value is a valid task index. */
  predicate IndexInRange(index: map<int, nat>, n: nat)
  {
    forall id :: id in index ==> index[id] < n
  }

  // ---------------------------------------------------------------------------
  // Lemmas about the specification
  // ---------------------------------------------------------------------------

  lemma {:induction false} SumIncrement(s: seq<nat>, p: nat)
    requires p < |s|
    ensures Sum(s[p := s[p] + 1]) == Sum(s) + 1
    decreases |s|
  {
    var s' := s[p := s[p] + 1];
    if p < |s| - 1 {
      assert s'[..|s| - 1] == s[..|s| - 1][p := s[p] + 1];
      SumIncrement(s[..|s| - 1], p);
    } else {
      assert s'[..|s| - 1] == s[..|s| - 1];
    }
  }

  lemma {:induction false} SumPrefixMonotone(s: seq<nat>, i: nat, j: nat)
    requires i <= j <= |s|
    ensures Sum(s[..i]) <= Sum(s[..j])
    decreases j
  {
    if i < j {
      assert s[..j][..j - 1] == s[..j - 1];
      SumPrefixMonotone(s, i, j - 1);
    }
  }

  lemma SumStep(s: seq<nat>, p: nat)
    requires p < |s|
    ensures Sum(s[..p + 1]) == Sum(s[..p]) + s[p]
  {
    assert s[..p + 1][..p] == s[..p];
  }

  /** Consecutive ranges: a range ends no later than any later range begins. */
  lemma RangesDisjoint(s: seq<nat>, p: nat, q: nat)
    requires p < q < |s|
    ensures Sum(s[..p]) + s[p] <= Sum(s[..q])
  {
    SumStep(s, p);
    SumPrefixMonotone(s, p + 1, q);
  }

  lemma {:induction false} RepeatCount(x: nat, k: nat, y: nat)
    ensures Occurrences(Repeat(x, k), y) == if x == y then k else 0
  {
    if k > 0 {
      RepeatCount(x, k - 1, y);
      assert Repeat(x, k)[..k - 1] == Repeat(x, k - 1);
    }
  }

  /**
   * The top-level list holds task i exactly once per occurrence of the
   * folder id in its parentIds, with no deduplication.
   */
  lemma {:induction false} TopLevelMultiplicity(folderIds: seq<seq<int>>, folder: int, n: nat, i: nat)
    requires n <= |folderIds|
    ensures Occurrences(TopLevel(folderIds, folder, n), i) == if i < n then Occurrences(folderIds[i], folder) else 0
  {
    if n > 0 {
      var k := Occurrences(folderIds[n - 1], folder);
      TopLevelMultiplicity(folderIds, folder, n - 1, i);
      OccurrencesAppendRepeat(TopLevel(folderIds, folder, n - 1), n - 1, k, i);
    }
  }

  lemma OccurrencesAppendRepeat(front: seq<nat>, x: nat, k: nat, c: nat)
    ensures Occurrences(front + Repeat(x, k), c) == Occurrences(front, c) + if c == x then k else 0
  {
    OccurrencesAppend(front, Repeat(x, k), c);
    RepeatCount(x, k, c);
  }


  /** Task indices below n, in non-decreasing order. */
  ghost predicate StoreOrdered(s: seq<nat>, n: nat)
  {
    && (forall a :: 0 <= a < |s| ==> s[a] < n)
    && (forall a, b :: 0 <= a < b < |s| ==> s[a] <= s[b])
  }

  lemma StoreOrderedAppend(s: seq<nat>, n: nat, x: nat, k: nat)
    requires StoreOrdered(s, n) && n <= x
    ensures StoreOrdered(s + Repeat(x, k), x + 1)
  {
    var r := s + Repeat(x, k);
    forall a, b | 0 <= a < b < |r| ensures r[a] <= r[b] {
      if b >= |s| {
        assert r[b] == x;
        if a < |s| {
          assert r[a] == s[a];
        }
      } else {
        assert r[a] == s[a] && r[b] == s[b];
      }
    }
    forall a | 0 <= a < |r| ensures r[a] < x + 1 {
      if a < |s| {
        assert r[a] == s[a];
      }
    }
  }

  /** ... and in task-store order. */
  lemma {:induction false} TopLevelInStoreOrder(folderIds: seq<seq<int>>, folder: int, n: nat)
    requires n <= |folderIds|
    ensures StoreOrdered(TopLevel(folderIds, folder, n), n)
  {
    if n > 0 {
      TopLevelInStoreOrder(folderIds, folder, n - 1);
      StoreOrderedAppend(TopLevel(folderIds, folder, n - 1), n - 1, n - 1, Occurrences(folderIds[n - 1], folder));
    }
  }

  lemma {:induction false} ChildrenInAppend(a: seq<Edge>, b: seq<Edge>, parent: nat)
    ensures ChildrenIn(a + b, parent) == ChildrenIn(a, parent) + ChildrenIn(b, parent)
    decreases |b|
  {
    if b == [] {
      assert a + b == a;
    } else {
      assert (a + b)[..|a + b| - 1] == a + b[..|b| - 1];
      ChildrenInAppend(a, b[..|b| - 1], parent);
    }
  }

  ghost predicate IsPrefix<T>(a: seq<T>, b: seq<T>)
  {
    |a| <= |b| && b[..|a|] == a
  }

  lemma {:induction false} ChildrenInPrefix(a: seq<Edge>, b: seq<Edge>, parent: nat)
    requires IsPrefix(a, b)
    ensures IsPrefix(ChildrenIn(a, parent), ChildrenIn(b, parent))
  {
    assert b == a + b[|a|..];
    ChildrenInAppend(a, b[|a|..], parent);
  }

  lemma {:induction false} EdgesOfPrefix(index: map<int, nat>, child: nat, ids: seq<int>, k: nat)
    requires k <= |ids|
    ensures IsPrefix(EdgesOf(index, child, ids[..k]), EdgesOf(index, child, ids))
    decreases |ids| - k
  {
    if k < |ids| {
      EdgesOfPrefix(index, child, ids, k + 1);
      assert ids[..k + 1][..k] == ids[..k];
    } else {
      assert ids[..k] == ids;
    }
  }

  lemma {:induction false} EdgesPrefix(superIds: seq<seq<int>>, index: map<int, nat>, i: nat, n: nat)
    requires i <= n <= |superIds|
    ensures IsPrefix(Edges(superIds, index, i), Edges(superIds, index, n))
    decreases n - i
  {
    if i < n {
      EdgesPrefix(superIds, index, i + 1, n);
    }
  }

  /** The edges seen after k ids of task i form a prefix of all edges. */
  lemma EdgesSoFarPrefix(superIds: seq<seq<int>>, index: map<int, nat>, i: nat, k: nat)
    requires i < |superIds| && k <= |superIds[i]|
    ensures IsPrefix(Edges(superIds, index, i) + EdgesOf(index, i, superIds[i][..k]), Edges(superIds, index, |superIds|))
  {
    EdgesOfPrefix(index, i, superIds[i], k);
    EdgesPrefix(superIds, index, i + 1, |superIds|);
  }

  /** How many of `ids` the index maps to `parent`. */
  function ResolvesTo(index: map<int, nat>, ids: seq<int>, parent: nat): nat
  {
    if ids == [] then 0
    else ResolvesTo(index, ids[..|ids| - 1], parent) + (if ids[|ids| - 1] in index && index[ids[|ids| - 1]] == parent then 1 else 0)
  }

  /** One task's resolved entries under `parent`: that task, once per entry resolving to it. */
  lemma {:induction false} EdgesOfChildrenRepeat(index: map<int, nat>, child: nat, ids: seq<int>, parent: nat)
    ensures ChildrenIn(EdgesOf(index, child, ids), parent) == Repeat(child, ResolvesTo(index, ids, parent))
    decreases |ids|
  {
    if ids != [] {
      var front, last := ids[..|ids| - 1], ids[|ids| - 1];
      EdgesOfChildrenRepeat(index, child, front, parent);
      ChildrenInAppend(EdgesOf(index, child, front), EdgeFor(index, child, last), parent);
      if last in index {
        var e := Edge(child, index[last]);
        assert [e][..0] == [];
      }
    }
  }

  /** Task n - 1 adds itself under `parent` once per entry of its superTaskIds resolving to it. */
  lemma SubTasksStep(superIds: seq<seq<int>>, index: map<int, nat>, n: nat, parent: nat)
    requires 0 < n <= |superIds|
    ensures ChildrenIn(Edges(superIds, index, n), parent)
      == ChildrenIn(Edges(superIds, index, n - 1), parent) + Repeat(n - 1, ResolvesTo(index, superIds[n - 1], parent))
  {
    var ids := superIds[n - 1];
    ChildrenInAppend(Edges(superIds, index, n - 1), EdgesOf(index, n - 1, ids), parent);
    EdgesOfChildrenRepeat(index, n - 1, ids, parent);
  }

  /**
   * A task c is a sub-task of p once per entry of its superTaskIds that
   * resolves to p; dangling ids add nothing.
   */
  lemma {:induction false} SubTaskMultiplicity(superIds: seq<seq<int>>, index: map<int, nat>, n: nat, parent: nat, c: nat)
    requires n <= |superIds|
    ensures Occurrences(ChildrenIn(Edges(superIds, index, n), parent), c)
      == if c < n then ResolvesTo(index, superIds[c], parent) else 0
  {
    if n > 0 {
      SubTaskMultiplicity(superIds, index, n - 1, parent, c);
      MultiplicityStep(superIds, index, n, parent, c);
      var before := Occurrences(ChildrenIn(Edges(superIds, index, n - 1), parent), c);
      assert before == if c < n - 1 then ResolvesTo(index, superIds[c], parent) else 0;
    }
  }

  lemma MultiplicityStep(superIds: seq<seq<int>>, index: map<int, nat>, n: nat, parent: nat, c: nat)
    requires 0 < n <= |superIds|
    ensures Occurrences(ChildrenIn(Edges(superIds, index, n), parent), c)
      == Occurrences(ChildrenIn(Edges(superIds, index, n - 1), parent), c) + if c == n - 1 then ResolvesTo(index, superIds[n - 1], parent) else 0
  {
    SubTasksStep(superIds, index, n, parent);
    OccurrencesAppendRepeat(ChildrenIn(Edges(superIds, index, n - 1), parent), n - 1, ResolvesTo(index, superIds[n - 1], parent), c);
  }

  /** Sub-tasks appear in task-store order. */
  lemma {:induction false} SubTasksInStoreOrder(superIds: seq<seq<int>>, index: map<int, nat>, n: nat, parent: nat)
    requires n <= |superIds|
    ensures StoreOrdered(ChildrenIn(Edges(superIds, index, n), parent), n)
  {
    if n > 0 {
      var ids := superIds[n - 1];
      var front := ChildrenIn(Edges(superIds, index, n - 1), parent);
      SubTasksInStoreOrder(superIds, index, n - 1, parent);
      SubTasksStep(superIds, index, n, parent);
      StoreOrderedAppend(front, n - 1, n - 1, ResolvesTo(index, ids, parent));
    }
  }

  lemma {:induction false} EdgesOfParentsInRange(index: map<int, nat>, child: nat, ids: seq<int>, n: nat)
    requires IndexInRange(index, n)
    ensures forall j :: 0 <= j < |EdgesOf(index, child, ids)| ==> EdgesOf(index, child, ids)[j].parent < n
    decreases |ids|
  {
    if ids != [] {
      EdgesOfParentsInRange(index, child, ids[..|ids| - 1], n);
    }
  }

  lemma EdgesOfStep(index: map<int, nat>, child: nat, ids: seq<int>, k: nat)
    requires k < |ids|
    ensures EdgesOf(index, child, ids[..k + 1]) == EdgesOf(index, child, ids[..k]) + EdgeFor(index, child, ids[k])
  {
    assert ids[..k + 1][..k] == ids[..k];
  }

  lemma EdgesOfWhole(index: map<int, nat>, child: nat, ids: seq<int>)
    ensures EdgesOf(index, child, ids[..0]) == []
    ensures EdgesOf(index, child, ids[..|ids|]) == EdgesOf(index, child, ids)
  {
    assert ids[..0] == [];
    assert ids[..|ids|] == ids;
  }

  lemma AppendAssoc<T>(a: seq<T>, b: seq<T>, c: seq<T>)
    ensures (a + b) + c == a + (b + c)
  {
  }

  lemma ChildrenInSnoc(edges: seq<Edge>, e: Edge, parent: nat)
    ensures ChildrenIn(edges + [e], parent) == ChildrenIn(edges, parent) + (if e.parent == parent then [e.child] else [])
  {
    assert (edges + [e])[..|edges|] == edges;
  }

  // ---------------------------------------------------------------------------
  // Acyclic superTaskIds: every sub-task ranks below its parent
  // ---------------------------------------------------------------------------

  /** A rank below the task count that every resolved superTaskIds entry strictly increases. */
  ghost predicate Acyclic(superIds: seq<seq<int>>, index: map<int, nat>, rank: seq<nat>)
  {
    && |rank| == |superIds|
    && (forall t :: 0 <= t < |rank| ==> rank[t] < |rank|)
    && (forall c, k :: 0 <= c < |superIds| && 0 <= k < |superIds[c]| && superIds[c][k] in index ==>
          index[superIds[c][k]] < |rank| && rank[c] < rank[index[superIds[c][k]]])
  }

  ghost predicate EdgesDescend(edges: seq<Edge>, rank: seq<nat>)
  {
    forall j :: 0 <= j < |edges| ==>
      edges[j].child < |rank| && edges[j].parent < |rank| && rank[edges[j].child] < rank[edges[j].parent]
  }

  lemma DescendAppend(a: seq<Edge>, b: seq<Edge>, rank: seq<nat>)
    requires EdgesDescend(a, rank) && EdgesDescend(b, rank)
    ensures EdgesDescend(a + b, rank)
  {
    forall j | 0 <= j < |a + b| ensures (a + b)[j] == if j < |a| then a[j] else b[j - |a|] {
    }
  }

  lemma {:induction false} EdgesOfDescend(superIds: seq<seq<int>>, index: map<int, nat>, rank: seq<nat>, child: nat, k: nat)
    requires Acyclic(superIds, index, rank) && child < |superIds| && k <= |superIds[child]|
    ensures EdgesDescend(EdgesOf(index, child, superIds[child][..k]), rank)
    decreases k
  {
    var ids := superIds[child][..k];
    if k > 0 {
      assert ids[..k - 1] == superIds[child][..k - 1];
      EdgesOfDescend(superIds, index, rank, child, k - 1);
      DescendAppend(EdgesOf(index, child, ids[..k - 1]), EdgeFor(index, child, ids[k - 1]), rank);
    }
  }

  lemma {:induction false} EdgesDescendAll(superIds: seq<seq<int>>, index: map<int, nat>, rank: seq<nat>, n: nat)
    requires Acyclic(superIds, index, rank) && n <= |superIds|
    ensures EdgesDescend(Edges(superIds, index, n), rank)
  {
    if n > 0 {
      EdgesDescendAll(superIds, index, rank, n - 1);
      EdgesOfDescend(superIds, index, rank, n - 1, |superIds[n - 1]|);
      assert superIds[n - 1][..|superIds[n - 1]|] == superIds[n - 1];
      DescendAppend(Edges(superIds, index, n - 1), EdgesOf(index, n - 1, superIds[n - 1]), rank);
    }
  }

  lemma {:induction false} ChildrenDescend(edges: seq<Edge>, rank: seq<nat>, parent: nat)
    requires EdgesDescend(edges, rank) && parent < |rank|
    ensures forall j :: 0 <= j < |ChildrenIn(edges, parent)| ==>
      ChildrenIn(edges, parent)[j] < |rank| && rank[ChildrenIn(edges, parent)[j]] < rank[parent]
    decreases |edges|
  {
    if edges != [] {
      ChildrenDescend(edges[..|edges| - 1], rank, parent);
    }
  }

  /** With acyclic superTaskIds every sub-task of a task ranks strictly below it. */
  lemma SubTasksDescend(superIds: seq<seq<int>>, index: map<int, nat>, rank: seq<nat>, parent: nat)
    requires Acyclic(superIds, index, rank) && parent < |superIds|
    ensures forall j :: 0 <= j < |SubTasks(superIds, index, parent)| ==>
      SubTasks(superIds, index, parent)[j] < |superIds| && rank[SubTasks(superIds, index, parent)[j]] < rank[parent]
  {
    EdgesDescendAll(superIds, index, rank, |superIds|);
    ChildrenDescend(Edges(superIds, index, |superIds|), rank, parent);
  }

  // ---------------------------------------------------------------------------
  // The four passes
  // ---------------------------------------------------------------------------

  /** Step 0: every task once per occurrence of the folder id among its parentIds. */
  method CollectTopLevel(folderIds: seq<seq<int>>, folder: int) returns (top: seq<nat>)
    ensures top == TopLevel(folderIds, folder, |folderIds|)
  {
    top := [];
    var i := 0;
    while i < |folderIds|
      invariant i <= |folderIds|
      invariant top == TopLevel(folderIds, folder, i)
    {
      var ids := folderIds[i];
      var k := 0;
      while k < |ids|
        invariant k <= |ids|
        invariant top == TopLevel(folderIds, folder, i) + Repeat(i, Occurrences(ids[..k], folder))
      {
        assert ids[..k + 1][..k] == ids[..k];
        if ids[k] == folder {
          top := top + [i];
        }
        k := k + 1;
      }
      assert ids[..k] == ids;
      i := i + 1;
    }
  }

  /** Step 1: count the resolved superTaskIds entries per parent, and in total. */
  method CountSubTasks(superIds: seq<seq<int>>, index: map<int, nat>) returns (counts: array<nat>, total: nat)
    requires IndexInRange(index, |superIds|)
    ensures counts.Length == |superIds|
    ensures forall p :: 0 <= p < |superIds| ==> counts[p] == |SubTasks(superIds, index, p)|
    ensures total == |Edges(superIds, index, |superIds|)| && total == Sum(counts[..])
  {
    var n := |superIds|;
    counts := new nat[n](_ => 0);
    total := 0;
    ghost var seen: seq<Edge> := [];
    var i := 0;
    while i < n
      invariant i <= n && counts.Length == n
      invariant seen == Edges(superIds, index, i)
      invariant CountState(counts[..], seen) && total == |seen|
    {
      var added := CountTaskEntries(index, i, superIds[i], counts, seen);
      total := total + added;
      seen := seen + EdgesOf(index, i, superIds[i]);
      i := i + 1;
    }
    EdgesParentsInRange(superIds, index, n);
    CountsAddUp(counts[..], seen, n);
  }

  /** The counts after the edges `seen`: one per edge, under its parent. */
  ghost predicate CountState(counts: seq<nat>, seen: seq<Edge>)
  {
    forall p :: 0 <= p < |counts| ==> counts[p] == |ChildrenIn(seen, p)|
  }

  lemma CountAdvance(counts: seq<nat>, seen: seq<Edge>, e: Edge)
    requires CountState(counts, seen) && e.parent < |counts|
    ensures CountState(counts[e.parent := counts[e.parent] + 1], seen + [e])
  {
    forall p | 0 <= p < |counts| ensures ChildrenIn(seen + [e], p) == ChildrenIn(seen, p) + (if e.parent == p then [e.child] else []) {
      ChildrenInSnoc(seen, e, p);
    }
  }

  /** The inner loop of step 1: count the entries of one task's superTaskIds. */
  method CountTaskEntries(index: map<int, nat>, child: nat, ids: seq<int>, counts: array<nat>, ghost before: seq<Edge>)
    returns (added: nat)
    requires IndexInRange(index, counts.Length) && CountState(counts[..], before)
    modifies counts
    ensures CountState(counts[..], before + EdgesOf(index, child, ids))
    ensures added == |EdgesOf(index, child, ids)|
  {
    EdgesOfWhole(index, child, ids);
    assert before + EdgesOf(index, child, ids[..0]) == before;
    added := 0;
    var k := 0;
    while k < |ids|
      invariant k <= |ids|
      invariant CountState(counts[..], before + EdgesOf(index, child, ids[..k]))
      invariant added == |EdgesOf(index, child, ids[..k])|
    {
      CountStep(counts[..], before, index, child, ids, k);
      var id := ids[k];
      BumpCount(counts, index, id);
      if id in index {
        added := added + 1;
      }
      k := k + 1;
    }
  }

  /** Count one superTaskIds entry under its parent, when the id resolves. */
  method BumpCount(counts: array<nat>, index: map<int, nat>, id: int)
    requires IndexInRange(index, counts.Length)
    modifies counts
    ensures counts[..] == Bump(old(counts[..]), index, id)
  {
    if id in index {
      counts[index[id]] := counts[index[id]] + 1;
    }
  }

  /** The counts after one superTaskIds entry: its parent's count goes up when the id resolves. */
  function Bump(counts: seq<nat>, index: map<int, nat>, id: int): seq<nat>
    requires IndexInRange(index, |counts|)
  {
    if id in index then counts[index[id] := counts[index[id]] + 1] else counts
  }

  lemma CountStep(counts: seq<nat>, before: seq<Edge>, index: map<int, nat>, child: nat, ids: seq<int>, k: nat)
    requires k < |ids| && IndexInRange(index, |counts|)
    requires CountState(counts, before + EdgesOf(index, child, ids[..k]))
    ensures CountState(Bump(counts, index, ids[k]), before + EdgesOf(index, child, ids[..k + 1]))
    ensures |EdgesOf(index, child, ids[..k + 1])| == |EdgesOf(index, child, ids[..k])| + if ids[k] in index then 1 else 0
  {
    var seen := before + EdgesOf(index, child, ids[..k]);
    EdgesOfStep(index, child, ids, k);
    EdgesSoFarStep(index, child, ids, k, before);
    if ids[k] in index {
      CountAdvance(counts, seen, Edge(child, index[ids[k]]));
    } else {
      assert seen + EdgeFor(index, child, ids[k]) == seen;
    }
  }

  lemma CountsAddUp(counts: seq<nat>, edges: seq<Edge>, n: nat)
    requires |counts| == n && forall p :: 0 <= p < n ==> counts[p] == |ChildrenIn(edges, p)|
    requires forall j :: 0 <= j < |edges| ==> edges[j].parent < n
    ensures Sum(counts) == |edges|
  {
    assert counts == ChildCounts(edges, n);
    SumOfChildCounts(edges, n);
  }

  /** How many children each of the first n parents has in an edge list. */
  function ChildCounts(edges: seq<Edge>, n: nat): (counts: seq<nat>)
    ensures |counts| == n && forall p :: 0 <= p < n ==> counts[p] == |ChildrenIn(edges, p)|
  {
    seq(n, p requires 0 <= p => |ChildrenIn(edges, p)|)
  }

  /** Every resolved entry is one sub-task slot: the counts add up to the number of edges. */
  lemma {:induction false} SumOfChildCounts(edges: seq<Edge>, n: nat)
    requires forall j :: 0 <= j < |edges| ==> edges[j].parent < n
    ensures Sum(ChildCounts(edges, n)) == |edges|
  {
    if edges == [] {
      ZeroSum(ChildCounts(edges, n));
    } else {
      var front := edges[..|edges| - 1];
      var p := edges[|edges| - 1].parent;
      SumOfChildCounts(front, n);
      ChildCountsStep(edges, n);
      SumIncrement(ChildCounts(front, n), p);
    }
  }

  lemma ChildCountsStep(edges: seq<Edge>, n: nat)
    requires edges != [] && edges[|edges| - 1].parent < n
    ensures var front, p := edges[..|edges| - 1], edges[|edges| - 1].parent;
      ChildCounts(edges, n) == ChildCounts(front, n)[p := ChildCounts(front, n)[p] + 1]
  {
    var front, e := edges[..|edges| - 1], edges[|edges| - 1];
    var bumped := ChildCounts(front, n)[e.parent := ChildCounts(front, n)[e.parent] + 1];
    forall q | 0 <= q < n ensures ChildCounts(edges, n)[q] == bumped[q] {
      assert ChildrenIn(edges, q) == ChildrenIn(front, q) + (if e.parent == q then [e.child] else []);
    }
  }

  lemma {:induction false} EdgesParentsInRange(superIds: seq<seq<int>>, index: map<int, nat>, n: nat)
    requires n <= |superIds| && IndexInRange(index, |superIds|)
    ensures forall j :: 0 <= j < |Edges(superIds, index, n)| ==> Edges(superIds, index, n)[j].parent < |superIds|
  {
    if n > 0 {
      EdgesParentsInRange(superIds, index, n - 1);
      EdgesOfParentsInRange(index, n - 1, superIds[n - 1], |superIds|);
      var a: seq<Edge>, b: seq<Edge> := Edges(superIds, index, n - 1), EdgesOf(index, n - 1, superIds[n - 1]);
      forall j | 0 <= j < |a + b| ensures (a + b)[j].parent < |superIds| {
        if j >= |a| {
          assert (a + b)[j] == b[j - |a|];
        }
      }
    }
  }

  lemma {:induction false} ZeroSum(s: seq<nat>)
    requires forall j :: 0 <= j < |s| ==> s[j] == 0
    ensures Sum(s) == 0
  {
    if s != [] {
      ZeroSum(s[..|s| - 1]);
    }
  }

  /** The per-parent ranges the carving step gives out: inside the slab and pairwise disjoint. */
  ghost predicate Carved(sizes: seq<nat>, start: seq<nat>, total: nat)
  {
    && |start| == |sizes|
    && (forall p :: 0 <= p < |sizes| ==> start[p] + sizes[p] <= total)
    && (forall p, q :: 0 <= p < q < |sizes| && sizes[p] != 0 && sizes[q] != 0 ==> start[p] + sizes[p] <= start[q])
  }

  /** ... and consecutive: each non-empty range starts where the earlier ones end, and together they fill the slab. */
  ghost predicate Consecutive(sizes: seq<nat>, start: seq<nat>, total: nat)
  {
    && |start| == |sizes| && total == Sum(sizes)
    && forall p :: 0 <= p < |sizes| && sizes[p] != 0 ==> start[p] == Sum(sizes[..p])
  }

  /**
   * Step 2: allocate the slab and hand each parent with sub-tasks the next
   * range; parents without sub-tasks are left alone.
   */
  method CarveSlab(sizes: seq<nat>) returns (start: array<nat>, slab: array<nat>)
    ensures fresh(start) && fresh(slab)
    ensures start.Length == |sizes| && slab.Length == Sum(sizes)
    ensures Carved(sizes, start[..], slab.Length) && Consecutive(sizes, start[..], slab.Length)
    ensures forall p :: 0 <= p < |sizes| && sizes[p] == 0 ==> start[p] == 0
    ensures forall j :: 0 <= j < slab.Length ==> slab[j] == 0
  {
    var n := |sizes|;
    start := new nat[n](_ => 0);
    var total := 0;
    var p := 0;
    while p < n
      invariant p <= n && start.Length == n
      invariant total == Sum(sizes[..p])
      invariant StartsSoFar(sizes, start[..], p)
    {
      ghost var start0 := start[..];
      SumStep(sizes, p);
      if sizes[p] != 0 {
        start[p] := total;
        total := total + sizes[p];
      }
      StartsStep(sizes, start0, start[..], p);
      p := p + 1;
    }
    assert sizes[..n] == sizes;
    slab := new nat[total](_ => 0);
    PrefixSumsAreCarved(sizes, start[..]);
  }

  /** Ranges handed out to sizes[..p]: each non-empty one starts at the sum before it; all later starts are still 0. */
  ghost predicate StartsSoFar(sizes: seq<nat>, start: seq<nat>, p: nat)
    requires p <= |sizes| == |start|
  {
    && (forall q :: 0 <= q < p && sizes[q] != 0 ==> start[q] == Sum(sizes[..q]))
    && (forall q :: 0 <= q < |sizes| && (q >= p || sizes[q] == 0) ==> start[q] == 0)
  }

  lemma StartsStep(sizes: seq<nat>, start: seq<nat>, start': seq<nat>, p: nat)
    requires p < |sizes| == |start| && StartsSoFar(sizes, start, p)
    requires start' == if sizes[p] != 0 then start[p := Sum(sizes[..p])] else start
    ensures StartsSoFar(sizes, start', p + 1)
  {
  }

  lemma PrefixSumsAreCarved(sizes: seq<nat>, start: seq<nat>)
    requires |start| == |sizes|
    requires forall q :: 0 <= q < |sizes| && sizes[q] != 0 ==> start[q] == Sum(sizes[..q])
    requires forall q :: 0 <= q < |sizes| && sizes[q] == 0 ==> start[q] == 0
    ensures Carved(sizes, start, Sum(sizes)) && Consecutive(sizes, start, Sum(sizes))
  {
    var n := |sizes|;
    assert sizes[..n] == sizes;
    forall q | 0 <= q < n ensures start[q] + sizes[q] <= Sum(sizes) {
      SumStep(sizes, q);
      SumPrefixMonotone(sizes, q + 1, n);
    }
    forall q, r | 0 <= q < r < n && sizes[q] != 0 && sizes[r] != 0 ensures start[q] + sizes[q] <= start[r] {
      RangesDisjoint(sizes, q, r);
    }
  }

  /**
   * Step 3: walk the edges again and fill each parent's range in order,
   * using a per-parent cursor that ends at the parent's count.
   */
  method FillSubTasks(superIds: seq<seq<int>>, index: map<int, nat>, sizes: seq<nat>, start: seq<nat>, slab: array<nat>)
    requires IndexInRange(index, |superIds|) && |sizes| == |superIds|
    requires forall p :: 0 <= p < |superIds| ==> sizes[p] == |SubTasks(superIds, index, p)|
    requires Carved(sizes, start, slab.Length)
    requires forall j :: 0 <= j < slab.Length ==> slab[j] < |superIds|
    modifies slab
    ensures forall p, j :: 0 <= p < |superIds| && 0 <= j < sizes[p] ==> slab[start[p] + j] == SubTasks(superIds, index, p)[j]
    ensures forall j :: 0 <= j < slab.Length ==> slab[j] < |superIds|
  {
    var n := |superIds|;
    ghost var all := Edges(superIds, index, n);
    var cursor := new nat[n](_ => 0);
    assert IsPrefix([], all);
    ghost var seen: seq<Edge> := [];
    var i := 0;
    while i < n
      invariant i <= n && cursor.Length == n
      invariant seen == Edges(superIds, index, i)
      invariant Cursors(sizes, cursor[..], seen, all) && Filled(start, slab[..], seen, n)
    {
      EdgesPrefix(superIds, index, i + 1, n);
      FillTaskEntries(index, i, superIds[i], sizes, start, slab, cursor, seen, all);
      seen := seen + EdgesOf(index, i, superIds[i]);
      i := i + 1;
    }
    AllFilled(superIds, index, sizes, start, slab[..], cursor[..]);
  }

  /** Once every edge is placed, each range is full and holds its parent's sub-tasks. */
  lemma AllFilled(superIds: seq<seq<int>>, index: map<int, nat>, sizes: seq<nat>, start: seq<nat>, slab: seq<nat>, cursor: seq<nat>)
    requires |sizes| == |superIds| && Carved(sizes, start, |slab|)
    requires Cursors(sizes, cursor, Edges(superIds, index, |superIds|), Edges(superIds, index, |superIds|))
    requires Sized(sizes, Edges(superIds, index, |superIds|))
    requires Filled(start, slab, Edges(superIds, index, |superIds|), |superIds|)
    ensures forall p, j :: 0 <= p < |superIds| && 0 <= j < sizes[p] ==> slab[start[p] + j] == SubTasks(superIds, index, p)[j]
  {
    forall p, j | 0 <= p < |superIds| && 0 <= j < sizes[p] ensures slab[start[p] + j] == SubTasks(superIds, index, p)[j] {
      assert cursor[p] == sizes[p];
    }
  }

  /** The inner loop of step 3: place `child` under each parent its superTaskIds `ids` resolve to. */
  method FillTaskEntries(index: map<int, nat>, child: nat, ids: seq<int>, sizes: seq<nat>, start: seq<nat>,
                         slab: array<nat>, cursor: array<nat>, ghost before: seq<Edge>, ghost all: seq<Edge>)
    requires IndexInRange(index, |sizes|) && child < |sizes| && slab != cursor
    requires Sized(sizes, all) && Carved(sizes, start, slab.Length)
    requires IsPrefix(before + EdgesOf(index, child, ids), all)
    requires Cursors(sizes, cursor[..], before, all) && Filled(start, slab[..], before, |sizes|)
    modifies slab, cursor
    ensures Cursors(sizes, cursor[..], before + EdgesOf(index, child, ids), all)
    ensures Filled(start, slab[..], before + EdgesOf(index, child, ids), |sizes|)
  {
    EdgesOfWhole(index, child, ids);
    assert before + EdgesOf(index, child, ids[..0]) == before;
    var k := 0;
    while k < |ids|
      invariant k <= |ids|
      invariant Cursors(sizes, cursor[..], before + EdgesOf(index, child, ids[..k]), all)
      invariant Filled(start, slab[..], before + EdgesOf(index, child, ids[..k]), |sizes|)
    {
      ghost var seen := before + EdgesOf(index, child, ids[..k]);
      EdgesSoFarStep(index, child, ids, k, before);
      EdgesSoFarInPrefix(index, child, ids, k + 1, before, all);
      var id := ids[k];
      if id in index {
        PlaceEntry(sizes, start, slab, cursor, Edge(child, index[id]), seen, all);
      } else {
        assert seen + EdgeFor(index, child, id) == seen;
      }
      k := k + 1;
    }
  }

  lemma EdgesSoFarStep(index: map<int, nat>, child: nat, ids: seq<int>, k: nat, before: seq<Edge>)
    requires k < |ids|
    ensures before + EdgesOf(index, child, ids[..k + 1]) == (before + EdgesOf(index, child, ids[..k])) + EdgeFor(index, child, ids[k])
  {
    EdgesOfStep(index, child, ids, k);
    AppendAssoc(before, EdgesOf(index, child, ids[..k]), EdgeFor(index, child, ids[k]));
  }

  lemma EdgesSoFarInPrefix(index: map<int, nat>, child: nat, ids: seq<int>, k: nat, before: seq<Edge>, all: seq<Edge>)
    requires k <= |ids| && IsPrefix(before + EdgesOf(index, child, ids), all)
    ensures IsPrefix(before + EdgesOf(index, child, ids[..k]), all)
  {
    EdgesOfPrefix(index, child, ids, k);
    var a, b := EdgesOf(index, child, ids[..k]), EdgesOf(index, child, ids);
    assert (before + b)[..|before + a|] == before + a;
  }

  /** Place one child in the next free slot of its parent's range. */
  method PlaceEntry(sizes: seq<nat>, start: seq<nat>, slab: array<nat>, cursor: array<nat>, e: Edge,
                    ghost seen: seq<Edge>, ghost all: seq<Edge>)
    requires Sized(sizes, all) && Carved(sizes, start, slab.Length) && slab != cursor
    requires Cursors(sizes, cursor[..], seen, all) && Filled(start, slab[..], seen, |sizes|)
    requires e.parent < |sizes| && e.child < |sizes| && IsPrefix(seen + [e], all)
    modifies slab, cursor
    ensures Cursors(sizes, cursor[..], seen + [e], all) && Filled(start, slab[..], seen + [e], |sizes|)
  {
    ghost var slab0, cursor0 := slab[..], cursor[..];
    FillRoom(sizes, start, slab.Length, cursor0, seen, e, all);
    var c := cursor[e.parent];
    cursor[e.parent] := c + 1;
    slab[start[e.parent] + c] := e.child;
    assert cursor[..] == cursor0[e.parent := c + 1];
    assert slab[..] == slab0[start[e.parent] + c := e.child];
    CursorsAdvance(sizes, cursor0, seen, e, all, cursor[..]);
    FilledAdvance(sizes, start, slab.Length, slab0, cursor0, seen, e, all, slab[..]);
  }

  /** Each parent's count is its number of children among all the edges. */
  ghost predicate Sized(sizes: seq<nat>, all: seq<Edge>)
  {
    forall p :: 0 <= p < |sizes| ==> sizes[p] == |ChildrenIn(all, p)|
  }

  /** The cursors after the edges `seen`, a prefix of all the edges: one per child placed so far. */
  ghost predicate Cursors(sizes: seq<nat>, cursor: seq<nat>, seen: seq<Edge>, all: seq<Edge>)
  {
    && |cursor| == |sizes| && IsPrefix(seen, all)
    && forall p :: 0 <= p < |sizes| ==> cursor[p] == |ChildrenIn(seen, p)|
  }

  /** The slab after the edges `seen`: each parent's range begins with its children so far, and every slot holds a task. */
  ghost predicate Filled(start: seq<nat>, slab: seq<nat>, seen: seq<Edge>, n: nat)
  {
    && |start| == n
    && (forall p, j :: 0 <= p < n && 0 <= j < |ChildrenIn(seen, p)| && start[p] + j < |slab| ==> slab[start[p] + j] == ChildrenIn(seen, p)[j])
    && (forall j :: 0 <= j < |slab| ==> slab[j] < n)
  }

  /** No cursor runs past its parent's count. */
  lemma CursorsBounded(sizes: seq<nat>, cursor: seq<nat>, seen: seq<Edge>, all: seq<Edge>)
    requires Sized(sizes, all) && Cursors(sizes, cursor, seen, all)
    ensures forall p :: 0 <= p < |sizes| ==> cursor[p] <= sizes[p]
  {
    forall p | 0 <= p < |sizes| ensures cursor[p] <= sizes[p] {
      ChildrenInPrefix(seen, all, p);
    }
  }

  /** A parent about to receive one more child still has room in its range. */
  lemma FillRoom(sizes: seq<nat>, start: seq<nat>, total: nat, cursor: seq<nat>, seen: seq<Edge>, e: Edge, all: seq<Edge>)
    requires Sized(sizes, all) && Cursors(sizes, cursor, seen, all) && Carved(sizes, start, total)
    requires e.parent < |sizes| && IsPrefix(seen + [e], all)
    ensures cursor[e.parent] < sizes[e.parent] && start[e.parent] + cursor[e.parent] < total
  {
    ChildrenInPrefix(seen + [e], all, e.parent);
    ChildrenInSnoc(seen, e, e.parent);
  }

  /** Placing one more edge advances exactly its parent's cursor. */
  lemma CursorsAdvance(sizes: seq<nat>, cursor: seq<nat>, seen: seq<Edge>, e: Edge, all: seq<Edge>, cursor': seq<nat>)
    requires Cursors(sizes, cursor, seen, all) && e.parent < |sizes| && IsPrefix(seen + [e], all)
    requires cursor' == cursor[e.parent := cursor[e.parent] + 1]
    ensures Cursors(sizes, cursor', seen + [e], all)
  {
    forall p | 0 <= p < |sizes| ensures cursor'[p] == |ChildrenIn(seen + [e], p)| {
      ChildrenInSnoc(seen, e, p);
    }
  }

  /** Placing one more edge at its parent's cursor keeps every filled range. */
  lemma FilledAdvance(sizes: seq<nat>, start: seq<nat>, total: nat, slab: seq<nat>, cursor: seq<nat>,
                      seen: seq<Edge>, e: Edge, all: seq<Edge>, slab': seq<nat>)
    requires Sized(sizes, all) && Carved(sizes, start, total) && |slab| == total
    requires Cursors(sizes, cursor, seen, all) && Filled(start, slab, seen, |sizes|)
    requires e.parent < |sizes| && e.child < |sizes| && IsPrefix(seen + [e], all)
    requires start[e.parent] + cursor[e.parent] < total
    requires slab' == slab[start[e.parent] + cursor[e.parent] := e.child]
    ensures Filled(start, slab', seen + [e], |sizes|)
  {
    var parent, pos := e.parent, start[e.parent] + cursor[e.parent];
    CursorsBounded(sizes, cursor, seen, all);
    FillRoom(sizes, start, total, cursor, seen, e, all);
    FillStep(sizes, start, total, cursor, parent);
    forall p, j | 0 <= p < |sizes| && 0 <= j < |ChildrenIn(seen + [e], p)| && start[p] + j < |slab'|
      ensures slab'[start[p] + j] == ChildrenIn(seen + [e], p)[j]
    {
      ChildrenInSnoc(seen, e, p);
      if p == parent && j == cursor[p] {
        assert slab'[pos] == e.child;
      } else {
        assert j < cursor[p] && start[p] + j != pos;
        assert slab'[start[p] + j] == slab[start[p] + j];
        assert ChildrenIn(seen + [e], p)[j] == ChildrenIn(seen, p)[j];
      }
    }
  }

  /** The next slot of one parent lies in its own range and in no other parent's filled part. */
  lemma FillStep(sizes: seq<nat>, start: seq<nat>, total: nat, cursor: seq<nat>, parent: nat)
    requires Carved(sizes, start, total) && |cursor| == |sizes|
    requires parent < |sizes| && cursor[parent] < sizes[parent]
    requires forall p :: 0 <= p < |sizes| ==> cursor[p] <= sizes[p]
    ensures start[parent] + cursor[parent] < total
    ensures forall p :: 0 <= p < |sizes| && p != parent ==>
      start[parent] + cursor[parent] < start[p] || start[p] + cursor[p] <= start[parent] + cursor[parent]
  {
  }

  // ---------------------------------------------------------------------------
  // The builder
  // ---------------------------------------------------------------------------

  /**
   * All four passes. Parent p's sub-tasks are the slab range
   * [start[p], start[p] + sizes[p]); ranges are consecutive, disjoint, and
   * together exactly as long as the number of resolved superTaskIds entries.
   */
  method AssociateParentTasksWithSubTasks(folderIds: seq<seq<int>>, superIds: seq<seq<int>>, index: map<int, nat>, folder: int)
    returns (top: seq<nat>, start: seq<nat>, sizes: seq<nat>, slab: array<nat>)
    requires |folderIds| == |superIds| && IndexInRange(index, |superIds|)
    ensures fresh(slab)
    ensures top == TopLevel(folderIds, folder, |folderIds|)
    ensures |sizes| == |superIds| && Carved(sizes, start, slab.Length) && Consecutive(sizes, start, slab.Length)
    ensures slab.Length == |Edges(superIds, index, |superIds|)|
    ensures forall p :: 0 <= p < |superIds| ==> sizes[p] == |SubTasks(superIds, index, p)|
    ensures forall p :: 0 <= p < |superIds| ==> slab[start[p]..start[p] + sizes[p]] == SubTasks(superIds, index, p)
    ensures forall j :: 0 <= j < slab.Length ==> slab[j] < |superIds|
  {
    top := CollectTopLevel(folderIds, folder);
    var counts, total := CountSubTasks(superIds, index);
    sizes := counts[..];
    var starts;
    starts, slab := CarveSlab(sizes);
    start := starts[..];
    assert |superIds| == 0 ==> sizes == [] && slab.Length == 0;
    FillSubTasks(superIds, index, sizes, start, slab);
    RangesHoldSubTasks(superIds, index, sizes, start, slab[..]);
  }

  lemma RangesHoldSubTasks(superIds: seq<seq<int>>, index: map<int, nat>, sizes: seq<nat>, start: seq<nat>, slab: seq<nat>)
    requires |sizes| == |superIds| && Carved(sizes, start, |slab|)
    requires forall p :: 0 <= p < |superIds| ==> sizes[p] == |SubTasks(superIds, index, p)|
    requires forall p, j :: 0 <= p < |superIds| && 0 <= j < sizes[p] ==> slab[start[p] + j] == SubTasks(superIds, index, p)[j]
    ensures forall p :: 0 <= p < |superIds| ==> slab[start[p]..start[p] + sizes[p]] == SubTasks(superIds, index, p)
  {
    forall p | 0 <= p < |superIds| ensures slab[start[p]..start[p] + sizes[p]] == SubTasks(superIds, index, p) {
      var range := slab[start[p]..start[p] + sizes[p]];
      forall j | 0 <= j < sizes[p] ensures range[j] == SubTasks(superIds, index, p)[j] {
        assert range[j] == slab[start[p] + j];
      }
    }
  }
}

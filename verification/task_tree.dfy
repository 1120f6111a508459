/**
 * The flattened task tree as a specification (src/task_list.cpp:270-304).
 * A node is one Sorted_Folder_Task seen by the flattener: its sub-task list,
 * its expand flag, and whether the active-status filter lets it through.
 * `Flatten` is the sequence of rows rebuild_flattened_task_tree_hierarchically
 * writes through its cursor; `Count` is how many. Termination rests on a
 * ghost rank that strictly decreases from a task to each of its sub-tasks,
 * i.e. on superTaskIds being acyclic.
 */
module TaskTree {

  datatype Node = Node(children: seq<nat>, expanded: bool, shown: bool)

  /** Flattened_Folder_Task, with the task as an index into the task store. */
  datatype Row = Row(task: nat, level: nat, numVisibleSubTasks: nat, needsSubTaskSort: bool)

  /** Every sub-task is a valid index of strictly smaller rank; ranks are below |nodes|. */
  ghost predicate Ranked(nodes: seq<Node>, rank: seq<nat>)
  {
    && |rank| == |nodes|
    && (forall t :: 0 <= t < |nodes| ==> rank[t] < |nodes|)
    && (forall t, j :: 0 <= t < |nodes| && 0 <= j < |nodes[t].children| ==>
          nodes[t].children[j] < |nodes| && rank[nodes[t].children[j]] < rank[t])
  }

  ghost predicate Below(nodes: seq<Node>, rank: seq<nat>, ts: seq<nat>, bound: nat)
  {
    |rank| == |nodes| && forall j :: 0 <= j < |ts| ==> ts[j] < |nodes| && rank[ts[j]] < bound
  }

  predicate InRange(nodes: seq<Node>, ts: seq<nat>)
  {
    forall j :: 0 <= j < |ts| ==> ts[j] < |nodes|
  }

  /** How many of ts pass the filter: what a row's num_visible_sub_tasks adds up. */
  function Visible(nodes: seq<Node>, ts: seq<nat>): (v: nat)
    requires InRange(nodes, ts)
    ensures v <= |ts|
  {
    if ts == [] then 0
    else Visible(nodes, ts[..|ts| - 1]) + (if nodes[ts[|ts| - 1]].shown then 1 else 0)
  }

  /** The number of rows written for task t when its parent is (pe) or is not expanded. */
  ghost function Count(nodes: seq<Node>, rank: seq<nat>, t: nat, pe: bool): nat
    requires Ranked(nodes, rank) && t < |nodes|
    decreases rank[t], 1
  {
    if !nodes[t].shown || !pe then 0
    else 1 + CountList(nodes, rank, nodes[t].children, rank[t], nodes[t].expanded)
  }

  ghost function CountList(nodes: seq<Node>, rank: seq<nat>, ts: seq<nat>, bound: nat, pe: bool): nat
    requires Ranked(nodes, rank) && Below(nodes, rank, ts, bound)
    decreases bound, 0, |ts|
  {
    if ts == [] then 0
    else CountList(nodes, rank, ts[..|ts| - 1], bound, pe) + Count(nodes, rank, ts[|ts| - 1], pe)
  }

  /** The rows written for task t at nesting level `level`, in pre-order. */
  ghost function Flatten(nodes: seq<Node>, rank: seq<nat>, t: nat, pe: bool, level: nat): (rs: seq<Row>)
    requires Ranked(nodes, rank) && t < |nodes|
    ensures |rs| == Count(nodes, rank, t, pe)
    decreases rank[t], 1
  {
    if !nodes[t].shown || !pe then []
    else
      [Row(t, level, Visible(nodes, nodes[t].children), true)]
        + FlattenList(nodes, rank, nodes[t].children, rank[t], nodes[t].expanded, level + 1)
  }

  ghost function FlattenList(nodes: seq<Node>, rank: seq<nat>, ts: seq<nat>, bound: nat, pe: bool, level: nat): (rs: seq<Row>)
    requires Ranked(nodes, rank) && Below(nodes, rank, ts, bound)
    ensures |rs| == CountList(nodes, rank, ts, bound, pe)
    decreases bound, 0, |ts|
  {
    if ts == [] then []
    else FlattenList(nodes, rank, ts[..|ts| - 1], bound, pe, level) + Flatten(nodes, rank, ts[|ts| - 1], pe, level)
  }

  /** The rows of a full rebuild: every top-level task at level 0 under an expanded root. */
  ghost function FlattenTop(nodes: seq<Node>, rank: seq<nat>, top: seq<nat>): seq<Row>
    requires Ranked(nodes, rank) && InRange(nodes, top)
  {
    FlattenList(nodes, rank, top, |nodes|, true, 0)
  }

  // ---------------------------------------------------------------------------
  // Structure of the rows
  // ---------------------------------------------------------------------------

  lemma {:induction false} FlattenListAppend(nodes: seq<Node>, rank: seq<nat>, a: seq<nat>, b: seq<nat>, bound: nat, pe: bool, level: nat)
    requires Ranked(nodes, rank) && Below(nodes, rank, a, bound) && Below(nodes, rank, b, bound)
    ensures Below(nodes, rank, a + b, bound)
    ensures FlattenList(nodes, rank, a + b, bound, pe, level)
      == FlattenList(nodes, rank, a, bound, pe, level) + FlattenList(nodes, rank, b, bound, pe, level)
    decreases |b|
  {
    BelowConcat(nodes, rank, a, b, bound);
    if b == [] {
      assert a + b == a;
    } else {
      var b', last := b[..|b| - 1], b[|b| - 1];
      BelowConcat(nodes, rank, a, b', bound);
      assert (a + b)[..|a + b| - 1] == a + b';
      FlattenListAppend(nodes, rank, a, b', bound, pe, level);
      var fa, fb', fl := FlattenList(nodes, rank, a, bound, pe, level), FlattenList(nodes, rank, b', bound, pe, level), Flatten(nodes, rank, last, pe, level);
      assert FlattenList(nodes, rank, a + b, bound, pe, level) == (fa + fb') + fl;
      assert FlattenList(nodes, rank, b, bound, pe, level) == fb' + fl;
      assert (fa + fb') + fl == fa + (fb' + fl);
    }
  }

  lemma BelowConcat(nodes: seq<Node>, rank: seq<nat>, a: seq<nat>, b: seq<nat>, bound: nat)
    requires Below(nodes, rank, a, bound) && Below(nodes, rank, b, bound)
    ensures Below(nodes, rank, a + b, bound)
  {
    forall j | 0 <= j < |a + b| ensures (a + b)[j] < |nodes| && rank[(a + b)[j]] < bound {
      if j >= |a| {
        assert (a + b)[j] == b[j - |a|];
      }
    }
  }

  /** Below a collapsed parent nothing is written. */
  lemma {:induction false} FlattenListClosed(nodes: seq<Node>, rank: seq<nat>, ts: seq<nat>, bound: nat, level: nat)
    requires Ranked(nodes, rank) && Below(nodes, rank, ts, bound)
    ensures FlattenList(nodes, rank, ts, bound, false, level) == []
    decreases |ts|
  {
    if ts != [] {
      FlattenListClosed(nodes, rank, ts[..|ts| - 1], bound, level);
    }
  }

  /** A collapsed task that passes the filter is exactly one row, still counting its visible sub-tasks. */
  lemma CollapsedTaskIsOneRow(nodes: seq<Node>, rank: seq<nat>, t: nat, level: nat)
    requires Ranked(nodes, rank) && t < |nodes|
    requires nodes[t].shown && !nodes[t].expanded
    ensures Flatten(nodes, rank, t, true, level) == [Row(t, level, Visible(nodes, nodes[t].children), true)]
  {
    FlattenListClosed(nodes, rank, nodes[t].children, rank[t], level + 1);
  }

  /** A task the filter rejects writes nothing, whatever its sub-tasks. */
  lemma FilteredTaskHidesSubtree(nodes: seq<Node>, rank: seq<nat>, t: nat, pe: bool, level: nat)
    requires Ranked(nodes, rank) && t < |nodes| && !nodes[t].shown
    ensures Flatten(nodes, rank, t, pe, level) == []
    ensures Count(nodes, rank, t, pe) == 0
  {
  }

  /** Every row is a filtered-in task at or below the given level, flagged for a lazy sub-task sort. */
  ghost predicate RowsFrom(nodes: seq<Node>, rs: seq<Row>, level: nat)
  {
    forall i :: 0 <= i < |rs| ==>
      rs[i].task < |nodes| && nodes[rs[i].task].shown && rs[i].needsSubTaskSort && rs[i].level >= level
  }

  lemma {:induction false} FlattenRows(nodes: seq<Node>, rank: seq<nat>, t: nat, pe: bool, level: nat)
    requires Ranked(nodes, rank) && t < |nodes|
    ensures var rs := Flatten(nodes, rank, t, pe, level);
      && RowsFrom(nodes, rs, level)
      && (rs != [] ==> rs[0].task == t && rs[0].level == level)
      && (forall i :: 0 < i < |rs| ==> rs[i].level > level)
    decreases rank[t], 1
  {
    if nodes[t].shown && pe {
      FlattenListRows(nodes, rank, nodes[t].children, rank[t], nodes[t].expanded, level + 1);
    }
  }

  lemma {:induction false} FlattenListRows(nodes: seq<Node>, rank: seq<nat>, ts: seq<nat>, bound: nat, pe: bool, level: nat)
    requires Ranked(nodes, rank) && Below(nodes, rank, ts, bound)
    ensures RowsFrom(nodes, FlattenList(nodes, rank, ts, bound, pe, level), level)
    decreases bound, 0, |ts|
  {
    if ts != [] {
      FlattenListRows(nodes, rank, ts[..|ts| - 1], bound, pe, level);
      FlattenRows(nodes, rank, ts[|ts| - 1], pe, level);
    }
  }

  ghost predicate LevelZeroRowsIn(rs: seq<Row>, ts: seq<nat>)
  {
    forall i :: 0 <= i < |rs| && rs[i].level == 0 ==> rs[i].task in ts
  }

  /** Each level-0 row of a full rebuild is a top-level task. */
  lemma {:induction false} TopLevelRowsAreTopLevelTasks(nodes: seq<Node>, rank: seq<nat>, ts: seq<nat>, bound: nat)
    requires Ranked(nodes, rank) && Below(nodes, rank, ts, bound)
    ensures LevelZeroRowsIn(FlattenList(nodes, rank, ts, bound, true, 0), ts)
    decreases |ts|
  {
    if ts != [] {
      var prefix := ts[..|ts| - 1];
      TopLevelRowsAreTopLevelTasks(nodes, rank, prefix, bound);
      FlattenRows(nodes, rank, ts[|ts| - 1], true, 0);
      var rs := FlattenList(nodes, rank, ts, bound, true, 0);
      var head := FlattenList(nodes, rank, prefix, bound, true, 0);
      forall i | 0 <= i < |rs| && rs[i].level == 0 ensures rs[i].task in ts {
        if i < |head| {
          assert rs[i] == head[i];
          assert head[i].task in prefix;
          var m :| 0 <= m < |prefix| && prefix[m] == head[i].task;
          assert ts[m] == prefix[m];
        }
      }
    }
  }

  /**
   * Pre-order: every row is followed by the rows of its own subtree, as
   * rebuild_flattened_task_subtree would write them from that row.
   */
  ghost predicate SubtreesAt(nodes: seq<Node>, rank: seq<nat>, rs: seq<Row>)
  {
    && Ranked(nodes, rank)
    && forall i :: 0 <= i < |rs| ==>
         && rs[i].task < |nodes|
         && i + Count(nodes, rank, rs[i].task, true) <= |rs|
         && rs[i..i + Count(nodes, rank, rs[i].task, true)] == Flatten(nodes, rank, rs[i].task, true, rs[i].level)
  }

  lemma SubtreesConcat(nodes: seq<Node>, rank: seq<nat>, a: seq<Row>, b: seq<Row>)
    requires SubtreesAt(nodes, rank, a) && SubtreesAt(nodes, rank, b)
    ensures SubtreesAt(nodes, rank, a + b)
  {
    var rs := a + b;
    forall i | 0 <= i < |rs|
      ensures rs[i].task < |nodes|
      ensures i + Count(nodes, rank, rs[i].task, true) <= |rs|
      ensures rs[i..i + Count(nodes, rank, rs[i].task, true)] == Flatten(nodes, rank, rs[i].task, true, rs[i].level)
    {
      if i < |a| {
        var k := Count(nodes, rank, a[i].task, true);
        assert rs[i..i + k] == a[i..i + k];
      } else {
        var j := i - |a|;
        var k := Count(nodes, rank, b[j].task, true);
        assert rs[i..i + k] == b[j..j + k];
      }
    }
  }

  /** A row whose subtree is itself followed by the rows of its sub-tasks. */
  lemma SubtreesCons(nodes: seq<Node>, rank: seq<nat>, row: Row, rest: seq<Row>)
    requires SubtreesAt(nodes, rank, rest)
    requires row.task < |nodes|
    requires Count(nodes, rank, row.task, true) == 1 + |rest|
    requires Flatten(nodes, rank, row.task, true, row.level) == [row] + rest
    ensures SubtreesAt(nodes, rank, [row] + rest)
  {
    var rs := [row] + rest;
    assert rs[0..|rs|] == rs;
    forall i | 0 < i < |rs|
      ensures rs[i].task < |nodes|
      ensures i + Count(nodes, rank, rs[i].task, true) <= |rs|
      ensures rs[i..i + Count(nodes, rank, rs[i].task, true)] == Flatten(nodes, rank, rs[i].task, true, rs[i].level)
    {
      var j := i - 1;
      var k := Count(nodes, rank, rest[j].task, true);
      assert rs[i..i + k] == rest[j..j + k];
    }
  }

  lemma {:induction false} FlattenHasSubtrees(nodes: seq<Node>, rank: seq<nat>, t: nat, pe: bool, level: nat)
    requires Ranked(nodes, rank) && t < |nodes|
    ensures SubtreesAt(nodes, rank, Flatten(nodes, rank, t, pe, level))
    decreases rank[t], 1
  {
    if nodes[t].shown && pe {
      var rest := FlattenList(nodes, rank, nodes[t].children, rank[t], nodes[t].expanded, level + 1);
      FlattenListHasSubtrees(nodes, rank, nodes[t].children, rank[t], nodes[t].expanded, level + 1);
      SubtreesCons(nodes, rank, Row(t, level, Visible(nodes, nodes[t].children), true), rest);
    }
  }

  lemma {:induction false} FlattenListHasSubtrees(nodes: seq<Node>, rank: seq<nat>, ts: seq<nat>, bound: nat, pe: bool, level: nat)
    requires Ranked(nodes, rank) && Below(nodes, rank, ts, bound)
    ensures SubtreesAt(nodes, rank, FlattenList(nodes, rank, ts, bound, pe, level))
    decreases bound, 0, |ts|
  {
    if ts != [] {
      FlattenListHasSubtrees(nodes, rank, ts[..|ts| - 1], bound, pe, level);
      FlattenHasSubtrees(nodes, rank, ts[|ts| - 1], pe, level);
      SubtreesConcat(nodes, rank, FlattenList(nodes, rank, ts[..|ts| - 1], bound, pe, level), Flatten(nodes, rank, ts[|ts| - 1], pe, level));
    }
  }

  // ---------------------------------------------------------------------------
  // Row slots: what an in-place subtree rewrite needs
  // ---------------------------------------------------------------------------

  /** Every row's subtree, as currently shaped, fits before the end of the rows. */
  ghost predicate SlotsFit(nodes: seq<Node>, rank: seq<nat>, rs: seq<Row>)
  {
    && Ranked(nodes, rank)
    && forall j :: 0 <= j < |rs| ==>
         rs[j].task < |nodes| && j + Count(nodes, rank, rs[j].task, true) <= |rs|
  }

  lemma SubtreesGiveSlots(nodes: seq<Node>, rank: seq<nat>, rs: seq<Row>)
    requires SubtreesAt(nodes, rank, rs)
    ensures SlotsFit(nodes, rank, rs)
  {
  }

  /** Rows with room for their subtrees name tasks of the tree. */
  lemma SlotsNameTasks(nodes: seq<Node>, rank: seq<nat>, rs: seq<Row>)
    requires SlotsFit(nodes, rank, rs)
    ensures forall j :: 0 <= j < |rs| ==> rs[j].task < |nodes|
  {
  }

  /** The rows of a full rebuild are in pre-order, so every row has room for its subtree. */
  lemma FullRebuildHasSlots(nodes: seq<Node>, rank: seq<nat>, top: seq<nat>)
    requires Ranked(nodes, rank) && InRange(nodes, top)
    ensures SubtreesAt(nodes, rank, FlattenTop(nodes, rank, top))
    ensures SlotsFit(nodes, rank, FlattenTop(nodes, rank, top))
  {
    FlattenListHasSubtrees(nodes, rank, top, |nodes|, true, 0);
  }

  // ---------------------------------------------------------------------------
  // Reordering sub-task lists changes no row count
  // ---------------------------------------------------------------------------

  /** Same flags and, for every task, the same sub-tasks up to order. */
  ghost predicate SameShape(nodes: seq<Node>, nodes': seq<Node>)
  {
    && |nodes'| == |nodes|
    && forall t :: 0 <= t < |nodes| ==>
         && nodes'[t].expanded == nodes[t].expanded
         && nodes'[t].shown == nodes[t].shown
         && multiset(nodes'[t].children) == multiset(nodes[t].children)
  }

  lemma SameShapeRanked(nodes: seq<Node>, nodes': seq<Node>, rank: seq<nat>)
    requires Ranked(nodes, rank) && SameShape(nodes, nodes')
    ensures Ranked(nodes', rank)
  {
    forall t, j | 0 <= t < |nodes'| && 0 <= j < |nodes'[t].children|
      ensures nodes'[t].children[j] < |nodes'| && rank[nodes'[t].children[j]] < rank[t]
    {
      var c := nodes'[t].children[j];
      assert c in multiset(nodes[t].children);
      var m :| 0 <= m < |nodes[t].children| && nodes[t].children[m] == c;
    }
  }

  lemma CountListAppend(nodes: seq<Node>, rank: seq<nat>, a: seq<nat>, b: seq<nat>, bound: nat, pe: bool)
    requires Ranked(nodes, rank) && Below(nodes, rank, a, bound) && Below(nodes, rank, b, bound)
    ensures Below(nodes, rank, a + b, bound)
    ensures CountList(nodes, rank, a + b, bound, pe) == CountList(nodes, rank, a, bound, pe) + CountList(nodes, rank, b, bound, pe)
  {
    FlattenListAppend(nodes, rank, a, b, bound, pe, 0);
  }

  /** Removing one element from a sequence: the rest, as a multiset. */
  lemma RemoveAt(b: seq<nat>, j: nat)
    requires j < |b|
    ensures b == (b[..j] + [b[j]]) + b[j + 1..]
    ensures multiset(b[..j] + b[j + 1..]) == multiset(b) - multiset{b[j]}
  {
    assert b == (b[..j] + [b[j]]) + b[j + 1..];
  }

  /** Where the last element of a sits in b, and what is left of both without it. */
  lemma SplitPermutation(a: seq<nat>, b: seq<nat>) returns (j: nat)
    requires a != [] && multiset(a) == multiset(b)
    ensures j < |b| && b[j] == a[|a| - 1]
    ensures a == a[..|a| - 1] + [a[|a| - 1]]
    ensures b == (b[..j] + [b[j]]) + b[j + 1..]
    ensures multiset(b[..j] + b[j + 1..]) == multiset(a[..|a| - 1])
  {
    var x := a[|a| - 1];
    assert a == a[..|a| - 1] + [x];
    assert x in multiset(b);
    j :| 0 <= j < |b| && b[j] == x;
    RemoveAt(b, j);
  }

  lemma BelowPermutation(nodes: seq<Node>, rank: seq<nat>, a: seq<nat>, b: seq<nat>, bound: nat)
    requires Below(nodes, rank, a, bound) && multiset(a) == multiset(b)
    ensures Below(nodes, rank, b, bound)
  {
    forall j | 0 <= j < |b| ensures b[j] < |nodes| && rank[b[j]] < bound {
      assert b[j] in multiset(a);
      var m :| 0 <= m < |a| && a[m] == b[j];
    }
  }

  lemma BelowPieces(nodes: seq<Node>, rank: seq<nat>, b: seq<nat>, j: nat, bound: nat)
    requires Below(nodes, rank, b, bound) && j < |b|
    ensures Below(nodes, rank, b[..j], bound) && Below(nodes, rank, [b[j]], bound)
    ensures Below(nodes, rank, b[j + 1..], bound) && Below(nodes, rank, b[..j] + [b[j]], bound)
  {
  }

  /** The row count of a sub-task list does not depend on its order. */
  lemma {:induction false} CountListPermutation(nodes: seq<Node>, rank: seq<nat>, a: seq<nat>, b: seq<nat>, bound: nat, pe: bool)
    requires Ranked(nodes, rank) && Below(nodes, rank, a, bound)
    requires multiset(a) == multiset(b)
    ensures Below(nodes, rank, b, bound)
    ensures CountList(nodes, rank, b, bound, pe) == CountList(nodes, rank, a, bound, pe)
    decreases |a|
  {
    BelowPermutation(nodes, rank, a, b, bound);
    if a != [] {
      var j := SplitPermutation(a, b);
      var x, a' := b[j], a[..|a| - 1];
      var left, right := b[..j], b[j + 1..];
      BelowPieces(nodes, rank, b, j, bound);
      CountListPermutation(nodes, rank, a', left + right, bound, pe);
      CountListAppend(nodes, rank, left, right, bound, pe);
      CountListAppend(nodes, rank, left, [x], bound, pe);
      CountListAppend(nodes, rank, left + [x], right, bound, pe);
      assert CountList(nodes, rank, [x], bound, pe) == Count(nodes, rank, x, pe) by {
        assert [x][..0] == [];
      }
      assert CountList(nodes, rank, a, bound, pe) == CountList(nodes, rank, a', bound, pe) + Count(nodes, rank, x, pe);
    }
  }

  lemma {:induction false} CountListSameShape(nodes: seq<Node>, nodes': seq<Node>, rank: seq<nat>, ts: seq<nat>, bound: nat, pe: bool)
    requires Ranked(nodes, rank) && SameShape(nodes, nodes') && Below(nodes, rank, ts, bound)
    ensures Ranked(nodes', rank) && Below(nodes', rank, ts, bound)
    ensures CountList(nodes', rank, ts, bound, pe) == CountList(nodes, rank, ts, bound, pe)
    decreases bound, 0, |ts|
  {
    SameShapeRanked(nodes, nodes', rank);
    if ts != [] {
      CountListSameShape(nodes, nodes', rank, ts[..|ts| - 1], bound, pe);
      CountSameShape(nodes, nodes', rank, ts[|ts| - 1], pe);
    }
  }

  /**
   * Sorting sub-task lists (same multisets, same flags) leaves every task's
   * row count as it was: a subtree rewrite fills exactly the old slot.
   */
  lemma {:induction false} CountSameShape(nodes: seq<Node>, nodes': seq<Node>, rank: seq<nat>, t: nat, pe: bool)
    requires Ranked(nodes, rank) && SameShape(nodes, nodes') && t < |nodes|
    ensures Ranked(nodes', rank)
    ensures Count(nodes', rank, t, pe) == Count(nodes, rank, t, pe)
    decreases rank[t], 1
  {
    SameShapeRanked(nodes, nodes', rank);
    if nodes[t].shown && pe {
      var cs, cs' := nodes[t].children, nodes'[t].children;
      CountListSameShape(nodes, nodes', rank, cs', rank[t], nodes[t].expanded);
      CountListPermutation(nodes, rank, cs, cs', rank[t], nodes[t].expanded);
    }
  }

  lemma {:induction false} VisibleAppend(nodes: seq<Node>, a: seq<nat>, b: seq<nat>)
    requires InRange(nodes, a) && InRange(nodes, b)
    ensures InRange(nodes, a + b)
    ensures Visible(nodes, a + b) == Visible(nodes, a) + Visible(nodes, b)
    decreases |b|
  {
    if b == [] {
      assert a + b == a;
    } else {
      assert (a + b)[..|a + b| - 1] == a + b[..|b| - 1];
      VisibleAppend(nodes, a, b[..|b| - 1]);
    }
  }

  /** num_visible_sub_tasks does not depend on the order of the sub-tasks. */
  lemma {:induction false} VisiblePermutation(nodes: seq<Node>, a: seq<nat>, b: seq<nat>)
    requires InRange(nodes, a) && multiset(a) == multiset(b)
    ensures InRange(nodes, b)
    ensures Visible(nodes, b) == Visible(nodes, a)
    decreases |a|
  {
    forall j | 0 <= j < |b| ensures b[j] < |nodes| {
      assert b[j] in multiset(a);
    }
    if a != [] {
      var j := SplitPermutation(a, b);
      var x, a' := b[j], a[..|a| - 1];
      var left, right := b[..j], b[j + 1..];
      VisiblePermutation(nodes, a', left + right);
      VisibleAppend(nodes, left, right);
      VisibleAppend(nodes, left, [x]);
      VisibleAppend(nodes, left + [x], right);
      assert Visible(nodes, [x]) == (if nodes[x].shown then 1 else 0) by {
        assert [x][..0] == [];
      }
      assert Visible(nodes, a) == Visible(nodes, a') + (if nodes[x].shown then 1 else 0);
    }
  }

  /** Slots measured with the old shape are the slots of the new one. */
  lemma SlotsSameShape(nodes: seq<Node>, nodes': seq<Node>, rank: seq<nat>, rs: seq<Row>)
    requires SlotsFit(nodes, rank, rs) && SameShape(nodes, nodes')
    ensures SlotsFit(nodes', rank, rs)
  {
    SameShapeRanked(nodes, nodes', rank);
    forall j | 0 <= j < |rs| ensures j + Count(nodes', rank, rs[j].task, true) <= |rs| {
      CountSameShape(nodes, nodes', rank, rs[j].task, true);
    }
  }

  /** Rewriting one row's slot with that row's current subtree keeps every slot in place. */
  lemma RewriteKeepsSlots(nodes: seq<Node>, rank: seq<nat>, rs: seq<Row>, i: nat, rs': seq<Row>)
    requires SlotsFit(nodes, rank, rs) && i < |rs|
    requires rs' == rs[..i] + Flatten(nodes, rank, rs[i].task, true, rs[i].level)
                    + rs[i + Count(nodes, rank, rs[i].task, true)..]
    ensures |rs'| == |rs|
    ensures SlotsFit(nodes, rank, rs')
  {
    var sub := Flatten(nodes, rank, rs[i].task, true, rs[i].level);
    var k := |sub|;
    FlattenHasSubtrees(nodes, rank, rs[i].task, true, rs[i].level);
    forall j | 0 <= j < |rs'| ensures rs'[j].task < |nodes| && j + Count(nodes, rank, rs'[j].task, true) <= |rs'| {
      if j < i {
        assert rs'[j] == rs[j];
      } else if j < i + k {
        assert rs'[j] == sub[j - i];
      } else {
        assert rs'[j] == rs[j];
      }
    }
  }

  // ---------------------------------------------------------------------------
  // The largest row count: everything expanded, nothing filtered
  // ---------------------------------------------------------------------------

  /** `open` has the sub-task lists of `nodes` with every task expanded and let through the filter. */
  ghost predicate OpenOf(open: seq<Node>, nodes: seq<Node>)
  {
    && |open| == |nodes|
    && forall t :: 0 <= t < |nodes| ==> open[t] == Node(nodes[t].children, true, true)
  }

  /** The all-open tree of `nodes`. */
  function AllOpen(nodes: seq<Node>): (open: seq<Node>)
    ensures OpenOf(open, nodes)
  {
    seq(|nodes|, t requires 0 <= t < |nodes| => Node(nodes[t].children, true, true))
  }

  lemma OpenRanked(nodes: seq<Node>, open: seq<Node>, rank: seq<nat>)
    requires Ranked(nodes, rank) && OpenOf(open, nodes)
    ensures Ranked(open, rank)
  {
    assert forall t :: 0 <= t < |nodes| ==> open[t].children == nodes[t].children;
  }

  /** No expand state and no filter setting writes more rows for a task than the all-open tree. */
  lemma {:induction false} CountBelowOpen(nodes: seq<Node>, open: seq<Node>, rank: seq<nat>, t: nat, pe: bool)
    requires Ranked(nodes, rank) && OpenOf(open, nodes) && t < |nodes|
    ensures Ranked(open, rank)
    ensures Count(nodes, rank, t, pe) <= Count(open, rank, t, true)
    decreases rank[t], 1
  {
    OpenRanked(nodes, open, rank);
    if nodes[t].shown && pe {
      CountListBelowOpen(nodes, open, rank, nodes[t].children, rank[t], nodes[t].expanded);
    }
  }

  lemma {:induction false} CountListBelowOpen(nodes: seq<Node>, open: seq<Node>, rank: seq<nat>, ts: seq<nat>, bound: nat, pe: bool)
    requires Ranked(nodes, rank) && OpenOf(open, nodes) && Below(nodes, rank, ts, bound)
    ensures Ranked(open, rank) && Below(open, rank, ts, bound)
    ensures CountList(nodes, rank, ts, bound, pe) <= CountList(open, rank, ts, bound, true)
    decreases bound, 0, |ts|
  {
    OpenRanked(nodes, open, rank);
    if ts != [] {
      CountListBelowOpen(nodes, open, rank, ts[..|ts| - 1], bound, pe);
      CountBelowOpen(nodes, open, rank, ts[|ts| - 1], pe);
    }
  }

  /** The all-open tree forgets flags and sub-task order, so reordering sub-tasks keeps its row count. */
  lemma OpenSameShape(nodes: seq<Node>, open: seq<Node>, nodes': seq<Node>, open': seq<Node>, rank: seq<nat>, ts: seq<nat>, ts': seq<nat>)
    requires Ranked(nodes, rank) && Below(nodes, rank, ts, |nodes|)
    requires OpenOf(open, nodes) && OpenOf(open', nodes') && |nodes'| == |nodes|
    requires forall t :: 0 <= t < |nodes| ==> multiset(nodes'[t].children) == multiset(nodes[t].children)
    requires multiset(ts') == multiset(ts)
    ensures Ranked(open', rank) && Below(open', rank, ts', |nodes|)
    ensures Ranked(open, rank) && Below(open, rank, ts, |nodes|)
    ensures CountList(open', rank, ts', |nodes|, true) == CountList(open, rank, ts, |nodes|, true)
  {
    OpenRanked(nodes, open, rank);
    assert SameShape(open, open');
    CountListPermutation(open, rank, ts, ts', |nodes|, true);
    CountListSameShape(open, open', rank, ts', |nodes|, true);
  }

  /** The number of rows of ts[..i] never exceeds that of ts. */
  lemma CountListPrefix(nodes: seq<Node>, rank: seq<nat>, ts: seq<nat>, i: nat, bound: nat, pe: bool)
    requires Ranked(nodes, rank) && Below(nodes, rank, ts, bound) && i <= |ts|
    ensures Below(nodes, rank, ts[..i], bound) && Below(nodes, rank, ts[i..], bound)
    ensures CountList(nodes, rank, ts[..i], bound, pe) + CountList(nodes, rank, ts[i..], bound, pe) == CountList(nodes, rank, ts, bound, pe)
  {
    assert ts == ts[..i] + ts[i..];
    CountListAppend(nodes, rank, ts[..i], ts[i..], bound, pe);
  }

  // ---------------------------------------------------------------------------
  // Two small trees
  // ---------------------------------------------------------------------------

  function ChainNodes(): seq<Node>
  {
    [Node([1], true, true), Node([2], true, true), Node([], true, true)]
  }

  lemma FlattenSingleton(nodes: seq<Node>, rank: seq<nat>, t: nat, bound: nat, pe: bool, level: nat)
    requires Ranked(nodes, rank) && t < |nodes| && rank[t] < bound
    ensures FlattenList(nodes, rank, [t], bound, pe, level) == Flatten(nodes, rank, t, pe, level)
  {
    assert [t][..0] == [];
  }

  lemma VisibleSingleton(nodes: seq<Node>, t: nat)
    requires t < |nodes|
    ensures Visible(nodes, [t]) == if nodes[t].shown then 1 else 0
  {
    assert [t][..0] == [];
  }

  /**
   * A chain A > B > C, all expanded and active: A's row counts one visible
   * sub-task although two rows follow it, since only direct sub-tasks count.
   */
  lemma ChainCountsDirectSubTasks()
    ensures Ranked(ChainNodes(), [2, 1, 0])
    ensures FlattenTop(ChainNodes(), [2, 1, 0], [0]) == [Row(0, 0, 1, true), Row(1, 1, 1, true), Row(2, 2, 0, true)]
  {
    var nodes, rank := ChainNodes(), [2, 1, 0];
    assert Ranked(nodes, rank);
    var c := Flatten(nodes, rank, 2, true, 2);
    assert c == [Row(2, 2, 0, true)];
    FlattenSingleton(nodes, rank, 2, 1, true, 2);
    VisibleSingleton(nodes, 2);
    var b := Flatten(nodes, rank, 1, true, 1);
    assert b == [Row(1, 1, 1, true)] + c;
    FlattenSingleton(nodes, rank, 1, 2, true, 1);
    VisibleSingleton(nodes, 1);
    var a := Flatten(nodes, rank, 0, true, 0);
    assert a == [Row(0, 0, 1, true)] + b;
    FlattenSingleton(nodes, rank, 0, 3, true, 0);
  }

  function FilterNodes(): seq<Node>
  {
    [Node([1, 2], true, true), Node([3], true, false), Node([], true, true), Node([], true, true)]
  }

  lemma FilterNodesRanked()
    ensures Ranked(FilterNodes(), [2, 1, 0, 0])
  {
  }

  /** The shape of the filter example that its rows depend on. */
  ghost predicate FilterShape(nodes: seq<Node>, rank: seq<nat>)
  {
    && Ranked(nodes, rank) && |nodes| == 4 && rank == [2, 1, 0, 0]
    && nodes[0] == Node([1, 2], true, true) && !nodes[1].shown && nodes[2] == Node([], true, true)
  }

  /** Under A, the inactive B contributes no rows and the active C one row. */
  lemma FilteredSubTaskRows(nodes: seq<Node>, rank: seq<nat>)
    requires FilterShape(nodes, rank)
    ensures FlattenList(nodes, rank, [1, 2], 2, true, 1) == [Row(2, 1, 0, true)]
  {
    assert Flatten(nodes, rank, 1, true, 1) == [];
    assert Flatten(nodes, rank, 2, true, 1) == [Row(2, 1, 0, true)];
    FlattenSingleton(nodes, rank, 1, 2, true, 1);
    assert [1, 2][..1] == [1];
  }

  /** A's row counts the one visible sub-task and is followed by C's row alone. */
  lemma FilteredRootRows(nodes: seq<Node>, rank: seq<nat>)
    requires FilterShape(nodes, rank)
    ensures Flatten(nodes, rank, 0, true, 0) == [Row(0, 0, 1, true), Row(2, 1, 0, true)]
  {
    assert Visible(nodes, [1, 2]) == 1 by {
      VisibleSingleton(nodes, 1);
      assert [1, 2][..1] == [1];
    }
    FilteredSubTaskRows(nodes, rank);
  }

  /**
   * A with sub-tasks B (not active) and C (active), B with sub-task D
   * (active): B's whole subtree is skipped and A counts one visible sub-task.
   */
  lemma FilteredSubTaskSkipsItsSubtree()
    ensures Ranked(FilterNodes(), [2, 1, 0, 0])
    ensures FlattenTop(FilterNodes(), [2, 1, 0, 0], [0]) == [Row(0, 0, 1, true), Row(2, 1, 0, true)]
  {
    FilterNodesRanked();
    FilteredRootRows(FilterNodes(), [2, 1, 0, 0]);
    FlattenSingleton(FilterNodes(), [2, 1, 0, 0], 0, 4, true, 0);
  }
}

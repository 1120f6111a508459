/**
 * The specification of the lazy sort pass (src/task_list.cpp:713-735): the
 * walk back to a top-level row, when a row is due, the in-place rewrite of
 * one row's subtree, and the ghost log of re-sorted rows that says, row by
 * row, what the pass over the visible range leaves behind. The pass itself
 * is a method of `TaskList.TaskList`, proved against these predicates.
 */
module LazyPass {
  import opened Wrappers
  import opened Records
  import opened Sorting
  import opened Comparators
  import opened TaskTree

  /** The nearest row at or before row i with nesting level 0, or row 0 when there is none. */
  function TopLevelRowAtOrBefore(rs: seq<Row>, i: nat): (r: nat)
    requires i == 0 || i < |rs|
    ensures r <= i
    ensures r == 0 || rs[r].level == 0
    ensures forall j :: r < j <= i ==> rs[j].level != 0
  {
    if i == 0 || rs[i].level == 0 then i else TopLevelRowAtOrBefore(rs, i - 1)
  }

  /** The lazy pass's test: the row's task is expanded, the row is flagged, and it counts more than one visible sub-task. */
  predicate LazySortDue(row: Row, expanded: seq<bool>)
  {
    row.task < |expanded| && expanded[row.task] && row.needsSubTaskSort && row.numVisibleSubTasks > 1
  }

  /** The rows after row r's slot is rewritten with `sub` and row r's flag is cleared. */
  function Resorted(rs: seq<Row>, r: nat, sub: seq<Row>): (rs': seq<Row>)
    requires r < |rs| && r + |sub| <= |rs|
    ensures |rs'| == |rs|
    ensures forall j :: 0 <= j < |rs| && j != r && (j < r || r + |sub| <= j) ==> rs'[j] == rs[j]
    ensures forall j :: r < j < r + |sub| ==> rs'[j] == sub[j - r]
    ensures rs'[r] == (if sub == [] then rs[r] else sub[0]).(needsSubTaskSort := false)
  {
    var written := rs[..r] + sub + rs[r + |sub|..];
    written[r := written[r].(needsSubTaskSort := false)]
  }

  /** The slot rewritten in place and then the flag cleared: what Resorted describes. */
  lemma RewriteIsResorted(before: seq<Row>, mid: seq<Row>, after: seq<Row>, r: nat, sub: seq<Row>)
    requires r < |before| == |mid| && r + |sub| <= |before| && mid[r..r + |sub|] == sub
    requires forall j :: 0 <= j < |mid| && (j < r || r + |sub| <= j) ==> mid[j] == before[j]
    requires after == mid[r := mid[r].(needsSubTaskSort := false)]
    ensures after == Resorted(before, r, sub)
  {
    var rs' := Resorted(before, r, sub);
    forall j | 0 <= j < |after| ensures after[j] == rs'[j] {
      if r < j < r + |sub| {
        assert mid[j] == mid[r..r + |sub|][j - r];
      } else if j == r && sub != [] {
        assert mid[r] == mid[r..r + |sub|][0];
      }
    }
  }

  /** Re-sorting row r of rows whose slots fit keeps every slot fitting. */
  lemma ResortedSlotsFit(nodes: seq<Node>, rank: seq<nat>, rs: seq<Row>, length: nat, r: nat)
    requires r < length <= |rs| && SlotsFit(nodes, rank, rs[..length])
    ensures rs[r].task < |nodes| && r + Count(nodes, rank, rs[r].task, true) <= length
    ensures SlotsFit(nodes, rank, Resorted(rs, r, Flatten(nodes, rank, rs[r].task, true, rs[r].level))[..length])
  {
    var a := rs[..length];
    assert a[r] == rs[r];
    var sub := Flatten(nodes, rank, rs[r].task, true, rs[r].level);
    var w := a[..r] + sub + a[r + |sub|..];
    RewriteKeepsSlots(nodes, rank, a, r, w);
    var v := Resorted(rs, r, sub)[..length];
    forall j | 0 <= j < length ensures v[j].task == w[j].task {
      if j < r {
        assert w[j] == a[j];
      } else if j < r + |sub| {
        assert w[j] == sub[j - r];
      } else {
        assert w[j] == a[j];
      }
    }
  }

  /**
   * The lazy pass's rows so far: the rows before `from` as they were in
   * `rs0`, and no row of [from, row) still due a sort.
   */
  ghost predicate LazyPassed(rs0: seq<Row>, rs: seq<Row>, expanded: seq<bool>, from: nat, row: nat)
  {
    && |rs| == |rs0| && from <= row <= |rs|
    && (forall j :: 0 <= j < from ==> rs[j] == rs0[j])
    && (forall j :: from <= j < row ==> !LazySortDue(rs[j], expanded))
  }

  /** A row left alone because it was not due, or re-sorted, extends the lazy pass by one row. */
  lemma LazyPassedStep(rs0: seq<Row>, rs: seq<Row>, rs': seq<Row>, expanded: seq<bool>, from: nat, row: nat, sub: seq<Row>)
    requires LazyPassed(rs0, rs, expanded, from, row) && row < |rs|
    requires if LazySortDue(rs[row], expanded) then row + |sub| <= |rs| && rs' == Resorted(rs, row, sub) else rs' == rs
    ensures LazyPassed(rs0, rs', expanded, from, row + 1)
  {
  }

  /**
   * One re-sort of the lazy pass: the row, its task and nesting level, the
   * end of the slot its subtree rewrite filled, and the rows it wrote there.
   */
  datatype RowResort = RowResort(row: nat, task: nat, level: nat, end: nat, written: seq<Row>)

  /**
   * Row `row`'s re-sort: its task's sub-task list sorted by `cmp` from
   * `nodes` to `nodes'`, its slot rewritten in `rs'` with the task's
   * flattening in `nodes'` from the row's level and its flag cleared, and
   * its entry appended to the log.
   */
  ghost predicate ResortedRow(rs: seq<Row>, rs': seq<Row>, nodes: seq<Node>, nodes': seq<Node>, rank: seq<nat>,
                              cmp: (nat, nat) -> int, row: nat, log: seq<RowResort>, log': seq<RowResort>)
  {
    && row < |rs| && rs[row].task < |nodes| && Ranked(nodes', rank)
    && nodes' == nodes[rs[row].task := nodes[rs[row].task].(children := Sort(cmp, nodes[rs[row].task].children))]
    && row + Count(nodes', rank, rs[row].task, true) <= |rs|
    && rs' == Resorted(rs, row, Flatten(nodes', rank, rs[row].task, true, rs[row].level))
    && log' == log + [ResortEntry(nodes', rank, rs[row], row)]
  }

  /** The entry a due row's re-sort adds to the log, given the tree after its sort. */
  ghost function ResortEntry(nodes: seq<Node>, rank: seq<nat>, r: Row, row: nat): (e: RowResort)
    requires Ranked(nodes, rank) && r.task < |nodes|
    ensures e.row == row && e.task == r.task && e.level == r.level
    ensures e.written == Cleared(Flatten(nodes, rank, r.task, true, r.level)) && e.end == row + |e.written|
  {
    var sub := Flatten(nodes, rank, r.task, true, r.level);
    RowResort(row, r.task, r.level, row + |sub|, Cleared(sub))
  }

  /** Rewritten rows with the flag of the first one cleared, as the pass leaves the row it re-sorted. */
  function Cleared(sub: seq<Row>): (c: seq<Row>)
    ensures |c| == |sub|
    ensures forall j :: 0 < j < |sub| ==> c[j] == sub[j]
    ensures sub != [] ==> c[0] == sub[0].(needsSubTaskSort := false)
  {
    if sub == [] then [] else [sub[0].(needsSubTaskSort := false)] + sub[1..]
  }

  function Tasks(log: seq<RowResort>): (ts: seq<nat>)
    ensures |ts| == |log| && forall k :: 0 <= k < |log| ==> ts[k] == log[k].task
  {
    if log == [] then [] else Tasks(log[..|log| - 1]) + [log[|log| - 1].task]
  }

  /** Row j is the row of a logged re-sort. */
  ghost predicate Logged(log: seq<RowResort>, j: nat)
  {
    exists k :: 0 <= k < |log| && log[k].row == j
  }

  /** Row j is the row of entry e or lies in the slot e's rewrite filled. */
  predicate Touches(e: RowResort, j: nat)
  {
    e.row <= j && (j == e.row || j < e.end)
  }

  /** A re-sort logged after entry k touched row j. */
  ghost predicate TouchedAfter(log: seq<RowResort>, k: nat, j: nat)
  {
    exists k' :: k < k' < |log| && Touches(log[k'], j)
  }

  /** Every row of a logged slot that no later re-sort touched holds what that entry's rewrite wrote there. */
  ghost predicate LogRows(rs: seq<Row>, log: seq<RowResort>)
  {
    && (forall k :: 0 <= k < |log| ==> log[k].end == log[k].row + |log[k].written|)
    && (forall k, i :: 0 <= k < |log| && 0 <= i < |log[k].written| && log[k].row + i < |rs| && !TouchedAfter(log, k, log[k].row + i) ==>
          rs[log[k].row + i] == log[k].written[i])
  }

  /**
   * Entry e's written rows are its task flattened from e's level in the tree
   * `nodes` as it stood right after e's sort, its own row's flag cleared.
   */
  ghost predicate Snapshot(nodes: seq<Node>, rank: seq<nat>, e: RowResort)
  {
    && Ranked(nodes, rank) && e.task < |nodes|
    && e.written == Cleared(Flatten(nodes, rank, e.task, true, e.level))
  }

  /** Each entry's rows were written from the tree after the sorts logged up to and including it. */
  ghost predicate LogSnapshots(nodes0: seq<Node>, rank: seq<nat>, cmp: (nat, nat) -> int, log: seq<RowResort>)
    decreases |log|
  {
    log == [] ||
      (LogSnapshots(nodes0, rank, cmp, log[..|log| - 1]) && Snapshot(SortEach(nodes0, Tasks(log), cmp), rank, log[|log| - 1]))
  }

  /** Row j lies below a logged row, inside the slot its subtree rewrite filled. */
  ghost predicate Rewritten(log: seq<RowResort>, j: nat)
  {
    exists k :: 0 <= k < |log| && log[k].row < j < log[k].end
  }

  /** Each task of ts in turn has its sub-task list sorted by cmp. */
  function SortEach(nodes: seq<Node>, ts: seq<nat>, cmp: (nat, nat) -> int): (nodes': seq<Node>)
    ensures |nodes'| == |nodes|
  {
    if ts == [] then nodes
    else
      var before := SortEach(nodes, ts[..|ts| - 1], cmp);
      var t := ts[|ts| - 1];
      if t < |before| then before[t := before[t].(children := Sort(cmp, before[t].children))] else before
  }

  /** Sorting lists in turn keeps every flag and every list's sub-tasks. */
  lemma {:induction false} SortEachKeepsShape(nodes: seq<Node>, ts: seq<nat>, cmp: (nat, nat) -> int)
    ensures SameShape(nodes, SortEach(nodes, ts, cmp))
  {
    if ts == [] {
      SameShapeReflexive(nodes);
    } else {
      var before := SortEach(nodes, ts[..|ts| - 1], cmp);
      SortEachKeepsShape(nodes, ts[..|ts| - 1], cmp);
      if ts[|ts| - 1] < |before| {
        SortKeepsShape(before, ts[|ts| - 1], cmp);
        SameShapeTransitive(nodes, before, SortEach(nodes, ts, cmp));
      }
    }
  }

  /**
   * A task that was sorted at least once, under a comparator that is a total
   * preorder on its sub-tasks, ends with a sorted list; a task never sorted
   * keeps its list.
   */
  lemma {:induction false} SortEachSorts(nodes: seq<Node>, ts: seq<nat>, cmp: (nat, nat) -> int, u: nat)
    requires u < |nodes|
    ensures u !in ts ==> SortEach(nodes, ts, cmp)[u] == nodes[u]
    ensures u in ts && ValidOn(cmp, nodes[u].children) ==> Sorted(cmp, SortEach(nodes, ts, cmp)[u].children)
  {
    if ts != [] {
      var init := ts[..|ts| - 1];
      var before := SortEach(nodes, init, cmp);
      SortEachSorts(nodes, init, cmp, u);
      assert u in ts <==> u in init || u == ts[|ts| - 1] by {
        assert ts == init + [ts[|ts| - 1]];
      }
      if u == ts[|ts| - 1] && ValidOn(cmp, nodes[u].children) {
        SortEachKeepsShape(nodes, init, cmp);
        SameElements(nodes[u].children, before[u].children);
        SortSorted(cmp, before[u].children);
      }
    }
  }

  lemma SameElements(a: seq<nat>, b: seq<nat>)
    requires multiset(a) == multiset(b)
    ensures Elements(a) == Elements(b)
  {
    forall x ensures x in a <==> x in b {
      assert x in a <==> x in multiset(a);
      assert x in b <==> x in multiset(b);
    }
  }

  /**
   * The lazy pass up to `row`, against the rows `rs0` and tree `nodes0` it
   * started from: `nodes` is `nodes0` with the logged tasks sorted in turn,
   * and the log, the due rows, the untouched rows and the rewritten rows are
   * as LogEntries, LogDue, LogFrame, LogRows and LogSnapshots say.
   */
  ghost predicate LazyLogged(rs0: seq<Row>, rs: seq<Row>, nodes0: seq<Node>, nodes: seq<Node>, rank: seq<nat>,
                             expanded: seq<bool>, cmp: (nat, nat) -> int, from: nat, row: nat, log: seq<RowResort>)
  {
    && LazyPassed(rs0, rs, expanded, from, row)
    && LogEntries(rs, nodes, rank, from, row, log)
    && nodes == SortEach(nodes0, Tasks(log), cmp)
    && LogDue(rs0, expanded, from, row, log)
    && LogFrame(rs0, rs, log)
    && LogRows(rs, log)
    && LogSnapshots(nodes0, rank, cmp, log)
  }

  /**
   * Each logged row, in increasing order inside [from, row), still names its
   * task at its level, and its slot ends after the task's row count.
   */
  ghost predicate LogEntries(rs: seq<Row>, nodes: seq<Node>, rank: seq<nat>, from: nat, row: nat, log: seq<RowResort>)
  {
    && Ranked(nodes, rank)
    && (forall k :: 0 <= k < |log| ==>
          && from <= log[k].row < row && log[k].row < |rs|
          && rs[log[k].row].task == log[k].task && rs[log[k].row].level == log[k].level
          && log[k].task < |nodes|
          && log[k].end == log[k].row + Count(nodes, rank, log[k].task, true))
    && (forall k :: 0 < k < |log| ==> log[k - 1].row < log[k].row)
  }

  /** A row of [from, row) that no rewrite reached is logged exactly when it was due. */
  ghost predicate LogDue(rs0: seq<Row>, expanded: seq<bool>, from: nat, row: nat, log: seq<RowResort>)
  {
    forall j :: from <= j < row && j < |rs0| && !Rewritten(log, j) ==> (Logged(log, j) <==> LazySortDue(rs0[j], expanded))
  }

  /** A row neither logged nor rewritten is as it was. */
  ghost predicate LogFrame(rs0: seq<Row>, rs: seq<Row>, log: seq<RowResort>)
  {
    |rs| == |rs0| && forall j :: 0 <= j < |rs| && !Logged(log, j) && !Rewritten(log, j) ==> rs[j] == rs0[j]
  }

  /**
   * What the lazy pass over [from, last) leaves, against the rows `rs0` and
   * tree `nodes0` it started from. `nodes` is `nodes0` with the logged tasks'
   * sub-task lists sorted in turn. Each logged row lies in [from, last), in
   * increasing order, names its task and level, and its rewritten slot ends
   * after the task's row count (LogEntries). A row of [from, last) that no
   * rewrite reached was re-sorted exactly when it was due (LogDue). A row
   * neither logged nor rewritten is as it was (LogFrame), and so is every
   * row before `from`. A row of a logged slot that no later re-sort touched
   * holds what that entry wrote (LogRows): its task's flattening in the tree
   * right after its sort, with its own flag cleared (LogSnapshots). No row of
   * [from, last) is still due.
   */
  ghost predicate LazyPassDone(rs0: seq<Row>, rs: seq<Row>, nodes0: seq<Node>, nodes: seq<Node>, rank: seq<nat>,
                               expanded: seq<bool>, cmp: (nat, nat) -> int, from: nat, last: nat, log: seq<RowResort>)
  {
    && |rs| == |rs0|
    && LogEntries(rs, nodes, rank, from, last, log)
    && nodes == SortEach(nodes0, Tasks(log), cmp)
    && LogDue(rs0, expanded, from, last, log)
    && LogFrame(rs0, rs, log)
    && LogRows(rs, log)
    && LogSnapshots(nodes0, rank, cmp, log)
    && (forall j :: 0 <= j < from && j < |rs| ==> rs[j] == rs0[j])
    && (forall j :: from <= j < last && j < |rs| ==> !LazySortDue(rs[j], expanded))
  }

  /** The lazy pass's state: the rows, the tree, and the log of re-sorts so far. */
  datatype Pass = Pass(rs: seq<Row>, nodes: seq<Node>, log: seq<RowResort>)

  /**
   * Row r's turn as a function of the state: a due row whose task's subtree,
   * with the task's sub-tasks sorted by cmp, fits below it has the sub-tasks
   * sorted, its slot rewritten and its flag cleared, and its entry logged;
   * any other row leaves the state as it was.
   */
  ghost function LazyStep(p: Pass, rank: seq<nat>, expanded: seq<bool>, cmp: (nat, nat) -> int, r: nat): (p': Pass)
    ensures |p'.rs| == |p.rs|
  {
    if r < |p.rs| && LazySortDue(p.rs[r], expanded) && p.rs[r].task < |p.nodes| then
      var t := p.rs[r].task;
      var nodes' := p.nodes[t := p.nodes[t].(children := Sort(cmp, p.nodes[t].children))];
      if Ranked(nodes', rank) && r + Count(nodes', rank, t, true) <= |p.rs| then
        Pass(Resorted(p.rs, r, Flatten(nodes', rank, t, true, p.rs[r].level)), nodes', p.log + [ResortEntry(nodes', rank, p.rs[r], r)])
      else p
    else p
  }

  /** The lazy pass from row `from` up to `row` as a function: the rows' turns in order, from the rows and tree it started with. */
  ghost function LazyRun(rs0: seq<Row>, nodes0: seq<Node>, rank: seq<nat>, expanded: seq<bool>, cmp: (nat, nat) -> int,
                         from: nat, row: nat): (p: Pass)
    ensures |p.rs| == |rs0|
    decreases row
  {
    if row <= from then Pass(rs0, nodes0, [])
    else LazyStep(LazyRun(rs0, nodes0, rank, expanded, cmp, from, row - 1), rank, expanded, cmp, row - 1)
  }

  /**
   * Starting from rows whose slots fit the tree, the lazy pass up to `row`
   * is logged as LazyLogged says, and its rows still fit its tree.
   */
  lemma {:induction false} LazyRunLogged(rs0: seq<Row>, nodes0: seq<Node>, rank: seq<nat>, expanded: seq<bool>, cmp: (nat, nat) -> int,
                                         from: nat, row: nat, length: nat)
    requires from <= row <= length <= |rs0| && SlotsFit(nodes0, rank, rs0[..length])
    ensures var p := LazyRun(rs0, nodes0, rank, expanded, cmp, from, row);
      && LazyLogged(rs0, p.rs, nodes0, p.nodes, rank, expanded, cmp, from, row, p.log)
      && SlotsFit(p.nodes, rank, p.rs[..length])
    decreases row
  {
    if row == from {
      LazyLoggedStart(rs0, nodes0, rank, expanded, cmp, from);
    } else {
      var r := row - 1;
      var p := LazyRun(rs0, nodes0, rank, expanded, cmp, from, r);
      LazyRunLogged(rs0, nodes0, rank, expanded, cmp, from, r, length);
      assert LazyRun(rs0, nodes0, rank, expanded, cmp, from, row) == LazyStep(p, rank, expanded, cmp, r);
      LazyStepLogged(rs0, nodes0, rank, expanded, cmp, from, r, length, p);
    }
  }

  /** Row r's turn, on a state logged up to r whose rows fit its tree, extends the log to r + 1 and keeps the rows fitting. */
  lemma LazyStepLogged(rs0: seq<Row>, nodes0: seq<Node>, rank: seq<nat>, expanded: seq<bool>, cmp: (nat, nat) -> int,
                       from: nat, r: nat, length: nat, p: Pass)
    requires r < length <= |p.rs| && SlotsFit(p.nodes, rank, p.rs[..length])
    requires LazyLogged(rs0, p.rs, nodes0, p.nodes, rank, expanded, cmp, from, r, p.log)
    ensures var p' := LazyStep(p, rank, expanded, cmp, r);
      && LazyLogged(rs0, p'.rs, nodes0, p'.nodes, rank, expanded, cmp, from, r + 1, p'.log)
      && SlotsFit(p'.nodes, rank, p'.rs[..length])
  {
    if LazySortDue(p.rs[r], expanded) {
      ResortedSlotsFit(p.nodes, rank, p.rs, length, r);
      var t := p.rs[r].task;
      var nodes' := p.nodes[t := p.nodes[t].(children := Sort(cmp, p.nodes[t].children))];
      ResortKeepsSlots(p.nodes, rank, t, cmp, p.rs[..length], nodes');
      ResortedSlotsFit(nodes', rank, p.rs, length, r);
      var rs' := Resorted(p.rs, r, Flatten(nodes', rank, t, true, p.rs[r].level));
      var log' := LazyLogResorted(rs0, p.rs, rs', nodes0, p.nodes, nodes', rank, expanded, cmp, from, r, p.log);
      assert LazyStep(p, rank, expanded, cmp, r) == Pass(rs', nodes', log');
    } else {
      LazyLogSkipped(rs0, p.rs, nodes0, p.nodes, rank, expanded, cmp, from, r, p.log);
    }
  }

  /** Starting from rows whose slots fit the tree, the lazy pass over [from, last) leaves what LazyPassDone says. */
  lemma LazyRunDone(rs0: seq<Row>, nodes0: seq<Node>, rank: seq<nat>, expanded: seq<bool>, cmp: (nat, nat) -> int,
                    from: nat, last: nat, length: nat)
    requires from <= length <= |rs0| && last <= length && SlotsFit(nodes0, rank, rs0[..length])
    ensures var p := LazyRun(rs0, nodes0, rank, expanded, cmp, from, if last < from then from else last);
      LazyPassDone(rs0, p.rs, nodes0, p.nodes, rank, expanded, cmp, from, last, p.log)
  {
    var end := if last < from then from else last;
    LazyRunLogged(rs0, nodes0, rank, expanded, cmp, from, end, length);
    var p := LazyRun(rs0, nodes0, rank, expanded, cmp, from, end);
    LazyLoggedDone(rs0, p.rs, nodes0, p.nodes, rank, expanded, cmp, from, end, last, p.log);
  }

  lemma LazyLoggedStart(rs: seq<Row>, nodes: seq<Node>, rank: seq<nat>, expanded: seq<bool>, cmp: (nat, nat) -> int, from: nat)
    requires Ranked(nodes, rank) && from <= |rs|
    ensures LazyLogged(rs, rs, nodes, nodes, rank, expanded, cmp, from, from, [])
  {
    assert Tasks([]) == [];
  }

  /** Once the pass reaches `last` (or starts past it), the log says what LazyPassDone says. */
  lemma LazyLoggedDone(rs0: seq<Row>, rs: seq<Row>, nodes0: seq<Node>, nodes: seq<Node>, rank: seq<nat>,
                       expanded: seq<bool>, cmp: (nat, nat) -> int, from: nat, row: nat, last: nat, log: seq<RowResort>)
    requires LazyLogged(rs0, rs, nodes0, nodes, rank, expanded, cmp, from, row, log)
    requires row == if last < from then from else last
    ensures LazyPassDone(rs0, rs, nodes0, nodes, rank, expanded, cmp, from, last, log)
  {
  }

  /** A due row's turn: its re-sort joins the log. */
  lemma LazyLogResorted(rs0: seq<Row>, rs: seq<Row>, rs': seq<Row>, nodes0: seq<Node>, nodes: seq<Node>, nodes': seq<Node>,
                        rank: seq<nat>, expanded: seq<bool>, cmp: (nat, nat) -> int, from: nat, row: nat, log: seq<RowResort>)
    returns (log': seq<RowResort>)
    requires LazyLogged(rs0, rs, nodes0, nodes, rank, expanded, cmp, from, row, log)
    requires row < |rs| && rs[row].task < |nodes| && Ranked(nodes', rank) && LazySortDue(rs[row], expanded)
    requires nodes' == nodes[rs[row].task := nodes[rs[row].task].(children := Sort(cmp, nodes[rs[row].task].children))]
    requires row + Count(nodes', rank, rs[row].task, true) <= |rs|
    requires rs' == Resorted(rs, row, Flatten(nodes', rank, rs[row].task, true, rs[row].level))
    ensures ResortedRow(rs, rs', nodes, nodes', rank, cmp, row, log, log')
    ensures LazyLogged(rs0, rs', nodes0, nodes', rank, expanded, cmp, from, row + 1, log')
  {
    var t := rs[row].task;
    var sub := Flatten(nodes', rank, t, true, rs[row].level);
    var e := ResortEntry(nodes', rank, rs[row], row);
    log' := log + [e];
    assert log'[..|log|] == log && log'[|log|] == e;
    assert LazyPassed(rs0, rs', expanded, from, row + 1) by {
      LazyPassedStep(rs0, rs, rs', expanded, from, row, sub);
    }
    assert LogEntries(rs', nodes', rank, from, row + 1, log') by {
      LogEntriesStep(rs, rs', nodes, nodes', rank, cmp, from, row, log, sub, log');
    }
    assert nodes' == SortEach(nodes0, Tasks(log'), cmp) by {
      TasksSnoc(log, log'[|log|]);
      SortEachSnoc(nodes0, Tasks(log), t, cmp);
    }
    assert LogDue(rs0, expanded, from, row + 1, log') by {
      LogDueStep(rs0, rs, expanded, from, row, log, log');
    }
    assert LogFrame(rs0, rs', log') by {
      LogFrameStep(rs0, rs, rs', row, log, sub, log');
    }
    assert LogRows(rs', log') by {
      LogRowsStep(rs, rs', row, log, sub, log');
    }
    assert LogSnapshots(nodes0, rank, cmp, log') by {
      LogSnapshotsStep(nodes0, nodes', rank, cmp, log, e, log');
    }
  }

  /** A row's turn when it is not due: the log stays, and the pass moves on. */
  lemma LazyLogSkipped(rs0: seq<Row>, rs: seq<Row>, nodes0: seq<Node>, nodes: seq<Node>, rank: seq<nat>,
                       expanded: seq<bool>, cmp: (nat, nat) -> int, from: nat, row: nat, log: seq<RowResort>)
    requires LazyLogged(rs0, rs, nodes0, nodes, rank, expanded, cmp, from, row, log)
    requires row < |rs| && !LazySortDue(rs[row], expanded)
    ensures LazyLogged(rs0, rs, nodes0, nodes, rank, expanded, cmp, from, row + 1, log)
  {
    assert LazyPassed(rs0, rs, expanded, from, row + 1) by {
      LazyPassedStep(rs0, rs, rs, expanded, from, row, []);
    }
    assert LogEntries(rs, nodes, rank, from, row + 1, log) by {
      LogEntriesWiden(rs, nodes, rank, from, row, log);
    }
    assert LogDue(rs0, expanded, from, row + 1, log) by {
      LogDueStep(rs0, rs, expanded, from, row, log, log);
    }
  }

  lemma LogEntriesWiden(rs: seq<Row>, nodes: seq<Node>, rank: seq<nat>, from: nat, row: nat, log: seq<RowResort>)
    requires LogEntries(rs, nodes, rank, from, row, log)
    ensures LogEntries(rs, nodes, rank, from, row + 1, log)
  {
  }

  lemma TasksSnoc(log: seq<RowResort>, e: RowResort)
    ensures Tasks(log + [e]) == Tasks(log) + [e.task]
  {
    assert (log + [e])[..|log|] == log;
  }

  lemma SortEachSnoc(nodes: seq<Node>, ts: seq<nat>, t: nat, cmp: (nat, nat) -> int)
    requires t < |nodes|
    ensures var before := SortEach(nodes, ts, cmp);
      SortEach(nodes, ts + [t], cmp) == before[t := before[t].(children := Sort(cmp, before[t].children))]
  {
    assert (ts + [t])[..|ts|] == ts;
  }

  /** The re-sorted row joins the log: it names its task, and earlier slots keep their ends. */
  lemma LogEntriesStep(rs: seq<Row>, rs': seq<Row>, nodes: seq<Node>, nodes': seq<Node>, rank: seq<nat>,
                       cmp: (nat, nat) -> int, from: nat, row: nat, log: seq<RowResort>, sub: seq<Row>, log': seq<RowResort>)
    requires LogEntries(rs, nodes, rank, from, row, log) && from <= row < |rs|
    requires rs[row].task < |nodes| && Ranked(nodes', rank)
    requires nodes' == nodes[rs[row].task := nodes[rs[row].task].(children := Sort(cmp, nodes[rs[row].task].children))]
    requires sub == Flatten(nodes', rank, rs[row].task, true, rs[row].level)
    requires row + |sub| <= |rs| && rs' == Resorted(rs, row, sub)
    requires |log'| == |log| + 1 && log'[..|log|] == log
    requires log'[|log|].row == row && log'[|log|].task == rs[row].task && log'[|log|].level == rs[row].level
    requires log'[|log|].end == row + |sub|
    ensures LogEntries(rs', nodes', rank, from, row + 1, log')
  {
    var t := rs[row].task;
    SortKeepsShape(nodes, t, cmp);
    FlattenRows(nodes', rank, t, true, rs[row].level);
    assert rs'[row].task == t && rs'[row].level == rs[row].level;
    forall k | 0 <= k < |log| ensures log'[k] == log[k] {
      assert log'[k] == log'[..|log|][k];
    }
    forall k | 0 <= k < |log'|
      ensures from <= log'[k].row < row + 1 && log'[k].row < |rs'|
      ensures rs'[log'[k].row].task == log'[k].task && rs'[log'[k].row].level == log'[k].level
      ensures log'[k].task < |nodes'| && log'[k].end == log'[k].row + Count(nodes', rank, log'[k].task, true)
    {
      if k < |log| {
        CountSameShape(nodes, nodes', rank, log[k].task, true);
        assert rs'[log[k].row] == rs[log[k].row];
      }
    }
    forall k | 0 < k < |log'| ensures log'[k - 1].row < log'[k].row {
      assert log'[k - 1] == log[k - 1];
    }
  }

  /** The due-row equivalence carries over one more row, logged or not. */
  lemma LogDueStep(rs0: seq<Row>, rs: seq<Row>, expanded: seq<bool>, from: nat, row: nat, log: seq<RowResort>, log': seq<RowResort>)
    requires LogDue(rs0, expanded, from, row, log) && LogFrame(rs0, rs, log) && row < |rs|
    requires forall k :: 0 <= k < |log| ==> log[k].row < row
    requires if LazySortDue(rs[row], expanded) then |log'| == |log| + 1 && log'[..|log|] == log && log'[|log|].row == row
      else log' == log
    ensures LogDue(rs0, expanded, from, row + 1, log')
  {
    assert !Logged(log, row);
    forall k | 0 <= k < |log| ensures log'[k] == log[k] {
      if log' != log {
        assert log'[k] == log'[..|log|][k];
      }
    }
    forall j | from <= j < row + 1 && j < |rs0| && !Rewritten(log', j)
      ensures Logged(log', j) <==> LazySortDue(rs0[j], expanded)
    {
      assert !Rewritten(log, j);
      if j < row {
        assert Logged(log', j) ==> Logged(log, j);
      } else if LazySortDue(rs[row], expanded) {
        assert log'[|log|].row == j;
      }
    }
  }

  /** Rows outside the rewritten slot keep their values, so the untouched rows stay as they were. */
  lemma LogFrameStep(rs0: seq<Row>, rs: seq<Row>, rs': seq<Row>, row: nat, log: seq<RowResort>, sub: seq<Row>, log': seq<RowResort>)
    requires LogFrame(rs0, rs, log) && row < |rs| && row + |sub| <= |rs| && rs' == Resorted(rs, row, sub)
    requires |log'| == |log| + 1 && log'[..|log|] == log && log'[|log|].row == row && log'[|log|].end == row + |sub|
    ensures LogFrame(rs0, rs', log')
  {
    forall j | 0 <= j < |rs'| && !Logged(log', j) && !Rewritten(log', j)
      ensures rs'[j] == rs0[j]
    {
      assert !Logged(log, j) && !Rewritten(log, j) by {
        forall k | 0 <= k < |log| ensures log'[k] == log[k] {
          assert log'[k] == log'[..|log|][k];
        }
      }
    }
  }

  /** The new entry's slot holds what the rewrite wrote, and earlier slots lose only the rows it touched. */
  lemma LogRowsStep(rs: seq<Row>, rs': seq<Row>, row: nat, log: seq<RowResort>, sub: seq<Row>, log': seq<RowResort>)
    requires LogRows(rs, log) && row < |rs| && row + |sub| <= |rs| && rs' == Resorted(rs, row, sub)
    requires |log'| == |log| + 1 && log'[..|log|] == log
    requires log'[|log|].row == row && log'[|log|].end == row + |sub| && log'[|log|].written == Cleared(sub)
    ensures LogRows(rs', log')
  {
    var e := log'[|log|];
    forall k | 0 <= k < |log| ensures log'[k] == log[k] {
      assert log'[k] == log'[..|log|][k];
    }
    forall k, i | 0 <= k < |log'| && 0 <= i < |log'[k].written| && log'[k].row + i < |rs'| && !TouchedAfter(log', k, log'[k].row + i)
      ensures rs'[log'[k].row + i] == log'[k].written[i]
    {
      var j := log'[k].row + i;
      if k < |log| {
        assert !Touches(e, j);
        assert !TouchedAfter(log, k, j);
      }
    }
  }

  /** The new entry was written from the tree after its own sort; earlier entries keep their snapshots. */
  lemma LogSnapshotsStep(nodes0: seq<Node>, nodes': seq<Node>, rank: seq<nat>, cmp: (nat, nat) -> int,
                         log: seq<RowResort>, e: RowResort, log': seq<RowResort>)
    requires LogSnapshots(nodes0, rank, cmp, log) && log' == log + [e]
    requires nodes' == SortEach(nodes0, Tasks(log'), cmp) && Snapshot(nodes', rank, e)
    ensures LogSnapshots(nodes0, rank, cmp, log')
  {
    assert log'[..|log'| - 1] == log;
  }

  /** Sorting one task's sub-task list changes no flag and keeps every list's sub-tasks. */
  /** Sorting one task's sub-task list keeps every row slot in place. */
  lemma ResortKeepsSlots(nodes: seq<Node>, rank: seq<nat>, t: nat, cmp: (nat, nat) -> int, rs: seq<Row>, nodes': seq<Node>)
    requires SlotsFit(nodes, rank, rs) && t < |nodes|
    requires nodes' == nodes[t := nodes[t].(children := Sort(cmp, nodes[t].children))]
    ensures SlotsFit(nodes', rank, rs)
  {
    SortPermutes(cmp, nodes[t].children);
    assert SameShape(nodes, nodes');
    SlotsSameShape(nodes, nodes', rank, rs);
  }

  lemma SortKeepsShape(nodes: seq<Node>, t: nat, cmp: (nat, nat) -> int)
    requires t < |nodes|
    ensures SameShape(nodes, nodes[t := nodes[t].(children := Sort(cmp, nodes[t].children))])
  {
    SortPermutes(cmp, nodes[t].children);
  }

  lemma SameShapeReflexive(nodes: seq<Node>)
    ensures SameShape(nodes, nodes)
  {
  }

  lemma SameShapeTransitive(a: seq<Node>, b: seq<Node>, c: seq<Node>)
    requires SameShape(a, b) && SameShape(b, c)
    ensures SameShape(a, c)
  {
  }
}

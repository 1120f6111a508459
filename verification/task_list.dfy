/**
 * The task list's global state (src/task_list.cpp:76-112) as one object:
 * the task store with its Sorted_Folder_Task fields, the sub-task slab, the
 * top-level list, the flattened row buffer and the sort state. Every
 * operation that the source runs on these globals is a method here; the
 * registries it consults and the current folder id are parameters. The
 * folder header itself is `FolderHeaders.FolderHeader`.
 */
module TaskList {
  import opened Wrappers
  import opened Records
  import opened Users
  import opened Sorting
  import opened Comparators
  import opened Relations
  import opened TaskTree
  import opened Ingestion
  import opened LazyPass

  /** The same tasks and sub-task lists, with the filter flags the cached statuses give. */
  function Reflagged(nodes: seq<Node>, statuses: seq<Option<Status>>, showOnlyActive: bool): (nodes': seq<Node>)
    requires |statuses| == |nodes|
    ensures |nodes'| == |nodes|
    ensures forall t :: 0 <= t < |nodes| ==> nodes'[t] == Node(nodes[t].children, nodes[t].expanded, Shown(statuses, showOnlyActive, t))
  {
    seq(|nodes|, t requires 0 <= t < |nodes| => Node(nodes[t].children, nodes[t].expanded, Shown(statuses, showOnlyActive, t)))
  }

  /** New cached statuses: the tree with the filter flags they give is the tree the fields describe. */
  lemma ReflaggedTreeOf(nodes: seq<Node>, slab: seq<nat>, start: seq<nat>, sizes: seq<nat>, expanded: seq<bool>,
                        statuses: seq<Option<Status>>, statuses': seq<Option<Status>>, showOnlyActive: bool)
    requires TreeOf(nodes, slab, start, sizes, expanded, statuses, showOnlyActive) && |statuses'| == |statuses|
    ensures TreeOf(Reflagged(nodes, statuses', showOnlyActive), slab, start, sizes, expanded, statuses', showOnlyActive)
  {
  }

  /** The tree the flattener walks: each task's slab range, expand flag and filter flag. */
  function MakeNodes(slab: seq<nat>, start: seq<nat>, sizes: seq<nat>, expanded: seq<bool>, shown: seq<bool>): (nodes: seq<Node>)
    requires |start| == |sizes| == |expanded| == |shown|
    requires forall p :: 0 <= p < |start| ==> start[p] + sizes[p] <= |slab|
    ensures |nodes| == |start|
    ensures forall t :: 0 <= t < |start| ==>
      nodes[t] == Node(slab[start[t]..start[t] + sizes[t]], expanded[t], shown[t])
  {
    seq(|start|, t requires 0 <= t < |start| => Node(slab[start[t]..start[t] + sizes[t]], expanded[t], shown[t]))
  }

  /** The filter: task u passes unless only active tasks are shown and its cached status is not in the Active group. */
  predicate Shown(statuses: seq<Option<Status>>, showOnlyActive: bool, u: nat)
    requires u < |statuses|
  {
    !showOnlyActive || (statuses[u].Some? && statuses[u].value.group == Active)
  }

  /**
   * Node u is task u's slab range [start[u], start[u] + sizes[u]), its
   * expand flag and its filter flag, for every task u.
   */
  ghost predicate TreeOf(nodes: seq<Node>, slab: seq<nat>, start: seq<nat>, sizes: seq<nat>, expanded: seq<bool>,
                         statuses: seq<Option<Status>>, showOnlyActive: bool)
  {
    && |start| == |nodes| && |sizes| == |nodes| && |expanded| == |nodes| && |statuses| == |nodes|
    && forall u :: 0 <= u < |nodes| ==>
         && start[u] + sizes[u] <= |slab|
         && nodes[u] == Node(slab[start[u]..start[u] + sizes[u]], expanded[u], Shown(statuses, showOnlyActive, u))
  }

  class TaskList {
    // folder_tasks, and the Sorted_Folder_Task fields of the same index
    var tasks: seq<FolderTask>
    var statuses: seq<Option<Status>>
    var firstAssignees: seq<Option<User>>
    var expanded: seq<bool>
    var start: seq<nat>
    var sizes: seq<nat>
    var slab: seq<nat>
    var top: seq<nat>

    // flattened_sorted_folder_task_tree
    var rows: array<Row>
    var length: nat

    /** sort_field, sort_direction, sort_custom_field_id and sort_custom_field. */
    var sort: SortState
    var sortedAfterLoading: bool
    var showOnlyActive: bool
    var queueRebuild: bool

    /** string_atoi, which the numeric custom-field comparison calls. */
    const atoi: seq<char> -> int

    /** A rank that drops from every task to each of its sub-tasks: superTaskIds are acyclic. */
    ghost var rank: seq<nat>

    /** The task tree the fields describe: each task's slab range, expand flag and filter flag. */
    ghost var tree: seq<Node>

    /** The same tree with every task expanded and shown: the most rows any state can write. */
    ghost var openTree: seq<Node>

    /** One entry per task in every per-task sequence, and every sub-task range inside a slab of |slab'| entries. */
    ghost predicate ShapedWith(slab': seq<nat>)
      reads this`tasks, this`statuses, this`firstAssignees, this`expanded, this`start, this`sizes, this`rank
    {
      var n := |tasks|;
      && |statuses| == n && |firstAssignees| == n && |expanded| == n
      && |start| == n && |sizes| == n && |rank| == n
      && forall p :: 0 <= p < n ==> start[p] + sizes[p] <= |slab'|
    }

    ghost predicate Shaped()
      reads this`tasks, this`statuses, this`firstAssignees, this`expanded, this`start, this`sizes, this`rank, this`slab
    {
      ShapedWith(slab)
    }

    /** The filter of rebuild_flattened_task_tree_hierarchically, on the current flag and statuses. */
    predicate ShownAt(u: nat)
      requires u < |statuses|
      reads this`statuses, this`showOnlyActive
    {
      Shown(statuses, showOnlyActive, u)
    }

    /** `nodes` is the tree the task fields describe over the slab `slab'`. */
    ghost predicate DescribesWith(nodes: seq<Node>, slab': seq<nat>)
      reads this`tasks, this`statuses, this`expanded, this`start, this`sizes, this`showOnlyActive
    {
      |nodes| == |tasks| && TreeOf(nodes, slab', start, sizes, expanded, statuses, showOnlyActive)
    }

    /** `nodes` is the tree the task fields describe. */
    ghost predicate Describes(nodes: seq<Node>)
      reads this`tasks, this`statuses, this`expanded, this`start, this`sizes, this`slab, this`showOnlyActive
    {
      DescribesWith(nodes, slab)
    }

    /** The fields describe `tree'` over `slab'`, and the full row count of `tree'` fits the row buffer. */
    ghost predicate TreeWith(slab': seq<nat>, tree': seq<Node>, open': seq<Node>)
      reads this`tasks, this`statuses, this`firstAssignees, this`expanded, this`start, this`sizes, this`rank, this`showOnlyActive
      reads this`top, this`rows
    {
      ShapedWith(slab') && DescribesWith(tree', slab') && TreeFits(tree', open', rank, top, rows.Length)
    }

    ghost predicate Tree()
      reads this`tasks, this`statuses, this`firstAssignees, this`expanded, this`start, this`sizes, this`rank, this`slab, this`showOnlyActive
      reads this`tree, this`openTree, this`top, this`rows
    {
      TreeWith(slab, tree, openTree)
    }

    predicate AllStatusesCached()
      reads this`statuses
    {
      forall t :: 0 <= t < |statuses| ==> statuses[t].Some?
    }

    /** Sub-task ranges are disjoint slices of `slab'` and every entry of it names a task. */
    ghost predicate SlabCarvedWith(slab': seq<nat>)
      reads this`tasks, this`start, this`sizes
    {
      && Carved(sizes, start, |slab'|)
      && (forall j :: 0 <= j < |slab'| ==> slab'[j] < |tasks|)
    }

    ghost predicate SlabCarved()
      reads this`tasks, this`start, this`sizes, this`slab
    {
      SlabCarvedWith(slab)
    }

    /** A custom-field sort has found its field, and once sorted after loading there is a sort field. */
    predicate SortFieldKnown()
      reads this`sort, this`sortedAfterLoading
    {
      && (sort.field == ByCustomField ==> sort.customField.Some?)
      && (sortedAfterLoading ==> sort.field != Unsorted)
    }

    /**
     * Once sorted after loading, every status is cached, the rows name tasks
     * and, unless a rebuild is queued, every row's subtree in `tree'` still
     * fits before the end of the rows.
     */
    ghost predicate RowsSettledWith(tree': seq<Node>)
      reads this`sortedAfterLoading, this`statuses, this`length, this`rows, rows
      reads this`tasks, this`queueRebuild, this`rank
    {
      sortedAfterLoading ==>
        && AllStatusesCached()
        && length <= rows.Length
        && (forall j :: 0 <= j < length ==> rows[j].task < |tasks|)
        && (!queueRebuild ==> SlotsFit(tree', rank, rows[..length]))
    }

    ghost predicate RowsSettled()
      reads this`sortedAfterLoading, this`statuses, this`length, this`rows, rows
      reads this`tasks, this`queueRebuild, this`tree, this`rank
    {
      RowsSettledWith(tree)
    }

    /** Settled, for the slab, tree and all-open tree given. */
    ghost predicate SettledWith(slab': seq<nat>, tree': seq<Node>, open': seq<Node>)
      reads this`tasks, this`statuses, this`firstAssignees, this`expanded, this`start, this`sizes, this`rank, this`showOnlyActive
      reads this`top, this`rows, this`sortedAfterLoading, this`length, this`queueRebuild, rows
    {
      TreeWith(slab', tree', open') && SlabCarvedWith(slab') && RowsSettledWith(tree')
    }

    /**
     * The fields describe an acyclic tree whose fully expanded, unfiltered
     * row count fits the row buffer, and the rows are settled once the first
     * sort has run. None of this reads the sort globals.
     */
    ghost predicate Settled()
      reads this`tasks, this`statuses, this`firstAssignees, this`expanded, this`start, this`sizes, this`rank, this`slab, this`showOnlyActive
      reads this`tree, this`openTree, this`top, this`rows, this`sortedAfterLoading, this`length, this`queueRebuild, rows
    {
      SettledWith(slab, tree, openTree)
    }

    /**
     * The globals as the program starts: no tasks, no rows, no sort field,
     * the normal direction, not yet sorted, only active tasks shown and no
     * rebuild queued.
     */
    constructor(atoi: seq<char> -> int)
      ensures Valid()
      ensures tasks == [] && slab == [] && top == [] && length == 0 && tree == []
      ensures sort == SortState(Unsorted, Normal, 0, None)
      ensures !sortedAfterLoading && showOnlyActive && !queueRebuild
      ensures this.atoi == atoi
    {
      tasks, statuses, firstAssignees, expanded := [], [], [], [];
      start, sizes, slab, top := [], [], [], [];
      rows := new Row[0];
      length := 0;
      sort := SortState(Unsorted, Normal, 0, None);
      sortedAfterLoading, showOnlyActive, queueRebuild := false, true, false;
      this.atoi := atoi;
      rank, tree, openTree := [], [], [];
    }

    /** The state between frames. */
    ghost predicate Valid()
      reads this`tasks, this`statuses, this`firstAssignees, this`expanded, this`start, this`sizes, this`rank, this`slab, this`showOnlyActive
      reads this`tree, this`openTree, this`top, this`rows, this`sort, this`sortedAfterLoading
      reads this`length, this`queueRebuild, rows
    {
      Settled() && SortFieldKnown()
    }

    /** The rows a full rebuild writes for the current tree. */
    ghost function FullRows(): seq<Row>
      requires Ranked(tree, rank) && InRange(tree, top)
      reads this`tree, this`rank, this`top
    {
      FlattenTop(tree, rank, top)
    }

    // -------------------------------------------------------------------------
    // Flattening
    // -------------------------------------------------------------------------

    /**
     * rebuild_flattened_task_tree_hierarchically: write task t's row and,
     * below an expanded task, its sub-tasks' rows, from `cursor` on. Returns
     * whether t passed the filter and where the cursor ends.
     */
    method RebuildHierarchically(t: nat, parentExpanded: bool, level: nat, cursor: nat, ghost nodes: seq<Node>, ghost ranks: seq<nat>)
      returns (visible: nat, next: nat)
      requires Shaped() && Describes(nodes) && Ranked(nodes, ranks) && t < |nodes|
      requires cursor + Count(nodes, ranks, t, parentExpanded) <= rows.Length
      modifies rows
      decreases ranks[t], 1
      ensures next == cursor + Count(nodes, ranks, t, parentExpanded)
      ensures rows[cursor..next] == Flatten(nodes, ranks, t, parentExpanded, level)
      ensures forall j :: 0 <= j < rows.Length && (j < cursor || next <= j) ==> rows[j] == old(rows[j])
      ensures visible == if nodes[t].shown then 1 else 0
    {
      NodeFields(nodes, ranks, t, level);
      if showOnlyActive && (statuses[t].None? || statuses[t].value.group != Active) {
        return 0, cursor;
      }
      visible := 1;
      if !parentExpanded {
        return visible, cursor;
      }
      var subTasks, isExpanded := slab[start[t]..start[t] + sizes[t]], expanded[t];
      ghost var entry := rows[..];
      rows[cursor] := Row(t, level, 0, true);
      next := cursor + 1;
      assert subTasks[..0] == [];
      var i := 0;
      while i < |subTasks|
        invariant i <= |subTasks|
        invariant Progress(nodes, ranks, rows[..], entry, t, level, subTasks, i, isExpanded, cursor, next)
      {
        next := RebuildSubTask(t, subTasks, i, level, isExpanded, cursor, next, nodes, ranks, entry);
        i := i + 1;
      }
      assert subTasks[..i] == subTasks;
      WrittenWhole(rows[..], entry, cursor, next,
        Row(t, level, Visible(nodes, subTasks), true),
        FlattenList(nodes, ranks, subTasks, ranks[t], isExpanded, level + 1));
    }

    /**
     * One turn of the sub-task loop: sub-task i's rows go at `next`, and the
     * parent's num_visible_sub_tasks grows by what the call returns.
     */
    method RebuildSubTask(t: nat, subTasks: seq<nat>, i: nat, level: nat, isExpanded: bool, cursor: nat, next: nat,
                          ghost nodes: seq<Node>, ghost ranks: seq<nat>, ghost entry: seq<Row>)
      returns (after: nat)
      requires Shaped() && Describes(nodes) && Ranked(nodes, ranks) && t < |nodes|
      requires Below(nodes, ranks, subTasks, ranks[t]) && i < |subTasks|
      requires Progress(nodes, ranks, rows[..], entry, t, level, subTasks, i, isExpanded, cursor, next)
      requires cursor + 1 + CountList(nodes, ranks, subTasks, ranks[t], isExpanded) <= rows.Length
      modifies rows
      decreases ranks[t], 0
      ensures Progress(nodes, ranks, rows[..], entry, t, level, subTasks, i + 1, isExpanded, cursor, after)
    {
      ListStep(nodes, ranks, subTasks, i, ranks[t], isExpanded, level + 1);
      ghost var before := rows[..];
      var v;
      v, after := RebuildHierarchically(subTasks[i], isExpanded, level + 1, next, nodes, ranks);
      ghost var mid := rows[..];
      rows[cursor] := rows[cursor].(numVisibleSubTasks := rows[cursor].numVisibleSubTasks + v);
      WrittenStep(entry, before, mid, rows[..], cursor, next, after,
        Row(t, level, Visible(nodes, subTasks[..i]), true),
        FlattenList(nodes, ranks, subTasks[..i], ranks[t], isExpanded, level + 1),
        Flatten(nodes, ranks, subTasks[i], isExpanded, level + 1), v);
    }

    /** What the tree says of task t is what the task's fields hold. */
    lemma NodeFields(nodes: seq<Node>, ranks: seq<nat>, t: nat, level: nat)
      requires Shaped() && Describes(nodes) && Ranked(nodes, ranks) && t < |nodes|
      ensures nodes[t].children == slab[start[t]..start[t] + sizes[t]] && nodes[t].expanded == expanded[t]
      ensures Below(nodes, ranks, nodes[t].children, ranks[t])
      ensures nodes[t].shown ==> Count(nodes, ranks, t, true) == 1 + CountList(nodes, ranks, nodes[t].children, ranks[t], expanded[t])
      ensures nodes[t].shown ==>
        Flatten(nodes, ranks, t, true, level) ==
        [Row(t, level, Visible(nodes, nodes[t].children), true)] + FlattenList(nodes, ranks, nodes[t].children, ranks[t], expanded[t], level + 1)
      ensures nodes[t].shown == ShownAt(t)
    {
    }

    /** rebuild_flattened_task_tree: every top-level task from row 0, then the length is the rows written. */
    method RebuildFlattenedTaskTree()
      requires Shaped() && Describes(tree) && Ranked(tree, rank) && InRange(tree, top)
      requires CountList(tree, rank, top, |tree|, true) <= rows.Length
      modifies this`length, rows
      ensures length <= rows.Length
      ensures rows[..length] == FullRows()
    {
      ghost var nodes, ranks := tree, rank;
      var cursor := 0;
      var i := 0;
      assert top[..0] == [];
      while i < |top|
        modifies rows
        invariant i <= |top|
        invariant TopProgress(nodes, ranks, rows[..], top, i, cursor)
      {
        cursor := RebuildTopTask(i, cursor, nodes, ranks);
        i := i + 1;
      }
      assert top[..i] == top;
      length := cursor;
    }

    /** One turn of the top-level loop: top-level task i's rows go at the cursor. */
    method RebuildTopTask(i: nat, cursor: nat, ghost nodes: seq<Node>, ghost ranks: seq<nat>) returns (next: nat)
      requires Shaped() && Describes(nodes) && i < |top|
      requires TopProgress(nodes, ranks, rows[..], top, i, cursor)
      modifies rows
      ensures TopProgress(nodes, ranks, rows[..], top, i + 1, next)
    {
      ghost var before := rows[..];
      ListStep(nodes, ranks, top, i, |nodes|, true, 0);
      var _, after := RebuildHierarchically(top[i], true, 0, cursor, nodes, ranks);
      next := after;
      TopStep(nodes, ranks, before, rows[..], top, i, cursor, next);
    }

    /**
     * rebuild_flattened_task_subtree: rewrite row r's subtree in place from
     * row r, at r's nesting level, with the current sub-task order.
     */
    method RebuildFlattenedTaskSubtree(r: nat)
      requires Shaped() && Describes(tree) && Ranked(tree, rank)
      requires r < rows.Length && rows[r].task < |tree|
      requires r + Count(tree, rank, rows[r].task, true) <= rows.Length
      modifies rows
      ensures rows[r..r + Count(tree, rank, old(rows[r]).task, true)] == Flatten(tree, rank, old(rows[r]).task, true, old(rows[r]).level)
      ensures forall j :: 0 <= j < rows.Length && (j < r || r + Count(tree, rank, old(rows[r]).task, true) <= j) ==> rows[j] == old(rows[j])
    {
      var _, _ := RebuildHierarchically(rows[r].task, true, rows[r].level, r, tree, rank);
    }

    // -------------------------------------------------------------------------
    // Sorting
    // -------------------------------------------------------------------------

    /** The sort globals the comparators read. */
    function Context(): SortContext
      reads this`sort
    {
      SortContext(sort.field, sort.direction, sort.customFieldId,
        if sort.customField.Some? then sort.customField.value.kind else OtherFieldType, atoi)
    }

    /** get_comparator_by_current_sort_type, over task indices. */
    function Order(): (nat, nat) -> int
      requires |statuses| == |tasks| && |firstAssignees| == |tasks|
      reads this`tasks, this`statuses, this`firstAssignees, this`sort
    {
      TaskOrder(Context(), tasks, statuses, firstAssignees)
    }

    /** update_cached_data_for_sorted_tasks: look up every task's status and first assignee again. */
    method UpdateCachedDataForSortedTasks(statusRegistry: map<int, Status>, users: map<int, User>)
      requires Tree()
      modifies this`statuses, this`firstAssignees, this`tree
      ensures StatusesFrom(statuses, tasks, statusRegistry) && AssigneesFrom(firstAssignees, tasks, users)
      ensures (forall t :: 0 <= t < |tasks| ==> tasks[t].customStatusId in statusRegistry) ==> AllStatusesCached()
      ensures Tree()
    {
      var index := 0;
      while index < |tasks|
        modifies this`statuses, this`firstAssignees
        invariant index <= |tasks| && |statuses| == |tasks| && |firstAssignees| == |tasks|
        invariant forall t :: 0 <= t < index ==> statuses[t] == Lookup(statusRegistry, tasks[t].customStatusId)
        invariant forall t :: 0 <= t < index ==> firstAssignees[t] == FirstAssignee(tasks[t], users)
      {
        statuses := statuses[index := Lookup(statusRegistry, tasks[index].customStatusId)];
        if |tasks[index].assignees| != 0 {
          firstAssignees := firstAssignees[index := Lookup(users, tasks[index].assignees[0])];
        } else {
          firstAssignees := firstAssignees[index := None];
        }
        index := index + 1;
      }
      ReflaggedTreeOf(tree, slab, start, sizes, expanded, old(statuses), statuses, showOnlyActive);
      tree := Reflagged(tree, statuses, showOnlyActive);
      FlagsKeepFits(old(tree), tree, openTree, rank, top, rows.Length);
    }

    /** sort_top_level_tasks_and_rebuild_flattened_tree */
    method SortTopLevelAndRebuild()
      requires Tree() && SlabCarved() && SortFieldKnown()
      requires sortedAfterLoading ==> AllStatusesCached()
      modifies this`top, this`length, rows
      ensures Valid()
      ensures top == Sort(Order(), old(top))
      ensures length <= rows.Length && rows[..length] == FullRows()
      ensures SlotsFit(tree, rank, rows[..length])
    {
      SortedTopFits(tree, openTree, rank, top, rows.Length, Order());
      top := Sort(Order(), top);
      RebuildFlattenedTaskTree();
      FullRebuildHasSlots(tree, rank, top);
      FreshRowsSettle();
    }

    /** Rows a full rebuild has just written leave the state valid. */
    lemma FreshRowsSettle()
      requires Tree() && SlabCarved() && SortFieldKnown()
      requires sortedAfterLoading ==> AllStatusesCached()
      requires length <= rows.Length && SlotsFit(tree, rank, rows[..length])
      ensures Valid()
    {
      SlotsNameTasks(tree, rank, rows[..length]);
    }

    /**
     * The shared tail of sort_by_field and sort_by_custom_field: the cached
     * statuses and first assignees are looked up again, then the top-level
     * list is sorted under the current sort state and flattened again.
     * update_cached_data_for_sorted_tasks reads none of the sort globals, so
     * setting them before it, as the callers here do, changes nothing.
     */
    method Resort(statusRegistry: map<int, Status>, users: map<int, User>)
      requires Valid() && sort.field != Unsorted
      requires forall t :: 0 <= t < |tasks| ==> tasks[t].customStatusId in statusRegistry
      modifies this`statuses, this`firstAssignees, this`tree, this`top, this`length, rows
      ensures Valid()
      ensures StatusesFrom(statuses, tasks, statusRegistry) && AssigneesFrom(firstAssignees, tasks, users)
      ensures AllStatusesCached()
      ensures top == Sort(Order(), old(top))
      ensures length <= rows.Length && rows[..length] == FullRows()
    {
      UpdateCachedDataForSortedTasks(statusRegistry, users);
      SortTopLevelAndRebuild();
    }

    /**
     * sort_by_field for title, status or assignee: choosing the current
     * field again flips the direction, another field starts Normal. The
     * custom field id is left as it was.
     */
    method SortByField(field: SortField, statusRegistry: map<int, Status>, users: map<int, User>)
      requires Valid()
      requires field == ByTitle || field == ByStatus || field == ByAssignee
      requires forall t :: 0 <= t < |tasks| ==> tasks[t].customStatusId in statusRegistry
      modifies this`sort, this`statuses, this`firstAssignees, this`tree, this`top, this`length, rows
      ensures Valid()
      ensures sort.direction == if old(sort.field) == field then Flip(old(sort.direction)) else Normal
      ensures sort.field == field
      ensures sort.customFieldId == old(sort.customFieldId) && sort.customField == old(sort.customField)
      ensures StatusesFrom(statuses, tasks, statusRegistry) && AssigneesFrom(firstAssignees, tasks, users)
      ensures AllStatusesCached()
      ensures top == Sort(Order(), old(top))
      ensures length <= rows.Length && rows[..length] == FullRows()
    {
      var dir := if sort.field == field then Flip(sort.direction) else Normal;
      sort := sort.(field := field, direction := dir);
      Resort(statusRegistry, users);
    }

    /**
     * sort_by_custom_field: the direction flips only when the custom field
     * is already the sort field and the id is the same one; the field is
     * then looked up by its id.
     */
    method SortByCustomField(fieldId: int, fields: map<int, CustomField>, statusRegistry: map<int, Status>, users: map<int, User>)
      requires Valid()
      requires fieldId in fields
      requires forall t :: 0 <= t < |tasks| ==> tasks[t].customStatusId in statusRegistry
      modifies this`sort, this`statuses, this`firstAssignees, this`tree, this`top, this`length, rows
      ensures Valid()
      ensures sort.direction == if old(sort.field) == ByCustomField && fieldId == old(sort.customFieldId) then Flip(old(sort.direction)) else Normal
      ensures sort.field == ByCustomField && sort.customFieldId == fieldId && sort.customField == Some(fields[fieldId])
      ensures StatusesFrom(statuses, tasks, statusRegistry) && AssigneesFrom(firstAssignees, tasks, users)
      ensures AllStatusesCached()
      ensures top == Sort(Order(), old(top))
      ensures length <= rows.Length && rows[..length] == FullRows()
    {
      var flip := sort.field == ByCustomField && fieldId == sort.customFieldId;
      var dir := if flip then Flip(sort.direction) else Normal;
      sort := SortState(ByCustomField, dir, fieldId, Lookup(fields, fieldId));
      Resort(statusRegistry, users);
    }

    /** The first frame after loading sorts by title, once. */
    method EnsureSortedAfterLoading(statusRegistry: map<int, Status>, users: map<int, User>)
      requires Valid()
      requires forall t :: 0 <= t < |tasks| ==> tasks[t].customStatusId in statusRegistry
      modifies this`sort, this`statuses, this`firstAssignees, this`tree, this`top, this`length, rows, this`sortedAfterLoading
      ensures Valid() && sortedAfterLoading
      ensures old(sortedAfterLoading) ==> unchanged(this) && unchanged(rows)
      ensures !old(sortedAfterLoading) ==>
        && sort.field == ByTitle
        && sort.direction == (if old(sort.field) == ByTitle then Flip(old(sort.direction)) else Normal)
        && top == Sort(Order(), old(top))
        && rows[..length] == FullRows()
    {
      if !sortedAfterLoading {
        SortByField(ByTitle, statusRegistry, users);
        sortedAfterLoading := true;
        FullRebuildHasSlots(tree, rank, top);
        FreshRowsSettle();
      }
    }

    // -------------------------------------------------------------------------
    // The per-frame passes of draw_task_list
    // -------------------------------------------------------------------------

    /**
     * sort_sub_tasks_of_task: task t's range of the sub-task slab sorted
     * under the current comparator; no other range moves.
     */
    method SortSubTasksOfTask(t: nat)
      requires Valid() && t < |tasks|
      modifies this`slab, this`tree, this`openTree
      ensures Valid()
      ensures slab == old(SortedRange(slab, start, sizes, t, Order()))
      ensures tree == old(tree[t := tree[t].(children := Sort(Order(), tree[t].children))])
    {
      var cmp := Order();
      var sorted := SortedRange(slab, start, sizes, t, cmp);
      ghost var nodes := tree[t := tree[t].(children := Sort(cmp, tree[t].children))];
      SortedRangeSettles(t, cmp, nodes);
      StoreSlab(sorted, nodes);
    }

    /** Task t's range of the slab sorted by `cmp`, and t's children sorted the same way: the state stays settled. */
    lemma SortedRangeSettles(t: nat, cmp: (nat, nat) -> int, nodes: seq<Node>)
      requires Valid() && t < |tasks|
      requires nodes == tree[t := tree[t].(children := Sort(cmp, tree[t].children))]
      ensures SettledWith(SortedRange(slab, start, sizes, t, cmp), nodes, AllOpen(nodes))
    {
      var slab' := SortedRange(slab, start, sizes, t, cmp);
      SortedRangeKeepsRanges(slab, start, sizes, t, cmp);
      SortedRangeNamesTasks(slab, start, sizes, t, cmp, |tasks|);
      assert tree[t].children == slab[start[t]..start[t] + sizes[t]];
      RangeTreeOf(tree, slab, slab', start, sizes, expanded, statuses, showOnlyActive, t, nodes);
      ResortKeepsFits(tree, openTree, rank, top, rows.Length, t, cmp, nodes);
      if sortedAfterLoading && !queueRebuild {
        ResortKeepsSlots(tree, rank, t, cmp, rows[..length], nodes);
      }
    }

    /** Writes a rearranged slab and the tree it describes, once both are known to keep the state valid. */
    method StoreSlab(slab': seq<nat>, ghost tree': seq<Node>)
      requires SettledWith(slab', tree', AllOpen(tree')) && SortFieldKnown()
      modifies this`slab, this`tree, this`openTree
      ensures slab == slab' && tree == tree' && openTree == AllOpen(tree')
      ensures Valid()
    {
      slab := slab';
      tree := tree';
      openTree := AllOpen(tree');
    }

    /**
     * The backward walk of draw_task_list: from the first visible row back
     * to the nearest row of nesting level 0, or to row 0.
     */
    method FindFirstTopLevelRow(firstVisibleRow: nat) returns (row: nat)
      requires length <= rows.Length && (firstVisibleRow == 0 || firstVisibleRow < length)
      ensures row == TopLevelRowAtOrBefore(rows[..length], firstVisibleRow)
    {
      row := firstVisibleRow;
      while row > 0 && rows[row].level != 0
        invariant row <= firstVisibleRow
        invariant TopLevelRowAtOrBefore(rows[..length], row) == TopLevelRowAtOrBefore(rows[..length], firstVisibleRow)
      {
        row := row - 1;
      }
    }

    /** The lazy pass's work on a row that is due: sort its task's sub-tasks, rewrite its subtree, clear its flag. */
    method ResortRow(r: nat)
      requires Valid() && sortedAfterLoading && !queueRebuild && r < length
      modifies this`slab, this`tree, this`openTree, rows
      ensures Valid()
      ensures var t := old(rows[r]).task;
        && slab == old(SortedRange(slab, start, sizes, t, Order()))
        && tree == old(tree[t := tree[t].(children := Sort(Order(), tree[t].children))])
        && r + Count(tree, rank, t, true) <= length
        && rows[..] == Resorted(old(rows[..]), r, Flatten(tree, rank, t, true, old(rows[r]).level))
      ensures SameShape(old(tree), tree)
      ensures Order() == old(Order())
    {
      var t := rows[r].task;
      SortKeepsShape(tree, t, Order());
      SortSubTasksOfTask(t);
      RewriteRowSubtree(r);
    }

    /** rebuild_flattened_task_subtree on row r followed by clearing r's flag, from a settled state. */
    method RewriteRowSubtree(r: nat)
      requires Valid() && sortedAfterLoading && !queueRebuild && r < length
      modifies rows
      ensures Valid()
      ensures r + Count(tree, rank, old(rows[r]).task, true) <= length
      ensures rows[..] == Resorted(old(rows[..]), r, Flatten(tree, rank, old(rows[r]).task, true, old(rows[r]).level))
    {
      ghost var before := rows[..];
      ResortedSlotsFit(tree, rank, before, length, r);
      var row := rows[r];
      ghost var sub := Flatten(tree, rank, row.task, true, row.level);
      RebuildFlattenedTaskSubtree(r);
      ghost var mid := rows[..];
      RewriteIsResorted(before, mid, mid[r := mid[r].(needsSubTaskSort := false)], r, sub);
      ClearSortFlag(r);
    }

    /** Clears row r's needs_sub_task_sort, once the rows that leaves are known to fit. */
    method ClearSortFlag(r: nat)
      requires Tree() && SlabCarved() && SortFieldKnown() && sortedAfterLoading && !queueRebuild && AllStatusesCached()
      requires r < length <= rows.Length
      requires SlotsFit(tree, rank, rows[..][r := rows[r].(needsSubTaskSort := false)][..length])
      modifies rows
      ensures rows[..] == old(rows[..][r := rows[r].(needsSubTaskSort := false)])
      ensures Valid()
    {
      rows[r] := rows[r].(needsSubTaskSort := false);
      assert rows[..length] == old(rows[..][r := rows[r].(needsSubTaskSort := false)][..length]);
      SlotsNameTasks(tree, rank, rows[..length]);
    }

    /**
     * The lazy pass of draw_task_list over the rows from the nearest
     * top-level row before the first visible row up to the last visible
     * row. The ghost `log` records each row the pass re-sorted, in row order:
     * its task, its level, and the rows its subtree rewrite wrote. The tree
     * afterwards is the old tree with the logged tasks' sub-task lists sorted
     * in turn, and each entry's rows are its task's flattening in the tree as
     * it stood right after that entry's sort; a row of an entry's slot that
     * no later entry overwrote holds the entry's row; a row of the range that
     * no rewrite reached was re-sorted exactly when it was due; every row
     * neither logged nor rewritten is as it was; and no row of the range is
     * still due.
     */
    method LazySortVisibleRows(firstVisibleRow: nat, lastVisibleRow: nat) returns (ghost log: seq<RowResort>)
      requires Valid() && sortedAfterLoading && !queueRebuild
      requires (firstVisibleRow == 0 || firstVisibleRow < length) && lastVisibleRow <= length
      modifies this`slab, this`tree, this`openTree, rows
      ensures Valid()
      ensures SameShape(old(tree), tree)
      ensures LazyPassDone(old(rows[..]), rows[..], old(tree), tree, rank, expanded, Order(),
        TopLevelRowAtOrBefore(old(rows[..length]), firstVisibleRow), lastVisibleRow, log)
    {
      var row := FindFirstTopLevelRow(firstVisibleRow);
      ghost var rs0, nodes0 := rows[..], tree;
      assert rs0[..length] == rows[..length];
      var end;
      log, end := LazyPassFrom(row, lastVisibleRow);
      LazyRunDone(rs0, nodes0, rank, expanded, Order(), row, lastVisibleRow, length);
      SortEachKeepsShape(nodes0, Tasks(log), Order());
    }

    /**
     * The lazy pass's loop over [from, last), from the top-level row it
     * starts at: the rows, the tree and the ghost log it leaves are those of
     * LazyRun, the turns of the rows it visits in order.
     */
    method LazyPassFrom(from: nat, last: nat) returns (ghost log: seq<RowResort>, end: nat)
      requires Valid() && sortedAfterLoading && !queueRebuild && from <= length && last <= length
      modifies this`slab, this`tree, this`openTree, rows
      ensures Valid() && Order() == old(Order())
      ensures end == if last < from then from else last
      ensures Pass(rows[..], tree, log) == LazyRun(old(rows[..]), old(tree), rank, expanded, Order(), from, end)
    {
      ghost var rs0, nodes0, cmp := rows[..], tree, Order();
      var row := from;
      log := [];
      while row < last
        invariant from <= row && (row <= last || row == from)
        invariant Valid() && cmp == Order()
        invariant Pass(rows[..], tree, log) == LazyRun(rs0, nodes0, rank, expanded, cmp, from, row)
      {
        log := LazyTurn(row, from, nodes0, rs0, cmp, log);
        row := row + 1;
      }
      end := row;
    }

    /**
     * One turn of the lazy pass's loop: row `row` takes its turn, and the
     * rows, the tree and the ghost log, which were LazyRun's up to `row`
     * from the rows `rows0` and tree `tree0` the pass started with, become
     * LazyRun's up to the next row.
     */
    method LazyTurn(row: nat, ghost from: nat, ghost tree0: seq<Node>, ghost rows0: seq<Row>, ghost cmp: (nat, nat) -> int,
                    ghost log: seq<RowResort>)
      returns (ghost log': seq<RowResort>)
      requires Valid() && sortedAfterLoading && !queueRebuild && from <= row < length && cmp == Order()
      requires Pass(rows[..], tree, log) == LazyRun(rows0, tree0, rank, expanded, cmp, from, row)
      modifies this`slab, this`tree, this`openTree, rows
      ensures Valid() && Order() == old(Order())
      ensures Pass(rows[..], tree, log') == LazyRun(rows0, tree0, rank, expanded, cmp, from, row + 1)
    {
      ghost var tree1, rows1 := tree, rows[..];
      LazySortRow(row);
      if LazySortDue(rows1[row], expanded) {
        log' := log + [ResortEntry(tree, rank, rows1[row], row)];
      } else {
        log' := log;
        assert rows[..] == rows1;
      }
    }

    /**
     * The body of the lazy pass's loop: an expanded row flagged for sorting
     * with more than one visible sub-task has its task's sub-tasks sorted in
     * the slab and the tree, its subtree rewritten in place from its own
     * index, and its flag cleared; any other row leaves everything as it was.
     */
    method LazySortRow(row: nat)
      requires Valid() && sortedAfterLoading && !queueRebuild && row < length
      modifies this`slab, this`tree, this`openTree, rows
      ensures Valid() && Order() == old(Order())
      ensures !LazySortDue(old(rows[row]), expanded) ==> unchanged(this) && unchanged(rows)
      ensures LazySortDue(old(rows[row]), expanded) ==>
        var t := old(rows[row]).task;
        && slab == old(SortedRange(slab, start, sizes, t, Order()))
        && tree == old(tree[t := tree[t].(children := Sort(Order(), tree[t].children))])
        && row + Count(tree, rank, t, true) <= length
        && rows[..] == Resorted(old(rows[..]), row, Flatten(tree, rank, t, true, old(rows[row]).level))
    {
      if LazySortDue(rows[row], expanded) {
        ResortRow(row);
      }
    }

    /**
     * The expand arrow of row r's title cell, drawn only when the row counts
     * a visible sub-task, clicked: the task's expand flag flips and a full
     * rebuild is queued for the end of the frame.
     */
    method ClickExpandArrow(r: nat)
      requires Valid() && sortedAfterLoading && r < length
      modifies this`expanded, this`tree, this`queueRebuild
      ensures Valid()
      ensures old(rows[r]).numVisibleSubTasks != 0 ==>
        var t := rows[r].task;
        && expanded == old(expanded[t := !expanded[t]])
        && tree == old(tree[t := tree[t].(expanded := !tree[t].expanded)])
        && queueRebuild
      ensures old(rows[r]).numVisibleSubTasks == 0 ==> unchanged(this)
    {
      var t := rows[r].task;
      if rows[r].numVisibleSubTasks != 0 {
        var flipped := expanded[t := !expanded[t]];
        ghost var nodes := tree[t := tree[t].(expanded := !tree[t].expanded)];
        ToggledSettles(t, flipped, nodes);
        StoreToggle(flipped, nodes);
      }
    }

    /** The new expand flags and the tree they give leave the state settled once a rebuild is queued. */
    lemma ToggledSettles(t: nat, flipped: seq<bool>, nodes: seq<Node>)
      requires Valid() && t < |tasks|
      requires flipped == expanded[t := !expanded[t]]
      requires nodes == tree[t := tree[t].(expanded := !tree[t].expanded)]
      ensures TreeOf(nodes, slab, start, sizes, flipped, statuses, showOnlyActive)
      ensures TreeFits(nodes, openTree, rank, top, rows.Length)
    {
      FlagsKeepFits(tree, nodes, openTree, rank, top, rows.Length);
    }

    /** Writes the flipped expand flags and their tree and queues the rebuild. */
    method StoreToggle(flipped: seq<bool>, ghost nodes: seq<Node>)
      requires Valid() && |flipped| == |expanded|
      requires TreeOf(nodes, slab, start, sizes, flipped, statuses, showOnlyActive)
      requires TreeFits(nodes, openTree, rank, top, rows.Length)
      modifies this`expanded, this`tree, this`queueRebuild
      ensures expanded == flipped && tree == nodes && queueRebuild
      ensures Valid()
    {
      expanded := flipped;
      tree := nodes;
      queueRebuild := true;
    }

    // -------------------------------------------------------------------------
    // Loading
    // -------------------------------------------------------------------------

    /**
     * process_folder_contents_data: every object is decoded into the slot of
     * its index; the row buffer is reallocated to the batch size when the
     * batch is larger than the old store; each task starts collapsed with
     * no sub-tasks; the relations are built for `folder`, with `index` the
     * id map the id_hash_map_put calls leave; and the batch awaits its first
     * sort. The cached statuses and first assignees of reused slots are
     * left as they were, and the rest are empty. The ghost tree is the
     * loaded one, every task collapsed, and its fully expanded twin.
     */
    method ProcessFolderContents(objects: seq<seq<TaskProperty>>, folder: int, index: map<int, nat>, ghost rank': seq<nat>)
      requires SortFieldKnown() && |rank'| == |objects|
      requires forall i :: 0 <= i < |objects| ==> ArraysOnce(objects[i])
      requires IdIndex(index, DecodedBatch(objects, tasks))
      modifies this`tasks, this`statuses, this`firstAssignees, this`expanded, this`start, this`sizes, this`slab, this`top
      modifies this`rows, this`sortedAfterLoading, this`rank, this`tree, this`openTree
      ensures tasks == DecodedBatch(objects, old(tasks))
      ensures RelationsOf(tasks, index, folder, top, start, sizes, slab)
      ensures expanded == Collapsed(|tasks|) && !sortedAfterLoading && rank == rank'
      ensures statuses == KeptOrEmpty(old(statuses), |objects|) && firstAssignees == KeptOrEmpty(old(firstAssignees), |objects|)
      ensures tree == LoadedTree(slab, start, sizes, statuses, showOnlyActive) && openTree == AllOpen(tree)
      ensures if old(|tasks|) < |objects| then fresh(rows) && rows.Length == |objects| else rows == old(rows)
      ensures Acyclic(SuperIdsOf(tasks), index, rank) ==> Ranked(tree, rank) && Ranked(openTree, rank)
      ensures TreeFits(tree, openTree, rank, top, rows.Length) ==> Valid()
    {
      var batch := DecodeBatch(objects, tasks);
      LoadBatch(batch, folder, index, rank');
    }

    /** process_folder_contents_data once the objects are decoded: the row buffer, the relations and the stores. */
    method LoadBatch(batch: seq<FolderTask>, folder: int, index: map<int, nat>, ghost rank': seq<nat>)
      requires SortFieldKnown() && |rank'| == |batch| && IndexInRange(index, |batch|)
      modifies this`tasks, this`statuses, this`firstAssignees, this`expanded, this`start, this`sizes, this`slab, this`top
      modifies this`rows, this`sortedAfterLoading, this`rank, this`tree, this`openTree
      ensures tasks == batch && RelationsOf(batch, index, folder, top, start, sizes, slab)
      ensures expanded == Collapsed(|batch|) && !sortedAfterLoading && rank == rank'
      ensures statuses == KeptOrEmpty(old(statuses), |batch|) && firstAssignees == KeptOrEmpty(old(firstAssignees), |batch|)
      ensures tree == LoadedTree(slab, start, sizes, statuses, showOnlyActive) && openTree == AllOpen(tree)
      ensures if old(|tasks|) < |batch| then fresh(rows) && rows.Length == |batch| else rows == old(rows)
      ensures Acyclic(SuperIdsOf(batch), index, rank) ==> Ranked(tree, rank) && Ranked(openTree, rank)
      ensures TreeFits(tree, openTree, rank, top, rows.Length) ==> Valid()
    {
      var top', start', sizes', slab' := Relate(batch, index, folder);
      if |tasks| < |batch| {
        rows := new Row[|batch|];
      }
      LoadedRanked(batch, index, folder, rank', top', start', sizes', slab', KeptOrEmpty(statuses, |batch|), showOnlyActive);
      StoreBatch(batch, top', start', sizes', slab', rank');
    }

    /**
     * The stores of process_folder_contents_data: the decoded batch and its
     * relations; every task collapsed; the cached statuses and first
     * assignees of reused slots kept and the rest empty; the first sort due.
     */
    method StoreBatch(batch: seq<FolderTask>, top': seq<nat>, start': seq<nat>, sizes': seq<nat>, slab': seq<nat>, ghost rank': seq<nat>)
      requires SortFieldKnown()
      requires |start'| == |batch| && |sizes'| == |batch| && |rank'| == |batch|
      requires Carved(sizes', start', |slab'|) && forall j :: 0 <= j < |slab'| ==> slab'[j] < |batch|
      modifies this`tasks, this`statuses, this`firstAssignees, this`expanded, this`start, this`sizes, this`slab, this`top
      modifies this`sortedAfterLoading, this`rank, this`tree, this`openTree
      ensures tasks == batch && top == top' && start == start' && sizes == sizes' && slab == slab' && rank == rank'
      ensures expanded == Collapsed(|batch|) && !sortedAfterLoading
      ensures statuses == KeptOrEmpty(old(statuses), |batch|) && firstAssignees == KeptOrEmpty(old(firstAssignees), |batch|)
      ensures tree == LoadedTree(slab, start, sizes, statuses, showOnlyActive) && openTree == AllOpen(tree)
      ensures TreeFits(tree, openTree, rank, top, rows.Length) ==> Valid()
    {
      StoreRecords(batch);
      ghost var tree' := LoadedTree(slab', start', sizes', statuses, showOnlyActive);
      StoreRelations(top', start', sizes', slab', rank', tree');
      if TreeFits(tree, openTree, rank, top, rows.Length) {
        LoadedSettles();
      }
    }

    /** The record stores: the batch, every task collapsed, the caches resized, the first sort due. */
    method StoreRecords(batch: seq<FolderTask>)
      modifies this`tasks, this`statuses, this`firstAssignees, this`expanded, this`sortedAfterLoading
      ensures tasks == batch && expanded == Collapsed(|batch|) && !sortedAfterLoading
      ensures statuses == KeptOrEmpty(old(statuses), |batch|) && firstAssignees == KeptOrEmpty(old(firstAssignees), |batch|)
    {
      tasks, statuses, firstAssignees := batch, KeptOrEmpty(statuses, |batch|), KeptOrEmpty(firstAssignees, |batch|);
      expanded, sortedAfterLoading := Collapsed(|batch|), false;
    }

    /** The relation stores: the top-level list, the sub-task ranges and the tree they describe. */
    method StoreRelations(top': seq<nat>, start': seq<nat>, sizes': seq<nat>, slab': seq<nat>, ghost rank': seq<nat>, ghost tree': seq<Node>)
      modifies this`start, this`sizes, this`slab, this`top, this`rank, this`tree, this`openTree
      ensures top == top' && start == start' && sizes == sizes' && slab == slab' && rank == rank'
      ensures tree == tree' && openTree == AllOpen(tree)
    {
      top, start, sizes, slab := top', start', sizes', slab';
      rank, tree, openTree := rank', tree', AllOpen(tree');
    }

    /** A freshly loaded batch awaiting its first sort is valid once its full row count fits the row buffer. */
    lemma LoadedSettles()
      requires SortFieldKnown() && !sortedAfterLoading
      requires |statuses| == |tasks| && |firstAssignees| == |tasks| && |expanded| == |tasks| && |start| == |tasks| && |rank| == |tasks|
      requires Carved(sizes, start, |slab|) && forall j :: 0 <= j < |slab| ==> slab[j] < |tasks|
      requires TreeOf(tree, slab, start, sizes, expanded, statuses, showOnlyActive)
      requires TreeFits(tree, openTree, rank, top, rows.Length)
      ensures Valid()
    {
    }

    /** The end of draw_task_list: a queued rebuild runs once and is cleared. */
    method ProcessQueuedRebuild()
      requires Valid()
      modifies this`queueRebuild, this`length, rows
      ensures Valid() && !queueRebuild
      ensures old(queueRebuild) ==> length <= rows.Length && rows[..length] == FullRows()
      ensures !old(queueRebuild) ==> unchanged(this) && unchanged(rows)
    {
      if queueRebuild {
        queueRebuild := false;
        ReshapeFits(tree, openTree, tree, openTree, rank, top, top, rows.Length);
        RebuildFlattenedTaskTree();
        FullRebuildHasSlots(tree, rank, top);
        FreshRowsSettle();
      }
    }
  }

  /** The sort globals: the field, its direction, and for a custom-field sort the field's id and definition. */
  datatype SortState = SortState(field: SortField, direction: Direction, customFieldId: int, customField: Option<CustomField>)

  /** The slab after qsort over task t's range by `cmp`. */
  function SortedRange(slab: seq<nat>, start: seq<nat>, sizes: seq<nat>, t: nat, cmp: (nat, nat) -> int): (r: seq<nat>)
    requires t < |start| && t < |sizes| && start[t] + sizes[t] <= |slab|
    ensures |r| == |slab|
  {
    slab[..start[t]] + Sort(cmp, slab[start[t]..start[t] + sizes[t]]) + slab[start[t] + sizes[t]..]
  }

  /** Sorting task t's range leaves that range sorted by `cmp` and every other task's range as it was. */
  lemma SortedRangeKeepsRanges(slab: seq<nat>, start: seq<nat>, sizes: seq<nat>, t: nat, cmp: (nat, nat) -> int)
    requires Carved(sizes, start, |slab|) && t < |sizes|
    ensures var r := SortedRange(slab, start, sizes, t, cmp);
      && r[start[t]..start[t] + sizes[t]] == Sort(cmp, slab[start[t]..start[t] + sizes[t]])
      && (forall u :: 0 <= u < |sizes| && u != t ==> r[start[u]..start[u] + sizes[u]] == slab[start[u]..start[u] + sizes[u]])
  {
    var s, e := start[t], start[t] + sizes[t];
    var r := SortedRange(slab, start, sizes, t, cmp);
    assert r[s..e] == Sort(cmp, slab[s..e]);
    forall u | 0 <= u < |sizes| && u != t
      ensures r[start[u]..start[u] + sizes[u]] == slab[start[u]..start[u] + sizes[u]]
    {
      if sizes[u] != 0 && sizes[t] != 0 {
        assert start[u] + sizes[u] <= s || e <= start[u];
      }
    }
  }

  /** Sorting task t's range keeps every entry naming one of the n tasks. */
  lemma SortedRangeNamesTasks(slab: seq<nat>, start: seq<nat>, sizes: seq<nat>, t: nat, cmp: (nat, nat) -> int, n: nat)
    requires t < |start| && t < |sizes| && start[t] + sizes[t] <= |slab|
    requires forall j :: 0 <= j < |slab| ==> slab[j] < n
    ensures var r := SortedRange(slab, start, sizes, t, cmp);
      forall j :: 0 <= j < |r| ==> r[j] < n
  {
    var s, e := start[t], start[t] + sizes[t];
    var sorted := Sort(cmp, slab[s..e]);
    SortPermutes(cmp, slab[s..e]);
    var r := SortedRange(slab, start, sizes, t, cmp);
    forall j | 0 <= j < |r| ensures r[j] < n {
      if s <= j < e {
        assert r[j] == sorted[j - s];
        assert r[j] in multiset(slab[s..e]);
      }
    }
  }

  /** Task t's range of the slab rewritten, every other range kept: the fields describe the tree with t's children read afresh. */
  lemma RangeTreeOf(nodes: seq<Node>, slab: seq<nat>, slab': seq<nat>, start: seq<nat>, sizes: seq<nat>, expanded: seq<bool>,
                    statuses: seq<Option<Status>>, showOnlyActive: bool, t: nat, nodes': seq<Node>)
    requires TreeOf(nodes, slab, start, sizes, expanded, statuses, showOnlyActive) && t < |nodes| && |slab'| == |slab|
    requires forall u :: 0 <= u < |sizes| && u != t ==> slab'[start[u]..start[u] + sizes[u]] == slab[start[u]..start[u] + sizes[u]]
    requires nodes' == nodes[t := nodes[t].(children := slab'[start[t]..start[t] + sizes[t]])]
    ensures TreeOf(nodes', slab', start, sizes, expanded, statuses, showOnlyActive)
  {
  }

  /** update_cached_data_for_sorted_tasks: every task's cached status is find_custom_status_by_id of its status id. */
  predicate StatusesFrom(statuses: seq<Option<Status>>, tasks: seq<FolderTask>, registry: map<int, Status>)
  {
    |statuses| == |tasks| && forall t :: 0 <= t < |tasks| ==> statuses[t] == Lookup(registry, tasks[t].customStatusId)
  }

  /** A task's first assignee, or none when it has no assignee. */
  function FirstAssignee(task: FolderTask, users: map<int, User>): Option<User>
  {
    if |task.assignees| != 0 then Lookup(users, task.assignees[0]) else None
  }

  /** update_cached_data_for_sorted_tasks: every task's cached first assignee is find_user_by_id of its first responsible id. */
  predicate AssigneesFrom(firstAssignees: seq<Option<User>>, tasks: seq<FolderTask>, users: map<int, User>)
  {
    |firstAssignees| == |tasks| && forall t :: 0 <= t < |tasks| ==> firstAssignees[t] == FirstAssignee(tasks[t], users)
  }

  /** The comparator qsort receives, over task indices: the current comparator on the two tasks and their cached data. */
  function TaskOrder(ctx: SortContext, tasks: seq<FolderTask>, statuses: seq<Option<Status>>, firstAssignees: seq<Option<User>>): (nat, nat) -> int
    requires |statuses| == |tasks| && |firstAssignees| == |tasks|
  {
    (a: nat, b: nat) =>
      if a < |tasks| && b < |tasks|
      then CompareTasks(ctx, Entry(tasks[a], statuses[a], firstAssignees[a]), Entry(tasks[b], statuses[b], firstAssignees[b]))
      else 0
  }

  /**
   * On tasks with distinct ids the comparator over task indices leaves no
   * two of them level (see LevelTasksShareId for the conditions), so the
   * order qsort leaves them in is Sort's (SortedPermutationIsSort).
   */
  lemma TaskOrderDecisive(ctx: SortContext, tasks: seq<FolderTask>, statuses: seq<Option<Status>>,
                          firstAssignees: seq<Option<User>>, S: set<nat>)
    requires |statuses| == |tasks| && |firstAssignees| == |tasks|
    requires forall a :: a in S ==> a < |tasks|
    requires forall a, b :: a in S && b in S && a != b ==> tasks[a].id != tasks[b].id
    requires ctx.field != Unsorted
    requires ctx.field == ByStatus ==> forall a :: a in S ==> statuses[a].Some?
    requires ctx.field == ByCustomField && ctx.direction == Reverse ==>
      forall a, b :: a in S && b in S && a != b ==>
        FirstMatch(tasks[a].customFieldValues, ctx.customFieldId).Some? || FirstMatch(tasks[b].customFieldValues, ctx.customFieldId).Some?
    ensures Decisive(TaskOrder(ctx, tasks, statuses, firstAssignees), S)
  {
    var cmp := TaskOrder(ctx, tasks, statuses, firstAssignees);
    forall a, b | a in S && b in S && cmp(a, b) <= 0 && cmp(b, a) <= 0
      ensures a == b
    {
      if a != b {
        LevelTasksShareId(ctx, Entry(tasks[a], statuses[a], firstAssignees[a]), Entry(tasks[b], statuses[b], firstAssignees[b]));
      }
    }
  }

  /**
   * The tree is acyclic, the top-level list names tasks, and the rows of the
   * tree with every task expanded and let through the filter fit `capacity`:
   * no expand state and no filter setting can then overflow the row buffer.
   */
  ghost predicate TreeFits(nodes: seq<Node>, open: seq<Node>, rank: seq<nat>, top: seq<nat>, capacity: nat)
  {
    && Ranked(nodes, rank) && InRange(nodes, top) && OpenOf(open, nodes)
    && Ranked(open, rank) && InRange(open, top)
    && CountList(open, rank, top, |nodes|, true) <= capacity
  }

  /**
   * Reordering the top-level list or any sub-task list, and changing expand
   * or filter flags, keeps the tree fitting, and the rows then written fit too.
   */
  lemma ReshapeFits(nodes: seq<Node>, open: seq<Node>, nodes': seq<Node>, open': seq<Node>,
                    rank: seq<nat>, top: seq<nat>, top': seq<nat>, capacity: nat)
    requires TreeFits(nodes, open, rank, top, capacity) && OpenOf(open', nodes')
    requires |nodes'| == |nodes| && multiset(top') == multiset(top)
    requires forall t :: 0 <= t < |nodes| ==> multiset(nodes'[t].children) == multiset(nodes[t].children)
    ensures TreeFits(nodes', open', rank, top', capacity)
    ensures CountList(nodes', rank, top', |nodes|, true) <= capacity
  {
    forall j | 0 <= j < |top'| ensures top'[j] < |nodes| {
      assert top'[j] in multiset(top);
    }
    OpenSameShape(nodes, open, nodes', open', rank, top, top');
    assert SameShape(open, open');
    forall t, j | 0 <= t < |nodes'| && 0 <= j < |nodes'[t].children|
      ensures nodes'[t].children[j] < |nodes'| && rank[nodes'[t].children[j]] < rank[t]
    {
      assert open'[t].children == nodes'[t].children;
    }
    CountListBelowOpen(nodes', open', rank, top', |nodes|, true);
  }

  /** Sorting one task's sub-task list keeps the tree fitting: the list holds the same sub-tasks in another order. */
  lemma ResortKeepsFits(nodes: seq<Node>, open: seq<Node>, rank: seq<nat>, top: seq<nat>, capacity: nat, t: nat, cmp: (nat, nat) -> int,
                        nodes': seq<Node>)
    requires TreeFits(nodes, open, rank, top, capacity) && t < |nodes|
    requires nodes' == nodes[t := nodes[t].(children := Sort(cmp, nodes[t].children))]
    ensures TreeFits(nodes', AllOpen(nodes'), rank, top, capacity)
  {
    SortPermutes(cmp, nodes[t].children);
    ReshapeFits(nodes, open, nodes', AllOpen(nodes'), rank, top, top, capacity);
  }

  /** Sorting the top-level list keeps the tree fitting. */
  lemma SortedTopFits(nodes: seq<Node>, open: seq<Node>, rank: seq<nat>, top: seq<nat>, capacity: nat, cmp: (nat, nat) -> int)
    requires TreeFits(nodes, open, rank, top, capacity)
    ensures TreeFits(nodes, open, rank, Sort(cmp, top), capacity)
    ensures CountList(nodes, rank, Sort(cmp, top), |nodes|, true) <= capacity
  {
    SortPermutes(cmp, top);
    ReshapeFits(nodes, open, nodes, open, rank, top, Sort(cmp, top), capacity);
  }

  /** New expand or filter flags over the same sub-task lists keep the tree fitting. */
  lemma FlagsKeepFits(nodes: seq<Node>, nodes': seq<Node>, open: seq<Node>, rank: seq<nat>, top: seq<nat>, capacity: nat)
    requires TreeFits(nodes, open, rank, top, capacity)
    requires |nodes'| == |nodes| && forall t :: 0 <= t < |nodes| ==> nodes'[t].children == nodes[t].children
    ensures TreeFits(nodes', open, rank, top, capacity)
    ensures CountList(nodes', rank, top, |nodes|, true) <= capacity
  {
    assert Ranked(nodes', rank) by {
      forall t, j | 0 <= t < |nodes'| && 0 <= j < |nodes'[t].children|
        ensures nodes'[t].children[j] < |nodes'| && rank[nodes'[t].children[j]] < rank[t]
      {
        assert nodes'[t].children == nodes[t].children;
      }
    }
    CountListBelowOpen(nodes', open, rank, top, |nodes|, true);
  }

  /** One more element of a list: its rows, row count and visible count grow by that element's. */
  lemma ListStep(nodes: seq<Node>, rank: seq<nat>, ts: seq<nat>, i: nat, bound: nat, pe: bool, level: nat)
    requires Ranked(nodes, rank) && Below(nodes, rank, ts, bound) && i < |ts|
    ensures Below(nodes, rank, ts[..i], bound) && Below(nodes, rank, ts[..i + 1], bound)
    ensures ts[i] < |nodes| && rank[ts[i]] < bound
    ensures CountList(nodes, rank, ts[..i + 1], bound, pe) == CountList(nodes, rank, ts[..i], bound, pe) + Count(nodes, rank, ts[i], pe)
    ensures CountList(nodes, rank, ts[..i + 1], bound, pe) <= CountList(nodes, rank, ts, bound, pe)
    ensures FlattenList(nodes, rank, ts[..i + 1], bound, pe, level) == FlattenList(nodes, rank, ts[..i], bound, pe, level) + Flatten(nodes, rank, ts[i], pe, level)
    ensures Visible(nodes, ts[..i + 1]) == Visible(nodes, ts[..i]) + if nodes[ts[i]].shown then 1 else 0
  {
    assert ts[..i + 1][..i] == ts[..i];
    CountListPrefix(nodes, rank, ts, i + 1, bound, pe);
  }

  /** Row `cursor` holds `head`, the rows after it up to `next` hold `tail`, and no other row has changed since `entry`. */
  ghost predicate Written(rows: seq<Row>, entry: seq<Row>, cursor: nat, next: nat, head: Row, tail: seq<Row>)
  {
    && cursor < next <= |rows| == |entry|
    && rows[cursor] == head
    && rows[cursor + 1..next] == tail
    && forall j :: 0 <= j < |rows| && (j < cursor || next <= j) ==> rows[j] == entry[j]
  }

  /** A child's rows written after the others, and its visible count added to the parent's row. */
  lemma WrittenStep(entry: seq<Row>, before: seq<Row>, mid: seq<Row>, after: seq<Row>,
                    cursor: nat, next: nat, to: nat, head: Row, tail: seq<Row>, child: seq<Row>, v: nat)
    requires Written(before, entry, cursor, next, head, tail)
    requires next <= to <= |mid| == |before| && mid[next..to] == child
    requires forall j :: 0 <= j < |mid| && (j < next || to <= j) ==> mid[j] == before[j]
    requires after == mid[cursor := mid[cursor].(numVisibleSubTasks := mid[cursor].numVisibleSubTasks + v)]
    ensures Written(after, entry, cursor, to, head.(numVisibleSubTasks := head.numVisibleSubTasks + v), tail + child)
  {
    assert after[cursor + 1..to] == before[cursor + 1..next] + mid[next..to];
  }

  /** The sub-task loop after i turns: the parent's row counts the visible ones so far and their rows follow it. */
  ghost predicate Progress(nodes: seq<Node>, ranks: seq<nat>, rows: seq<Row>, entry: seq<Row>, t: nat, level: nat,
                           subTasks: seq<nat>, i: nat, pe: bool, cursor: nat, next: nat)
  {
    && Ranked(nodes, ranks) && t < |nodes| && Below(nodes, ranks, subTasks, ranks[t]) && i <= |subTasks|
    && Below(nodes, ranks, subTasks[..i], ranks[t])
    && next == cursor + 1 + CountList(nodes, ranks, subTasks[..i], ranks[t], pe)
    && Written(rows, entry, cursor, next,
         Row(t, level, Visible(nodes, subTasks[..i]), true),
         FlattenList(nodes, ranks, subTasks[..i], ranks[t], pe, level + 1))
  }

  /** The top-level loop after i turns: the rows of top[..i] fill the buffer's start. */
  ghost predicate TopProgress(nodes: seq<Node>, ranks: seq<nat>, rows: seq<Row>, top: seq<nat>, i: nat, cursor: nat)
  {
    && Ranked(nodes, ranks) && InRange(nodes, top) && i <= |top|
    && CountList(nodes, ranks, top, |nodes|, true) <= |rows|
    && Below(nodes, ranks, top[..i], |nodes|)
    && cursor == CountList(nodes, ranks, top[..i], |nodes|, true) <= |rows|
    && rows[..cursor] == FlattenList(nodes, ranks, top[..i], |nodes|, true, 0)
  }

  /** Top-level task i's rows written at the cursor, after the earlier ones. */
  lemma TopStep(nodes: seq<Node>, ranks: seq<nat>, before: seq<Row>, after: seq<Row>, top: seq<nat>, i: nat, cursor: nat, next: nat)
    requires TopProgress(nodes, ranks, before, top, i, cursor) && i < |top|
    requires next == cursor + Count(nodes, ranks, top[i], true) && next <= |after| == |before|
    requires after[cursor..next] == Flatten(nodes, ranks, top[i], true, 0)
    requires forall j :: 0 <= j < cursor ==> after[j] == before[j]
    ensures TopProgress(nodes, ranks, after, top, i + 1, next)
  {
    ListStep(nodes, ranks, top, i, |nodes|, true, 0);
    assert after[..next] == before[..cursor] + after[cursor..next];
  }

  /** The parent's row followed by its sub-tasks' rows is the slice from the parent's row on. */
  lemma WrittenWhole(rows: seq<Row>, entry: seq<Row>, cursor: nat, next: nat, head: Row, tail: seq<Row>)
    requires Written(rows, entry, cursor, next, head, tail)
    ensures rows[cursor..next] == [head] + tail
  {
    assert rows[cursor..next] == [rows[cursor]] + rows[cursor + 1..next];
  }

  /** Rows [from, mid) kept and rows [mid, to) written: the slice [from, to) is the two joined. */
  lemma SliceGrows(before: seq<Row>, after: seq<Row>, from: nat, mid: nat, to: nat)
    requires from <= mid <= to <= |before| == |after|
    requires forall j :: from <= j < mid ==> after[j] == before[j]
    ensures after[from..to] == before[from..mid] + after[mid..to]
  {
  }

  // ---------------------------------------------------------------------------
  // Loading
  // ---------------------------------------------------------------------------

  /** Every key of the id map names a task with that id, and every task's id is a key. */
  ghost predicate IdIndex(index: map<int, nat>, tasks: seq<FolderTask>)
  {
    && (forall id :: id in index ==> index[id] < |tasks| && tasks[index[id]].id == id)
    && (forall i :: 0 <= i < |tasks| ==> tasks[i].id in index)
  }

  function FolderIdsOf(tasks: seq<FolderTask>): (ids: seq<seq<int>>)
    ensures |ids| == |tasks| && forall i :: 0 <= i < |tasks| ==> ids[i] == tasks[i].parentFolderIds
  {
    seq(|tasks|, i requires 0 <= i < |tasks| => tasks[i].parentFolderIds)
  }

  function SuperIdsOf(tasks: seq<FolderTask>): (ids: seq<seq<int>>)
    ensures |ids| == |tasks| && forall i :: 0 <= i < |tasks| ==> ids[i] == tasks[i].parentTaskIds
  {
    seq(|tasks|, i requires 0 <= i < |tasks| => tasks[i].parentTaskIds)
  }

  /** A per-task cache resized to n entries: the entries of reused slots kept, the rest empty. */
  function KeptOrEmpty<T>(cache: seq<Option<T>>, n: nat): (cache': seq<Option<T>>)
    ensures |cache'| == n
    ensures forall i :: 0 <= i < n ==> cache'[i] == if i < |cache| then cache[i] else None
  {
    seq(n, i requires 0 <= i < n => if i < |cache| then cache[i] else None)
  }

  /** n tasks, none expanded. */
  function Collapsed(n: nat): (expanded: seq<bool>)
    ensures |expanded| == n && forall p :: 0 <= p < n ==> !expanded[p]
  {
    seq(n, p => false)
  }

  /** The tree of a freshly loaded batch: every task collapsed, each filtered by its cached status. */
  ghost function LoadedTree(slab: seq<nat>, start: seq<nat>, sizes: seq<nat>, statuses: seq<Option<Status>>, showOnlyActive: bool): (nodes: seq<Node>)
    requires |start| == |sizes| == |statuses| && Carved(sizes, start, |slab|)
    ensures TreeOf(nodes, slab, start, sizes, Collapsed(|start|), statuses, showOnlyActive)
  {
    MakeNodes(slab, start, sizes, Collapsed(|start|), ShownFlags(statuses, showOnlyActive))
  }

  /** The filter flag of every task. */
  function ShownFlags(statuses: seq<Option<Status>>, showOnlyActive: bool): (shown: seq<bool>)
    ensures |shown| == |statuses| && forall u :: 0 <= u < |statuses| ==> shown[u] == Shown(statuses, showOnlyActive, u)
  {
    seq(|statuses|, u requires 0 <= u < |statuses| => Shown(statuses, showOnlyActive, u))
  }

  /**
   * What associate_parent_tasks_with_sub_tasks leaves for the batch: the
   * top-level list of `folder`, the consecutive sub-task ranges holding
   * each task's sub-tasks, and a slab whose every entry names a task.
   */
  ghost predicate RelationsOf(batch: seq<FolderTask>, index: map<int, nat>, folder: int,
                              top: seq<nat>, start: seq<nat>, sizes: seq<nat>, slab: seq<nat>)
  {
    && top == TopLevel(FolderIdsOf(batch), folder, |batch|)
    && |sizes| == |batch| && Carved(sizes, start, |slab|) && Consecutive(sizes, start, |slab|)
    && (forall p :: 0 <= p < |batch| ==> slab[start[p]..start[p] + sizes[p]] == SubTasks(SuperIdsOf(batch), index, p))
    && (forall j :: 0 <= j < |slab| ==> slab[j] < |batch|)
  }

  /** associate_parent_tasks_with_sub_tasks on the batch's parent ids, with the slab handed back as a sequence. */
  method Relate(batch: seq<FolderTask>, index: map<int, nat>, folder: int) returns (top: seq<nat>, start: seq<nat>, sizes: seq<nat>, slab: seq<nat>)
    requires IndexInRange(index, |batch|)
    ensures RelationsOf(batch, index, folder, top, start, sizes, slab)
  {
    var slabArray;
    top, start, sizes, slabArray := AssociateParentTasksWithSubTasks(FolderIdsOf(batch), SuperIdsOf(batch), index, folder);
    slab := slabArray[..];
    assert forall p :: 0 <= p < |batch| ==> slab[start[p]..start[p] + sizes[p]] == SubTasks(SuperIdsOf(batch), index, p);
  }

  /** Acyclic superTaskIds rank the loaded tree, whose sub-task lists are the built ranges, and its all-open tree. */
  lemma LoadedRanked(batch: seq<FolderTask>, index: map<int, nat>, folder: int, rank: seq<nat>,
                     top: seq<nat>, start: seq<nat>, sizes: seq<nat>, slab: seq<nat>, statuses: seq<Option<Status>>, showOnlyActive: bool)
    requires RelationsOf(batch, index, folder, top, start, sizes, slab) && |statuses| == |batch|
    ensures Acyclic(SuperIdsOf(batch), index, rank) ==>
      && Ranked(LoadedTree(slab, start, sizes, statuses, showOnlyActive), rank)
      && Ranked(AllOpen(LoadedTree(slab, start, sizes, statuses, showOnlyActive)), rank)
  {
    var nodes := LoadedTree(slab, start, sizes, statuses, showOnlyActive);
    if Acyclic(SuperIdsOf(batch), index, rank) {
      forall t | 0 <= t < |nodes|
        ensures forall j :: 0 <= j < |nodes[t].children| ==> nodes[t].children[j] < |nodes| && rank[nodes[t].children[j]] < rank[t]
      {
        SubTasksDescend(SuperIdsOf(batch), index, rank, t);
      }
      OpenRanked(nodes, AllOpen(nodes), rank);
    }
  }

}

/**
 * The four qsort comparators of the task list (src/task_list.cpp:114-242)
 * and the dispatch on the current sort field (src/task_list.cpp:244-268).
 * Each comparator reads the global sort state; here that state is the
 * `SortContext` argument. Only the sign of a result matters to qsort, so
 * strncmp is modelled by its sign and id differences are mathematical.
 */
module Comparators {
  import opened Wrappers
  import opened Records
  import opened Users
  import opened Sorting

  /** Sort_Direction: Normal is 1, Reverse is -1. */
  type Direction = d: int | d == 1 || d == -1 witness 1

  const Normal: Direction := 1
  const Reverse: Direction := -1

  function Flip(d: Direction): (r: Direction)
    ensures r != d && r * d == -1
  {
    if d == Normal then Reverse else Normal
  }

  /**
   * strncmp over the first n characters, reduced to its sign: the first
   * differing character decides, and a shared '\0' ends the comparison.
   */
  function StrNCmp(a: seq<char>, b: seq<char>, n: nat): (r: int)
    requires n <= |a| && n <= |b|
    ensures -1 <= r <= 1
    ensures a[..n] == b[..n] ==> r == 0
    ensures r != 0 ==> a[..n] != b[..n]
    decreases n
  {
    if n == 0 then 0
    else if a[0] != b[0] then (if a[0] < b[0] then -1 else 1)
    else if a[0] == '\0' then 0
    else
      assert a[..n] == [a[0]] + a[1..][..n - 1];
      assert b[..n] == [b[0]] + b[1..][..n - 1];
      StrNCmp(a[1..], b[1..], n - 1)
  }

  /** a and b share their first k characters, and none of them is '\0'. */
  predicate AgreeBefore(a: seq<char>, b: seq<char>, k: nat)
    requires k <= |a| && k <= |b|
  {
    a[..k] == b[..k] && '\0' !in a[..k]
  }

  /** Past a shared first character that is not '\0', agreeing before k is agreeing before k - 1 on the tails. */
  lemma AgreeBeforeShift(a: seq<char>, b: seq<char>, n: nat)
    requires 0 < n <= |a| && n <= |b| && a[0] == b[0] && a[0] != '\0'
    ensures forall k :: 1 <= k <= n ==> (AgreeBefore(a, b, k) <==> AgreeBefore(a[1..], b[1..], k - 1))
  {
    forall k | 1 <= k <= n
      ensures AgreeBefore(a, b, k) <==> AgreeBefore(a[1..], b[1..], k - 1)
    {
      assert a[..k] == [a[0]] + a[1..][..k - 1];
      assert b[..k] == [b[0]] + b[1..][..k - 1];
    }
  }

  /** strncmp is negative exactly when, at the first difference before a '\0', a's character is the smaller. */
  lemma {:induction false} StrNCmpNegative(a: seq<char>, b: seq<char>, n: nat)
    requires n <= |a| && n <= |b|
    ensures StrNCmp(a, b, n) < 0 <==> exists k :: 0 <= k < n && AgreeBefore(a, b, k) && a[k] < b[k]
    decreases n
  {
    if n == 0 {
      return;
    }
    forall k | 0 < k < n && AgreeBefore(a, b, k)
      ensures a[0] == b[0] && a[0] != '\0'
    {
      assert a[..k][0] == a[0] && b[..k][0] == b[0];
      assert a[0] in a[..k];
    }
    if a[0] != b[0] || a[0] == '\0' {
      assert AgreeBefore(a, b, 0);
    } else {
      StrNCmpNegative(a[1..], b[1..], n - 1);
      AgreeBeforeShift(a, b, n);
      if StrNCmp(a, b, n) < 0 {
        var k :| 0 <= k < n - 1 && AgreeBefore(a[1..], b[1..], k) && a[1..][k] < b[1..][k];
        assert AgreeBefore(a, b, k + 1) && a[k + 1] < b[k + 1];
      }
      if k :| 0 <= k < n && AgreeBefore(a, b, k) && a[k] < b[k] {
        assert 0 < k && AgreeBefore(a[1..], b[1..], k - 1) && a[1..][k - 1] < b[1..][k - 1];
      }
    }
  }

  /**
   * strncmp's result is decided by the first position k < n where the
   * strings differ before either has ended: negative when a's character is
   * smaller, positive when it is larger, and zero when there is no such
   * position (the strings agree up to n or up to a shared '\0').
   */
  lemma StrNCmpFirstDifference(a: seq<char>, b: seq<char>, n: nat)
    requires n <= |a| && n <= |b|
    ensures StrNCmp(a, b, n) < 0 <==> exists k :: 0 <= k < n && AgreeBefore(a, b, k) && a[k] < b[k]
    ensures StrNCmp(a, b, n) > 0 <==> exists k :: 0 <= k < n && AgreeBefore(a, b, k) && a[k] > b[k]
    ensures StrNCmp(a, b, n) == 0 <==> forall k :: 0 <= k < n && AgreeBefore(a, b, k) ==> a[k] == b[k]
  {
    StrNCmpNegative(a, b, n);
    StrNCmpNegative(b, a, n);
    StrNCmpAntisymmetric(a, b, n);
    forall k | 0 <= k <= n
      ensures AgreeBefore(b, a, k) <==> AgreeBefore(a, b, k)
    {
    }
  }

  /** Swapping the arguments of strncmp negates its sign. */
  lemma {:induction false} StrNCmpAntisymmetric(a: seq<char>, b: seq<char>, n: nat)
    requires n <= |a| && n <= |b|
    ensures StrNCmp(b, a, n) == -StrNCmp(a, b, n)
    decreases n
  {
    if n > 0 && a[0] == b[0] && a[0] != '\0' {
      StrNCmpAntisymmetric(a[1..], b[1..], n - 1);
    }
  }

  function Min(x: nat, y: nat): nat
  {
    if x <= y then x else y
  }

  /** What a comparator sees of a Sorted_Folder_Task: its record and the cached lookups. */
  datatype Entry = Entry(task: FolderTask, status: Option<Status>, firstAssignee: Option<User>)

  /** The common tie-break: task id difference, whatever the direction. */
  function IdOrder(a: Entry, b: Entry): int
  {
    a.task.id - b.task.id
  }

  function TitleOrder(a: Entry, b: Entry): int
  {
    StrNCmp(a.task.title, b.task.title, Min(|a.task.title|, |b.task.title|))
  }

  /** compare_folder_tasks_based_on_title */
  function CompareByTitle(a: Entry, b: Entry, dir: Direction): int
  {
    var result := TitleOrder(a, b) * dir;
    if result == 0 then IdOrder(a, b) else result
  }

  /** compare_folder_tasks_based_on_assignees */
  function CompareByAssignee(a: Entry, b: Entry, dir: Direction): int
  {
    if a.firstAssignee.None? then 1
    else if b.firstAssignee.None? then -1
    else
      var aName := FullName(a.firstAssignee.value);
      var bName := FullName(b.firstAssignee.value);
      var result := StrNCmp(aName, bName, Min(|aName|, |bName|)) * dir;
      if result == 0 then IdOrder(a, b) else result
  }

  /** compare_folder_tasks_based_on_status; both cached statuses must be present. */
  function CompareByStatus(a: Entry, b: Entry, dir: Direction): int
    requires a.status.Some? && b.status.Some?
  {
    var result := a.status.value.naturalIndex - b.status.value.naturalIndex;
    var result := if result == 0 then (a.status.value.id - b.status.value.id) * dir else result;
    if result == 0 then IdOrder(a, b) else result
  }

  /** The global sort state the comparators read, with string_atoi as a parameter. */
  datatype SortContext = SortContext(
    field: SortField,
    direction: Direction,
    customFieldId: int,
    customFieldType: CustomFieldType,
    atoi: seq<char> -> int)

  /** compare_tasks_custom_fields: a task without the field compares greater. */
  function CompareTasksCustomFields(ctx: SortContext, a: FolderTask, b: FolderTask): int
  {
    match FirstMatch(a.customFieldValues, ctx.customFieldId)
    case None => 1
    case Some(i) =>
      match FirstMatch(b.customFieldValues, ctx.customFieldId)
      case None => -1
      case Some(j) =>
        var aValue := a.customFieldValues[i].value;
        var bValue := b.customFieldValues[j].value;
        match ctx.customFieldType
        case Numeric => ctx.atoi(aValue) - ctx.atoi(bValue)
        case DropDown => StrNCmp(aValue, bValue, Min(|aValue|, |bValue|))
        case Text => StrNCmp(aValue, bValue, Min(|aValue|, |bValue|))
        case OtherFieldType => 0
  }

  /** compare_folder_tasks_based_on_custom_field */
  function CompareByCustomField(ctx: SortContext, a: Entry, b: Entry): int
  {
    var result := CompareTasksCustomFields(ctx, a.task, b.task) * ctx.direction;
    if result == 0 then IdOrder(a, b) else result
  }

  /**
   * get_comparator_by_current_sort_type followed by the call. The source has
   * no comparator for Unsorted and dereferences missing statuses; both cases
   * compare equal here and callers exclude them.
   */
  function CompareTasks(ctx: SortContext, a: Entry, b: Entry): int
  {
    match ctx.field
    case ByTitle => CompareByTitle(a, b, ctx.direction)
    case ByAssignee => CompareByAssignee(a, b, ctx.direction)
    case ByStatus => if a.status.Some? && b.status.Some? then CompareByStatus(a, b, ctx.direction) else 0
    case ByCustomField => CompareByCustomField(ctx, a, b)
    case Unsorted => 0
  }

  // ---------------------------------------------------------------------------
  // Title
  // ---------------------------------------------------------------------------

  /** Only the shorter title's length is compared: a title that is a prefix of the other ties, and ids decide. */
  lemma TitlePrefixOrderedById(a: Entry, b: Entry, dir: Direction)
    requires |a.task.title| <= |b.task.title| && b.task.title[..|a.task.title|] == a.task.title
    ensures CompareByTitle(a, b, dir) == a.task.id - b.task.id
    ensures CompareByTitle(b, a, dir) == b.task.id - a.task.id
  {
    assert a.task.title[..|a.task.title|] == a.task.title;
  }

  /** Reversing the direction reverses every title decision that is not a tie. */
  lemma TitleDirectionReverses(a: Entry, b: Entry)
    requires TitleOrder(a, b) != 0
    ensures CompareByTitle(a, b, Reverse) == -CompareByTitle(a, b, Normal)
    ensures CompareByTitle(a, b, Normal) == TitleOrder(a, b)
  {
  }

  /** Swapping two tasks negates the title comparison. */
  lemma TitleAntisymmetric(a: Entry, b: Entry, dir: Direction)
    ensures CompareByTitle(b, a, dir) == -CompareByTitle(a, b, dir)
  {
    StrNCmpAntisymmetric(a.task.title, b.task.title, Min(|a.task.title|, |b.task.title|));
  }

  function TitledTask(id: int, title: seq<char>): Entry
  {
    Entry(FolderTask(id, 0, title, [], [], [], []), None, None)
  }

  /**
   * The title comparator is not transitive: "ab" (id 2) sorts before "abc"
   * (id 3), which sorts before "abd" (id 1), which sorts before "ab".
   */
  lemma TitleOrderNotTransitive()
    ensures var x, y, z := TitledTask(2, "ab"), TitledTask(3, "abc"), TitledTask(1, "abd");
      CompareByTitle(x, y, Normal) < 0 && CompareByTitle(y, z, Normal) < 0 && CompareByTitle(z, x, Normal) < 0
  {
    var x, y, z := TitledTask(2, "ab"), TitledTask(3, "abc"), TitledTask(1, "abd");
    TitlePrefixOrderedById(x, y, Normal);
    TitlePrefixOrderedById(x, z, Normal);
    assert StrNCmp("abc", "abd", 3) == -1 by {
      assert StrNCmp("bc", "bd", 2) == StrNCmp("c", "d", 1);
    }
  }

  // ---------------------------------------------------------------------------
  // Assignee
  // ---------------------------------------------------------------------------

  /** A task without a first assignee compares greater than anything, in either direction. */
  lemma MissingAssigneeComparesGreater(a: Entry, b: Entry, dir: Direction)
    requires a.firstAssignee.None?
    ensures CompareByAssignee(a, b, dir) == 1
  {
  }

  /** With an assignee, a task compares less than one without, in either direction. */
  lemma PresentAssigneeComparesLess(a: Entry, b: Entry, dir: Direction)
    requires a.firstAssignee.Some? && b.firstAssignee.None?
    ensures CompareByAssignee(a, b, dir) == -1
  {
  }

  /** Two tasks without assignees each compare greater than the other: the comparator is not antisymmetric. */
  lemma MissingAssigneesNotAntisymmetric(a: Entry, b: Entry, dir: Direction)
    requires a.firstAssignee.None? && b.firstAssignee.None?
    ensures CompareByAssignee(a, b, dir) == 1 && CompareByAssignee(b, a, dir) == 1
    ensures CompareByAssignee(a, b, dir) != -CompareByAssignee(b, a, dir)
  {
  }

  /** Two assigned tasks are ordered by "first last" name, scaled by direction, then by id. */
  lemma AssigneeOrderedByFullName(a: Entry, b: Entry, dir: Direction)
    requires a.firstAssignee.Some? && b.firstAssignee.Some?
    ensures var aName, bName := FullName(a.firstAssignee.value), FullName(b.firstAssignee.value);
      var byName := StrNCmp(aName, bName, Min(|aName|, |bName|));
      && (byName != 0 ==> CompareByAssignee(a, b, dir) == byName * dir)
      && (byName == 0 ==> CompareByAssignee(a, b, dir) == a.task.id - b.task.id)
      && CompareByAssignee(b, a, dir) == -CompareByAssignee(a, b, dir)
  {
    var aName, bName := FullName(a.firstAssignee.value), FullName(b.firstAssignee.value);
    StrNCmpAntisymmetric(aName, bName, Min(|aName|, |bName|));
  }

  // ---------------------------------------------------------------------------
  // Status
  // ---------------------------------------------------------------------------

  /** The natural index decides first and is not scaled by the direction. */
  lemma StatusNaturalIndexFirst(a: Entry, b: Entry, dir: Direction)
    requires a.status.Some? && b.status.Some?
    requires a.status.value.naturalIndex != b.status.value.naturalIndex
    ensures CompareByStatus(a, b, dir) == a.status.value.naturalIndex - b.status.value.naturalIndex
    ensures CompareByStatus(a, b, Reverse) == CompareByStatus(a, b, Normal)
  {
  }

  /** Equal natural indices: the status id decides, scaled by direction; equal statuses: the task id. */
  lemma StatusThenIdTieBreaks(a: Entry, b: Entry, dir: Direction)
    requires a.status.Some? && b.status.Some?
    requires a.status.value.naturalIndex == b.status.value.naturalIndex
    ensures a.status.value.id != b.status.value.id ==>
      CompareByStatus(a, b, dir) == (a.status.value.id - b.status.value.id) * dir
    ensures a.status.value.id == b.status.value.id ==> CompareByStatus(a, b, dir) == a.task.id - b.task.id
  {
  }

  /** The status comparator, as a relation on entries. */
  function StatusComparator(dir: Direction): (Entry, Entry) -> int
  {
    (a: Entry, b: Entry) => CompareTasks(SortContext(ByStatus, dir, 0, OtherFieldType, (s: seq<char>) => 0), a, b)
  }

  /** StatusComparator(dir)(a, b) <= 0 exactly when a's key is lexicographically at most b's. */
  lemma StatusComparatorIsLexicographic(dir: Direction, a: Entry, b: Entry)
    requires a.status.Some? && b.status.Some?
    ensures StatusComparator(dir)(a, b) <= 0 <==>
      var na, nb := a.status.value.naturalIndex, b.status.value.naturalIndex;
      var sa, sb := a.status.value.id * dir, b.status.value.id * dir;
      na < nb || (na == nb && (sa < sb || (sa == sb && a.task.id <= b.task.id)))
  {
    var sa, sb := a.status.value.id * dir, b.status.value.id * dir;
    assert (a.status.value.id - b.status.value.id) * dir == sa - sb;
  }

  /**
   * With every status resolved, the status comparator is a total preorder,
   * so the qsort model sorts by it.
   */
  lemma StatusComparatorIsValid(dir: Direction, S: set<Entry>)
    requires forall e :: e in S ==> e.status.Some?
    ensures ValidOnSet(StatusComparator(dir), S)
  {
    var cmp := StatusComparator(dir);
    forall a, b | a in S && b in S ensures cmp(a, b) <= 0 || cmp(b, a) <= 0 {
      StatusComparatorIsLexicographic(dir, a, b);
      StatusComparatorIsLexicographic(dir, b, a);
    }
    forall a, b, c | a in S && b in S && c in S && cmp(a, b) <= 0 && cmp(b, c) <= 0 ensures cmp(a, c) <= 0 {
      StatusComparatorIsLexicographic(dir, a, b);
      StatusComparatorIsLexicographic(dir, b, c);
      StatusComparatorIsLexicographic(dir, a, c);
    }
  }

  // ---------------------------------------------------------------------------
  // Custom field
  // ---------------------------------------------------------------------------

  /** A task without the field yields +1 before scaling: it sorts last only in the Normal direction. */
  lemma MissingCustomFieldFollowsDirection(ctx: SortContext, a: Entry, b: Entry)
    requires FirstMatch(a.task.customFieldValues, ctx.customFieldId).None?
    ensures CompareByCustomField(ctx, a, b) == ctx.direction
    ensures ctx.direction == Normal ==> CompareByCustomField(ctx, a, b) > 0
    ensures ctx.direction == Reverse ==> CompareByCustomField(ctx, a, b) < 0
  {
  }

  /** A task with the field against one without yields -1 before scaling. */
  lemma PresentCustomFieldAgainstMissing(ctx: SortContext, a: Entry, b: Entry)
    requires FirstMatch(a.task.customFieldValues, ctx.customFieldId).Some?
    requires FirstMatch(b.task.customFieldValues, ctx.customFieldId).None?
    ensures CompareByCustomField(ctx, a, b) == -(ctx.direction as int)
  {
  }

  /** Numeric fields compare by string_atoi of the first matching values, scaled by direction. */
  lemma NumericCustomFieldsCompareByValue(ctx: SortContext, a: Entry, b: Entry)
    requires ctx.customFieldType == Numeric
    requires FirstMatch(a.task.customFieldValues, ctx.customFieldId).Some?
    requires FirstMatch(b.task.customFieldValues, ctx.customFieldId).Some?
    ensures var i, j := FirstMatch(a.task.customFieldValues, ctx.customFieldId).value,
                       FirstMatch(b.task.customFieldValues, ctx.customFieldId).value;
      var byValue := ctx.atoi(a.task.customFieldValues[i].value) - ctx.atoi(b.task.customFieldValues[j].value);
      && (byValue != 0 ==> CompareByCustomField(ctx, a, b) == byValue * ctx.direction)
      && (byValue == 0 ==> CompareByCustomField(ctx, a, b) == a.task.id - b.task.id)
  {
  }

  /** Text and drop-down fields compare the shorter value's length of characters, scaled by direction. */
  lemma TextCustomFieldsCompareByPrefix(ctx: SortContext, a: Entry, b: Entry)
    requires ctx.customFieldType == Text || ctx.customFieldType == DropDown
    requires FirstMatch(a.task.customFieldValues, ctx.customFieldId).Some?
    requires FirstMatch(b.task.customFieldValues, ctx.customFieldId).Some?
    ensures var i, j := FirstMatch(a.task.customFieldValues, ctx.customFieldId).value,
                       FirstMatch(b.task.customFieldValues, ctx.customFieldId).value;
      var av, bv := a.task.customFieldValues[i].value, b.task.customFieldValues[j].value;
      var byText := StrNCmp(av, bv, Min(|av|, |bv|));
      && (byText != 0 ==> CompareByCustomField(ctx, a, b) == byText * ctx.direction)
      && (byText == 0 ==> CompareByCustomField(ctx, a, b) == a.task.id - b.task.id)
      && (av[..Min(|av|, |bv|)] == bv[..Min(|av|, |bv|)] ==> CompareByCustomField(ctx, a, b) == a.task.id - b.task.id)
  {
  }

  /** Field types other than text, drop-down and numeric never order tasks: ids decide. */
  lemma OtherCustomFieldsOrderedById(ctx: SortContext, a: Entry, b: Entry)
    requires ctx.customFieldType == OtherFieldType
    requires FirstMatch(a.task.customFieldValues, ctx.customFieldId).Some?
    requires FirstMatch(b.task.customFieldValues, ctx.customFieldId).Some?
    ensures CompareByCustomField(ctx, a, b) == a.task.id - b.task.id
  {
  }

  // ---------------------------------------------------------------------------
  // Ties
  // ---------------------------------------------------------------------------

  /**
   * Every comparator ends in the task-id difference, so two tasks that each
   * compare at most equal to the other share an id: for title and assignee,
   * for status once both statuses are cached, and for a custom field unless
   * both tasks lack it under the Reverse direction (then each compares less
   * than the other).
   */
  lemma LevelTasksShareId(ctx: SortContext, a: Entry, b: Entry)
    requires ctx.field != Unsorted
    requires ctx.field == ByStatus ==> a.status.Some? && b.status.Some?
    requires ctx.field == ByCustomField && ctx.direction == Reverse ==>
      FirstMatch(a.task.customFieldValues, ctx.customFieldId).Some? || FirstMatch(b.task.customFieldValues, ctx.customFieldId).Some?
    requires CompareTasks(ctx, a, b) <= 0 && CompareTasks(ctx, b, a) <= 0
    ensures a.task.id == b.task.id
  {
    match ctx.field
    case ByTitle =>
      TitleAntisymmetric(a, b, ctx.direction);
    case ByAssignee =>
      if a.firstAssignee.Some? && b.firstAssignee.Some? {
        AssigneeOrderedByFullName(a, b, ctx.direction);
      }
    case ByStatus =>
    case ByCustomField =>
      var ma, mb := FirstMatch(a.task.customFieldValues, ctx.customFieldId), FirstMatch(b.task.customFieldValues, ctx.customFieldId);
      if ma.Some? && mb.Some? {
        var av, bv := a.task.customFieldValues[ma.value].value, b.task.customFieldValues[mb.value].value;
        StrNCmpAntisymmetric(av, bv, Min(|av|, |bv|));
      }
  }

  /** Two tasks without the custom field, sorted in Reverse, each compare less than the other: qsort may leave them in either order. */
  lemma MissingCustomFieldsLevelInReverse(ctx: SortContext, a: Entry, b: Entry)
    requires ctx.field == ByCustomField && ctx.direction == Reverse
    requires FirstMatch(a.task.customFieldValues, ctx.customFieldId).None?
    requires FirstMatch(b.task.customFieldValues, ctx.customFieldId).None?
    ensures CompareTasks(ctx, a, b) < 0 && CompareTasks(ctx, b, a) < 0
  {
  }
}

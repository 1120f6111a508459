/**
 * The records the task list works on (src/task_list.cpp:20-73) and the
 * column / custom-field resolution (src/task_list.cpp:368-395, 516-575, 694).
 * Registries of statuses, users and custom fields are partial lookups,
 * represented by maps keyed by id.
 */
module Records {
  import opened Wrappers

  datatype CustomFieldType = Text | DropDown | Numeric | OtherFieldType

  datatype CustomField = CustomField(id: int, kind: CustomFieldType, title: seq<char>)

  /** One entry of a task's sparse custom-field list. */
  datatype CustomFieldValue = CustomFieldValue(fieldId: int, value: seq<char>)

  datatype StatusGroup = Active | Completed | Deferred | Cancelled

  datatype Status = Status(id: int, naturalIndex: int, group: StatusGroup)

  /** Folder_Task: one decoded task record; its list lengths are the source's num_* counts. */
  datatype FolderTask = FolderTask(
    id: int,
    customStatusId: int,
    title: seq<char>,
    customFieldValues: seq<CustomFieldValue>,
    parentFolderIds: seq<int>,
    parentTaskIds: seq<int>,
    assignees: seq<int>)

  /** Task_List_Sort_Field. */
  datatype SortField = Unsorted | ByTitle | ByStatus | ByAssignee | ByCustomField

  function Lookup<V>(registry: map<int, V>, id: int): (r: Option<V>)
    ensures r.Some? <==> id in registry
    ensures r.Some? ==> r.value == registry[id]
  {
    if id in registry then Some(registry[id]) else None
  }

  // ---------------------------------------------------------------------------
  // Custom-field values: first match by field id
  // ---------------------------------------------------------------------------

  /** Index of the first value whose field id is `fieldId`. */
  function FirstMatch(values: seq<CustomFieldValue>, fieldId: int): (r: Option<nat>)
    ensures r.Some? ==> r.value < |values| && values[r.value].fieldId == fieldId
    ensures r.Some? ==> forall k :: 0 <= k < r.value ==> values[k].fieldId != fieldId
    ensures r.None? ==> forall k :: 0 <= k < |values| ==> values[k].fieldId != fieldId
  {
    if values == [] then None
    else if values[0].fieldId == fieldId then Some(0)
    else match FirstMatch(values[1..], fieldId)
      case None => None
      case Some(k) => Some(k + 1)
  }

  /** The value a task holds for a field: none for a missing (null) field or no entry. */
  function FieldValue(task: FolderTask, field: Option<CustomField>): Option<CustomFieldValue>
  {
    if field.None? then None
    else match FirstMatch(task.customFieldValues, field.value.id)
      case None => None
      case Some(k) => Some(task.customFieldValues[k])
  }

  /** try_find_custom_field_value_in_task: a linear scan for the first entry with the field's id. */
  method TryFindCustomFieldValueInTask(task: FolderTask, field: Option<CustomField>) returns (value: Option<CustomFieldValue>)
    ensures value.Some? ==> field.Some? && value.value in task.customFieldValues && value.value.fieldId == field.value.id
    ensures value.None? ==> field.None? || forall v :: v in task.customFieldValues ==> v.fieldId != field.value.id
    ensures value == FieldValue(task, field)
  {
    if field.None? {
      return None;
    }
    var values := task.customFieldValues;
    var index := 0;
    while index < |values|
      invariant 0 <= index <= |values|
      invariant forall k :: 0 <= k < index ==> values[k].fieldId != field.value.id
    {
      if values[index].fieldId == field.value.id {
        return Some(values[index]);
      }
      index := index + 1;
    }
    return None;
  }

  // ---------------------------------------------------------------------------
  // Columns: three fixed columns, then one per custom column id of the folder
  // ---------------------------------------------------------------------------

  const CustomColumnsStartIndex: nat := 3

  /** total_columns of the paint context. */
  function TotalColumns(customColumns: seq<int>): nat
  {
    |customColumns| + CustomColumnsStartIndex
  }

  /** get_column_sort_field. */
  function GetColumnSortField(column: nat): (field: SortField)
    ensures field != Unsorted
    ensures field == ByCustomField <==> column >= CustomColumnsStartIndex
  {
    match column
    case 0 => ByTitle
    case 1 => ByStatus
    case 2 => ByAssignee
    case _ => ByCustomField
  }

  /** A column sorts by a custom field exactly when it has a custom-field slot. */
  lemma CustomSortColumnsHaveSlots(customColumns: seq<int>, column: nat)
    requires column < TotalColumns(customColumns)
    ensures GetColumnSortField(column) == ByCustomField <==>
      (column >= CustomColumnsStartIndex && column - CustomColumnsStartIndex < |customColumns|)
  {
  }

  /** map_columns_to_custom_fields: resolves each custom column id once, in column order. */
  method MapColumnsToCustomFields(customColumns: seq<int>, fields: map<int, CustomField>)
    returns (columnFields: seq<Option<CustomField>>)
    ensures |columnFields| == |customColumns|
    ensures forall c :: 0 <= c < |customColumns| ==> columnFields[c] == Lookup(fields, customColumns[c])
  {
    var table := new Option<CustomField>[|customColumns|];
    var column := 0;
    while column < |customColumns|
      invariant 0 <= column <= |customColumns|
      invariant forall c :: 0 <= c < column ==> table[c] == Lookup(fields, customColumns[c])
    {
      table[column] := Lookup(fields, customColumns[column]);
      column := column + 1;
    }
    columnFields := table[..];
  }

  /**
   * get_column_title: the three fixed headers, and for a custom column the
   * title of the field its id resolves to. That field is dereferenced without
   * a check, so it must be registered.
   */
  function ColumnTitle(column: nat, customColumns: seq<int>, fields: map<int, CustomField>): (title: seq<char>)
    requires column < TotalColumns(customColumns)
    requires column >= CustomColumnsStartIndex ==> customColumns[column - CustomColumnsStartIndex] in fields
    ensures column == 0 ==> title == "Title"
    ensures column == 1 ==> title == "Status"
    ensures column == 2 ==> title == "Assignees"
    ensures column >= CustomColumnsStartIndex ==> title == fields[customColumns[column - CustomColumnsStartIndex]].title
  {
    match column
    case 0 => "Title"
    case 1 => "Status"
    case 2 => "Assignees"
    case _ => fields[customColumns[column - CustomColumnsStartIndex]].title
  }

  /** A header names what its column sorts by: the fixed field, or the custom field of its slot. */
  lemma HeaderNamesSortField(customColumns: seq<int>, fields: map<int, CustomField>, column: nat)
    requires column < TotalColumns(customColumns)
    requires column >= CustomColumnsStartIndex ==> customColumns[column - CustomColumnsStartIndex] in fields
    ensures var title := ColumnTitle(column, customColumns, fields);
      match GetColumnSortField(column)
      case ByTitle => title == "Title"
      case ByStatus => title == "Status"
      case ByAssignee => title == "Assignees"
      case ByCustomField => title == fields[customColumns[column - CustomColumnsStartIndex]].title
      case Unsorted => false
  {
  }

  /**
   * The custom-field value a table cell shows, as the cell painter selects it:
   * its guard is `column > custom_columns_start_index`, so the first custom
   * column (column 3) never shows a value.
   */
  function CellValueAsWritten(column: nat, customColumns: seq<int>, fields: map<int, CustomField>, task: FolderTask): Option<CustomFieldValue>
    requires column < TotalColumns(customColumns)
  {
    if column > CustomColumnsStartIndex then FieldValue(task, Lookup(fields, customColumns[column - CustomColumnsStartIndex]))
    else None
  }

  /** The first custom column is blank even when the task holds a value for its field. */
  lemma FirstCustomColumnBlankAsWritten(customColumns: seq<int>, fields: map<int, CustomField>, task: FolderTask)
    requires |customColumns| > 0
    requires CellValue(CustomColumnsStartIndex, customColumns, fields, task).Some?
    ensures CellValueAsWritten(CustomColumnsStartIndex, customColumns, fields, task) == None
    ensures CellValue(CustomColumnsStartIndex, customColumns, fields, task) !=
      CellValueAsWritten(CustomColumnsStartIndex, customColumns, fields, task)
  {
  }

  /**
   * The cell selection with the guard `column >= custom_columns_start_index`:
   * the fixed columns show no custom value, and a custom column shows the
   * task's first value for the field its id resolves to, or nothing when the
   * field is not registered or the task holds no value for it.
   */
  function CellValue(column: nat, customColumns: seq<int>, fields: map<int, CustomField>, task: FolderTask): (value: Option<CustomFieldValue>)
    requires column < TotalColumns(customColumns)
    ensures column < CustomColumnsStartIndex ==> value == None
    ensures column >= CustomColumnsStartIndex ==>
      var id := customColumns[column - CustomColumnsStartIndex];
      var values := task.customFieldValues;
      value.Some? <==> id in fields && exists k :: 0 <= k < |values| && values[k].fieldId == fields[id].id
    ensures value.Some? ==>
      var id := customColumns[column - CustomColumnsStartIndex];
      var values := task.customFieldValues;
      && id in fields
      && exists k :: 0 <= k < |values| && values[k] == value.value && value.value.fieldId == fields[id].id
           && forall j :: 0 <= j < k ==> values[j].fieldId != fields[id].id
  {
    if column >= CustomColumnsStartIndex then FieldValue(task, Lookup(fields, customColumns[column - CustomColumnsStartIndex]))
    else None
  }

  /**
   * The painter reads header and cell through the table map_columns_to_custom_fields
   * builds: through it they are ColumnTitle and CellValue, and a custom
   * column's cell shows a value of the very field its header names.
   */
  lemma ColumnTableAgrees(customColumns: seq<int>, fields: map<int, CustomField>,
                          columnFields: seq<Option<CustomField>>, task: FolderTask, column: nat)
    requires |columnFields| == |customColumns|
    requires forall c :: 0 <= c < |customColumns| ==> columnFields[c] == Lookup(fields, customColumns[c])
    requires CustomColumnsStartIndex <= column < TotalColumns(customColumns)
    ensures var slot := columnFields[column - CustomColumnsStartIndex];
      && CellValue(column, customColumns, fields, task) == FieldValue(task, slot)
      && (slot.Some? ==> ColumnTitle(column, customColumns, fields) == slot.value.title)
      && (CellValue(column, customColumns, fields, task).Some? ==>
            slot.Some? && CellValue(column, customColumns, fields, task).value.fieldId == slot.value.id)
  {
  }
}

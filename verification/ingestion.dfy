/**
 * process_folder_contents_data_object (src/task_list.cpp:805-907) at record
 * level: one task object, already split into its properties, becomes one
 * Folder_Task. The property names dispatch as in the source; the token
 * arithmetic of jsmn, json_token_to_right_part_of_id16, json_token_to_id8 and
 * process_task_custom_field_value are not part of this model, so each
 * property arrives decoded.
 */
module Ingestion {
  import opened Records

  /** One property of a task object, by the name the source compares against. */
  datatype TaskProperty =
    | Title(title: seq<char>)
    | Id(id: int)
    | CustomStatusId(statusId: int)
    | ResponsibleIds(users: seq<int>)
    | ParentIds(folders: seq<int>)
    | SuperTaskIds(tasks: seq<int>)
    | CustomFields(values: seq<CustomFieldValue>)
    | Other

  /**
   * The record slot as the object starts: its four counts are reset, while
   * the title, id and status id keep whatever the reused slot held.
   */
  function Reset(slot: FolderTask): (task: FolderTask)
    ensures task.id == slot.id && task.title == slot.title && task.customStatusId == slot.customStatusId
    ensures task.customFieldValues == [] && task.parentFolderIds == [] && task.parentTaskIds == [] && task.assignees == []
  {
    FolderTask(slot.id, slot.customStatusId, slot.title, [], [], [], [])
  }

  /** One property's effect: scalars are overwritten, array entries are appended after the current count. */
  function Apply(task: FolderTask, p: TaskProperty): FolderTask
  {
    match p
    case Title(title) => task.(title := title)
    case Id(id) => task.(id := id)
    case CustomStatusId(statusId) => task.(customStatusId := statusId)
    case ResponsibleIds(users) => task.(assignees := task.assignees + users)
    case ParentIds(folders) => task.(parentFolderIds := task.parentFolderIds + folders)
    case SuperTaskIds(tasks) => task.(parentTaskIds := task.parentTaskIds + tasks)
    case CustomFields(values) => task.(customFieldValues := task.customFieldValues + values)
    case Other => task
  }

  /** The record after the properties, in order. */
  function Decoded(props: seq<TaskProperty>, slot: FolderTask): FolderTask
  {
    if props == [] then Reset(slot) else Apply(Decoded(props[..|props| - 1], slot), props[|props| - 1])
  }

  /**
   * Each array property occurs at most once. A second occurrence would make
   * the source reserve a fresh block and keep counting from the old count,
   * writing past the reservation.
   */
  predicate ArraysOnce(props: seq<TaskProperty>)
  {
    forall i, j :: 0 <= i < j < |props| ==>
      && !(props[i].ResponsibleIds? && props[j].ResponsibleIds?)
      && !(props[i].ParentIds? && props[j].ParentIds?)
      && !(props[i].SuperTaskIds? && props[j].SuperTaskIds?)
      && !(props[i].CustomFields? && props[j].CustomFields?)
  }

  /** process_folder_contents_data_object, from decoded properties into the reused slot. */
  method ProcessTaskObject(props: seq<TaskProperty>, slot: FolderTask) returns (task: FolderTask)
    requires ArraysOnce(props)
    ensures task == Decoded(props, slot)
  {
    task := Reset(slot);
    var i := 0;
    while i < |props|
      invariant i <= |props|
      invariant task == Decoded(props[..i], slot)
    {
      assert props[..i + 1][..i] == props[..i];
      var p := props[i];
      match p {
        case Title(title) => task := task.(title := title);
        case Id(id) => task := task.(id := id);
        case CustomStatusId(statusId) => task := task.(customStatusId := statusId);
        case ResponsibleIds(users) =>
          var assignees := AppendEach(task.assignees, users);
          task := task.(assignees := assignees);
        case ParentIds(folders) =>
          var parents := AppendEach(task.parentFolderIds, folders);
          task := task.(parentFolderIds := parents);
        case SuperTaskIds(tasks) =>
          var supers := AppendEach(task.parentTaskIds, tasks);
          task := task.(parentTaskIds := supers);
        case CustomFields(values) =>
          var fields := AppendEach(task.customFieldValues, values);
          task := task.(customFieldValues := fields);
        case Other =>
      }
      i := i + 1;
    }
    assert props[..i] == props;
  }

  /** The per-entry loop of an array property: each entry goes at the current count, which then grows by one. */
  method AppendEach<T>(list: seq<T>, entries: seq<T>) returns (r: seq<T>)
    ensures r == list + entries
  {
    r := list;
    var k := 0;
    while k < |entries|
      invariant k <= |entries|
      invariant r == list + entries[..k]
    {
      assert entries[..k + 1] == entries[..k] + [entries[k]];
      r := r + [entries[k]];
      k := k + 1;
    }
    assert entries[..k] == entries;
  }

  /**
   * The record object i is decoded into: the record the previous batch left
   * at that index when there is one, since the slots are reused; past the
   * previous batch's end a zeroed record stands for whatever memory the
   * store holds there, fresh or left by an earlier, larger batch.
   */
  function Slot(store: seq<FolderTask>, i: nat): FolderTask
  {
    if i < |store| then store[i] else FolderTask(0, 0, [], [], [], [], [])
  }

  /** The store after a batch: object i decoded into slot i. */
  function DecodedBatch(objects: seq<seq<TaskProperty>>, store: seq<FolderTask>): (batch: seq<FolderTask>)
    ensures |batch| == |objects|
    ensures forall i :: 0 <= i < |objects| ==> batch[i] == Decoded(objects[i], Slot(store, i))
  {
    seq(|objects|, i requires 0 <= i < |objects| => Decoded(objects[i], Slot(store, i)))
  }

  /** The object loop of process_folder_contents_data: object i goes into slot i. */
  method DecodeBatch(objects: seq<seq<TaskProperty>>, store: seq<FolderTask>) returns (batch: seq<FolderTask>)
    requires forall i :: 0 <= i < |objects| ==> ArraysOnce(objects[i])
    ensures batch == DecodedBatch(objects, store)
  {
    batch := [];
    var i := 0;
    while i < |objects|
      invariant i <= |objects| && |batch| == i
      invariant forall j :: 0 <= j < i ==> batch[j] == Decoded(objects[j], Slot(store, j))
    {
      var task := ProcessTaskObject(objects[i], Slot(store, i));
      batch := batch + [task];
      i := i + 1;
    }
  }

  // ---------------------------------------------------------------------------
  // What a decoded record holds
  // ---------------------------------------------------------------------------

  /** Without a "superTaskIds" property the record has no parent task ids, whatever the slot held. */
  lemma {:induction false} NoSuperTaskIdsProperty(props: seq<TaskProperty>, slot: FolderTask)
    requires forall i :: 0 <= i < |props| ==> !props[i].SuperTaskIds?
    ensures Decoded(props, slot).parentTaskIds == []
  {
    if props != [] {
      NoSuperTaskIdsProperty(props[..|props| - 1], slot);
    }
  }

  /** With one "superTaskIds" property, the record's parent task ids are exactly its entries, in order. */
  lemma {:induction false} OneSuperTaskIdsProperty(props: seq<TaskProperty>, slot: FolderTask, k: nat)
    requires ArraysOnce(props) && k < |props| && props[k].SuperTaskIds?
    ensures Decoded(props, slot).parentTaskIds == props[k].tasks
  {
    if k == |props| - 1 {
      NoSuperTaskIdsProperty(props[..k], slot);
    } else {
      OneSuperTaskIdsProperty(props[..|props| - 1], slot, k);
    }
  }

  /** Without a "parentIds" property the record is in no folder. */
  lemma {:induction false} NoParentIdsProperty(props: seq<TaskProperty>, slot: FolderTask)
    requires forall i :: 0 <= i < |props| ==> !props[i].ParentIds?
    ensures Decoded(props, slot).parentFolderIds == []
  {
    if props != [] {
      NoParentIdsProperty(props[..|props| - 1], slot);
    }
  }

  /** With one "parentIds" property, the record's folder ids are exactly its entries, in order. */
  lemma {:induction false} OneParentIdsProperty(props: seq<TaskProperty>, slot: FolderTask, k: nat)
    requires ArraysOnce(props) && k < |props| && props[k].ParentIds?
    ensures Decoded(props, slot).parentFolderIds == props[k].folders
  {
    if k == |props| - 1 {
      NoParentIdsProperty(props[..k], slot);
    } else {
      OneParentIdsProperty(props[..|props| - 1], slot, k);
    }
  }

  /** Without an "id" property the record keeps the id the reused slot held. */
  lemma {:induction false} NoIdProperty(props: seq<TaskProperty>, slot: FolderTask)
    requires forall i :: 0 <= i < |props| ==> !props[i].Id?
    ensures Decoded(props, slot).id == slot.id
  {
    if props != [] {
      NoIdProperty(props[..|props| - 1], slot);
    }
  }

  /** The last "id" property decides the record's id. */
  lemma {:induction false} LastIdPropertyWins(props: seq<TaskProperty>, slot: FolderTask, k: nat)
    requires k < |props| && props[k].Id?
    requires forall i :: k < i < |props| ==> !props[i].Id?
    ensures Decoded(props, slot).id == props[k].id
  {
    if k < |props| - 1 {
      LastIdPropertyWins(props[..|props| - 1], slot, k);
    }
  }
}

/**
 * current_folder (src/task_list.cpp:88) and the functions that fill it:
 * process_folder_header_data, set_current_folder_id and
 * process_current_folder_as_logical (src/task_list.cpp:909-941, 1038-1044).
 * The header object arrives split into decoded properties, as task objects
 * do in Ingestion.
 */
module FolderHeaders {
  import opened Ingestion

  /** One property of the folder header object, by the name the source compares against. */
  datatype HeaderProperty =
    | HeaderTitle(title: seq<char>)
    | CustomColumnIds(ids: seq<int>)
    | OtherHeaderProperty

  /** The folder name after the properties, in order. */
  function HeaderName(props: seq<HeaderProperty>, name: seq<char>): seq<char>
  {
    if props == [] then name
    else
      var before := HeaderName(props[..|props| - 1], name);
      match props[|props| - 1]
      case HeaderTitle(title) => title
      case _ => before
  }

  /** The custom column list after the properties, in order. */
  function HeaderColumns(props: seq<HeaderProperty>, columns: seq<int>): seq<int>
  {
    if props == [] then columns
    else
      var before := HeaderColumns(props[..|props| - 1], columns);
      match props[|props| - 1]
      case CustomColumnIds(ids) => ids
      case _ => before
  }

  class FolderHeader {
    var id: int
    var name: seq<char>
    var customColumns: seq<int>

    /** The zero-initialised global. */
    constructor ()
      ensures id == 0 && name == [] && customColumns == []
    {
      id := 0;
      name := [];
      customColumns := [];
    }

    /**
     * process_folder_header_data for the one folder the client requests:
     * "title" sets the name, "customColumnIds" replaces the column list
     * with its entries, anything else is skipped.
     */
    method ProcessFolderHeaderData(props: seq<HeaderProperty>)
      modifies this`name, this`customColumns
      ensures name == HeaderName(props, old(name))
      ensures customColumns == HeaderColumns(props, old(customColumns))
    {
      var i := 0;
      while i < |props|
        invariant i <= |props|
        invariant name == HeaderName(props[..i], old(name))
        invariant customColumns == HeaderColumns(props[..i], old(customColumns))
      {
        assert props[..i + 1][..i] == props[..i];
        match props[i] {
          case HeaderTitle(title) =>
            name := title;
          case CustomColumnIds(ids) =>
            customColumns := AppendEach([], ids);
          case OtherHeaderProperty =>
        }
        i := i + 1;
      }
      assert props[..i] == props;
    }

    /** set_current_folder_id */
    method SetCurrentFolderId(folderId: int)
      modifies this`id
      ensures id == folderId
    {
      id := folderId;
    }

    /** process_current_folder_as_logical: a logical folder shows no custom columns. */
    method ProcessCurrentFolderAsLogical()
      modifies this`customColumns
      ensures customColumns == []
    {
      customColumns := [];
    }
  }

  // ---------------------------------------------------------------------------
  // What a header object leaves behind
  // ---------------------------------------------------------------------------

  /** Without a "customColumnIds" property the columns stay as they were. */
  lemma {:induction false} NoColumnsPropertyKeepsColumns(props: seq<HeaderProperty>, columns: seq<int>)
    requires forall i :: 0 <= i < |props| ==> !props[i].CustomColumnIds?
    ensures HeaderColumns(props, columns) == columns
  {
    if props != [] {
      NoColumnsPropertyKeepsColumns(props[..|props| - 1], columns);
    }
  }

  /**
   * The last "customColumnIds" property replaces the column list wholesale:
   * the result is its entries, whatever the columns were before.
   */
  lemma {:induction false} LastColumnsPropertyReplaces(props: seq<HeaderProperty>, columns: seq<int>, k: nat)
    requires k < |props| && props[k].CustomColumnIds?
    requires forall i :: k < i < |props| ==> !props[i].CustomColumnIds?
    ensures HeaderColumns(props, columns) == props[k].ids
  {
    if k < |props| - 1 {
      LastColumnsPropertyReplaces(props[..|props| - 1], columns, k);
    }
  }

  /** Without a "title" property the name stays as it was. */
  lemma {:induction false} NoTitlePropertyKeepsName(props: seq<HeaderProperty>, name: seq<char>)
    requires forall i :: 0 <= i < |props| ==> !props[i].HeaderTitle?
    ensures HeaderName(props, name) == name
  {
    if props != [] {
      NoTitlePropertyKeepsName(props[..|props| - 1], name);
    }
  }

  /** The last "title" property names the folder. */
  lemma {:induction false} LastTitlePropertyNames(props: seq<HeaderProperty>, name: seq<char>, k: nat)
    requires k < |props| && props[k].HeaderTitle?
    requires forall i :: k < i < |props| ==> !props[i].HeaderTitle?
    ensures HeaderName(props, name) == props[k].title
  {
    if k < |props| - 1 {
      LastTitlePropertyNames(props[..|props| - 1], name, k);
    }
  }
}

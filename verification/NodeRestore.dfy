/** Restoring the document tree of a backup: staging of its rows, and the hierarchy check. */
module NodeRestore {
  import opened Counting
  import opened Options

  const ROOT := "/"
  const DIRECTORY := "directory"
  const DOCUMENT := "document"

  /** A key of a JSON row: missing, null, or an identifier. */
  datatype Cell = Absent | Null | Value(id: string)

  function CellId(cell: Cell): Option<string> {
    if cell.Value? then Some(cell.id) else None
  }

  datatype NodeRow = NodeRow(id: string, kind: string, parent: Option<string>)

  /** A row of the folders or documents table; older backups keep the parent there. */
  datatype SubtypeRow = SubtypeRow(id: string, parentKey: Cell, folderKey: Cell)

  /** A row of the staging table; `nodeParent` is the parent in the stored node payload. */
  datatype Staged = Staged(
    kind: string, parent: Option<string>, nodeParent: Option<string>, subtype: Option<SubtypeRow>, subtypeKind: Option<string>)

  type Index = map<string, Staged>

  // ----- Staging -----

  function LegacyCell(row: SubtypeRow, kind: string): Cell {
    if kind == DIRECTORY then row.parentKey else row.folderKey
  }

  /** The parent that a subtype row supplies: a missing or null one means the root. */
  function LegacyParent(row: SubtypeRow, kind: string): Option<string> {
    var parent := CellId(LegacyCell(row, kind));
    if row.id != ROOT && parent.None? then Some(ROOT) else parent
  }

  function StageNode(index: Index, row: NodeRow): Option<Index> {
    if row.id in index then None else Some(index[row.id := Staged(row.kind, row.parent, row.parent, None, None)])
  }

  /** `_attach_subtype_rows` for one row: exactly one matching node without a subtype. */
  function Attach(index: Index, row: SubtypeRow, kind: string): Option<Index> {
    if row.id !in index || index[row.id].kind != kind || index[row.id].subtype.Some? then None
    else
      var node := index[row.id];
      var parent := if row.id == ROOT || node.parent.Some? then node.parent else LegacyParent(row, kind);
      Some(index[row.id := node.(subtype := Some(row), subtypeKind := Some(kind), parent := parent)])
  }

  /** `_insert_legacy_subtype_rows` for one row. */
  function InsertLegacy(index: Index, row: SubtypeRow, kind: string): Option<Index> {
    if row.id in index then None
    else Some(index[row.id := Staged(kind, LegacyParent(row, kind), LegacyParent(row, kind), Some(row), Some(kind))])
  }

  function StageSubtype(index: Index, row: SubtypeRow, kind: string, hasNodes: bool): Option<Index> {
    if hasNodes then Attach(index, row, kind) else InsertLegacy(index, row, kind)
  }

  function StageNodes(rows: seq<NodeRow>): Option<Index> {
    if rows == [] then Some(map[])
    else
      var before := StageNodes(rows[..|rows| - 1]);
      if before.None? then None else StageNode(before.value, rows[|rows| - 1])
  }

  function StageSubtypes(index: Index, rows: seq<SubtypeRow>, kind: string, hasNodes: bool): Option<Index> {
    if rows == [] then Some(index)
    else
      var before := StageSubtypes(index, rows[..|rows| - 1], kind, hasNodes);
      if before.None? then None else StageSubtype(before.value, rows[|rows| - 1], kind, hasNodes)
  }

  const ROOT_FOLDER := SubtypeRow(ROOT, Absent, Absent)

  /** A missing root is added, and a root directory without its folder row gets one. */
  function WithRoot(index: Index): Index {
    if index == map[] then index
    else if ROOT !in index then index[ROOT := Staged(DIRECTORY, None, None, Some(ROOT_FOLDER), Some(DIRECTORY))]
    else if index[ROOT].kind == DIRECTORY && index[ROOT].subtype.None? then
      index[ROOT := index[ROOT].(subtype := Some(ROOT_FOLDER), subtypeKind := Some(DIRECTORY))]
    else index
  }

  predicate WellTyped(index: Index) {
    forall id :: id in index ==>
      index[id].subtype.Some? && index[id].subtypeKind == Some(index[id].kind) && (index[id].kind == DIRECTORY || index[id].kind == DOCUMENT)
  }

  /** The tables of a backup; a table that its manifest does not list is `None`. */
  datatype Backup = Backup(nodes: Option<seq<NodeRow>>, folders: Option<seq<SubtypeRow>>, documents: Option<seq<SubtypeRow>>)

  function RowsOf<T>(table: Option<seq<T>>): seq<T> {
    if table.Some? then table.value else []
  }

  function Loaded(backup: Backup): Option<Index> {
    var hasNodes := backup.nodes.Some?;
    var nodes := StageNodes(RowsOf(backup.nodes));
    if nodes.None? then None
    else
      var folders := StageSubtypes(nodes.value, RowsOf(backup.folders), DIRECTORY, hasNodes);
      if folders.None? then None
      else
        var documents := StageSubtypes(folders.value, RowsOf(backup.documents), DOCUMENT, hasNodes);
        if documents.None? || !WellTyped(WithRoot(documents.value)) then None else Some(WithRoot(documents.value))
  }

  method StageSubtypeRows(index: Index, rows: seq<SubtypeRow>, kind: string, hasNodes: bool) returns (r: Option<Index>)
    ensures r == StageSubtypes(index, rows, kind, hasNodes)
  {
    var staged := index;
    assert rows[..0] == [];
    for i := 0 to |rows|
      invariant StageSubtypes(index, rows[..i], kind, hasNodes) == Some(staged)
    {
      assert rows[..i + 1][..i] == rows[..i];
      var row := rows[i];
      var parent := CellId(if kind == DIRECTORY then row.parentKey else row.folderKey);
      if row.id != ROOT && parent.None? {
        parent := Some(ROOT);
      }
      if hasNodes {
        if row.id !in staged || staged[row.id].kind != kind || staged[row.id].subtype.Some? {
          SubtypesFail(index, rows, kind, hasNodes, i);
          return None;
        }
        var node := staged[row.id];
        if row.id != ROOT && node.parent.None? {
          node := node.(parent := parent);
        }
        staged := staged[row.id := node.(subtype := Some(row), subtypeKind := Some(kind))];
      } else {
        if row.id in staged {
          SubtypesFail(index, rows, kind, hasNodes, i);
          return None;
        }
        staged := staged[row.id := Staged(kind, parent, parent, Some(row), Some(kind))];
      }
    }
    assert rows[..|rows|] == rows;
    r := Some(staged);
  }

  /** Staging stops at the first row that does not fit. */
  lemma {:induction false} SubtypesFail(index: Index, rows: seq<SubtypeRow>, kind: string, hasNodes: bool, i: nat)
    requires i < |rows| && StageSubtypes(index, rows[..i + 1], kind, hasNodes).None?
    ensures StageSubtypes(index, rows, kind, hasNodes).None?
    decreases |rows|
  {
    if i + 1 < |rows| {
      var init := rows[..|rows| - 1];
      assert init[..i + 1] == rows[..i + 1];
      SubtypesFail(index, init, kind, hasNodes, i);
    } else {
      assert rows[..i + 1] == rows;
    }
  }

  lemma {:induction false} NodesFail(rows: seq<NodeRow>, i: nat)
    requires i < |rows| && StageNodes(rows[..i + 1]).None?
    ensures StageNodes(rows).None?
    decreases |rows|
  {
    if i + 1 < |rows| {
      var init := rows[..|rows| - 1];
      assert init[..i + 1] == rows[..i + 1];
      NodesFail(init, i);
    } else {
      assert rows[..i + 1] == rows;
    }
  }

  // ----- Which backups staging accepts -----

  function NodeIds(rows: seq<NodeRow>): seq<string> {
    seq(|rows|, i requires 0 <= i < |rows| => rows[i].id)
  }

  function SubtypeIds(rows: seq<SubtypeRow>): seq<string> {
    seq(|rows|, i requires 0 <= i < |rows| => rows[i].id)
  }

  ghost predicate NodeOf(rows: seq<NodeRow>, id: string, kind: string) {
    exists row :: row in rows && row.id == id && row.kind == kind
  }

  /** With node rows: one subtype row of its own kind for each, which only a root directory may lack. */
  ghost predicate Paired(nodes: seq<NodeRow>, folders: seq<SubtypeRow>, documents: seq<SubtypeRow>) {
    && Distinct(NodeIds(nodes)) && Distinct(SubtypeIds(folders)) && Distinct(SubtypeIds(documents))
    && (forall id :: id in SubtypeIds(folders) ==> NodeOf(nodes, id, DIRECTORY))
    && (forall id :: id in SubtypeIds(documents) ==> NodeOf(nodes, id, DOCUMENT))
    && (forall row :: row in nodes ==>
          || (row.kind == DIRECTORY && (row.id in SubtypeIds(folders) || row.id == ROOT))
          || (row.kind == DOCUMENT && row.id in SubtypeIds(documents)))
  }

  /** What a backup must satisfy; without node rows no identifier may occur twice. */
  ghost predicate Consistent(backup: Backup) {
    var folders, documents := RowsOf(backup.folders), RowsOf(backup.documents);
    if backup.nodes.Some? then Paired(backup.nodes.value, folders, documents)
    else Distinct(SubtypeIds(folders)) && Distinct(SubtypeIds(documents))
         && forall id :: id in SubtypeIds(folders) ==> id !in SubtypeIds(documents)
  }

  lemma DistinctMore(ids: seq<string>, id: string)
    ensures Distinct(ids + [id]) <==> Distinct(ids) && id !in ids
  {
    var more := ids + [id];
    if Distinct(more) {
      assert forall i :: 0 <= i < |ids| ==> more[i] == ids[i];
      assert more[|ids|] == id;
    }
  }

  lemma {:induction false} NodesStaged(rows: seq<NodeRow>)
    ensures StageNodes(rows).Some? <==> Distinct(NodeIds(rows))
    ensures StageNodes(rows).Some? ==>
              && (forall id :: id in StageNodes(rows).value <==> id in NodeIds(rows))
              && (forall row :: row in rows ==>
                    && row.id in StageNodes(rows).value
                    && StageNodes(rows).value[row.id] == Staged(row.kind, row.parent, row.parent, None, None))
  {
    if rows != [] {
      var init, last := rows[..|rows| - 1], rows[|rows| - 1];
      NodesStaged(init);
      assert rows == init + [last] && NodeIds(rows) == NodeIds(init) + [last.id];
      DistinctMore(NodeIds(init), last.id);
      assert forall row :: row in init ==> row.id in NodeIds(init) by {
        forall row | row in init ensures row.id in NodeIds(init) { var i :| 0 <= i < |init| && init[i] == row; assert NodeIds(init)[i] == row.id; }
      }
    }
  }

  /** Attached rows are distinct and each meets a node of its kind that has no subtype yet. */
  lemma {:induction false} AttachedExactly(index: Index, rows: seq<SubtypeRow>, kind: string)
    ensures var r, ids := StageSubtypes(index, rows, kind, true), SubtypeIds(rows);
      && (r.Some? <==> Distinct(ids) && forall id :: id in ids ==> id in index && index[id].kind == kind && index[id].subtype.None?)
      && (r.Some? ==> r.value.Keys == index.Keys
                      && forall id :: id in index ==>
                           && r.value[id].kind == index[id].kind
                           && (r.value[id].subtype.Some? <==> index[id].subtype.Some? || id in ids)
                           && r.value[id].subtypeKind == if id in ids then Some(kind) else index[id].subtypeKind)
  {
    if rows != [] {
      var init, last := rows[..|rows| - 1], rows[|rows| - 1];
      AttachedExactly(index, init, kind);
      assert SubtypeIds(rows) == SubtypeIds(init) + [last.id];
      DistinctMore(SubtypeIds(init), last.id);
    }
  }

  /** Inserted rows are distinct and new. */
  lemma {:induction false} InsertedExactly(index: Index, rows: seq<SubtypeRow>, kind: string)
    ensures var r, ids := StageSubtypes(index, rows, kind, false), SubtypeIds(rows);
      && (r.Some? <==> Distinct(ids) && forall id :: id in ids ==> id !in index)
      && (r.Some? ==> && (forall id :: id in r.value <==> id in index || id in ids)
                      && (forall id :: id in index ==> r.value[id] == index[id])
                      && (forall id :: id in ids ==>
                            r.value[id].kind == kind && r.value[id].subtype.Some? && r.value[id].subtypeKind == Some(kind)))
  {
    if rows != [] {
      var init, last := rows[..|rows| - 1], rows[|rows| - 1];
      InsertedExactly(index, init, kind);
      assert SubtypeIds(rows) == SubtypeIds(init) + [last.id];
      DistinctMore(SubtypeIds(init), last.id);
    }
  }

  lemma KindOfNode(rows: seq<NodeRow>, id: string, kind: string)
    requires Distinct(NodeIds(rows))
    ensures var index := StageNodes(rows);
      index.Some? && (id in index.value && index.value[id].kind == kind <==> NodeOf(rows, id, kind))
  {
    NodesStaged(rows);
    if id in NodeIds(rows) {
      var i :| 0 <= i < |rows| && NodeIds(rows)[i] == id;
      assert rows[i] in rows;
    }
  }

  lemma PairedExactly(nodes: seq<NodeRow>, folders: seq<SubtypeRow>, documents: seq<SubtypeRow>)
    requires StageNodes(nodes).Some?
    ensures var withFolders := StageSubtypes(StageNodes(nodes).value, folders, DIRECTORY, true);
      Paired(nodes, folders, documents) <==>
      && withFolders.Some?
      && var r := StageSubtypes(withFolders.value, documents, DOCUMENT, true);
      r.Some? && WellTyped(WithRoot(r.value))
  {
    hide StageSubtypes, StageNodes, NodeOf;
    NodesStaged(nodes);
    var index := StageNodes(nodes).value;
    forall id, kind
      ensures id in index && index[id].kind == kind <==> NodeOf(nodes, id, kind)
    {
      KindOfNode(nodes, id, kind);
    }
    AttachedExactly(index, folders, DIRECTORY);
    var withFolders := StageSubtypes(index, folders, DIRECTORY, true);
    if withFolders.Some? {
      AttachedExactly(withFolders.value, documents, DOCUMENT);
      var r := StageSubtypes(withFolders.value, documents, DOCUMENT, true);
      if r.Some? {
        TypedExactly(nodes, SubtypeIds(folders), SubtypeIds(documents), r.value);
      }
    }
  }

  /** A staged row that is typed, or will be once the root has its folder row. */
  predicate Typed(index: Index, id: string)
    requires id in index
  {
    var row := index[id];
    || (row.kind == DIRECTORY && id == ROOT && row.subtype.None?)
    || (row.subtype.Some? && row.subtypeKind == Some(row.kind) && (row.kind == DIRECTORY || row.kind == DOCUMENT))
  }

  lemma TypedWithRoot(index: Index)
    ensures WellTyped(WithRoot(index)) <==> forall id :: id in index ==> Typed(index, id)
  {
    if WellTyped(WithRoot(index)) {
      forall id | id in index
        ensures Typed(index, id)
      {
        assert id in WithRoot(index);
      }
    }
  }

  lemma TypedExactly(nodes: seq<NodeRow>, folders: seq<string>, documents: seq<string>, r: Index)
    requires StageNodes(nodes).Some? && r.Keys == StageNodes(nodes).value.Keys
    requires forall id :: id in r ==>
               && r[id].kind == StageNodes(nodes).value[id].kind
               && (r[id].subtype.Some? <==> id in folders || id in documents)
               && (id in folders ==> r[id].kind == DIRECTORY && r[id].subtypeKind == Some(DIRECTORY))
               && (id in documents ==> r[id].kind == DOCUMENT && r[id].subtypeKind == Some(DOCUMENT))
    ensures WellTyped(WithRoot(r)) <==>
            forall row :: row in nodes ==>
              || (row.kind == DIRECTORY && (row.id in folders || row.id == ROOT))
              || (row.kind == DOCUMENT && row.id in documents)
  {
    NodesStaged(nodes);
    TypedWithRoot(r);
    hide StageNodes, WithRoot, WellTyped;
    forall row | row in nodes
      ensures row.id in r
      ensures Typed(r, row.id) <==>
              || (row.kind == DIRECTORY && (row.id in folders || row.id == ROOT))
              || (row.kind == DOCUMENT && row.id in documents)
    {
    }
    hide Typed;
    forall id | id in r
      ensures exists row :: row in nodes && row.id == id
    {
      var i :| 0 <= i < |nodes| && NodeIds(nodes)[i] == id;
      assert nodes[i] in nodes;
    }
  }

  /** Staging accepts exactly the consistent backups. */
  lemma StagedExactly(backup: Backup)
    ensures Loaded(backup).Some? <==> Consistent(backup)
  {
    var folders, documents := RowsOf(backup.folders), RowsOf(backup.documents);
    hide StageSubtypes, StageNodes;
    if backup.nodes.None? {
      assert StageNodes([]) == Some(map[]) by { NodesStaged([]); }
      InsertedExactly(map[], folders, DIRECTORY);
      if StageSubtypes(map[], folders, DIRECTORY, false).Some? {
        InsertedExactly(StageSubtypes(map[], folders, DIRECTORY, false).value, documents, DOCUMENT);
      }
    } else {
      NodesStaged(backup.nodes.value);
      if StageNodes(backup.nodes.value).Some? {
        PairedExactly(backup.nodes.value, folders, documents);
      }
    }
  }

  // ----- The parents that staging reads -----

  /** A stored key that names the parent; a missing or null one means the root, which has no parent. */
  predicate NamesParent(key: Cell, id: string, parent: Option<string>) {
    if key.Value? then parent == Some(key.id) else parent == if id == ROOT then None else Some(ROOT)
  }

  /** A subtype row of the kind stands in the index; `carried` is the parent in its node row, if it has one. */
  predicate StandsUnder(index: Index, row: SubtypeRow, kind: string, key: Cell, carried: Option<string>) {
    && row.id in index && index[row.id].kind == kind && index[row.id].subtype == Some(row)
    && (carried.Some? ==> index[row.id].parent == carried)
    && (carried.None? && row.id != ROOT ==> NamesParent(key, row.id, index[row.id].parent))
  }

  lemma AttachStep(index: Index, row: SubtypeRow, kind: string)
    requires Attach(index, row, kind).Some?
    ensures var r := Attach(index, row, kind).value;
      && r.Keys == index.Keys && row.id in index && index[row.id].subtype.None?
      && StandsUnder(r, row, kind, if kind == DIRECTORY then row.parentKey else row.folderKey, index[row.id].parent)
      && r[row.id].kind == index[row.id].kind && r[row.id].nodeParent == index[row.id].nodeParent
      && (index[row.id].parent.Some? || row.id == ROOT ==> r[row.id].parent == index[row.id].parent)
      && (forall id :: id in index && id != row.id ==> r[id] == index[id])
  {
  }

  /** Attaching keeps the parent that a node row carries, and a node that no row attaches to. */
  lemma {:induction false} AttachedKeeps(index: Index, rows: seq<SubtypeRow>, kind: string, id: string)
    requires StageSubtypes(index, rows, kind, true).Some? && id in index
    ensures var r := StageSubtypes(index, rows, kind, true).value;
      && id in r && r[id].kind == index[id].kind && r[id].nodeParent == index[id].nodeParent
      && (index[id].parent.Some? || id == ROOT ==> r[id].parent == index[id].parent)
      && (index[id].subtype.Some? || index[id].kind != kind || r[id].subtype.None? ==> r[id] == index[id])
  {
    if rows != [] {
      var init, last := rows[..|rows| - 1], rows[|rows| - 1];
      var before := StageSubtypes(index, init, kind, true).value;
      AttachedKeeps(index, init, kind, id);
      AttachStep(before, last, kind);
      assert Attach(before, last, kind) == StageSubtypes(index, rows, kind, true);
      hide StageSubtypes, Attach, NamesParent;
    }
  }

  /** A row that attaches gives its node the parent in the key of its kind, unless the node row carries one. */
  lemma {:induction false} AttachedParent(index: Index, rows: seq<SubtypeRow>, kind: string, row: SubtypeRow)
    requires StageSubtypes(index, rows, kind, true).Some? && row in rows
    ensures row.id in index
    ensures StandsUnder(StageSubtypes(index, rows, kind, true).value, row, kind,
                        if kind == DIRECTORY then row.parentKey else row.folderKey, index[row.id].parent)
  {
    var init, last := rows[..|rows| - 1], rows[|rows| - 1];
    var before := StageSubtypes(index, init, kind, true).value;
    AttachStep(before, last, kind);
    assert Attach(before, last, kind) == StageSubtypes(index, rows, kind, true);
    AttachedExactly(index, init, kind);
    hide StageSubtypes, Attach, NamesParent;
    if row in init {
      AttachedParent(index, init, kind, row);
    } else {
      assert row == last;
      AttachedKeeps(index, init, kind, row.id);
    }
  }

  lemma WithRootKeeps(index: Index)
    ensures forall id :: id in index ==>
              && id in WithRoot(index) && WithRoot(index)[id].kind == index[id].kind && WithRoot(index)[id].parent == index[id].parent
              && WithRoot(index)[id].nodeParent == index[id].nodeParent
              && (index[id].subtype.Some? ==> WithRoot(index)[id] == index[id])
  {
  }

  /** A row of an older backup is staged, as node and as subtype, under the parent its own key names. */
  lemma {:induction false} InsertedParents(index: Index, rows: seq<SubtypeRow>, kind: string)
    requires StageSubtypes(index, rows, kind, false).Some?
    ensures var r := StageSubtypes(index, rows, kind, false).value;
      && (forall id :: id in index ==> id in r && r[id] == index[id])
      && (forall row :: row in rows ==>
            && row.id in r && r[row.id].kind == kind && r[row.id].subtype == Some(row)
            && NamesParent(if kind == DIRECTORY then row.parentKey else row.folderKey, row.id, r[row.id].parent)
            && r[row.id].nodeParent == r[row.id].parent)
  {
    if rows != [] {
      var init, last := rows[..|rows| - 1], rows[|rows| - 1];
      var before := StageSubtypes(index, init, kind, false).value;
      assert InsertLegacy(before, last, kind) == StageSubtypes(index, rows, kind, false);
      hide StageSubtypes;
      InsertedParents(index, init, kind);
      forall row | row in rows
        ensures row in init || row == last
      {
      }
      assert last.id !in before;
    }
  }

  /**
   * The parents of an accepted backup with node rows: the one that the node row carries, else for a
   * folder the one in `parent_id` and for a document the one in `folder_id`, or the root.
   */
  lemma StagedParents(backup: Backup)
    requires Loaded(backup).Some? && backup.nodes.Some?
    ensures var index := Loaded(backup).value;
      && (forall node :: node in backup.nodes.value ==>
            && node.id in index && index[node.id].kind == node.kind && index[node.id].nodeParent == node.parent
            && (node.parent.Some? || node.id == ROOT ==> index[node.id].parent == node.parent))
      && (forall node, row :: node in backup.nodes.value && row in RowsOf(backup.folders) && node.id == row.id ==>
            StandsUnder(index, row, DIRECTORY, row.parentKey, node.parent))
      && (forall node, row :: node in backup.nodes.value && row in RowsOf(backup.documents) && node.id == row.id ==>
            StandsUnder(index, row, DOCUMENT, row.folderKey, node.parent))
  {
    var nodes, folders, documents := backup.nodes.value, RowsOf(backup.folders), RowsOf(backup.documents);
    NodesStaged(nodes);
    hide StageNodes, StageSubtypes, WellTyped, NamesParent;
    var first := StageNodes(nodes).value;
    var second := StageSubtypes(first, folders, DIRECTORY, true).value;
    var third := StageSubtypes(second, documents, DOCUMENT, true).value;
    forall id | id in first
      ensures && id in third && third[id].kind == first[id].kind && third[id].nodeParent == first[id].nodeParent
              && (first[id].parent.Some? || id == ROOT ==> third[id].parent == first[id].parent)
    {
      AttachedKeeps(first, folders, DIRECTORY, id);
      AttachedKeeps(second, documents, DOCUMENT, id);
    }
    forall row | row in folders
      ensures row.id in first && StandsUnder(third, row, DIRECTORY, row.parentKey, first[row.id].parent)
    {
      AttachedParent(first, folders, DIRECTORY, row);
      AttachedKeeps(second, documents, DOCUMENT, row.id);
    }
    forall row | row in documents
      ensures row.id in first && StandsUnder(third, row, DOCUMENT, row.folderKey, first[row.id].parent)
    {
      AttachedParent(second, documents, DOCUMENT, row);
      AttachedExactly(first, folders, DIRECTORY);
      AttachedKeeps(first, folders, DIRECTORY, row.id);
    }
    WithRootKeeps(third);
  }

  /** The parents of an accepted older backup, read from the subtype rows alone. */
  lemma StagedLegacyParents(backup: Backup)
    requires Loaded(backup).Some? && backup.nodes.None?
    ensures var index := Loaded(backup).value;
      && (forall row :: row in RowsOf(backup.folders) ==>
            && row.id in index && index[row.id].kind == DIRECTORY && index[row.id].subtype == Some(row)
            && NamesParent(row.parentKey, row.id, index[row.id].parent) && index[row.id].nodeParent == index[row.id].parent)
      && (forall row :: row in RowsOf(backup.documents) ==>
            && row.id in index && index[row.id].kind == DOCUMENT && index[row.id].subtype == Some(row)
            && NamesParent(row.folderKey, row.id, index[row.id].parent) && index[row.id].nodeParent == index[row.id].parent)
  {
    var folders, documents := RowsOf(backup.folders), RowsOf(backup.documents);
    assert StageNodes([]) == Some(map[]) by { NodesStaged([]); }
    hide StageNodes, StageSubtypes, WellTyped;
    var first := StageSubtypes(map[], folders, DIRECTORY, false).value;
    var second := StageSubtypes(first, documents, DOCUMENT, false).value;
    assert Loaded(backup) == Some(WithRoot(second));
    hide Loaded, WithRoot, NamesParent;
    InsertedParents(map[], folders, DIRECTORY);
    InsertedParents(first, documents, DOCUMENT);
    WithRootKeeps(second);
  }

  /** A backup that leaves out the root gets an empty one without a parent. */
  lemma MissingRootAdded(backup: Backup)
    requires Loaded(backup).Some? && Loaded(backup).value != map[]
    ensures var index := Loaded(backup).value;
      && ROOT in index
      && ((forall node :: node in RowsOf(backup.nodes) ==> node.id != ROOT) && ROOT !in SubtypeIds(RowsOf(backup.folders))
          && ROOT !in SubtypeIds(RowsOf(backup.documents))
          ==> index[ROOT].kind == DIRECTORY && index[ROOT].parent.None? && index[ROOT].nodeParent.None?)
  {
    var nodes, folders, documents := RowsOf(backup.nodes), RowsOf(backup.folders), RowsOf(backup.documents);
    NodesStaged(nodes);
    hide StageNodes, StageSubtypes, WellTyped;
    if (forall node :: node in nodes ==> node.id != ROOT) && ROOT !in SubtypeIds(folders) && ROOT !in SubtypeIds(documents) {
      var first := StageNodes(nodes).value;
      forall i | 0 <= i < |nodes|
        ensures NodeIds(nodes)[i] != ROOT
      {
        assert nodes[i] in nodes;
      }
      var second := StageSubtypes(first, folders, DIRECTORY, backup.nodes.Some?).value;
      if backup.nodes.Some? {
        AttachedExactly(first, folders, DIRECTORY);
        AttachedExactly(second, documents, DOCUMENT);
      } else {
        InsertedExactly(first, folders, DIRECTORY);
        InsertedExactly(second, documents, DOCUMENT);
      }
    }
  }

  /** `_load_node_index`. */
  method LoadNodeIndex(backup: Backup) returns (r: Option<Index>)
    ensures r == Loaded(backup)
    ensures r.Some? <==> Consistent(backup)
  {
    StagedExactly(backup);
    hide Consistent;
    var staged: Index := map[];
    var nodes := RowsOf(backup.nodes);
    assert nodes[..0] == [];
    for i := 0 to |nodes|
      invariant StageNodes(nodes[..i]) == Some(staged)
    {
      assert nodes[..i + 1][..i] == nodes[..i];
      var row := nodes[i];
      if row.id in staged {
        NodesFail(nodes, i);
        return None;
      }
      staged := staged[row.id := Staged(row.kind, row.parent, row.parent, None, None)];
    }
    assert nodes[..|nodes|] == nodes;
    var folders := StageSubtypeRows(staged, RowsOf(backup.folders), DIRECTORY, backup.nodes.Some?);
    if folders.None? { return None; }
    var documents := StageSubtypeRows(folders.value, RowsOf(backup.documents), DOCUMENT, backup.nodes.Some?);
    if documents.None? { return None; }
    staged := documents.value;
    if staged != map[] {
      if ROOT !in staged {
        staged := staged[ROOT := Staged(DIRECTORY, None, None, Some(ROOT_FOLDER), Some(DIRECTORY))];
      } else if staged[ROOT].kind == DIRECTORY && staged[ROOT].subtype.None? {
        staged := staged[ROOT := staged[ROOT].(subtype := Some(ROOT_FOLDER), subtypeKind := Some(DIRECTORY))];
      }
    }
    if exists id :: id in staged &&
                    (staged[id].subtype.None? || staged[id].subtypeKind != Some(staged[id].kind)
                     || (staged[id].kind != DIRECTORY && staged[id].kind != DOCUMENT))
    {
      return None;
    }
    r := Some(staged);
  }

  // ----- The hierarchy -----

  predicate IsDirectory(index: Index, id: string) {
    id in index && index[id].kind == DIRECTORY
  }

  predicate IsRoot(index: Index, id: string) {
    id == ROOT && IsDirectory(index, id) && index[id].parent.None?
  }

  /** `id` is the directory that the recursive query reaches in `depth` steps from the root. */
  predicate AtDepth(index: Index, id: string, depth: nat)
    decreases depth
  {
    && IsDirectory(index, id)
    && if depth == 0 then IsRoot(index, id)
       else index[id].parent.Some? && AtDepth(index, index[id].parent.value, depth - 1)
  }

  ghost predicate Reached(index: Index, id: string) {
    exists depth: nat :: AtDepth(index, id, depth)
  }

  /** The directories form one tree below the root. */
  ghost predicate Rooted(index: Index) {
    forall id :: IsDirectory(index, id) ==> Reached(index, id)
  }

  /** Every document lies in a directory. */
  predicate DocumentsPlaced(index: Index) {
    forall id :: id in index && index[id].kind == DOCUMENT ==>
      index[id].parent.Some? && IsDirectory(index, index[id].parent.value)
  }

  /** A directory is reached along one path only, so the recursive query yields it once. */
  lemma {:induction false} DepthIsUnique(index: Index, id: string, d: nat, e: nat)
    requires AtDepth(index, id, d) && AtDepth(index, id, e)
    ensures d == e
    decreases d
  {
    if d > 0 && e > 0 {
      DepthIsUnique(index, index[id].parent.value, d - 1, e - 1);
    }
  }

  /** A set of directories cut off from the root: each parent is in the set or is no directory. */
  ghost predicate CutOff(index: Index, s: set<string>) {
    && s != {}
    && forall id :: id in s ==>
         && IsDirectory(index, id) && !IsRoot(index, id)
         && (index[id].parent.Some? ==> index[id].parent.value in s || !IsDirectory(index, index[id].parent.value))
  }

  lemma {:induction false} CutOffIsNotReached(index: Index, s: set<string>, id: string, depth: nat)
    requires CutOff(index, s) && id in s
    ensures !AtDepth(index, id, depth)
    decreases depth
  {
    if depth > 0 && index[id].parent.Some? && index[id].parent.value in s {
      CutOffIsNotReached(index, s, index[id].parent.value, depth - 1);
    }
  }

  lemma CutOffRefutes(index: Index, s: set<string>)
    requires CutOff(index, s)
    ensures !Rooted(index)
  {
    var id :| id in s;
    forall depth: nat
      ensures !AtDepth(index, id, depth)
    {
      CutOffIsNotReached(index, s, id, depth);
    }
    assert IsDirectory(index, id) && !Reached(index, id);
  }

  /** A child of a reached directory is reached one step later. */
  lemma ChildIsReached(index: Index, id: string)
    requires IsDirectory(index, id) && index[id].parent.Some? && Reached(index, index[id].parent.value)
    ensures Reached(index, id)
  {
    var depth: nat :| AtDepth(index, index[id].parent.value, depth);
    assert AtDepth(index, id, depth + 1);
  }

  lemma UnreachedIsCutOff(index: Index, lost: string) returns (s: set<string>)
    requires IsDirectory(index, lost) && !Reached(index, lost)
    ensures CutOff(index, s)
  {
    s := set id | id in index && IsDirectory(index, id) && !Reached(index, id);
    assert lost in s;
    forall id | id in s
      ensures IsDirectory(index, id) && !IsRoot(index, id)
      ensures index[id].parent.Some? ==> index[id].parent.value in s || !IsDirectory(index, index[id].parent.value)
    {
      assert !AtDepth(index, id, 0);
      if index[id].parent.Some? && Reached(index, index[id].parent.value) {
        ChildIsReached(index, id);
      }
    }
  }

  /** The hierarchy fails exactly if some directories, such as those of a cycle, are cut off. */
  lemma RootedExactly(index: Index)
    ensures Rooted(index) <==> !exists s :: CutOff(index, s)
  {
    if s :| CutOff(index, s) {
      CutOffRefutes(index, s);
    }
    if !Rooted(index) {
      var lost :| IsDirectory(index, lost) && !Reached(index, lost);
      var s := UnreachedIsCutOff(index, lost);
    }
  }

  /** One level of the recursive query. */
  function Level(index: Index, depth: nat): set<string> {
    set id | id in index && AtDepth(index, id, depth)
  }

  function Directories(index: Index): set<string> {
    set id | id in index && index[id].kind == DIRECTORY
  }

  function Documents(index: Index): set<string> {
    set id | id in index && index[id].kind == DOCUMENT
  }

  /** A stored node whose staged parent is in place, or the root itself. */
  predicate Placed(index: Index, before: seq<string>, id: string) {
    && id in index
    && (IsRoot(index, id) || (index[id].parent.Some? && index[id].parent.value in before))
  }

  /** Identifiers inserted so far: distinct, and each but the root after its staged parent. */
  ghost predicate ParentsFirst(index: Index, inserted: seq<string>) {
    && Distinct(inserted)
    && (forall i :: 0 <= i < |inserted| ==> Placed(index, inserted[..i], inserted[i]))
  }

  lemma ParentsFirstExtend(index: Index, inserted: seq<string>, id: string)
    requires ParentsFirst(index, inserted) && id !in inserted && Placed(index, inserted, id)
    ensures ParentsFirst(index, inserted + [id])
  {
    hide Placed;
    var more := inserted + [id];
    assert forall i :: 0 <= i < |inserted| ==> more[..i] == inserted[..i];
    assert more[..|inserted|] == inserted;
  }

  lemma PlacedInMore(index: Index, before: seq<string>, more: seq<string>, id: string)
    requires Placed(index, before, id) && (forall x :: x in before ==> x in more)
    ensures Placed(index, more, id)
  {
  }

  /** Inserting a batch of nodes whose parents are all in place. */
  method InsertBatch(index: Index, batch: set<string>, before: seq<string>) returns (inserted: seq<string>)
    requires ParentsFirst(index, before) && (forall id :: id in batch ==> id !in before && Placed(index, before, id))
    ensures ParentsFirst(index, inserted) && |inserted| == |before| + |batch|
    ensures forall id :: id in inserted <==> id in before || id in batch
  {
    hide Placed, ParentsFirst;
    inserted := before;
    var rest := batch;
    while rest != {}
      invariant rest <= batch && ParentsFirst(index, inserted) && |inserted| + |rest| == |before| + |batch|
      invariant forall id :: id in inserted <==> id in before || id in batch - rest
    {
      var id :| id in rest;
      PlacedInMore(index, before, inserted, id);
      ParentsFirstExtend(index, inserted, id);
      inserted := inserted + [id];
      rest := rest - {id};
    }
  }

  /** Everything above `depth` has been inserted, and nothing else. */
  ghost predicate InsertedAbove(index: Index, depth: nat, inserted: seq<string>) {
    forall id :: id in inserted <==> exists d: nat :: d < depth && AtDepth(index, id, d)
  }

  lemma LevelsAdvance(index: Index, depth: nat, inserted: seq<string>)
    requires InsertedAbove(index, depth, inserted)
    ensures forall id :: id in Level(index, depth) ==> id !in inserted && Placed(index, inserted, id)
  {
    forall id | id in Level(index, depth)
      ensures id !in inserted && Placed(index, inserted, id)
    {
      if id in inserted {
        var d: nat :| d < depth && AtDepth(index, id, d);
        DepthIsUnique(index, id, d, depth);
      }
      if depth > 0 {
        assert AtDepth(index, index[id].parent.value, depth - 1);
        assert index[id].parent.value in inserted;
      }
    }
  }

  lemma LevelInserted(index: Index, depth: nat, before: seq<string>, inserted: seq<string>)
    requires InsertedAbove(index, depth, before)
    requires forall id :: id in inserted <==> id in before || id in Level(index, depth)
    ensures InsertedAbove(index, depth + 1, inserted)
  {
    hide AtDepth;
    assert forall id :: AtDepth(index, id, depth) ==> id in Level(index, depth) by { LevelIsDepth(index, depth); }
  }

  lemma LevelIsDepth(index: Index, depth: nat)
    ensures forall id :: id in Level(index, depth) <==> AtDepth(index, id, depth)
  {
  }

  lemma LastLevelInserted(index: Index, depth: nat, inserted: seq<string>)
    requires InsertedAbove(index, depth, inserted) && Level(index, depth) == {}
    ensures forall id :: id in inserted <==> Reached(index, id)
  {
    forall id
      ensures id in inserted <==> Reached(index, id)
    {
      if Reached(index, id) {
        var d: nat :| AtDepth(index, id, d);
        if depth <= d { EmptyLevelEnds(index, depth, id, d); }
      }
    }
  }

  lemma {:induction false} EmptyLevelEnds(index: Index, depth: nat, id: string, later: nat)
    requires Level(index, depth) == {} && depth <= later
    ensures !AtDepth(index, id, later)
    decreases later
  {
    LevelIsDepth(index, depth);
    if later > depth && AtDepth(index, id, later) {
      EmptyLevelEnds(index, depth, index[id].parent.value, later - 1);
    }
  }

  /** The folder loop: level by level below the root; it ends also when cycles are stored. */
  method RestoreFolders(index: Index) returns (inserted: seq<string>)
    ensures ParentsFirst(index, inserted)
    ensures forall id :: id in inserted <==> Reached(index, id)
  {
    hide AtDepth, Placed, ParentsFirst, InsertedAbove, Level, Reached;
    inserted := [];
    NothingInserted(index);
    var depth := 0;
    var level := Level(index, 0);
    while level != {}
      invariant level == Level(index, depth)
      invariant ParentsFirst(index, inserted) && InsertedAbove(index, depth, inserted)
      invariant |inserted| <= |index|
      decreases |index| - |inserted|
    {
      LevelsAdvance(index, depth, inserted);
      ghost var before := inserted;
      inserted := InsertBatch(index, level, inserted);
      InsertedFit(index, inserted);
      LevelInserted(index, depth, before, inserted);
      depth := depth + 1;
      level := Level(index, depth);
    }
    LastLevelInserted(index, depth, inserted);
  }

  lemma NothingInserted(index: Index)
    ensures ParentsFirst(index, []) && InsertedAbove(index, 0, [])
  {
  }

  lemma InsertedFit(index: Index, inserted: seq<string>)
    requires ParentsFirst(index, inserted)
    ensures |inserted| <= |index|
  {
    SizeOfDistinct(inserted);
    SizeOfSubset((set id | id in inserted), index.Keys);
  }

  datatype Restore = Restored(inserted: seq<string>) | BrokenHierarchy | MissingFolder

  /**
   * `_restore_indexed_nodes`, name conflicts aside: it accepts exactly a rooted tree with
   * placed documents, and then inserts every node once, after its staged parent.
   */
  method RestoreIndexedNodes(index: Index) returns (r: Restore)
    requires WellTyped(index)
    ensures r.Restored? <==> Rooted(index) && DocumentsPlaced(index)
    ensures r.BrokenHierarchy? <==> !Rooted(index)
    ensures r.Restored? ==> ParentsFirst(index, r.inserted) && forall id :: id in r.inserted <==> id in index
  {
    var inserted := RestoreFolders(index);
    hide AtDepth, IsRoot, Reached, ParentsFirst, Placed;
    var expected := Directories(index);
    CountDecides(index, inserted);
    if |inserted| != |expected| { return BrokenHierarchy; }
    if exists id :: id in index && index[id].kind == DOCUMENT &&
                    (index[id].parent.None? || index[id].parent.value !in index || index[index[id].parent.value].kind != DIRECTORY)
    {
      return MissingFolder;
    }
    DocumentsReady(index, inserted);
    inserted := InsertBatch(index, Documents(index), inserted);
    EveryNodeInserted(index);
    r := Restored(inserted);
  }

  lemma EveryNodeInserted(index: Index)
    requires WellTyped(index) && Rooted(index)
    ensures forall id :: id in index <==> Reached(index, id) || id in Documents(index)
  {
    hide AtDepth;
    forall id | Reached(index, id)
      ensures IsDirectory(index, id)
    {
      ReachedIsDirectory(index, id);
    }
  }

  lemma ReachedIsDirectory(index: Index, id: string)
    requires Reached(index, id)
    ensures IsDirectory(index, id)
  {
  }

  /** Comparing counts is enough: the restored folders are all folders exactly if they are as many. */
  lemma CountDecides(index: Index, inserted: seq<string>)
    requires ParentsFirst(index, inserted) && forall id :: id in inserted <==> Reached(index, id)
    ensures |inserted| == |Directories(index)| <==> Rooted(index)
  {
    var reached := set id | id in inserted;
    SizeOfDistinct(inserted);
    forall id | id in reached
      ensures id in Directories(index)
    {
      var d: nat :| AtDepth(index, id, d);
    }
    SizeOfSubset(reached, Directories(index));
    if Rooted(index) {
      assert forall id :: id in Directories(index) ==> IsDirectory(index, id) && id in reached;
      assert Directories(index) == reached;
    }
    if |inserted| == |Directories(index)| {
      assert forall id :: IsDirectory(index, id) ==> id in Directories(index);
    }
  }

  lemma DocumentsReady(index: Index, inserted: seq<string>)
    requires Rooted(index) && DocumentsPlaced(index) && (forall id :: id in inserted <==> Reached(index, id))
    ensures forall id :: id in Documents(index) ==> id !in inserted && Placed(index, inserted, id)
  {
    forall id | id in Documents(index)
      ensures !Reached(index, id)
    {
      if Reached(index, id) {
        ReachedIsDirectory(index, id);
      }
    }
  }

  // ----- The parent that is inserted -----

  function CellParent(row: SubtypeRow): Option<string> {
    match row.parentKey
    case Value(id) => Some(id)
    case Null => None
    case Absent =>
      match row.folderKey
      case Value(id) => Some(id)
      case Null => None
      case Absent => Some(ROOT)
  }

  /** `_merge_legacy_namespace`: the parent of the node row that is inserted. */
  function InsertedParent(id: string, staged: Staged): Option<string>
    requires staged.subtype.Some?
  {
    if id != ROOT && staged.nodeParent.None? then CellParent(staged.subtype.value) else staged.nodeParent
  }

  /** How a staged row came about: from a node row, from a legacy row, or as the added root. */
  ghost predicate Provenance(id: string, staged: Staged) {
    && (staged.nodeParent.Some? ==> staged.parent == staged.nodeParent)
    && (id == ROOT ==> staged.parent == staged.nodeParent)
    && (id != ROOT && staged.nodeParent.None? && staged.subtype.Some? ==>
          && staged.subtype.value.id == id
          && staged.parent == LegacyParent(staged.subtype.value, staged.kind))
    && (staged.subtype.None? ==> staged.parent == staged.nodeParent)
  }

  ghost predicate Traced(index: Index) {
    forall id :: id in index ==> Provenance(id, index[id])
  }

  lemma {:induction false} NodesTraced(rows: seq<NodeRow>)
    ensures StageNodes(rows).Some? ==> Traced(StageNodes(rows).value)
  {
    if rows != [] {
      NodesTraced(rows[..|rows| - 1]);
    }
  }

  lemma {:induction false} SubtypesTraced(index: Index, rows: seq<SubtypeRow>, kind: string, hasNodes: bool)
    requires Traced(index)
    ensures var r := StageSubtypes(index, rows, kind, hasNodes); r.Some? ==> Traced(r.value)
  {
    if rows != [] {
      SubtypesTraced(index, rows[..|rows| - 1], kind, hasNodes);
    }
  }

  lemma LoadedTraced(backup: Backup)
    requires Loaded(backup).Some?
    ensures Traced(Loaded(backup).value) && WellTyped(Loaded(backup).value)
  {
    hide StageNodes, StageSubtypes;
    var hasNodes := backup.nodes.Some?;
    var nodes := StageNodes(RowsOf(backup.nodes)).value;
    NodesTraced(RowsOf(backup.nodes));
    SubtypesTraced(nodes, RowsOf(backup.folders), DIRECTORY, hasNodes);
    var folders := StageSubtypes(nodes, RowsOf(backup.folders), DIRECTORY, hasNodes).value;
    SubtypesTraced(folders, RowsOf(backup.documents), DOCUMENT, hasNodes);
  }

  /** A node that carries its parent is inserted under the parent that the hierarchy checked. */
  lemma CarriedParentKept(backup: Backup, id: string)
    requires Loaded(backup).Some? && id in Loaded(backup).value
    requires id == ROOT || Loaded(backup).value[id].nodeParent.Some?
    ensures Loaded(backup).value[id].subtype.Some?
    ensures InsertedParent(id, Loaded(backup).value[id]) == Loaded(backup).value[id].parent
  {
    LoadedTraced(backup);
  }

  /**
   * For a node row without a parent the two agree exactly if the subtype row names one
   * parent: an explicit null is kept although the hierarchy has read it as the root.
   */
  lemma LegacyParentKeptExactly(backup: Backup, id: string)
    requires Loaded(backup).Some? && id in Loaded(backup).value
    requires id != ROOT && Loaded(backup).value[id].nodeParent.None?
    ensures var staged := Loaded(backup).value[id];
      && staged.subtype.Some?
      && var row := staged.subtype.value;
         var own := if staged.kind == DIRECTORY then row.parentKey else row.folderKey;
         var checked := if own.Value? then own.id else ROOT;
         InsertedParent(id, staged) == staged.parent <==>
         if row.parentKey.Absent? then row.folderKey.Absent? || row.folderKey == Value(checked) else row.parentKey == Value(checked)
  {
    LoadedTraced(backup);
  }

  /** A folder row with an explicit null parent passes the hierarchy check but loses its parent. */
  lemma ExplicitNullLosesParent()
    ensures var backup := Backup(Some([NodeRow("a", DIRECTORY, None)]), Some([SubtypeRow("a", Null, Absent)]), None);
      && Loaded(backup).Some? && Rooted(Loaded(backup).value)
      && Loaded(backup).value["a"].parent == Some(ROOT)
      && InsertedParent("a", Loaded(backup).value["a"]) == None
  {
    var nodes := [NodeRow("a", DIRECTORY, None)];
    var folders := [SubtypeRow("a", Null, Absent)];
    var backup := Backup(Some(nodes), Some(folders), None);
    assert nodes[..0] == [] && folders[..0] == [];
    assert StageNodes(nodes[..0]) == Some(map[]);
    var staged := StageNodes(nodes).value;
    assert StageSubtypes(staged, folders[..0], DIRECTORY, true) == Some(staged);
    var index := Loaded(backup).value;
    assert AtDepth(index, ROOT, 0);
    assert AtDepth(index, "a", 1);
  }
}

/** Importing the item master: fold the source rows that share a conflict key, then upsert the rest concurrently. */
module ItemImport {
  import opened Wrappers
  import opened Text

  /** A source cell; `Value` is a number, date or flag together with its text form. */
  datatype Cell = Null | Text(s: string) | Value(rendered: string)

  /** A column as the source spells it: `name` itself is upper case. */
  datatype Column = Column(name: string, lowerCase: bool)

  type Row = map<Column, Cell>

  function Rendering(c: Cell): string {
    match c
    case Null => ""
    case Text(s) => s
    case Value(r) => r
  }

  predicate Blank(c: Cell) {
    c.Null? || (c.Text? && Trim(c.s) == "")
  }

  /** Text forms of numbers, dates and flags are never blank. */
  ghost predicate WellFormed(row: Row) {
    forall c :: c in row && row[c].Value? ==> Trim(row[c].rendered) != ""
  }

  function CellAt(row: Row, c: Column): Cell {
    if c in row then row[c] else Null
  }

  function Col(row: Row, name: string): Cell {
    var exact := CellAt(row, Column(name, false));
    if exact != Null then exact else CellAt(row, Column(name, true))
  }

  function Str(row: Row, name: string): string {
    Rendering(Col(row, name))
  }

  function FirstStr(row: Row, names: seq<string>): string {
    if names == [] then ""
    else
      var s := Trim(Str(row, names[0]));
      if s != "" then s else FirstStr(row, names[1..])
  }

  function OptStr(row: Row, name: string): Option<string> {
    var s := Str(row, name);
    if Trim(s) != "" then Some(s) else None
  }

  datatype Key = Key(itemId: string, region: string)

  datatype Item = Item(key: Key, name: string, itemType: Option<string>, details: map<string, Option<string>>)

  const ITEM_COLUMNS := ["ITEM_ID", "SKU", "HANDLE"]

  const KEY_COLUMNS := {"ITEM_ID", "SKU", "HANDLE", "REGION"}

  function KeyOf(row: Row): Key {
    Key(FirstStr(row, ITEM_COLUMNS), Str(row, "REGION"))
  }

  function MapRow(row: Row): Item {
    var name := FirstStr(row, ["NAME", "SKU", "DESCRIPTION"]);
    var itemType := OptStr(row, "TYPE");
    Item(KeyOf(row),
         if name != "" then name else "Unnamed item",
         if itemType.Some? then itemType else OptStr(row, "ITEM_TYPE"),
         map[
           "requestId" := OptStr(row, "REQUEST_ID"),
           "status" := OptStr(row, "STATUS"),
           "message" := OptStr(row, "MESSAGE"),
           "sourceId" := OptStr(row, "SOURCE_ID"),
           "uomCode" := OptStr(row, "UOM_CODE"),
           "handle" := OptStr(row, "HANDLE"),
           "uomName" := OptStr(row, "UOM_NAME"),
           "active" := OptStr(row, "ACTIVE"),
           "description" := OptStr(row, "DESCRIPTION"),
           "sku" := OptStr(row, "SKU"),
           "brandId" := OptStr(row, "BRAND_ID"),
           "trackInventory" := OptStr(row, "TRACK_INVENTORY"),
           "retailPrice" := OptStr(row, "RETAIL_PRICE"),
           "taxId" := OptStr(row, "TAX_ID"),
           "requestDate" := OptStr(row, "REQUEST_DATE"),
           "lastUpdateDate" := OptStr(row, "LAST_UPDATE_DATE")])
  }

  // ----- folding

  function MergeInto(prev: Row, row: Row): Row {
    map c | c in prev.Keys + row.Keys && (c in prev || !Blank(row[c])) ::
      if c in row && !Blank(row[c]) then row[c] else prev[c]
  }

  predicate TwiceSpelled(columns: set<Column>, name: string) {
    Column(name, false) in columns && Column(name, true) in columns
  }

  /** No column the key is taken from occurs both in its upper-case and in its lower-case spelling. */
  predicate KeySpelledOnce(columns: set<Column>) {
    forall name :: name in KEY_COLUMNS ==> !TwiceSpelled(columns, name)
  }

  lemma ColOfMerge(prev: Row, row: Row, name: string)
    requires !TwiceSpelled(prev.Keys + row.Keys, name)
    ensures Col(MergeInto(prev, row), name) == if Blank(Col(row, name)) then Col(prev, name) else Col(row, name)
  {
  }

  lemma BlankMeansNoText(row: Row, name: string)
    requires WellFormed(row)
    ensures Blank(Col(row, name)) <==> Trim(Str(row, name)) == ""
  {
    assert Trim("") == "";
  }

  lemma {:induction false} FirstStrOfMerge(prev: Row, row: Row, names: seq<string>)
    requires WellFormed(prev) && WellFormed(row)
    requires forall name :: name in names ==> !TwiceSpelled(prev.Keys + row.Keys, name)
    requires FirstStr(prev, names) == FirstStr(row, names)
    ensures FirstStr(MergeInto(prev, row), names) == FirstStr(row, names)
  {
    if names == [] {
    } else {
      ColOfMerge(prev, row, names[0]);
      BlankMeansNoText(prev, names[0]);
      BlankMeansNoText(row, names[0]);
      if Blank(Col(row, names[0])) && Blank(Col(prev, names[0])) {
        FirstStrOfMerge(prev, row, names[1..]);
      }
    }
  }

  /** Folding two rows with one conflict key keeps that key, whichever columns the two rows take it from. */
  lemma MergeKeepsKey(prev: Row, row: Row)
    requires KeySpelledOnce(prev.Keys + row.Keys) && WellFormed(prev) && WellFormed(row)
    requires KeyOf(prev) == KeyOf(row)
    ensures KeyOf(MergeInto(prev, row)) == KeyOf(row)
    ensures WellFormed(MergeInto(prev, row))
  {
    FirstStrOfMerge(prev, row, ITEM_COLUMNS);
    ColOfMerge(prev, row, "REGION");
  }

  /** Rows over `columns` with one conflict key keep it when folded. */
  ghost predicate KeepsKey(prev: Row, row: Row, columns: set<Column>) {
    WellFormed(prev) && WellFormed(row) && prev.Keys <= columns && row.Keys <= columns && KeyOf(prev) == KeyOf(row) ==>
      KeyOf(MergeInto(prev, row)) == KeyOf(row)
  }

  /** With a key column in both spellings, a blank in one can uncover what the other holds. */
  lemma BlankUncovers(name: string) returns (prev: Row, row: Row)
    requires name in KEY_COLUMNS
    ensures prev.Keys == row.Keys == {Column(name, false), Column(name, true)}
    ensures WellFormed(prev) && WellFormed(row) && KeyOf(prev) == KeyOf(row)
    ensures KeyOf(MergeInto(prev, row)) != KeyOf(row)
  {
    var upper, lower := Column(name, false), Column(name, true);
    prev, row := map[upper := Null, lower := Null], map[upper := Text(""), lower := Text("y")];
    var merged := MergeInto(prev, row);
    assert merged == map[upper := Null, lower := Text("y")];
    assert Trim("") == "" && Trim("y") == "y";
    NothingFound(prev, ITEM_COLUMNS);
    NothingFound(row, ITEM_COLUMNS);
    if name == "REGION" {
      assert Str(merged, name) == "y" && Str(row, name) == "";
    } else {
      OnlyFound(merged, ITEM_COLUMNS, name);
    }
  }

  lemma {:induction false} NothingFound(row: Row, names: seq<string>)
    requires forall name :: name in names ==> Str(row, name) == ""
    ensures FirstStr(row, names) == ""
  {
    assert Trim("") == "";
    if names == [] {
    } else {
      NothingFound(row, names[1..]);
    }
  }

  lemma {:induction false} OnlyFound(row: Row, names: seq<string>, name: string)
    requires name in names && Str(row, name) == "y"
    requires forall n :: n in names && n != name ==> Str(row, n) == ""
    ensures FirstStr(row, names) == "y"
  {
    assert Trim("") == "" && Trim("y") == "y";
    if names[0] != name {
      OnlyFound(row, names[1..], name);
    }
  }

  lemma SpelledOnceKeepsKey(prev: Row, row: Row, columns: set<Column>)
    requires KeySpelledOnce(columns)
    ensures KeepsKey(prev, row, columns)
  {
    hide KeyOf, MergeInto, WellFormed;
    if prev.Keys <= columns && row.Keys <= columns && WellFormed(prev) && WellFormed(row) && KeyOf(prev) == KeyOf(row) {
      MergeKeepsKey(prev, row);
    }
  }

  lemma SpelledTwiceLosesKey(columns: set<Column>, name: string) returns (prev: Row, row: Row)
    requires name in KEY_COLUMNS && TwiceSpelled(columns, name)
    ensures RowsOver([prev, row], columns) && KeyOf(prev) == KeyOf(row) && KeyOf(MergeInto(prev, row)) != KeyOf(row)
    ensures !KeepsKey(prev, row, columns)
  {
    hide KeyOf, MergeInto, WellFormed;
    prev, row := BlankUncovers(name);
  }

  /** Well-formed rows over these columns. */
  ghost predicate RowsOver(rows: seq<Row>, columns: set<Column>) {
    forall i :: 0 <= i < |rows| ==> WellFormed(rows[i]) && rows[i].Keys <= columns
  }

  /** Folding keeps the conflict key of every pair of rows exactly if no key column occurs in both spellings. */
  lemma KeyIsKeptExactlyWhen(columns: set<Column>)
    ensures (forall prev, row :: KeepsKey(prev, row, columns)) <==> KeySpelledOnce(columns)
  {
    hide KeepsKey, RowsOver, KeyOf, MergeInto;
    if KeySpelledOnce(columns) {
      forall prev: Row, row: Row
        ensures KeepsKey(prev, row, columns)
      {
        SpelledOnceKeepsKey(prev, row, columns);
      }
    } else {
      var name :| name in KEY_COLUMNS && TwiceSpelled(columns, name);
      var prev, row := SpelledTwiceLosesKey(columns, name);
    }
  }

  /** The rows merged so far, and the keys in the order they first appeared. */
  datatype Folding = Folding(order: seq<Key>, merged: map<Key, Row>)

  function FoldRow(f: Folding, row: Row): Folding {
    var k := KeyOf(row);
    if k in f.merged then f.(merged := f.merged[k := MergeInto(f.merged[k], row)])
    else Folding(f.order + [k], f.merged[k := row])
  }

  function Fold(rows: seq<Row>): Folding {
    if |rows| == 0 then Folding([], map[]) else FoldRow(Fold(rows[..|rows| - 1]), rows[|rows| - 1])
  }

  function Merged(f: Folding): seq<Row>
    requires forall k :: k in f.order ==> k in f.merged
  {
    seq(|f.order|, i requires 0 <= i < |f.order| => f.merged[f.order[i]])
  }

  predicate SomeRowHas(rows: seq<Row>, k: Key) {
    exists i :: 0 <= i < |rows| && KeyOf(rows[i]) == k
  }

  /** The last row with key `k` that has something in column `c` decides, else the first row with that key. */
  function Winner(rows: seq<Row>, k: Key, c: Column): Cell {
    if |rows| == 0 then Null
    else
      var last := rows[|rows| - 1];
      var before := rows[..|rows| - 1];
      if KeyOf(last) == k && !Blank(CellAt(last, c)) then CellAt(last, c)
      else if KeyOf(last) == k && !SomeRowHas(before, k) then CellAt(last, c)
      else Winner(before, k, c)
  }

  /** A folded row under the key it was filed under. */
  ghost predicate Filed(row: Row, k: Key, columns: set<Column>) {
    KeyOf(row) == k && WellFormed(row) && row.Keys <= columns
  }

  /**
   The folded rows: one per key of the input and filed under it, so that no two folded rows share a key, and each
   column holding the value that should win.
   */
  ghost predicate Folds(f: Folding, rows: seq<Row>, columns: set<Column>) {
    && (forall i, j :: 0 <= i < j < |f.order| ==> f.order[i] != f.order[j])
    && (forall k :: k in f.order <==> k in f.merged)
    && (forall k :: k in f.merged <==> SomeRowHas(rows, k))
    && (forall k :: k in f.merged ==> Filed(f.merged[k], k, columns))
    && (forall k, c :: k in f.merged ==> CellAt(f.merged[k], c) == Winner(rows, k, c))
  }

  lemma {:induction false} FoldFolds(rows: seq<Row>, columns: set<Column>)
    requires RowsOver(rows, columns) && KeySpelledOnce(columns)
    ensures Folds(Fold(rows), rows, columns)
  {
    if |rows| == 0 {
    } else {
      var before, row := rows[..|rows| - 1], rows[|rows| - 1];
      assert forall i :: 0 <= i < |before| ==> before[i] == rows[i];
      FoldFolds(before, columns);
      FoldRowFolds(Fold(before), before, row, columns);
      assert rows == before + [row];
    }
  }

  ghost predicate AlwaysFolds(columns: set<Column>) {
    forall rows :: RowsOver(rows, columns) ==> Folds(Fold(rows), rows, columns)
  }

  /** Folding files every row of every result set under its key exactly if no key column occurs in both spellings. */
  lemma FoldsExactlyWhen(columns: set<Column>)
    ensures AlwaysFolds(columns) <==> KeySpelledOnce(columns)
  {
    hide Folds, Fold, RowsOver, KeyOf, MergeInto;
    if KeySpelledOnce(columns) {
      forall rows | RowsOver(rows, columns)
        ensures Folds(Fold(rows), rows, columns)
      {
        FoldFolds(rows, columns);
      }
    } else {
      var name :| name in KEY_COLUMNS && TwiceSpelled(columns, name);
      var prev, row := SpelledTwiceLosesKey(columns, name);
      FoldMisfiles(prev, row, columns);
    }
  }

  lemma FoldMisfiles(prev: Row, row: Row, columns: set<Column>)
    requires KeyOf(prev) == KeyOf(row) && KeyOf(MergeInto(prev, row)) != KeyOf(row)
    ensures !Folds(Fold([prev, row]), [prev, row], columns)
  {
    hide Fold, KeyOf, MergeInto;
    FoldOfTwo(prev, row);
    assert Folds(Fold([prev, row]), [prev, row], columns) ==>
      Filed(Fold([prev, row]).merged[KeyOf(row)], KeyOf(row), columns);
  }

  lemma FoldOfTwo(prev: Row, row: Row)
    requires KeyOf(prev) == KeyOf(row)
    ensures KeyOf(row) in Fold([prev, row]).merged && Fold([prev, row]).merged[KeyOf(row)] == MergeInto(prev, row)
  {
    assert [prev, row][..1] == [prev] && [prev][..0] == [];
    assert Fold([prev]) == FoldRow(Fold([]), prev);
  }

  lemma WinnerAfter(before: seq<Row>, row: Row, k: Key, c: Column)
    ensures Winner(before + [row], k, c) ==
      if KeyOf(row) == k && (!Blank(CellAt(row, c)) || !SomeRowHas(before, k))
      then CellAt(row, c) else Winner(before, k, c)
  {
    var rows := before + [row];
    assert rows[..|rows| - 1] == before && rows[|rows| - 1] == row;
  }

  lemma CellOfMerge(prev: Row, row: Row, c: Column)
    ensures CellAt(MergeInto(prev, row), c) == if Blank(CellAt(row, c)) then CellAt(prev, c) else CellAt(row, c)
  {
  }

  lemma FoldRowWinner(f: Folding, before: seq<Row>, row: Row, k: Key, c: Column)
    requires k in FoldRow(f, row).merged
    requires k in f.merged ==> CellAt(f.merged[k], c) == Winner(before, k, c)
    requires k in f.merged <==> SomeRowHas(before, k)
    ensures CellAt(FoldRow(f, row).merged[k], c) == Winner(before + [row], k, c)
  {
    WinnerAfter(before, row, k, c);
    if k in f.merged {
      CellOfMerge(f.merged[k], row, c);
    }
  }

  lemma KeysAfter(before: seq<Row>, row: Row, k: Key)
    ensures SomeRowHas(before + [row], k) <==> k == KeyOf(row) || SomeRowHas(before, k)
  {
    var rows := before + [row];
    if i :| 0 <= i < |before| && KeyOf(before[i]) == k {
      assert rows[i] == before[i];
    }
    assert rows[|before|] == row;
  }

  lemma FoldRowFiles(f: Folding, row: Row, k: Key, columns: set<Column>)
    requires KeySpelledOnce(columns) && WellFormed(row) && row.Keys <= columns
    requires k in f.merged ==> Filed(f.merged[k], k, columns)
    requires k in FoldRow(f, row).merged
    ensures Filed(FoldRow(f, row).merged[k], k, columns)
  {
    if k == KeyOf(row) && k in f.merged {
      MergeKeepsKey(f.merged[k], row);
    }
  }

  lemma FoldRowFolds(f: Folding, before: seq<Row>, row: Row, columns: set<Column>)
    requires Folds(f, before, columns)
    requires KeySpelledOnce(columns) && WellFormed(row) && row.Keys <= columns
    ensures Folds(FoldRow(f, row), before + [row], columns)
  {
    forall k | k in FoldRow(f, row).merged
      ensures Filed(FoldRow(f, row).merged[k], k, columns)
    {
      FoldRowFiles(f, row, k, columns);
    }
    forall k, c | k in FoldRow(f, row).merged
      ensures CellAt(FoldRow(f, row).merged[k], c) == Winner(before + [row], k, c)
    {
      FoldRowWinner(f, before, row, k, c);
    }
    forall k
      ensures k in FoldRow(f, row).merged <==> SomeRowHas(before + [row], k)
    {
      KeysAfter(before, row, k);
    }
  }

  // ----- what a folded row says

  /** The column holds something. */
  predicate Gives(row: Row, name: string) {
    Trim(Str(row, name)) != ""
  }

  /** The conflict key, read off the cells: the item id, else the SKU, else the handle, each trimmed, and the region. */
  predicate IsKeyOf(row: Row, k: Key) {
    && k.region == Str(row, "REGION")
    && (Gives(row, "ITEM_ID") ==> k.itemId == Trim(Str(row, "ITEM_ID")))
    && (!Gives(row, "ITEM_ID") && Gives(row, "SKU") ==> k.itemId == Trim(Str(row, "SKU")))
    && (!Gives(row, "ITEM_ID") && !Gives(row, "SKU") ==> k.itemId == Trim(Str(row, "HANDLE")))
  }

  lemma FirstOfThree(row: Row, a: string, b: string, c: string)
    ensures FirstStr(row, [a, b, c]) ==
      if Gives(row, a) then Trim(Str(row, a)) else if Gives(row, b) then Trim(Str(row, b)) else Trim(Str(row, c))
  {
    hide Str, Trim;
    assert [a, b, c][1..] == [b, c] && [b, c][1..] == [c] && [c][1..] == [];
    assert FirstStr(row, [c]) == Trim(Str(row, c));
  }

  lemma KeyIsReadOffTheCells(row: Row, k: Key)
    ensures IsKeyOf(row, k) <==> KeyOf(row) == k
  {
    FirstOfThree(row, "ITEM_ID", "SKU", "HANDLE");
  }

  /** Row `j` has this key and gives the column as `x`, and no later row with the key gives it at all. */
  ghost predicate GivesLast(rows: seq<Row>, k: Key, name: string, x: string, j: nat) {
    && j < |rows| && IsKeyOf(rows[j], k) && Gives(rows[j], name) && Str(rows[j], name) == x
    && forall m :: j < m < |rows| && IsKeyOf(rows[m], k) ==> !Gives(rows[m], name)
  }

  ghost predicate LastGiven(rows: seq<Row>, k: Key, name: string, x: string) {
    exists j: nat :: GivesLast(rows, k, name, x, j)
  }

  ghost predicate NeverGiven(rows: seq<Row>, k: Key, name: string) {
    forall j :: 0 <= j < |rows| && IsKeyOf(rows[j], k) ==> !Gives(rows[j], name)
  }

  lemma GivesLastAfter(before: seq<Row>, row: Row, k: Key, name: string, x: string)
    ensures LastGiven(before + [row], k, name, x) <==>
      if IsKeyOf(row, k) && Gives(row, name) then Str(row, name) == x else LastGiven(before, k, name, x)
    ensures NeverGiven(before + [row], k, name) <==>
      !(IsKeyOf(row, k) && Gives(row, name)) && NeverGiven(before, k, name)
  {
    hide IsKeyOf, Gives;
    var rows := before + [row];
    assert rows[|before|] == row && forall j :: 0 <= j < |before| ==> rows[j] == before[j];
    if IsKeyOf(row, k) && Gives(row, name) && Str(row, name) == x {
      assert GivesLast(rows, k, name, x, |before|);
    }
    forall j: nat | j < |before| && !(IsKeyOf(row, k) && Gives(row, name))
      ensures GivesLast(rows, k, name, x, j) <==> GivesLast(before, k, name, x, j)
    {
    }
  }

  /** A folded row gives of each column what the last row with its key gives that gives it at all. */
  ghost predicate SaysTheLastGiven(row: Row, rows: seq<Row>, k: Key, name: string) {
    && (Gives(row, name) <==> !NeverGiven(rows, k, name))
    && forall x :: Gives(row, name) && Str(row, name) == x <==> LastGiven(rows, k, name, x)
  }

  lemma GivesAfterMerge(prev: Row, row: Row, name: string)
    requires WellFormed(prev) && WellFormed(row) && !TwiceSpelled(prev.Keys + row.Keys, name)
    ensures Gives(MergeInto(prev, row), name) <==> Gives(prev, name) || Gives(row, name)
    ensures Gives(row, name) ==> Str(MergeInto(prev, row), name) == Str(row, name)
    ensures !Gives(row, name) ==> Str(MergeInto(prev, row), name) == Str(prev, name)
  {
    hide Trim, MergeInto;
    ColOfMerge(prev, row, name);
    BlankMeansNoText(row, name);
    BlankMeansNoText(prev, name);
  }

  lemma NothingGivenWithoutTheKey(rows: seq<Row>, k: Key, name: string)
    requires !SomeRowHas(rows, k)
    ensures NeverGiven(rows, k, name) && forall x :: !LastGiven(rows, k, name, x)
  {
    forall j | 0 <= j < |rows|
      ensures !IsKeyOf(rows[j], k)
    {
      KeyIsReadOffTheCells(rows[j], k);
    }
  }

  lemma {:induction false} FoldSaysTheLastGiven(rows: seq<Row>, columns: set<Column>, k: Key, name: string)
    requires RowsOver(rows, columns) && KeySpelledOnce(columns) && !TwiceSpelled(columns, name)
    requires k in Fold(rows).merged
    ensures SaysTheLastGiven(Fold(rows).merged[k], rows, k, name)
  {
    hide KeyOf, MergeInto, Gives, IsKeyOf, WellFormed, LastGiven, NeverGiven;
    var before, row := rows[..|rows| - 1], rows[|rows| - 1];
    assert rows == before + [row];
    assert forall i :: 0 <= i < |before| ==> before[i] == rows[i];
    FoldFolds(before, columns);
    KeyIsReadOffTheCells(row, k);
    GivesLastAfter(before, row, k, name, "");
    forall x
      ensures LastGiven(rows, k, name, x) <==>
        if IsKeyOf(row, k) && Gives(row, name) then Str(row, name) == x else LastGiven(before, k, name, x)
    {
      GivesLastAfter(before, row, k, name, x);
    }
    if k in Fold(before).merged {
      FoldSaysTheLastGiven(before, columns, k, name);
      assert Filed(Fold(before).merged[k], k, columns);
      if IsKeyOf(row, k) {
        GivesAfterMerge(Fold(before).merged[k], row, name);
      }
    } else {
      NothingGivenWithoutTheKey(before, k, name);
    }
  }

  // ----- what an imported item says

  /** The columns the details of an item come from, by field. */
  const COLUMN_OF: map<string, string> := map[
    "requestId" := "REQUEST_ID", "status" := "STATUS", "message" := "MESSAGE", "sourceId" := "SOURCE_ID",
    "uomCode" := "UOM_CODE", "handle" := "HANDLE", "uomName" := "UOM_NAME", "active" := "ACTIVE",
    "description" := "DESCRIPTION", "sku" := "SKU", "brandId" := "BRAND_ID", "trackInventory" := "TRACK_INVENTORY",
    "retailPrice" := "RETAIL_PRICE", "taxId" := "TAX_ID", "requestDate" := "REQUEST_DATE",
    "lastUpdateDate" := "LAST_UPDATE_DATE"]

  ghost predicate DetailsSay(item: Item, rows: seq<Row>, k: Key) {
    && item.details.Keys == COLUMN_OF.Keys
    && forall field, x :: field in COLUMN_OF ==>
      (item.details[field] == Some(x) <==> LastGiven(rows, k, COLUMN_OF[field], x))
  }

  /** The type, or where no row gives one the item type. */
  ghost predicate TypeSays(item: Item, rows: seq<Row>, k: Key) {
    if NeverGiven(rows, k, "TYPE") then
      forall x :: item.itemType == Some(x) <==> LastGiven(rows, k, "ITEM_TYPE", x)
    else
      forall x :: item.itemType == Some(x) <==> LastGiven(rows, k, "TYPE", x)
  }

  /** The name, or where no row gives one the SKU, or the description, or a text that says so. */
  ghost predicate NameSays(item: Item, rows: seq<Row>, k: Key) {
    && (forall x :: LastGiven(rows, k, "NAME", x) ==> item.name == Trim(x))
    && (NeverGiven(rows, k, "NAME") ==>
          && (forall x :: LastGiven(rows, k, "SKU", x) ==> item.name == Trim(x))
          && (NeverGiven(rows, k, "SKU") ==>
                && (forall x :: LastGiven(rows, k, "DESCRIPTION", x) ==> item.name == Trim(x))
                && (NeverGiven(rows, k, "DESCRIPTION") ==> item.name == "Unnamed item")))
  }

  ghost predicate AllSpelledOnce(columns: set<Column>) {
    forall name :: !TwiceSpelled(columns, name)
  }

  lemma OptStrIsGiven(row: Row, name: string)
    ensures forall x :: OptStr(row, name) == Some(x) <==> Gives(row, name) && Str(row, name) == x
  {
  }

  lemma MappedRow(row: Row)
    ensures
      var item := MapRow(row);
      && item.key == KeyOf(row) && item.details.Keys == COLUMN_OF.Keys
      && (forall field :: field in COLUMN_OF ==> item.details[field] == OptStr(row, COLUMN_OF[field]))
      && item.itemType == (if Gives(row, "TYPE") then OptStr(row, "TYPE") else OptStr(row, "ITEM_TYPE"))
      && item.name ==
           if Gives(row, "NAME") then Trim(Str(row, "NAME"))
           else if Gives(row, "SKU") then Trim(Str(row, "SKU"))
           else if Gives(row, "DESCRIPTION") then Trim(Str(row, "DESCRIPTION"))
           else "Unnamed item"
  {
    hide FirstStr, Str, Trim, KeyOf;
    FirstOfThree(row, "NAME", "SKU", "DESCRIPTION");
  }

  lemma DetailsFollow(row: Row, rows: seq<Row>, k: Key, field: string)
    requires field in COLUMN_OF && SaysTheLastGiven(row, rows, k, COLUMN_OF[field])
    ensures
      var item := MapRow(row);
      field in item.details && forall x :: item.details[field] == Some(x) <==> LastGiven(rows, k, COLUMN_OF[field], x)
  {
    MappedRow(row);
    hide MapRow, Gives, LastGiven, NeverGiven, Str, OptStr;
    OptStrIsGiven(row, COLUMN_OF[field]);
  }

  lemma TypeFollows(row: Row, rows: seq<Row>, k: Key)
    requires SaysTheLastGiven(row, rows, k, "TYPE") && SaysTheLastGiven(row, rows, k, "ITEM_TYPE")
    ensures TypeSays(MapRow(row), rows, k)
  {
    MappedRow(row);
    hide MapRow, Gives, LastGiven, NeverGiven, Str, OptStr;
    OptStrIsGiven(row, "TYPE");
    OptStrIsGiven(row, "ITEM_TYPE");
  }

  lemma NameFollows(row: Row, rows: seq<Row>, k: Key)
    requires SaysTheLastGiven(row, rows, k, "NAME") && SaysTheLastGiven(row, rows, k, "SKU")
    requires SaysTheLastGiven(row, rows, k, "DESCRIPTION")
    ensures NameSays(MapRow(row), rows, k)
  {
    MappedRow(row);
    hide MapRow, Gives, LastGiven, NeverGiven, Str, Trim;
  }

  lemma FoldedRowSays(rows: seq<Row>, columns: set<Column>, k: Key)
    requires RowsOver(rows, columns) && KeySpelledOnce(columns) && AllSpelledOnce(columns)
    requires k in Fold(rows).merged
    ensures KeyOf(Fold(rows).merged[k]) == k
    ensures forall name :: SaysTheLastGiven(Fold(rows).merged[k], rows, k, name)
  {
    hide Fold, SaysTheLastGiven, WellFormed, KeyOf;
    FoldFolds(rows, columns);
    assert Filed(Fold(rows).merged[k], k, columns);
    forall name
      ensures SaysTheLastGiven(Fold(rows).merged[k], rows, k, name)
    {
      FoldSaysTheLastGiven(rows, columns, k, name);
    }
  }

  lemma AllDetailsFollow(row: Row, rows: seq<Row>, k: Key)
    requires forall name :: SaysTheLastGiven(row, rows, k, name)
    ensures DetailsSay(MapRow(row), rows, k)
  {
    MappedRow(row);
    hide MapRow, SaysTheLastGiven, LastGiven;
    forall field | field in COLUMN_OF
      ensures
        field in MapRow(row).details
        && forall x :: MapRow(row).details[field] == Some(x) <==> LastGiven(rows, k, COLUMN_OF[field], x)
    {
      DetailsFollow(row, rows, k, field);
    }
  }

  /** An item made of a folded row takes every field from the last row with its key that gives it. */
  lemma FoldedItemSays(rows: seq<Row>, columns: set<Column>, k: Key)
    requires RowsOver(rows, columns) && KeySpelledOnce(columns) && AllSpelledOnce(columns)
    requires k in Fold(rows).merged
    ensures
      var item := MapRow(Fold(rows).merged[k]);
      item.key == k && DetailsSay(item, rows, k) && TypeSays(item, rows, k) && NameSays(item, rows, k)
  {
    hide MapRow, Fold, SaysTheLastGiven, DetailsSay, NameSays, TypeSays;
    FoldedRowSays(rows, columns, k);
    var row := Fold(rows).merged[k];
    KeyOfMapped(row);
    AllDetailsFollow(row, rows, k);
    TypeFollows(row, rows, k);
    NameFollows(row, rows, k);
  }

  lemma KeyOfMapped(row: Row)
    ensures MapRow(row).key == KeyOf(row)
  {
  }

  /** The folding loop: `merged` holds one row per key and is updated in place, `order` remembers first appearances. */
  method MergeDuplicateRows(rows: seq<Row>) returns (out: seq<Row>)
    ensures forall k :: k in Fold(rows).order ==> k in Fold(rows).merged
    ensures out == Merged(Fold(rows))
  {
    var order: seq<Key> := [];
    var merged: map<Key, Row> := map[];
    assert rows[..0] == [];
    for i := 0 to |rows|
      invariant Folding(order, merged) == Fold(rows[..i])
      invariant forall k :: k in order ==> k in merged
    {
      assert rows[..i + 1][..i] == rows[..i];
      var key := KeyOf(rows[i]);
      if key !in merged {
        order := order + [key];
        merged := merged[key := rows[i]];
      } else {
        merged := merged[key := MergeInto(merged[key], rows[i])];
      }
    }
    assert rows[..|rows|] == rows;
    out := seq(|order|, i requires 0 <= i < |order| => merged[order[i]]);
  }
}

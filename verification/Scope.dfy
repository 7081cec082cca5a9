/** Which catalog nodes a scan limited to some tables speaks for. */
module Scope {
  datatype NodeKind = NodeDatabase | NodeSchema | NodeTable | NodeColumn

  /** An empty scope is a full scan; a scoped one covers its tables and their columns, nothing above them. */
  predicate WithinTables(kind: NodeKind, qualifiedName: string, tables: seq<string>) {
    tables == []
    || exists i :: 0 <= i < |tables| && Covers(tables[i], kind, qualifiedName)
  }

  predicate Covers(table: string, kind: NodeKind, qualifiedName: string) {
    || (kind == NodeTable && qualifiedName == table)
    || (kind == NodeColumn && table + "." <= qualifiedName)
  }

  /** Cut before one of its dots, the name is one of these tables. */
  predicate NamesTable(name: string, tables: seq<string>) {
    exists k :: 0 <= k < |name| && CutIn(name, k, tables)
  }

  predicate CutIn(name: string, k: int, tables: seq<string>) {
    0 <= k < |name| && name[k] == '.' && name[..k] in tables
  }

  /** An empty scope covers everything; any other the tables it names, and the columns whose name is that of such a
      table followed by a dot. */
  lemma ScopeCovers(kind: NodeKind, name: string, tables: seq<string>)
    ensures WithinTables(kind, name, tables) <==>
      tables == [] || (kind == NodeTable && name in tables) || (kind == NodeColumn && NamesTable(name, tables))
  {
    if tables != [] && WithinTables(kind, name, tables) {
      var i :| 0 <= i < |tables| && Covers(tables[i], kind, name);
      if kind == NodeColumn {
        var k := |tables[i]|;
        assert name[k] == (tables[i] + ".")[k] && name[..k] == (tables[i] + ".")[..k] == tables[i];
        assert CutIn(name, k, tables);
      }
    }
    if kind == NodeColumn && NamesTable(name, tables) {
      var k :| 0 <= k < |name| && CutIn(name, k, tables);
      var i :| 0 <= i < |tables| && tables[i] == name[..k];
      assert name[..k + 1] == tables[i] + ".";
      assert Covers(tables[i], kind, name);
    }
    if kind == NodeTable && name in tables {
      var i :| 0 <= i < |tables| && tables[i] == name;
      assert Covers(tables[i], kind, name);
    }
  }

  /** A column of table `table` whose own name has no dot is covered exactly when its table is, unless the scope names
      what the table's name begins with. */
  lemma ColumnsFollowTables(table: string, column: string, tables: seq<string>)
    requires '.' !in column
    ensures NamesTable(table + "." + column, tables) <==> table in tables || NamesTable(table, tables)
    ensures tables != [] && !NamesTable(table, tables) ==>
      (WithinTables(NodeColumn, table + "." + column, tables) <==> table in tables)
  {
    var name := table + "." + column;
    assert name[..|table|] == table && name[|table|] == '.';
    assert forall k :: |table| < k < |name| ==> name[k] == column[k - |table| - 1];
    if table in tables { assert CutIn(name, |table|, tables); }
    if NamesTable(table, tables) {
      var k :| 0 <= k < |table| && CutIn(table, k, tables);
      assert name[..k] == table[..k];
      assert CutIn(name, k, tables);
    }
    if NamesTable(name, tables) {
      var k :| 0 <= k < |name| && CutIn(name, k, tables);
      if k < |table| {
        assert name[..k] == table[..k];
        assert CutIn(table, k, tables);
      }
    }
    ScopeCovers(NodeColumn, name, tables);
  }

  method NodeWithinTableScope(kind: NodeKind, qualifiedName: string, tables: seq<string>) returns (within: bool)
    ensures within == WithinTables(kind, qualifiedName, tables)
    ensures within <==>
      tables == [] || (kind == NodeTable && qualifiedName in tables) || (kind == NodeColumn && NamesTable(qualifiedName, tables))
  {
    if |tables| == 0 { return true; }
    ScopeCovers(kind, qualifiedName, tables);
    for i := 0 to |tables|
      invariant forall j :: 0 <= j < i ==> !Covers(tables[j], kind, qualifiedName)
    {
      if kind == NodeTable && qualifiedName == tables[i] { return true; }
      if kind == NodeColumn && tables[i] + "." <= qualifiedName { return true; }
    }
    return false;
  }
}

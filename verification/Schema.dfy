/** Table and column definitions. */
module Schema {
  import opened Values

  datatype Column = Column(
    name: string,
    typ: ColumnType,
    notNull: bool,
    primary: bool,
    autoInc: bool,
    unique: bool,
    fkTable: string,  // empty: no foreign key
    fkCol: string)

  type Row = seq<Value>

  /** The positions of the UNIQUE columns. */
  function UniqueCols(cols: seq<Column>): set<nat> {
    set i: nat | i < |cols| && cols[i].unique
  }

  /** The row has a cell in every UNIQUE column; indexing a shorter one panics. */
  predicate Indexable(cols: seq<Column>, row: Row) {
    forall ci :: 0 <= ci < |cols| && cols[ci].unique ==> ci < |row|
  }
}

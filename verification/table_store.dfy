/** The storage the writer delegates to, reduced to what its bookkeeping observes: root-level
    tables by name, each an append-only sequence of rows with a map of named attributes. */
module TableStore {

  /** A stored row: an opaque data record, or a message-table row stamping `msg` with the
      row count of the paired data table. */
  datatype Row = Record(cells: seq<int>) | MsgRow(time: nat, msg: string)

  /** An attribute value, kept opaque. */
  datatype AttrValue = AttrValue(encoded: seq<int>)

  datatype Table = Table(rows: seq<Row>, attrs: map<string, AttrValue>)

  /** The file's root group: table name to table. */
  type Store = map<string, Table>

  /** Row layout of a data source with a record (structured) dtype, reduced to its number of
      scalar fields. */
  datatype Schema = Schema(width: nat)

  const EmptyTable: Table := Table([], map[])

  /** Capacity of the `msg` column of a message table: a string column of 256 bytes. The model
      bounds the number of characters, so one character stands for one byte. */
  const MaxMsgLen: nat := 256

  function AppendRows(t: Table, rows: seq<Row>): Table
  {
    t.(rows := t.rows + rows)
  }

  function SetAttr(t: Table, attr: string, value: AttrValue): Table
  {
    t.(attrs := t.attrs[attr := value])
  }

  /** A record of `schema` whose every field is zero. */
  function ZeroRecord(schema: Schema): Row
  {
    Record(seq(schema.width, _ => 0))
  }
}

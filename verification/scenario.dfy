/** The recording sessions the repository's tests run (tests/test_hdfwriter.py), replayed on
    the model from an empty file. */
module Scenario {
  import opened Wrappers
  import opened Naming
  import opened TableStore
  import opened HdfWriter

  /** A record of one numeric field holding `x`. */
  function Scalar(x: int): Row
  {
    Record([x])
  }

  /** Opening an empty file gives empty mappings. */
  lemma EmptyFileOpens()
    ensures Open(map[], []) == Writer(map[], map[], map[])
  {
    assert Rescan(Writer(map[], map[], map[]), []) == Writer(map[], map[], map[]);
  }

  /** The state after registering `table1` with messages on an empty file. */
  function OneTableRegistered(): Writer
  {
    Register(Open(map[], []), "table1", Schema(1), true).writer
  }

  /** After the first registration the file holds `table1` and `table1_msgs`, both empty. */
  lemma OneTableRegisteredState()
    ensures var w := OneTableRegistered();
            && Valid(w)
            && w.store == map["table1" := EmptyTable, "table1_msgs" := EmptyTable]
            && w.data == map["table1" := "table1"]
            && w.msgs == map["table1" := "table1_msgs"]
  {
    assert MsgsTableName("table1") == "table1_msgs";
    EmptyFileOpens();
    RegisterKeepsValid(Writer(map[], map[], map[]), "table1", Schema(1), true);
  }

  /** The state after the two registrations of the test. */
  function TwoTablesRegistered(): Writer
  {
    OneTableRegisteredState();
    Register(OneTableRegistered(), "table2", Schema(2), false).writer
  }

  /** After the registrations the file holds the two empty data tables and the one empty
      message table of `table1`. */
  lemma TwoTablesRegisteredState()
    ensures var w := TwoTablesRegistered();
            && Valid(w)
            && w.store.Keys == {"table1", "table1_msgs", "table2"}
            && w.store["table1"] == EmptyTable && w.store["table2"] == EmptyTable
            && w.store["table1_msgs"] == EmptyTable
            && w.data.Keys == {"table1", "table2"}
            && w.msgs == map["table1" := "table1_msgs"]
  {
    OneTableRegisteredState();
    RegisterKeepsValid(OneTableRegistered(), "table2", Schema(2), false);
  }

  /** The state once `table1` has received three zero rows then one row of ones, and
      `table2` one row of ones. */
  function TwoTablesFilled(): Writer
  {
    TwoTablesRegisteredState();
    var w2 := TwoTablesRegistered();
    var w3 := Send(w2, "table1", Some([Scalar(0), Scalar(0), Scalar(0)]));
    var w4 := Send(w3, "table1", Some([Scalar(1)]));
    Send(w4, "table2", Some([Record([1, 1])]))
  }

  /** After the sends `table1` has 4 rows and `table2` 1; the message table is still empty. */
  lemma TwoTablesFilledState()
    ensures var w := TwoTablesFilled();
            && Valid(w)
            && w.store.Keys == {"table1", "table1_msgs", "table2"}
            && |w.store["table1"].rows| == 4
            && |w.store["table2"].rows| == 1
            && w.store["table2"].rows == [Record([1, 1])]
            && w.store["table1_msgs"] == EmptyTable
            && w.msgs == map["table1" := "table1_msgs"]
  {
    TwoTablesRegisteredState();
  }

  /** `table1` (with messages) and `table2` (without) are registered, `table1` receives three
      zero rows then one row of ones, `table2` one row of ones, then "message!" is sent. */
  function TwoTableSession(): Writer
  {
    TwoTablesFilledState();
    SendMsg(TwoTablesFilled(), "message!")
  }

  /** The file holds `table1` with 4 rows, `table2` with 1 row, and `table1_msgs` with the one
      row `{time: 4, msg: "message!"}`; there is no `table2_msgs`. */
  lemma TwoTableSessionOutcome()
    ensures var w := TwoTableSession();
            && w.store.Keys == {"table1", "table1_msgs", "table2"}
            && |w.store["table1"].rows| == 4
            && |w.store["table2"].rows| == 1
            && w.store["table2"].rows == [Record([1, 1])]
            && w.store["table1_msgs"].rows == [MsgRow(4, "message!")]
            && "table2_msgs" !in w.store
  {
    TwoTablesFilledState();
    var f := TwoTablesFilled();
    var w := SendMsg(f, "message!");
    assert w == TwoTableSession();
    assert "table1" in f.msgs && f.msgs["table1"] == "table1_msgs";
    assert w.store["table1_msgs"].rows == f.store["table1_msgs"].rows + [MsgRow(|f.store["table1"].rows|, "message!")];
    assert "table1" in f.data && "table2" in f.data;
    assert w.store["table1"] == f.store["table1"] && w.store["table2"] == f.store["table2"];
  }

  /** The buffer `register` returns, filled in and sent back, becomes the source's one row. */
  lemma BufferRoundTrip()
    ensures var reg := Register(Open(map[], []), "data", Schema(1), false);
            && reg.buffer == [Scalar(0)]
            && Send(reg.writer, "data", Some([reg.buffer[0].(cells := [2])])).store["data"].rows == [Scalar(2)]
  {
    var reg := Register(Open(map[], []), "data", Schema(1), false);
    assert reg.buffer[0].cells == [0];
    assert reg.buffer[0].(cells := [2]) == Scalar(2);
  }
}

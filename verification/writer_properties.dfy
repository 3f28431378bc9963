/** Properties that relate several writer operations: what a save does to the mappings, and
    the invariants every operation keeps. */
module WriterProperties {
  import opened Wrappers
  import opened Naming
  import opened TableStore
  import opened HdfWriter

  /** A writer whose mappings say exactly what its file says: valid, no source name mentions
      the marker, and every table is bound. Every session that starts from an empty file and
      registers unmarked names stays in this state. */
  ghost predicate Coherent(w: Writer)
  {
    Valid(w) && SourcesUnmarked(w) && Exact(w)
  }

  /** At most one index is the last message table of a source. */
  lemma LastMessageUnique(order: seq<string>, b: string, i: int, j: int)
    requires LastMessageFor(order, b, i) && LastMessageFor(order, b, j)
    ensures i == j
  {
  }

  /** On open, each source with several message tables in the file is bound to the one
      enumerated last. */
  lemma OpenLastWins(store: Store, order: seq<string>)
    requires Enumerates(order, store)
    ensures forall b :: BindsMessage(order, b) ==>
              exists i :: LastMessageFor(order, b, i) && Open(store, order).msgs[b] == order[i]
  {
    RescanMsgs(Writer(store, map[], map[]), order);
  }

  /** On save, each source with a message table in the file is rebound to the one enumerated
      last, whatever it was bound to before. */
  lemma SaveLastWins(w: Writer, order: seq<string>)
    requires Enumerates(order, w.store)
    ensures forall b :: BindsMessage(order, b) ==>
              exists i :: LastMessageFor(order, b, i) && Save(w, order).msgs[b] == order[i]
  {
    RescanMsgs(w, order);
  }

  /** Re-running the reopen scan changes no data binding. */
  lemma RescanDataIdempotent(w: Writer, order: seq<string>)
    ensures Rescan(Rescan(w, order), order).data == Rescan(w, order).data
  {
    var r1 := Rescan(w, order);
    RescanData(w, order);
    RescanData(r1, order);
  }

  /** Re-running the reopen scan changes no message binding. */
  lemma RescanMsgsIdempotent(w: Writer, order: seq<string>)
    ensures Rescan(Rescan(w, order), order).msgs == Rescan(w, order).msgs
  {
    var r1 := Rescan(w, order);
    var r2 := Rescan(r1, order);
    RescanMsgs(w, order);
    RescanMsgs(r1, order);
    forall b | b in r2.msgs
      ensures b in r1.msgs && r2.msgs[b] == r1.msgs[b]
    {
      if BindsMessage(order, b) {
        var i :| LastMessageFor(order, b, i) && r1.msgs[b] == order[i];
        var j :| LastMessageFor(order, b, j) && r2.msgs[b] == order[j];
        LastMessageUnique(order, b, i, j);
      }
    }
  }

  /** Saving twice in a row binds nothing new: the reopen scan is idempotent. */
  lemma SaveIdempotent(w: Writer, order: seq<string>)
    requires Enumerates(order, w.store)
    ensures Save(Save(w, order), order) == Save(w, order)
  {
    RescanDataIdempotent(w, order);
    RescanMsgsIdempotent(w, order);
    RescanData(w, order);
  }

  /** Reopening a file whose message tables are all paired with unmarked data tables keeps the
      writer valid. */
  lemma SavePreservesValid(w: Writer, order: seq<string>)
    requires Valid(w) && SourcesUnmarked(w) && PairedStore(w.store)
    requires Enumerates(order, w.store)
    ensures Valid(Save(w, order)) && SourcesUnmarked(Save(w, order))
  {
    var r := Save(w, order);
    RescanMsgs(w, order);
    forall b | b in r.msgs
      ensures b in r.data && r.msgs[b] in r.store && Classify(r.msgs[b]) == MessageTable(b)
    {
      if BindsMessage(order, b) {
        var i :| LastMessageFor(order, b, i) && r.msgs[b] == order[i];
        assert order[i] in w.store && ContainsMsgs(order[i]);
        assert Classify(order[i]).base == b;
      }
    }
  }

  /** A coherent writer binds every table under the key its name classifies to. */
  lemma CoherentBindings(w: Writer, t: string)
    requires Coherent(w)
    requires t in w.store
    ensures !ContainsMsgs(t) ==> t in w.data && w.data[t] == t
    ensures ContainsMsgs(t) ==> Classify(t).base in w.msgs && w.msgs[Classify(t).base] == t
  {
    if ContainsMsgs(t) {
      assert t !in w.data;
      var b :| b in w.msgs && w.msgs[b] == t;
      assert Classify(t) == MessageTable(b);
    } else {
      forall c | c in w.msgs
        ensures w.msgs[c] != t
      {
        assert ContainsMsgs(w.msgs[c]);
      }
      assert t !in w.msgs.Values;
    }
  }

  /** Close-and-reopen rebinds every data source of a coherent writer to itself. */
  lemma SaveRestoresData(w: Writer, order: seq<string>)
    requires Coherent(w)
    requires Enumerates(order, w.store)
    ensures Rescan(w, order).data == w.data
  {
    var r := Rescan(w, order);
    RescanData(w, order);
    forall k | k in r.data
      ensures k in w.data && r.data[k] == w.data[k]
    {
      if k in order && !ContainsMsgs(k) {
        CoherentBindings(w, k);
      }
    }
  }

  /** Close-and-reopen rebinds every message source of a coherent writer to its own table. */
  lemma SaveRestoresMsgs(w: Writer, order: seq<string>)
    requires Coherent(w)
    requires Enumerates(order, w.store)
    ensures Rescan(w, order).msgs == w.msgs
  {
    var r := Rescan(w, order);
    RescanMsgs(w, order);
    forall b | b in r.msgs
      ensures b in w.msgs && r.msgs[b] == w.msgs[b]
    {
      if BindsMessage(order, b) {
        var i :| LastMessageFor(order, b, i) && r.msgs[b] == order[i];
        CoherentBindings(w, order[i]);
      }
    }
  }

  /** Close-and-reopen gives back exactly the mappings a coherent writer held: every source
      is present again and classified as data or messages as before. */
  lemma SaveRestoresMappings(w: Writer, order: seq<string>)
    requires Coherent(w)
    requires Enumerates(order, w.store)
    ensures Save(w, order) == w
  {
    SaveRestoresData(w, order);
    SaveRestoresMsgs(w, order);
    RescanData(w, order);
  }

  /** A coherent writer's file has every message table paired with an unmarked data table. */
  lemma CoherentIsPaired(w: Writer)
    requires Coherent(w)
    ensures PairedStore(w.store)
  {
    forall t | t in w.store && ContainsMsgs(t)
      ensures Classify(t).base in w.store && !ContainsMsgs(Classify(t).base)
    {
      CoherentBindings(w, t);
    }
  }

  /** A writer opened on an empty file is coherent. */
  lemma FreshIsCoherent()
    ensures Coherent(Open(map[], []))
  {
  }

  /** Registering an unmarked name keeps the writer coherent. */
  lemma RegisterKeepsCoherent(w: Writer, name: string, schema: Schema, includeMsgs: bool)
    requires Coherent(w)
    requires !ContainsMsgs(name)
    requires name !in w.store
    requires includeMsgs ==> MsgsTableName(name) !in w.store
    ensures Coherent(Register(w, name, schema, includeMsgs).writer)
  {
    RegisterKeepsValid(w, name, schema, includeMsgs);
    var r := Register(w, name, schema, includeMsgs).writer;
    forall t | t in r.store
      ensures t in r.data || t in r.msgs.Values
    {
      if t in w.store && t !in w.data {
        var b :| b in w.msgs && w.msgs[b] == t;
        assert b != name;
        assert r.msgs[b] == t;
      } else if includeMsgs && t == MsgsTableName(name) {
        assert r.msgs[name] == t;
      }
    }
  }

  /** Appending rows, setting attributes and fanning out a message keep the writer coherent. */
  lemma WritesKeepCoherent(w: Writer, system: string, payload: Option<seq<Row>>,
                           attr: string, value: AttrValue, m: string)
    requires Coherent(w)
    requires |m| <= MaxMsgLen
    ensures Coherent(Send(w, system, payload))
    ensures Coherent(SendAttr(w, system, attr, value))
    ensures Coherent(SendMsg(w, m))
  {
  }

  /** Two sends to one source equal one send of both payloads in order. */
  lemma SendConcatenates(w: Writer, system: string, p: seq<Row>, q: seq<Row>)
    requires system in w.data ==> w.data[system] in w.store
    ensures Send(Send(w, system, Some(p)), system, Some(q)) == Send(w, system, Some(p + q))
  {
    if system in w.data {
      var t := w.data[system];
      assert w.store[t].rows + p + q == w.store[t].rows + (p + q);
    }
  }

  /** Setting one attribute twice keeps the later value only. */
  lemma SendAttrLastWins(w: Writer, system: string, attr: string, v1: AttrValue, v2: AttrValue)
    requires system in w.data ==> w.data[system] in w.store
    ensures SendAttr(SendAttr(w, system, attr, v1), system, attr, v2) == SendAttr(w, system, attr, v2)
  {
    if system in w.data {
      var t := w.data[system];
      assert w.store[t].attrs[attr := v1][attr := v2] == w.store[t].attrs[attr := v2];
    }
  }

  /** A source whose own name mentions the marker is taken for a message table when the file is
      reopened: after a save its name is no longer a data source, the mapping `msgs` binds a
      source that has no data table, and the writer is no longer valid (the next `sendMsg`
      indexes `data` with a missing key). */
  lemma SaveMisclassifiesMarkedSource()
    ensures var w := Register(Open(map[], []), "x_msgs", Schema(1), false).writer;
            var r := Save(w, ["x_msgs"]);
            && Valid(w)
            && r.msgs == map["x" := "x_msgs"]
            && "x" !in r.data
            && !Valid(r)
  {
    RegisterKeepsValid(Open(map[], []), "x_msgs", Schema(1), false);
    var w := Register(Open(map[], []), "x_msgs", Schema(1), false).writer;
    MsgsTableNameRoundTrip("x");
    assert MsgsTableName("x") == "x_msgs";
    var r := Save(w, ["x_msgs"]);
    assert r == Bind(Rescan(w, []), "x_msgs");
    assert r.msgs == map["x" := "x_msgs"];
  }

  /** A data source registered as "a_msgs_b" next to a source "a" with messages takes over the
      message binding of "a" on save: the scan binds "a" to the last of its message tables in
      enumeration order, here the data table "a_msgs_b", and the writer is no longer valid. */
  lemma SaveMovesMessageBinding()
    ensures var w := SharedBaseWriter();
            var order := ["a", "a_msgs", "a_msgs_b"];
            && Enumerates(order, w.store)
            && Valid(w)
            && w.msgs == map["a" := "a_msgs"]
            && Save(w, order).msgs == map["a" := "a_msgs_b"]
            && "a_msgs_b" in Save(w, order).data
            && !Valid(Save(w, order))
  {
    SharedBaseWriterState();
    SaveRebindsSharedBase(SharedBaseWriter());
  }

  /** A source "a" with messages, registered on an empty file. */
  function SharedBaseFirst(): Writer
  {
    Register(Open(map[], []), "a", Schema(1), true).writer
  }

  /** After its registration the file holds "a" and "a_msgs" and the writer is valid. */
  lemma SharedBaseFirstState()
    ensures var w := SharedBaseFirst();
            && Valid(w)
            && w.store.Keys == {"a", "a_msgs"}
            && w.msgs == map["a" := "a_msgs"]
  {
    FreshIsCoherent();
    RegisterKeepsValid(Open(map[], []), "a", Schema(1), true);
    SharedBaseFirstTables();
  }

  /** The tables and bindings of that file. */
  lemma SharedBaseFirstTables()
    ensures SharedBaseFirst().store.Keys == {"a", "a_msgs"}
    ensures SharedBaseFirst().msgs == map["a" := "a_msgs"]
  {
    assert Open(map[], []) == Writer(map[], map[], map[]);
    assert MsgsTableName("a") == "a_msgs";
  }

  /** The same file once a data source "a_msgs_b" is registered next to "a". */
  function SharedBaseWriter(): Writer
  {
    SharedBaseFirstState();
    Register(SharedBaseFirst(), "a_msgs_b", Schema(1), false).writer
  }

  /** Before the save that writer is valid, binds "a" to its own message table and has the
      data source "a_msgs_b". */
  lemma SharedBaseWriterState()
    ensures var w := SharedBaseWriter();
            && Valid(w)
            && w.store.Keys == {"a", "a_msgs", "a_msgs_b"}
            && Enumerates(["a", "a_msgs", "a_msgs_b"], w.store)
            && w.msgs == map["a" := "a_msgs"]
            && "a_msgs_b" in w.data
  {
    SharedBaseFirstState();
    RegisterKeepsValid(SharedBaseFirst(), "a_msgs_b", Schema(1), false);
  }

  /** Saving any writer over the tables "a", "a_msgs" and "a_msgs_b" binds "a" to "a_msgs_b",
      which a data source of that name then shares. */
  lemma SaveRebindsSharedBase(w: Writer)
    requires w.store.Keys == {"a", "a_msgs", "a_msgs_b"}
    requires w.msgs == map["a" := "a_msgs"]
    requires "a_msgs_b" in w.data
    ensures Save(w, ["a", "a_msgs", "a_msgs_b"]).msgs == map["a" := "a_msgs_b"]
    ensures "a_msgs_b" in Save(w, ["a", "a_msgs", "a_msgs_b"]).data
    ensures !Valid(Save(w, ["a", "a_msgs", "a_msgs_b"]))
  {
    ClassifyInnerMarker();
    MsgsTableNameRoundTrip("a");
    assert MsgsTableName("a") == "a_msgs";
    var order := ["a", "a_msgs", "a_msgs_b"];
    assert order[..1] == ["a"] && ["a"][..0] == [];
    assert Rescan(w, []) == w;
    var w1 := Rescan(w, order[..1]);
    assert w1 == Bind(w, "a");
    assert order[..2][..1] == order[..1];
    var w2 := Rescan(w, order[..2]);
    assert w2 == Bind(w1, "a_msgs");
    assert w2.msgs == w.msgs;
    var r := Rescan(w, order);
    assert r == Bind(w2, "a_msgs_b");
    assert r.msgs == map["a" := "a_msgs_b"];
    assert "a_msgs_b" in r.data;
  }

  /** The outcome depends on the enumeration order: when "a_msgs_b" is enumerated before
      "a_msgs", the save rebinds "a" to its own message table last and gives back the same,
      valid writer. */
  lemma SaveKeepsBindingInOtherOrder()
    ensures var w := SharedBaseWriter();
            var order := ["a", "a_msgs_b", "a_msgs"];
            && Enumerates(order, w.store)
            && Save(w, order) == w
            && Valid(Save(w, order))
  {
    var w := SharedBaseWriter();
    SharedBaseWriterState();
    SaveRestoresSharedBase(w);
    assert Save(w, ["a", "a_msgs_b", "a_msgs"]) == w;
  }

  /** Saving a valid writer over the tables "a", "a_msgs_b" and "a_msgs", in that order, with
      "a" bound to "a_msgs", changes nothing. */
  lemma SaveRestoresSharedBase(w: Writer)
    requires Valid(w)
    requires w.store.Keys == {"a", "a_msgs", "a_msgs_b"}
    requires w.msgs == map["a" := "a_msgs"]
    ensures Save(w, ["a", "a_msgs_b", "a_msgs"]) == w
  {
    ClassifyInnerMarker();
    MsgsTableNameRoundTrip("a");
    assert MsgsTableName("a") == "a_msgs";
    var order := ["a", "a_msgs_b", "a_msgs"];
    assert order[..1] == ["a"] && ["a"][..0] == [];
    assert Rescan(w, []) == w;
    var w1 := Rescan(w, order[..1]);
    assert w1 == Bind(w, "a");
    assert w.data["a"] == "a";
    assert w1 == w;
    assert order[..2][..1] == order[..1];
    var w2 := Rescan(w, order[..2]);
    assert w2 == Bind(w1, "a_msgs_b");
    var r := Rescan(w, order);
    assert r == Bind(w2, "a_msgs");
    assert r.msgs == w.msgs;
  }
}

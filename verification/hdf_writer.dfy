/** The bookkeeping of `HDFWriter` (hdfwriter/hdfwriter.py): which table each source writes to,
    which message table each source owns, and how every operation changes the stored tables. */
module HdfWriter {
  import opened Wrappers
  import opened Naming
  import opened TableStore

  /** Writer state: the open file's tables, `data` (source to its data table) and `msgs`
      (source to its message table). A table handle is represented by the table's name. */
  datatype Writer = Writer(store: Store, data: map<string, string>, msgs: map<string, string>)

  /** What `register` hands back: the new state and a one-row zeroed scratch buffer. */
  datatype Registration = Registration(writer: Writer, buffer: seq<Row>)

  /** `order` lists the root-level names of `store`, as the directory enumeration does. */
  predicate Enumerates(order: seq<string>, store: Store)
  {
    && (forall i :: 0 <= i < |order| ==> order[i] in store)
    && (forall t :: t in store ==> t in order)
  }

  /** The state every session keeps: each source writes to the table of its own name, each
      message table exists, is named for its source and is paired with a registered data
      source, and no message table doubles as a data table. */
  ghost predicate Valid(w: Writer)
  {
    && (forall k :: k in w.data ==> w.data[k] == k && k in w.store)
    && (forall b :: b in w.msgs ==>
          b in w.data && w.msgs[b] in w.store && Classify(w.msgs[b]) == MessageTable(b))
    && (forall b, k :: b in w.msgs && k in w.data ==> w.msgs[b] != k)
  }

  /** No registered source name mentions the marker "_msgs". */
  ghost predicate SourcesUnmarked(w: Writer)
  {
    forall k :: k in w.data ==> !ContainsMsgs(k)
  }

  /** Every table whose name marks it as a message table has its data table beside it. */
  ghost predicate PairedStore(store: Store)
  {
    forall t :: t in store && ContainsMsgs(t) ==>
      Classify(t).base in store && !ContainsMsgs(Classify(t).base)
  }

  /** Every stored table is bound by one of the two mappings. */
  ghost predicate Exact(w: Writer)
  {
    forall t :: t in w.store ==> t in w.data || t in w.msgs.Values
  }

  /** Binds one root-level name, as one iteration of the reopen loop does. */
  function Bind(w: Writer, key: string): Writer
  {
    match Classify(key)
    case DataTable(k) => w.(data := w.data[k := key])
    case MessageTable(b) => w.(msgs := w.msgs[b := key])
  }

  /** The reopen loop: binds the names of `order` one after another into the EXISTING mappings,
      so a later name overwrites an earlier one with the same key. */
  function Rescan(w: Writer, order: seq<string>): Writer
    decreases |order|
  {
    if order == [] then w
    else Bind(Rescan(w, order[..|order| - 1]), order[|order| - 1])
  }

  /** Some name of `order` is a message table of source `b`. */
  ghost predicate BindsMessage(order: seq<string>, b: string)
  {
    exists i :: 0 <= i < |order| && Classify(order[i]) == MessageTable(b)
  }

  /** `order[i]` is the last message table of source `b` in `order`. */
  ghost predicate LastMessageFor(order: seq<string>, b: string, i: int)
  {
    && 0 <= i < |order|
    && Classify(order[i]) == MessageTable(b)
    && forall j :: i < j < |order| ==> Classify(order[j]) != MessageTable(b)
  }

  /** One more name at the end of `order` adds a message binding for its own base only. */
  lemma BindsMessageSnoc(p: seq<string>, key: string, b: string)
    ensures BindsMessage(p + [key], b) <==> BindsMessage(p, b) || Classify(key) == MessageTable(b)
  {
    var order := p + [key];
    if BindsMessage(order, b) && Classify(key) != MessageTable(b) {
      var i :| 0 <= i < |order| && Classify(order[i]) == MessageTable(b);
      assert i < |p| && p[i] == order[i];
    }
    if BindsMessage(p, b) {
      var i :| 0 <= i < |p| && Classify(p[i]) == MessageTable(b);
      assert order[i] == p[i];
    }
    if Classify(key) == MessageTable(b) {
      assert order[|p|] == key;
    }
  }

  /** What the reopen loop leaves in `data`, stated without the loop: every unmarked name of
      `order` is bound to itself, and every other entry is kept as it was. */
  lemma {:induction false} RescanData(w: Writer, order: seq<string>)
    ensures Rescan(w, order).store == w.store
    ensures forall k :: k in Rescan(w, order).data <==> k in w.data || (k in order && !ContainsMsgs(k))
    ensures forall k :: k in order && !ContainsMsgs(k) ==> Rescan(w, order).data[k] == k
    ensures forall k :: k in w.data && (k !in order || ContainsMsgs(k)) ==>
              Rescan(w, order).data[k] == w.data[k]
    decreases |order|
  {
    if order != [] {
      var p := order[..|order| - 1];
      var key := order[|order| - 1];
      assert order == p + [key];
      RescanData(w, p);
      assert Rescan(w, order) == Bind(Rescan(w, p), key);
      assert forall k :: k in order <==> k in p || k == key;
    }
  }

  /** What the reopen loop leaves in `msgs`, stated without the loop: each source with a
      message table in `order` is bound to the LAST such table, and every other entry is kept
      as it was. */
  lemma {:induction false} RescanMsgs(w: Writer, order: seq<string>)
    ensures forall b :: b in Rescan(w, order).msgs <==> b in w.msgs || BindsMessage(order, b)
    ensures forall b :: b in w.msgs && !BindsMessage(order, b) ==> Rescan(w, order).msgs[b] == w.msgs[b]
    ensures forall b :: BindsMessage(order, b) ==>
              exists i :: LastMessageFor(order, b, i) && Rescan(w, order).msgs[b] == order[i]
    decreases |order|
  {
    if order != [] {
      var p := order[..|order| - 1];
      var key := order[|order| - 1];
      assert order == p + [key];
      RescanMsgs(w, p);
      var q := Rescan(w, p);
      assert Rescan(w, order) == Bind(q, key);
      forall b
        ensures BindsMessage(order, b) <==> BindsMessage(p, b) || Classify(key) == MessageTable(b)
      {
        BindsMessageSnoc(p, key, b);
      }
      forall b | BindsMessage(order, b)
        ensures exists i :: LastMessageFor(order, b, i) && Rescan(w, order).msgs[b] == order[i]
      {
        if Classify(key) == MessageTable(b) {
          assert LastMessageFor(order, b, |order| - 1);
        } else {
          var i :| LastMessageFor(p, b, i) && q.msgs[b] == p[i];
          assert LastMessageFor(order, b, i);
        }
      }
    }
  }

  /** Opening a file: the mappings start empty and the reopen loop fills them from the store. */
  function Open(store: Store, order: seq<string>): (w: Writer)
    requires Enumerates(order, store)
    ensures w.store == store
    ensures forall k :: k in w.data <==> k in store && !ContainsMsgs(k)
    ensures forall k :: k in w.data ==> w.data[k] == k
    ensures forall b :: b in w.msgs <==> exists t :: t in store && Classify(t) == MessageTable(b)
    ensures forall b :: b in w.msgs ==> w.msgs[b] in store && Classify(w.msgs[b]) == MessageTable(b)
    ensures PairedStore(store) ==> Valid(w) && SourcesUnmarked(w)
  {
    RescanData(Writer(store, map[], map[]), order);
    RescanMsgs(Writer(store, map[], map[]), order);
    Rescan(Writer(store, map[], map[]), order)
  }

  /** `save`: the file is closed (it persists unchanged) and reopened, so the mappings are
      re-scanned on top of the ones already held. */
  function Save(w: Writer, order: seq<string>): (r: Writer)
    requires Enumerates(order, w.store)
    ensures r.store == w.store
    ensures w.data.Keys <= r.data.Keys && w.msgs.Keys <= r.msgs.Keys
    ensures forall k :: k in r.data <==> k in w.data || (k in w.store && !ContainsMsgs(k))
    ensures forall k :: k in w.store && !ContainsMsgs(k) ==> r.data[k] == k
    ensures forall b :: b in r.msgs <==> b in w.msgs || exists t :: t in w.store && Classify(t) == MessageTable(b)
    ensures forall b :: b in r.msgs ==>
              || (b in w.msgs && r.msgs[b] == w.msgs[b])
              || (r.msgs[b] in w.store && Classify(r.msgs[b]) == MessageTable(b))
  {
    RescanData(w, order);
    RescanMsgs(w, order);
    Rescan(w, order)
  }

  /** `register`: creates the empty data table `name` and, when asked, the empty message table
      `name + "_msgs"`, binds them, and returns a zeroed one-row buffer of the schema. */
  function Register(w: Writer, name: string, schema: Schema, includeMsgs: bool): (r: Registration)
    requires name !in w.store
    requires includeMsgs ==> MsgsTableName(name) !in w.store
    ensures forall t :: t in r.writer.store <==>
              t in w.store || t == name || (includeMsgs && t == MsgsTableName(name))
    ensures forall t :: t in w.store ==> r.writer.store[t] == w.store[t]
    ensures r.writer.store[name] == EmptyTable
    ensures includeMsgs ==> r.writer.store[MsgsTableName(name)] == EmptyTable
    ensures r.writer.data.Keys == w.data.Keys + {name} && r.writer.data[name] == name
    ensures forall k :: k in w.data && k != name ==> r.writer.data[k] == w.data[k]
    ensures includeMsgs ==>
              && r.writer.msgs.Keys == w.msgs.Keys + {name}
              && r.writer.msgs[name] == MsgsTableName(name)
              && forall b :: b in w.msgs && b != name ==> r.writer.msgs[b] == w.msgs[b]
    ensures !includeMsgs ==> r.writer.msgs == w.msgs
    ensures |r.buffer| == 1 && r.buffer[0].Record? && |r.buffer[0].cells| == schema.width
    ensures forall i :: 0 <= i < |r.buffer[0].cells| ==> r.buffer[0].cells[i] == 0
  {
    var store := w.store[name := EmptyTable];
    var data := w.data[name := name];
    var next :=
      if includeMsgs then
        Writer(store[MsgsTableName(name) := EmptyTable], data, w.msgs[name := MsgsTableName(name)])
      else
        Writer(store, data, w.msgs);
    Registration(next, [ZeroRecord(schema)])
  }

  /** Registering keeps the writer valid: the new message table is named for its source. */
  lemma RegisterKeepsValid(w: Writer, name: string, schema: Schema, includeMsgs: bool)
    requires Valid(w)
    requires name !in w.store
    requires includeMsgs ==> MsgsTableName(name) !in w.store
    ensures Valid(Register(w, name, schema, includeMsgs).writer)
  {
    MsgsTableNameRoundTrip(name);
  }

  /** `send`: appends the payload's rows to the source's data table; an unregistered source or
      a None payload is silently dropped. */
  function Send(w: Writer, system: string, payload: Option<seq<Row>>): (r: Writer)
    requires system in w.data ==> w.data[system] in w.store
    ensures r.data == w.data && r.msgs == w.msgs && r.store.Keys == w.store.Keys
    ensures system !in w.data || payload.None? ==> r == w
    ensures system in w.data && payload.Some? ==>
              && r.store[w.data[system]].rows == w.store[w.data[system]].rows + payload.value
              && r.store[w.data[system]].attrs == w.store[w.data[system]].attrs
    ensures forall t :: t in w.store && (system !in w.data || t != w.data[system]) ==> r.store[t] == w.store[t]
    ensures Valid(w) ==> Valid(r)
  {
    if system in w.data && payload.Some? then
      var t := w.data[system];
      w.(store := w.store[t := AppendRows(w.store[t], payload.value)])
    else
      w
  }

  /** `sendAttr`: sets or overwrites one attribute of a registered source's data table; any
      other source is silently ignored. */
  function SendAttr(w: Writer, system: string, attr: string, value: AttrValue): (r: Writer)
    requires system in w.data ==> w.data[system] in w.store
    ensures r.data == w.data && r.msgs == w.msgs && r.store.Keys == w.store.Keys
    ensures system !in w.data ==> r == w
    ensures system in w.data ==>
              && attr in r.store[w.data[system]].attrs
              && r.store[w.data[system]].attrs[attr] == value
              && r.store[w.data[system]].rows == w.store[w.data[system]].rows
              && (forall a :: a != attr ==>
                    (a in r.store[w.data[system]].attrs <==> a in w.store[w.data[system]].attrs))
              && (forall a :: a != attr && a in w.store[w.data[system]].attrs ==>
                    r.store[w.data[system]].attrs[a] == w.store[w.data[system]].attrs[a])
    ensures forall t :: t in w.store && (system !in w.data || t != w.data[system]) ==> r.store[t] == w.store[t]
    ensures Valid(w) ==> Valid(r)
  {
    if system in w.data then
      var t := w.data[system];
      w.(store := w.store[t := SetAttr(w.store[t], attr, value)])
    else
      w
  }

  /** The message table `t` after one message row: the row is stamped with the current row
      count of the data table of the source `t` belongs to. */
  function Stamped(w: Writer, t: string, m: string): Table
    requires Valid(w)
    requires t in w.msgs.Values
  {
    var b := Classify(t).base;
    AppendRows(w.store[t], [MsgRow(|w.store[w.data[b]].rows|, m)])
  }

  /** `sendMsg`: every message table bound in `msgs` receives exactly one row carrying `m` and
      the row count of its own source's data table; no other table changes. */
  function SendMsg(w: Writer, m: string): (r: Writer)
    requires Valid(w)
    requires |m| <= MaxMsgLen
    ensures r.data == w.data && r.msgs == w.msgs && r.store.Keys == w.store.Keys
    ensures forall b :: b in w.msgs ==>
              && r.store[w.msgs[b]].rows == w.store[w.msgs[b]].rows + [MsgRow(|w.store[b].rows|, m)]
              && r.store[w.msgs[b]].attrs == w.store[w.msgs[b]].attrs
    ensures forall t :: t in w.store && t !in w.msgs.Values ==> r.store[t] == w.store[t]
    ensures forall k :: k in w.data ==> r.store[k] == w.store[k]
    ensures Valid(r)
  {
    w.(store := map t | t in w.store :: if t in w.msgs.Values then Stamped(w, t, m) else w.store[t])
  }

  /** In a valid state distinct sources own distinct message tables. */
  lemma MsgsInjective(w: Writer, b: string, b': string)
    requires Valid(w)
    requires b in w.msgs && b' in w.msgs && w.msgs[b] == w.msgs[b']
    ensures b == b'
  {
  }

  /** In a valid state no data table is also a message table. */
  lemma DataNotMessage(w: Writer, k: string)
    requires Valid(w)
    requires k in w.data
    ensures k !in w.msgs.Values
  {
    forall c | c in w.msgs
      ensures w.msgs[c] != k
    {
    }
  }

  /** The stamp `sendMsg` gives the message table of source `b`. */
  lemma StampedOwner(w: Writer, b: string, m: string)
    requires Valid(w)
    requires b in w.msgs
    ensures w.msgs[b] in w.msgs.Values
    ensures Stamped(w, w.msgs[b], m) == AppendRows(w.store[w.msgs[b]], [MsgRow(|w.store[b].rows|, m)])
  {
  }

  /** Loop invariant of `SendMsgInOrder`: the sources no longer `pending` have had their
      message table stamped, every other table is as it was in `w`. */
  ghost predicate FanOutProgress(w: Writer, m: string, store: Store, pending: set<string>)
  {
    && Valid(w)
    && pending <= w.msgs.Keys
    && store.Keys == w.store.Keys
    && (forall t :: t in w.store && t !in w.msgs.Values ==> store[t] == w.store[t])
    && (forall b :: b in pending ==> store[w.msgs[b]] == w.store[w.msgs[b]])
    && (forall b :: b in w.msgs && b !in pending ==>
          store[w.msgs[b]] == AppendRows(w.store[w.msgs[b]], [MsgRow(|w.store[b].rows|, m)]))
  }

  /** Stamping the message table of one pending source, and touching nothing else, keeps the
      invariant of the fan-out loop. */
  lemma FanOutUpdate(w: Writer, m: string, store: Store, pending: set<string>, b: string, next: Store)
    requires FanOutProgress(w, m, store, pending)
    requires b in pending
    requires next.Keys == store.Keys
    requires next[w.msgs[b]] == AppendRows(w.store[w.msgs[b]], [MsgRow(|w.store[b].rows|, m)])
    requires forall u :: u in store && u != w.msgs[b] ==> next[u] == store[u]
    ensures FanOutProgress(w, m, next, pending - {b})
  {
    var t := w.msgs[b];
    forall c | c in w.msgs && c != b
      ensures w.msgs[c] != t
    {
      if w.msgs[c] == t {
        MsgsInjective(w, b, c);
      }
    }
  }

  /** One iteration of the fan-out loop keeps its invariant. */
  lemma FanOutStep(w: Writer, m: string, store: Store, pending: set<string>, b: string)
    requires FanOutProgress(w, m, store, pending)
    requires b in pending
    ensures w.data[b] in store && w.msgs[b] in store
    ensures FanOutProgress(w, m,
              store[w.msgs[b] := AppendRows(store[w.msgs[b]], [MsgRow(|store[w.data[b]].rows|, m)])],
              pending - {b})
  {
    var t := w.msgs[b];
    DataNotMessage(w, b);
    assert store[w.data[b]] == w.store[b];
    var next := store[t := AppendRows(store[t], [MsgRow(|store[w.data[b]].rows|, m)])];
    FanOutUpdate(w, m, store, pending, b, next);
  }

  /** When nothing is pending the fan-out loop has produced `SendMsg`. */
  lemma FanOutDone(w: Writer, m: string, store: Store)
    requires Valid(w)
    requires |m| <= MaxMsgLen
    requires FanOutProgress(w, m, store, {})
    ensures store == SendMsg(w, m).store
  {
    forall t | t in w.store
      ensures store[t] == SendMsg(w, m).store[t]
    {
      if t in w.msgs.Values {
        var c :| c in w.msgs && w.msgs[c] == t;
        StampedOwner(w, c, m);
      }
    }
  }

  /** The loop of `sendMsg`, visiting the bound sources one at a time in an unspecified order
      and reading each data table's length from the store as it stands: whatever the order,
      the outcome is `SendMsg`. */
  method SendMsgInOrder(w: Writer, m: string) returns (r: Writer)
    requires Valid(w)
    requires |m| <= MaxMsgLen
    ensures r == SendMsg(w, m)
  {
    var store := w.store;
    var pending := w.msgs.Keys;
    while pending != {}
      invariant FanOutProgress(w, m, store, pending)
      decreases pending
    {
      var b :| b in pending;
      FanOutStep(w, m, store, pending, b);
      var t := w.msgs[b];
      var row := MsgRow(|store[w.data[b]].rows|, m);
      store := store[t := AppendRows(store[t], [row])];
      pending := pending - {b};
    }
    FanOutDone(w, m, store);
    r := w.(store := store);
  }
}

/** Table naming used by the writer (hdfwriter/hdfwriter.py): a source `name` owns a data
    table called `name` and, optionally, a message table called `name + "_msgs"`. When a
    file is (re)opened, every root-level name is classified back into one of the two kinds. */
module Naming {
  import opened Wrappers

  /** The marker the writer appends to a source name to name its message table. */
  const MsgsSuffix: string := "_msgs"

  /** Name of the message table paired with source `name`. */
  function MsgsTableName(name: string): string
  {
    name + MsgsSuffix
  }

  /** The marker occurs in `key` starting at index `i`. */
  predicate OccursAt(key: string, i: int)
  {
    0 <= i && i + |MsgsSuffix| <= |key| && key[i..i + |MsgsSuffix|] == MsgsSuffix
  }

  /** The substring test `'_msgs' in key`. */
  predicate ContainsMsgs(key: string)
  {
    exists i | 0 <= i <= |key| :: OccursAt(key, i)
  }

  /** Every occurrence of the marker starts with an underscore. */
  lemma MarkerStartsWithUnderscore(key: string, i: int)
    ensures OccursAt(key, i) ==> key[i] == '_'
  {
    if OccursAt(key, i) {
      assert key[i] == key[i..i + |MsgsSuffix|][0];
    }
  }

  /** What a root-level name denotes once classified. */
  datatype Kind = DataTable(source: string) | MessageTable(base: string)

  /** The largest start index `j <= hi` of an occurrence of the marker, if there is one. */
  function LastOccurrence(key: string, hi: int): (r: Option<nat>)
    ensures r.Some? ==> r.value <= hi && OccursAt(key, r.value)
    ensures r.Some? ==> forall j :: r.value < j <= hi ==> !OccursAt(key, j)
    ensures r.None? ==> forall j :: j <= hi ==> !OccursAt(key, j)
    decreases hi + 1
  {
    if hi < 0 then None
    else if OccursAt(key, hi) then Some(hi)
    else LastOccurrence(key, hi - 1)
  }

  /** Classification of a root-level name on (re)open: a name that mentions the marker anywhere
      is the message table of the text before the marker's LAST occurrence (the greedy prefix);
      every other name is a data table bound under its own name. */
  function Classify(key: string): (k: Kind)
    ensures k.MessageTable? <==> ContainsMsgs(key)
    ensures k.DataTable? ==> k.source == key
  {
    match LastOccurrence(key, |key|)
    case None => DataTable(key)
    case Some(i) => MessageTable(key[..i])
  }

  /** The base of a message table is the prefix of its name that ends where the marker occurs
      for the last time. */
  lemma ClassifyBase(key: string)
    requires ContainsMsgs(key)
    ensures OccursAt(key, |Classify(key).base|)
    ensures Classify(key).base == key[..|Classify(key).base|]
    ensures forall j :: |Classify(key).base| < j ==> !OccursAt(key, j)
  {
  }

  /** Classifying the name `register` gives a message table recovers the source it belongs to. */
  lemma MsgsTableNameRoundTrip(name: string)
    ensures Classify(MsgsTableName(name)) == MessageTable(name)
  {
    var key := MsgsTableName(name);
    assert key[|name|..|name| + |MsgsSuffix|] == MsgsSuffix;
    assert OccursAt(key, |name|);
    var k := Classify(key);
    ClassifyBase(key);
    assert |k.base| == |name|;
    assert k.base == key[..|name|] == name;
  }

  /** The base is the prefix before the last occurrence, so text after an inner marker is kept. */
  lemma ClassifyInnerMarker()
    ensures Classify("a_msgs_b") == MessageTable("a")
  {
    var key := "a_msgs_b";
    assert key[1..6] == MsgsSuffix;
    assert OccursAt(key, 1);
    var k := Classify(key);
    ClassifyBase(key);
    MarkerStartsWithUnderscore(key, 2);
    MarkerStartsWithUnderscore(key, 3);
    assert |k.base| == 1;
  }

  /** Index of the first line break in `key`, or `|key|` when there is none. */
  function LineEnd(key: string): (r: nat)
    ensures r <= |key|
    ensures forall j :: 0 <= j < r ==> key[j] != '\n'
    ensures r < |key| ==> key[r] == '\n'
  {
    if |key| == 0 || key[0] == '\n' then 0 else 1 + LineEnd(key[1..])
  }

  /** Classification exactly as hdfwriter.py writes it: the test `'_msgs' in key` selects the
      message branch, where `re.match('(.*)_msgs', key)` takes the greedy prefix; `.` does not
      match a line break, so only occurrences on the first line qualify. When there is none the
      match object is None and reading its group raises, modelled as None here. */
  function ClassifyAsWritten(key: string): (r: Option<Kind>)
    ensures !ContainsMsgs(key) ==> r == Some(DataTable(key))
    ensures ContainsMsgs(key) && r.Some? ==>
              && r.value.MessageTable?
              && OccursAt(key, |r.value.base|)
              && r.value.base == key[..|r.value.base|]
              && '\n' !in r.value.base
              && forall j :: |r.value.base| < j && OccursAt(key, j) ==> '\n' in key[..j]
    ensures r.None? ==> ContainsMsgs(key) && forall j :: OccursAt(key, j) ==> '\n' in key[..j]
  {
    if !ContainsMsgs(key) then Some(DataTable(key))
    else
      match LastOccurrence(key, LineEnd(key))
      case None => None
      case Some(i) => Some(MessageTable(key[..i]))
  }

  /** On single-line names the regular expression of hdfwriter.py and `Classify` agree. */
  lemma AsWrittenAgreesOnSingleLine(key: string)
    requires '\n' !in key
    ensures ClassifyAsWritten(key) == Some(Classify(key))
  {
    assert forall j :: 0 <= j < |key| ==> key[j] in key;
    assert LineEnd(key) == |key|;
  }

  /** A source named "a\nb" registered with messages gets the message table "a\nb_msgs"; on
      reopen the match in hdfwriter.py fails (it would raise), while the intended
      classification recovers the source name. */
  lemma AsWrittenLosesMultiLineSource()
    ensures ClassifyAsWritten(MsgsTableName("a\nb")) == None
    ensures Classify(MsgsTableName("a\nb")) == MessageTable("a\nb")
  {
    var key := MsgsTableName("a\nb");
    MsgsTableNameRoundTrip("a\nb");
    assert key[3..8] == MsgsSuffix;
    assert OccursAt(key, 3);
    var e := LineEnd(key);
    assert key[0] != '\n' && key[1] == '\n';
    assert e == 1;
    MarkerStartsWithUnderscore(key, 0);
    MarkerStartsWithUnderscore(key, 1);
  }

  /** A source named "a_msgs\nb" registered with messages gets the message table
      "a_msgs\nb_msgs"; on reopen the match in hdfwriter.py stops at the line break and binds
      the table to the earlier base "a", while the intended classification recovers the source
      name. */
  lemma AsWrittenPicksEarlierBase()
    ensures ClassifyAsWritten(MsgsTableName("a_msgs\nb")) == Some(MessageTable("a"))
    ensures Classify(MsgsTableName("a_msgs\nb")) == MessageTable("a_msgs\nb")
  {
    MsgsTableNameRoundTrip("a_msgs\nb");
    AsWrittenStopsAtLineBreak(MsgsTableName("a_msgs\nb"));
  }

  /** The first line of "a_msgs\nb_msgs" ends at index 6 and holds one marker, at index 1. */
  lemma AsWrittenStopsAtLineBreak(key: string)
    requires key == MsgsTableName("a_msgs\nb")
    ensures ClassifyAsWritten(key) == Some(MessageTable("a"))
  {
    assert LineEnd(key) == 6 by {
      assert key[6] == '\n';
      assert forall j :: 0 <= j < 6 ==> key[j] != '\n';
    }
    assert LastOccurrence(key, 6) == Some(1) by {
      assert key[1..6] == MsgsSuffix;
      assert OccursAt(key, 1);
      MarkerStartsWithUnderscore(key, 2);
      MarkerStartsWithUnderscore(key, 3);
      MarkerStartsWithUnderscore(key, 4);
      MarkerStartsWithUnderscore(key, 5);
      MarkerStartsWithUnderscore(key, 6);
    }
    assert ContainsMsgs(key) by {
      assert key[1..6] == MsgsSuffix;
      assert OccursAt(key, 1);
    }
    assert key[..1] == "a";
  }
}

/** Comma-separated files as the scripts see them once Python's csv module has
    parsed them: a file is a sequence of rows, a row a sequence of fields.
    Quoting and encodings are below this level and are not modelled. */
module Tables {

  type Row = seq<string>
  type Table = seq<Row>

  datatype Option<T> = None | Some(value: T)

  /** A file on disk: `None` when it does not exist, otherwise its rows.
      `Some([])` is a zero-byte file (the csv writer ends every row, even an
      empty one, with a line break, so only a file with no rows has size 0). */
  type File = Option<Table>

  /** What a comprehension over `row[0]` yields: the keys, or the position of
      the first blank row, where `row[0]` raises IndexError. */
  datatype Loaded = Keys(keys: set<string>) | BlankRow(index: nat)

  /** The rows of a file, or none when it does not exist. */
  function Contents(f: File): Table {
    if f.Some? then f.value else []
  }

  /** Position of the first blank row, or |t| when every row has a field. */
  function FirstBlank(t: Table): (k: nat)
    ensures k <= |t|
    ensures forall i :: 0 <= i < k ==> t[i] != []
    ensures k < |t| ==> t[k] == []
  {
    if |t| == 0 || t[0] == [] then 0 else 1 + FirstBlank(t[1..])
  }

  /** A scan that stops at index `i`, having seen no blank row before it,
      stops at the first blank row or at the end. */
  lemma FirstBlankIs(t: Table, i: nat)
    requires i <= FirstBlank(t)
    requires i == |t| || t[i] == []
    ensures FirstBlank(t) == i
  {
  }

  /** The first field of every row of a table without blank rows. */
  function FirstColumn(t: Table): (c: seq<string>)
    requires forall i :: 0 <= i < |t| ==> t[i] != []
    ensures |c| == |t|
  {
    seq(|t|, i requires 0 <= i < |t| => t[i][0])
  }

  /** The first fields of the non-blank rows, as a set. */
  function KeySet(t: Table): set<string> {
    if |t| == 0 then {}
    else KeySet(t[..|t| - 1]) + (if t[|t| - 1] == [] then {} else {t[|t| - 1][0]})
  }

  lemma {:induction false} KeySetMember(t: Table, k: string)
    ensures k in KeySet(t) <==> exists i :: 0 <= i < |t| && t[i] != [] && t[i][0] == k
  {
    if t != [] {
      var p := t[..|t| - 1];
      KeySetMember(p, k);
      if k in KeySet(p) {
        var i :| 0 <= i < |p| && p[i] != [] && p[i][0] == k;
        assert t[i] == p[i];
      }
      if exists i :: 0 <= i < |t| && t[i] != [] && t[i][0] == k {
        var i :| 0 <= i < |t| && t[i] != [] && t[i][0] == k;
        if i < |p| {
          assert p[i] == t[i];
        }
      }
    }
  }

  lemma KeySetIsFirstFields(t: Table)
    ensures forall k :: k in KeySet(t) <==> exists i :: 0 <= i < |t| && t[i] != [] && t[i][0] == k
  {
    forall k ensures k in KeySet(t) <==> exists i :: 0 <= i < |t| && t[i] != [] && t[i][0] == k {
      KeySetMember(t, k);
    }
  }

  /** Every `row[0]` of a table, raising IndexError at the first blank row. */
  function LoadFirstColumn(t: Table): (r: Loaded)
    ensures r.Keys? <==> forall i :: 0 <= i < |t| ==> t[i] != []
    ensures r.BlankRow? ==> r.index < |t| && t[r.index] == [] &&
                            forall i :: 0 <= i < r.index ==> t[i] != []
    ensures r.Keys? ==> forall k :: k in r.keys <==> exists i :: 0 <= i < |t| && t[i][0] == k
  {
    var k := FirstBlank(t);
    if k < |t| then BlankRow(k)
    else
      KeySetIsFirstFields(t);
      Keys(KeySet(t))
  }

  /** One single-field row per value, as `writer.writerow([value])` writes it. */
  function SingleFieldRows(values: seq<string>): (t: Table)
    ensures |t| == |values|
  {
    seq(|values|, i requires 0 <= i < |values| => [values[i]])
  }

  lemma SingleFieldRowsAppend(values: seq<string>, v: string)
    ensures SingleFieldRows(values + [v]) == SingleFieldRows(values) + [[v]]
  {
    assert forall i :: 0 <= i < |values| ==> (values + [v])[i] == values[i];
  }

  lemma SingleFieldRowsConcat(a: seq<string>, b: seq<string>)
    ensures SingleFieldRows(a + b) == SingleFieldRows(a) + SingleFieldRows(b)
  {
    assert forall i :: 0 <= i < |a| ==> (a + b)[i] == a[i];
    assert forall i :: 0 <= i < |b| ==> (a + b)[|a| + i] == b[i];
  }
}

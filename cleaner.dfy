/** The de-duplicator of already_applied.csv (Already_applied_folder/cleaner.py):
    it keeps the first row for every first-field key, in input order, drops
    blank rows, and lists every later occurrence of a key as a duplicate. */
module Cleaner {
  import opened Tables

  /** The rows written to the temporary file: a non-blank row whose key has
      not been seen in an earlier row, whole and in input order. */
  function Kept(rows: Table): (out: Table)
    ensures |out| <= |rows|
    ensures forall r :: r in out ==> r in rows && r != []
    decreases |rows|
  {
    if |rows| == 0 then []
    else
      var n := |rows| - 1;
      var p := rows[..n];
      var row := rows[n];
      Kept(p) + (if row != [] && row[0] !in KeySet(p) then [row] else [])
  }

  /** `duplicates`: the key of every non-blank row whose key was seen before,
      in input order. */
  function Duplicates(rows: Table): (dups: seq<string>)
    decreases |rows|
  {
    if |rows| == 0 then []
    else
      var n := |rows| - 1;
      var p := rows[..n];
      var row := rows[n];
      Duplicates(p) + (if row != [] && row[0] in KeySet(p) then [row[0]] else [])
  }

  /** The number of non-blank rows. */
  function NonBlankCount(rows: Table): nat
    decreases |rows|
  {
    if |rows| == 0 then 0
    else NonBlankCount(rows[..|rows| - 1]) + (if rows[|rows| - 1] != [] then 1 else 0)
  }

  /** The number of non-blank rows whose key is `k`. */
  function Occurrences(rows: Table, k: string): nat
    decreases |rows|
  {
    if |rows| == 0 then 0
    else
      var row := rows[|rows| - 1];
      Occurrences(rows[..|rows| - 1], k) + (if row != [] && row[0] == k then 1 else 0)
  }

  /** Row `i` is the first non-blank row with its key. */
  predicate IsFirst(rows: Table, i: nat)
    requires i < |rows|
  {
    rows[i] != [] && rows[i][0] !in KeySet(rows[..i])
  }

  /** Row `i` is non-blank and its key occurred in an earlier row. */
  predicate IsLater(rows: Table, i: nat)
    requires i < |rows|
  {
    rows[i] != [] && rows[i][0] in KeySet(rows[..i])
  }

  /** No blank row, and no key twice. */
  predicate DistinctKeys(rows: Table) {
    && (forall i :: 0 <= i < |rows| ==> rows[i] != [])
    && (forall i, j :: 0 <= i < j < |rows| ==> rows[i][0] != rows[j][0])
  }

  /** The output holds exactly the keys of the input. */
  lemma {:induction false} KeptKeys(rows: Table)
    ensures KeySet(Kept(rows)) == KeySet(rows)
    decreases |rows|
  {
    if rows != [] {
      var n := |rows| - 1;
      var p := rows[..n];
      KeptKeys(p);
      var extra := if rows[n] != [] && rows[n][0] !in KeySet(p) then [rows[n]] else [];
      KeySetAppend(Kept(p), extra);
    }
  }

  lemma KeySetAppend(a: Table, b: Table)
    ensures KeySet(a + b) == KeySet(a) + KeySet(b)
  {
    KeySetIsFirstFields(a);
    KeySetIsFirstFields(b);
    KeySetIsFirstFields(a + b);
    forall k | k in KeySet(a + b) ensures k in KeySet(a) + KeySet(b) {
      var i :| 0 <= i < |a + b| && (a + b)[i] != [] && (a + b)[i][0] == k;
      if i >= |a| {
        assert b[i - |a|] == (a + b)[i];
      }
    }
    forall k | k in KeySet(a) ensures k in KeySet(a + b) {
      var i :| 0 <= i < |a| && a[i] != [] && a[i][0] == k;
      assert (a + b)[i] == a[i];
    }
    forall k | k in KeySet(b) ensures k in KeySet(a + b) {
      var i :| 0 <= i < |b| && b[i] != [] && b[i][0] == k;
      assert (a + b)[|a| + i] == b[i];
    }
  }

  /** No key occurs twice in the output, and no row of it is blank. */
  lemma {:induction false} KeptDistinct(rows: Table)
    ensures DistinctKeys(Kept(rows))
    decreases |rows|
  {
    if rows != [] {
      var n := |rows| - 1;
      var p := rows[..n];
      KeptDistinct(p);
      KeptKeys(p);
      var row := rows[n];
      if row != [] && row[0] !in KeySet(p) {
        var out := Kept(rows);
        assert out == Kept(p) + [row];
        KeySetIsFirstFields(Kept(p));
        forall i, j | 0 <= i < j < |out| ensures out[i][0] != out[j][0] {
          if j == |out| - 1 {
            assert out[i] == Kept(p)[i];
          } else {
            assert out[i] == Kept(p)[i] && out[j] == Kept(p)[j];
          }
        }
      }
    }
  }

  /** `len(unique_links)` is the number of rows written. */
  lemma {:induction false} UniqueCountIsKeptCount(rows: Table)
    ensures |KeySet(rows)| == |Kept(rows)|
    decreases |rows|
  {
    if rows != [] {
      var n := |rows| - 1;
      var p := rows[..n];
      UniqueCountIsKeptCount(p);
      if rows[n] != [] && rows[n][0] in KeySet(p) {
        assert KeySet(rows) == KeySet(p);
      }
    }
  }

  /** Every non-blank row is either written or reported as a duplicate, and
      blank rows are neither. */
  lemma {:induction false} CountsAddUp(rows: Table)
    ensures |Kept(rows)| + |Duplicates(rows)| == NonBlankCount(rows)
    decreases |rows|
  {
    if rows != [] {
      CountsAddUp(rows[..|rows| - 1]);
    }
  }

  /** A key that occurs `n > 0` times is written once and reported `n - 1`
      times; a key that does not occur is neither. */
  lemma {:induction false} DuplicatesPerKey(rows: Table, k: string)
    ensures Occurrences(rows, k) > 0 <==> k in KeySet(rows)
    ensures multiset(Duplicates(rows))[k] + (if k in KeySet(rows) then 1 else 0) == Occurrences(rows, k)
    decreases |rows|
  {
    if rows != [] {
      DuplicatesPerKey(rows[..|rows| - 1], k);
    }
  }

  /** The indices of the first occurrences, in increasing order. */
  function FirstIndices(rows: Table): (idx: seq<nat>)
    ensures forall m :: 0 <= m < |idx| ==> idx[m] < |rows|
    decreases |rows|
  {
    if |rows| == 0 then []
    else
      var n := |rows| - 1;
      FirstIndices(rows[..n]) + (if IsFirst(rows, n) then [n] else [])
  }

  /** Whether a row is a first occurrence depends only on the rows before it. */
  lemma IsFirstInPrefix(rows: Table, n: nat, i: nat)
    requires i < n <= |rows|
    ensures IsFirst(rows[..n], i) <==> IsFirst(rows, i)
  {
    assert rows[..n][..i] == rows[..i];
  }

  /** The first-occurrence indices increase, and they are all of them. */
  lemma {:induction false} FirstIndicesAreAllFirsts(rows: Table)
    ensures var idx := FirstIndices(rows);
            && (forall m, m' :: 0 <= m < m' < |idx| ==> idx[m] < idx[m'])
            && (forall i :: 0 <= i < |rows| ==> (IsFirst(rows, i) <==> i in idx))
    decreases |rows|
  {
    if rows != [] {
      var n := |rows| - 1;
      var p := rows[..n];
      FirstIndicesAreAllFirsts(p);
      forall i | 0 <= i < n ensures IsFirst(p, i) <==> IsFirst(rows, i) {
        IsFirstInPrefix(rows, n, i);
      }
    }
  }

  /** Output row `m` is input row `FirstIndices(rows)[m]`. */
  lemma {:induction false} KeptAtFirstIndices(rows: Table)
    ensures |FirstIndices(rows)| == |Kept(rows)|
    ensures forall m :: 0 <= m < |FirstIndices(rows)| ==> Kept(rows)[m] == rows[FirstIndices(rows)[m]]
    decreases |rows|
  {
    if rows != [] {
      var n := |rows| - 1;
      var p := rows[..n];
      KeptAtFirstIndices(p);
      assert IsFirst(rows, n) <==> rows[n] != [] && rows[n][0] !in KeySet(p);
      var idx, kept := FirstIndices(rows), Kept(rows);
      forall m | 0 <= m < |idx| ensures kept[m] == rows[idx[m]] {
        if m < |FirstIndices(p)| {
          assert idx[m] == FirstIndices(p)[m] && kept[m] == Kept(p)[m];
          assert rows[idx[m]] == p[idx[m]];
        }
      }
    }
  }

  /** The output is the subsequence of the input made of the first row of
      every key: row `m` of the output is row `idx[m]` of the input, the
      indices increase, and they are exactly the first occurrences. */
  lemma KeptAreFirstOccurrences(rows: Table)
    ensures var idx := FirstIndices(rows);
            && |idx| == |Kept(rows)|
            && (forall m :: 0 <= m < |idx| ==> Kept(rows)[m] == rows[idx[m]])
            && (forall m, m' :: 0 <= m < m' < |idx| ==> idx[m] < idx[m'])
            && (forall i :: 0 <= i < |rows| ==> (IsFirst(rows, i) <==> i in idx))
  {
    FirstIndicesAreAllFirsts(rows);
    KeptAtFirstIndices(rows);
  }

  /** The indices of the non-blank rows whose key was seen before, in
      increasing order. */
  function LaterIndices(rows: Table): (idx: seq<nat>)
    ensures forall m :: 0 <= m < |idx| ==> idx[m] < |rows|
    decreases |rows|
  {
    if |rows| == 0 then []
    else
      var n := |rows| - 1;
      LaterIndices(rows[..n]) + (if IsLater(rows, n) then [n] else [])
  }

  /** The later-occurrence indices increase, and they are all of them. */
  lemma {:induction false} LaterIndicesAreAllLater(rows: Table)
    ensures var idx := LaterIndices(rows);
            && (forall m, m' :: 0 <= m < m' < |idx| ==> idx[m] < idx[m'])
            && (forall i :: 0 <= i < |rows| ==> (IsLater(rows, i) <==> i in idx))
    decreases |rows|
  {
    if rows != [] {
      var n := |rows| - 1;
      var p := rows[..n];
      LaterIndicesAreAllLater(p);
      forall i | 0 <= i < n ensures IsLater(p, i) <==> IsLater(rows, i) {
        assert p[..i] == rows[..i];
      }
    }
  }

  /** Reported duplicate `m` is the key of input row `LaterIndices(rows)[m]`. */
  lemma {:induction false} DuplicatesAtLaterIndices(rows: Table)
    ensures |LaterIndices(rows)| == |Duplicates(rows)|
    ensures forall m :: 0 <= m < |LaterIndices(rows)| ==>
              rows[LaterIndices(rows)[m]] != [] && Duplicates(rows)[m] == rows[LaterIndices(rows)[m]][0]
    decreases |rows|
  {
    if rows != [] {
      var n := |rows| - 1;
      var p := rows[..n];
      DuplicatesAtLaterIndices(p);
      var idx, dups := LaterIndices(rows), Duplicates(rows);
      forall m | 0 <= m < |idx| ensures rows[idx[m]] != [] && dups[m] == rows[idx[m]][0] {
        if m < |LaterIndices(p)| {
          assert idx[m] == LaterIndices(p)[m] && dups[m] == Duplicates(p)[m];
          assert rows[idx[m]] == p[idx[m]];
        }
      }
    }
  }

  /** The reported duplicates are the keys of the later occurrences, in input
      order: duplicate `m` is the key of the row at an increasing index, and
      those indices are exactly the non-blank rows whose key came earlier. */
  lemma DuplicatesAreLaterOccurrences(rows: Table)
    ensures var idx := LaterIndices(rows);
            && |idx| == |Duplicates(rows)|
            && (forall m :: 0 <= m < |idx| ==> rows[idx[m]] != [] && Duplicates(rows)[m] == rows[idx[m]][0])
            && (forall m, m' :: 0 <= m < m' < |idx| ==> idx[m] < idx[m'])
            && (forall i :: 0 <= i < |rows| ==> (IsLater(rows, i) <==> i in idx))
  {
    LaterIndicesAreAllLater(rows);
    DuplicatesAtLaterIndices(rows);
  }

  /** A table with distinct keys and no blank row is left as it is. */
  lemma {:induction false} DistinctIsFixed(rows: Table)
    requires DistinctKeys(rows)
    ensures Kept(rows) == rows
    ensures Duplicates(rows) == []
    decreases |rows|
  {
    if rows != [] {
      var n := |rows| - 1;
      var p := rows[..n];
      assert DistinctKeys(p);
      DistinctIsFixed(p);
      KeySetIsFirstFields(p);
      assert rows[n][0] !in KeySet(p);
      assert rows == p + [rows[n]];
    }
  }

  /** Cleaning is idempotent: a second run writes the same rows and reports
      no duplicate. */
  lemma Idempotent(rows: Table)
    ensures Kept(Kept(rows)) == Kept(rows)
    ensures Duplicates(Kept(rows)) == []
  {
    KeptDistinct(rows);
    DistinctIsFixed(Kept(rows));
  }

  /** The loop over the rows: `unique_links` grows with every new key, the
      row is written, or its key is appended to `duplicates`. */
  method CleanRows(rows: Table) returns (written: Table, uniqueLinks: set<string>, duplicates: seq<string>)
    ensures written == Kept(rows)
    ensures duplicates == Duplicates(rows)
    ensures uniqueLinks == KeySet(rows) == KeySet(written)
    ensures |uniqueLinks| == |written|
    ensures |uniqueLinks| + |duplicates| == NonBlankCount(rows)
  {
    written, uniqueLinks, duplicates := [], {}, [];
    var i := 0;
    while i < |rows|
      invariant i <= |rows|
      invariant written == Kept(rows[..i])
      invariant duplicates == Duplicates(rows[..i])
      invariant uniqueLinks == KeySet(rows[..i])
    {
      var row := rows[i];
      assert rows[..i + 1][..i] == rows[..i];
      if row != [] {
        var link := row[0];
        if link !in uniqueLinks {
          uniqueLinks := uniqueLinks + {link};
          written := written + [row];
        } else {
          duplicates := duplicates + [link];
        }
      }
      i := i + 1;
    }
    assert rows[..i] == rows;
    KeptKeys(rows);
    UniqueCountIsKeptCount(rows);
    CountsAddUp(rows);
  }

  /** The printed summary: the number of unique links and the links removed. */
  datatype Report = Report(uniqueLinks: nat, removed: seq<string>)

  /** The whole script: a missing file is reported and nothing is written;
      otherwise the file is replaced by its cleaned rows. */
  method CleanFile(f: File) returns (out: File, report: Option<Report>)
    ensures f.None? ==> out == None && report == None
    ensures f.Some? ==> out == Some(Kept(f.value)) &&
                        report == Some(Report(|Kept(f.value)|, Duplicates(f.value)))
  {
    if f.None? {
      return None, None;
    }
    var written, uniqueLinks, duplicates := CleanRows(f.value);
    out := Some(written);
    report := Some(Report(|uniqueLinks|, duplicates));
  }
}

/** How `csv.DictReader` turns an already-split line into a dict, and the cleaning
    comprehension the import parsers apply to it. Tokenising the text into cells is
    not modelled: a header is a `seq<string>` of field names and a line a `seq<string>`
    of cells. */
module CsvDict {
  import opened Common
  import opened Text

  /** A Python dict from field name to cell, in insertion order. A cell is `None` where
      the line is shorter than the header (DictReader's `restval`). */
  type Dict = seq<(string, Option<string>)>

  /** `d[k] = v`: an existing key keeps its place and takes the new value; a new key
      goes to the end. */
  function Put(d: Dict, k: string, v: Option<string>): (r: Dict)
    ensures Get(r, k) == Some(v)
    ensures forall k' :: k' != k ==> Get(r, k') == Get(d, k')
  {
    if |d| == 0 then [(k, v)]
    else if d[0].0 == k then [(k, v)] + d[1..]
    else [d[0]] + Put(d[1..], k, v)
  }

  /** `d.get(k)` on the raw dict: `None` when `k` is not a key. */
  function Get(d: Dict, k: string): Option<Option<string>>
  {
    if |d| == 0 then None
    else if d[0].0 == k then Some(d[0].1)
    else Get(d[1..], k)
  }

  /** The dict DictReader builds from the first `n` field names: the cell at the same
      position, or `None` past the end of the line; a repeated field name keeps its
      first place and its last value. */
  function RowDictPrefix(fieldnames: seq<string>, line: seq<string>, n: nat): Dict
    requires n <= |fieldnames|
  {
    if n == 0 then []
    else Put(RowDictPrefix(fieldnames, line, n - 1), fieldnames[n - 1],
             if n - 1 < |line| then Some(line[n - 1]) else None)
  }

  function RowDict(fieldnames: seq<string>, line: seq<string>): Dict
  {
    RowDictPrefix(fieldnames, line, |fieldnames|)
  }

  /** Every field name is a key of the row dict. */
  lemma {:induction false} RowDictHasFields(fieldnames: seq<string>, line: seq<string>, n: nat, k: string)
    requires n <= |fieldnames|
    requires k in fieldnames[..n]
    ensures Get(RowDictPrefix(fieldnames, line, n), k).Some?
  {
    if fieldnames[n - 1] != k {
      assert k in fieldnames[..n - 1] by {
        var j :| 0 <= j < n && fieldnames[..n][j] == k;
        assert j < n - 1;
        assert fieldnames[..n - 1][j] == k;
      }
      RowDictHasFields(fieldnames, line, n - 1, k);
    }
  }

  /** The value under a field name is the cell at its last position among the field
      names, or `None` past the end of the line. */
  lemma {:induction false} RowDictValue(fieldnames: seq<string>, line: seq<string>, n: nat, j: nat)
    requires j < n <= |fieldnames|
    requires forall m :: j < m < n ==> fieldnames[m] != fieldnames[j]
    ensures Get(RowDictPrefix(fieldnames, line, n), fieldnames[j]) == Some(if j < |line| then Some(line[j]) else None)
  {
    if j < n - 1 {
      RowDictValue(fieldnames, line, n - 1, j);
    }
  }

  /** DictReader skips lines with no cells at all (blank lines) and yields the rest in order. */
  function DataLines(lines: seq<seq<string>>): (r: seq<seq<string>>)
    ensures |r| <= |lines|
    ensures forall k :: 0 <= k < |r| ==> r[k] != []
    ensures (forall k :: 0 <= k < |lines| ==> lines[k] != []) ==> r == lines
    ensures |lines| == 1 ==> r == (if lines[0] == [] then [] else lines)
  {
    if |lines| == 0 then []
    else if lines[|lines| - 1] == [] then DataLines(lines[..|lines| - 1])
    else DataLines(lines[..|lines| - 1]) + [lines[|lines| - 1]]
  }

  /** The data lines of a file are those of any split of it, one part after the other:
      together with the one-line case above this says that `DataLines` keeps exactly the
      non-blank lines, in their order. */
  lemma {:induction false} DataLinesAppend(a: seq<seq<string>>, b: seq<seq<string>>)
    ensures DataLines(a + b) == DataLines(a) + DataLines(b)
  {
    if |b| == 0 {
      assert a + b == a;
    } else {
      var c := a + b;
      var b' := b[..|b| - 1];
      assert c[..|c| - 1] == a + b';
      assert c[|c| - 1] == b[|b| - 1];
      DataLinesAppend(a, b');
    }
  }

  /** `str(value).strip() if value is not None else ''`. */
  function CellText(v: Option<string>): (r: string)
    ensures Unpadded(r)
    ensures v.None? ==> r == ""
    ensures v.Some? ==> r == Strip(v.value)
  {
    if v.Some? then
      StripFacts(v.value);
      Strip(v.value)
    else ""
  }

  /** No two entries of a dict share a key. */
  predicate DistinctKeys(d: Dict)
  {
    forall a, b :: 0 <= a < b < |d| ==> d[a].0 != d[b].0
  }

  /** A lookup finds a key exactly when some entry carries it, and in a dict with
      distinct keys it finds that entry's value. */
  lemma {:induction false} GetIndex(d: Dict, k: string)
    ensures Get(d, k).Some? <==> exists i :: 0 <= i < |d| && d[i].0 == k
    ensures DistinctKeys(d) ==> forall i :: 0 <= i < |d| && d[i].0 == k ==> Get(d, k) == Some(d[i].1)
  {
    if |d| > 0 && d[0].0 != k {
      GetIndex(d[1..], k);
      assert forall i :: 1 <= i < |d| ==> d[i] == d[1..][i - 1];
    }
  }

  /** Assigning to a dict with distinct keys leaves its keys distinct. */
  lemma {:induction false} PutKeepsDistinct(d: Dict, k: string, v: Option<string>)
    requires DistinctKeys(d)
    ensures DistinctKeys(Put(d, k, v))
  {
    if |d| > 0 && d[0].0 != k {
      var p := Put(d[1..], k, v);
      PutKeepsDistinct(d[1..], k, v);
      GetIndex(d[1..], d[0].0);
      GetIndex(p, d[0].0);
      assert [d[0]] + p == Put(d, k, v);
    }
  }

  /** The row dict has distinct keys, and each of them is one of the field names. */
  lemma {:induction false} RowDictKeys(fieldnames: seq<string>, line: seq<string>, n: nat, k: string)
    requires n <= |fieldnames|
    ensures DistinctKeys(RowDictPrefix(fieldnames, line, n))
    ensures Get(RowDictPrefix(fieldnames, line, n), k).Some? ==> k in fieldnames[..n]
  {
    if n > 0 {
      RowDictKeys(fieldnames, line, n - 1, k);
      PutKeepsDistinct(RowDictPrefix(fieldnames, line, n - 1), fieldnames[n - 1],
                       if n - 1 < |line| then Some(line[n - 1]) else None);
      if k != fieldnames[n - 1] && k in fieldnames[..n - 1] {
        var j :| 0 <= j < n - 1 && fieldnames[..n - 1][j] == k;
        assert fieldnames[..n][j] == k;
      }
    }
  }

  /** `{key.strip(): <cell text> for key, value in d.items()}`: a later key that strips
      to the same text overwrites an earlier one. Keys and values both come out stripped. */
  function CleanRow(d: Dict): (r: map<string, string>)
    ensures forall k :: k in r ==> Unpadded(k) && Unpadded(r[k])
  {
    if |d| == 0 then map[]
    else
      var prev := CleanRow(d[..|d| - 1]);
      StripFacts(d[|d| - 1].0);
      prev[Strip(d[|d| - 1].0) := CellText(d[|d| - 1].1)]
  }

  /** The keys of a dict, stripped, in the dict's order. */
  function StrippedKeys(d: Dict): (r: seq<string>)
    ensures |r| == |d|
  {
    seq(|d|, i requires 0 <= i < |d| => Strip(d[i].0))
  }

  lemma StrippedKeysSnoc(d: Dict)
    requires |d| > 0
    ensures StrippedKeys(d) == StrippedKeys(d[..|d| - 1]) + [Strip(d[|d| - 1].0)]
  {
    var d' := d[..|d| - 1];
    assert forall i :: 0 <= i < |d'| ==> d'[i] == d[i];
  }

  /** The cleaned row's keys are exactly the stripped keys of the dict. */
  lemma {:induction false} CleanRowKeys(d: Dict, k: string)
    ensures k in CleanRow(d) <==> k in StrippedKeys(d)
  {
    if |d| > 0 {
      var d' := d[..|d| - 1];
      CleanRowKeys(d', k);
      StrippedKeysSnoc(d);
    }
  }

  /** The value under a stripped key is the cell text of the last entry whose key strips
      to it. */
  lemma {:induction false} CleanRowValue(d: Dict, i: nat)
    requires i < |d|
    requires forall m :: i < m < |d| ==> Strip(d[m].0) != Strip(d[i].0)
    ensures Strip(d[i].0) in CleanRow(d)
    ensures CleanRow(d)[Strip(d[i].0)] == CellText(d[i].1)
  {
    if i < |d| - 1 {
      var d' := d[..|d| - 1];
      assert d'[i] == d[i];
      assert forall m :: i < m < |d'| ==> d'[m] == d[m];
      CleanRowValue(d', i);
    }
  }

  /** The text of the cell at position `j` of a line, as the cleaning comprehension
      gives it: stripped, or empty past the end of the line. */
  function CellAt(line: seq<string>, j: nat): (r: string)
    ensures Unpadded(r)
    ensures j < |line| ==> r == Strip(line[j])
    ensures j >= |line| ==> r == ""
  {
    CellText(if j < |line| then Some(line[j]) else None)
  }

  /** Field name `j` is unpadded and no other field name strips to it: the cleaned row
      then has that name as a key taken from this one column. */
  predicate SoleColumn(fieldnames: seq<string>, j: nat)
  {
    && j < |fieldnames| && Unpadded(fieldnames[j])
    && forall m :: 0 <= m < |fieldnames| && m != j ==> Strip(fieldnames[m]) != fieldnames[j]
  }

  /** Through DictReader and the cleaning comprehension, the value under a sole column's
      name is the stripped cell at that column's position of the line. */
  lemma CleanCell(fieldnames: seq<string>, line: seq<string>, j: nat)
    requires SoleColumn(fieldnames, j)
    ensures fieldnames[j] in CleanRow(RowDict(fieldnames, line))
    ensures CleanRow(RowDict(fieldnames, line))[fieldnames[j]] == CellAt(line, j)
  {
    var n := |fieldnames|;
    var col := fieldnames[j];
    assert Strip(col) == col;
    assert forall m :: j < m < n ==> fieldnames[m] != col;
    RowDictValue(fieldnames, line, n, j);
    var d := RowDict(fieldnames, line);
    RowDictKeys(fieldnames, line, n, col);
    GetIndex(d, col);
    var i :| 0 <= i < |d| && d[i].0 == col;
    forall m | i < m < |d|
      ensures Strip(d[m].0) != col
    {
      RowDictKeys(fieldnames, line, n, d[m].0);
      GetIndex(d, d[m].0);
      var p :| 0 <= p < n && fieldnames[..n][p] == d[m].0;
      assert fieldnames[p] == d[m].0;
    }
    CleanRowValue(d, i);
  }

  /** `m.get(k, default)`. */
  function GetOr(m: map<string, string>, k: string, default: string): string
  {
    if k in m then m[k] else default
  }

  /** A key that is padded with whitespace is never a key of a cleaned row, so a lookup
      with it always falls back to the default. */
  lemma PaddedKeyMisses(d: Dict, k: string, default: string)
    requires !Unpadded(k)
    ensures GetOr(CleanRow(d), k, default) == default
  {
  }
}

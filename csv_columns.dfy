/** Header matching shared by the CSV import parsers: every field name is compared on
    `strip().lower()`, and a column is resolved from a fixed alias list by taking the
    first alias, in list order, that some field name matches. The column's name is then
    the field name as it appears in the header, not its normalised form. */
module CsvColumns {
  import opened Common
  import opened Text

  /** `[col.strip().lower() for col in reader.fieldnames]`. */
  function Normalized(fieldnames: seq<string>): (r: seq<string>)
    ensures |r| == |fieldnames|
    ensures forall i :: 0 <= i < |r| ==> r[i] == Lower(Strip(fieldnames[i]))
  {
    seq(|fieldnames|, i requires 0 <= i < |fieldnames| => Lower(Strip(fieldnames[i])))
  }

  /** `s.index(x)`: the first position holding `x`. */
  function IndexOf(s: seq<string>, x: string): (i: nat)
    requires x in s
    ensures i < |s| && s[i] == x
    ensures forall j :: 0 <= j < i ==> s[j] != x
  {
    if s[0] == x then 0 else 1 + IndexOf(s[1..], x)
  }

  /** The first alias, by its position in `aliases` from `start` on, that occurs in `norm`. */
  function FirstPresent(norm: seq<string>, aliases: seq<string>, start: nat): (r: Option<nat>)
    requires start <= |aliases|
    ensures r.None? <==> forall b :: start <= b < |aliases| ==> aliases[b] !in norm
    ensures r.Some? ==> && start <= r.value < |aliases| && aliases[r.value] in norm
                        && forall b :: start <= b < r.value ==> aliases[b] !in norm
    decreases |aliases| - start
  {
    if start == |aliases| then None
    else if aliases[start] in norm then Some(start)
    else FirstPresent(norm, aliases, start + 1)
  }

  /** The column a header resolves to from an alias list: the original field name at the
      first position whose normalised form is the first alias present; `None` when no
      alias is present. */
  function ResolveColumn(fieldnames: seq<string>, aliases: seq<string>): (r: Option<string>)
    ensures r.None? <==> forall b :: 0 <= b < |aliases| ==> aliases[b] !in Normalized(fieldnames)
    ensures r.Some? ==> r.value in fieldnames
  {
    var norm := Normalized(fieldnames);
    match FirstPresent(norm, aliases, 0)
    case None => None
    case Some(a) => Some(fieldnames[IndexOf(norm, aliases[a])])
  }

  /** The resolved column is fully determined by the first alias present: whichever alias
      `a` is present with no alias before it present, the column is the field name where
      that alias first occurs. */
  lemma ResolveColumnIsFirstAlias(fieldnames: seq<string>, aliases: seq<string>, a: nat)
    requires a < |aliases| && aliases[a] in Normalized(fieldnames)
    requires forall b :: 0 <= b < a ==> aliases[b] !in Normalized(fieldnames)
    ensures ResolveColumn(fieldnames, aliases)
            == Some(fieldnames[IndexOf(Normalized(fieldnames), aliases[a])])
  {
    var r := FirstPresent(Normalized(fieldnames), aliases, 0);
    assert r.Some?;
    assert !(r.value < a) && !(a < r.value);
  }

  /** A resolved column is never the empty name: its normalised form is a (non-empty) alias. */
  lemma ResolvedColumnNonEmpty(fieldnames: seq<string>, aliases: seq<string>)
    requires forall b :: 0 <= b < |aliases| ==> aliases[b] != ""
    requires ResolveColumn(fieldnames, aliases).Some?
    ensures ResolveColumn(fieldnames, aliases).value != ""
  {
    var norm := Normalized(fieldnames);
    var a := FirstPresent(norm, aliases, 0).value;
    var i := IndexOf(norm, aliases[a]);
    assert norm[i] == Lower(Strip(fieldnames[i]));
    StripFacts(fieldnames[i]);
  }

  /** The alias search loop: `for col_name in aliases: if col_name in actual_cols:
      col = fieldnames[actual_cols.index(col_name)]; break`. */
  method FindColumn(fieldnames: seq<string>, aliases: seq<string>) returns (col: Option<string>)
    ensures col == ResolveColumn(fieldnames, aliases)
  {
    var norm := Normalized(fieldnames);
    col := None;
    for i := 0 to |aliases|
      invariant col.None?
      invariant FirstPresent(norm, aliases, 0) == FirstPresent(norm, aliases, i)
    {
      if aliases[i] in norm {
        col := Some(fieldnames[IndexOf(norm, aliases[i])]);
        break;
      }
    }
  }
}

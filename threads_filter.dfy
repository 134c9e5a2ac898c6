/** The proxy that filters the thread table: a row stays visible when one of its three
    columns contains the filter text, ignoring case. */
module ThreadsFilter {
  import opened ItemModel

  function LowerChar(c: char): char
  {
    if 'A' <= c <= 'Z' then (c as int + 32) as char else c
  }

  function UpperChar(c: char): char
  {
    if 'a' <= c <= 'z' then (c as int - 32) as char else c
  }

  function Lower(s: string): (r: string)
    ensures |r| == |s| && forall i :: 0 <= i < |s| ==> r[i] == LowerChar(s[i])
  {
    if s == [] then [] else [LowerChar(s[0])] + Lower(s[1..])
  }

  function Upper(s: string): (r: string)
    ensures |r| == |s| && forall i :: 0 <= i < |s| ==> r[i] == UpperChar(s[i])
  {
    if s == [] then [] else [UpperChar(s[0])] + Upper(s[1..])
  }

  predicate StartsWith(s: string, prefix: string)
  {
    |prefix| <= |s| && s[..|prefix|] == prefix
  }

  predicate Contains(text: string, token: string)
  {
    exists i :: 0 <= i <= |text| && StartsWith(text[i..], token)
  }

  /** One column's test under case-insensitive filtering. */
  predicate ColumnMatches(text: string, token: string)
  {
    Contains(Lower(text), Lower(token))
  }

  /** Some column of the row matches the filter text. */
  predicate Accepts(r: Row, token: string)
  {
    exists col: Column :: ColumnMatches(CellText(At(r, col)), token)
  }

  /** filterAcceptsRow: checks the columns in order and stops at the first match. */
  method FilterAcceptsRow(rows: seq<Row>, row: int, token: string) returns (accepted: bool)
    requires 0 <= row < |rows|
    ensures accepted <==> Accepts(rows[row], token)
  {
    var i := 0;
    while i < 3
      invariant 0 <= i <= 3
      invariant forall j :: 0 <= j < i ==> !ColumnMatches(CellText(At(rows[row], ColumnAt(j))), token)
    {
      if ColumnMatches(CellText(At(rows[row], ColumnAt(i))), token) {
        return true;
      }
      i := i + 1;
    }
    forall col: Column
      ensures !ColumnMatches(CellText(At(rows[row], col)), token)
    {
      assert ColumnAt(ColumnIndex(col)) == col;
    }
    return false;
  }

  /** The rows the view shows, in table order: exactly the accepted rows of the table. */
  function Visible(rows: seq<Row>, token: string): (shown: seq<Row>)
    ensures |shown| <= |rows|
    ensures forall k :: 0 <= k < |shown| ==> shown[k] in rows && Accepts(shown[k], token)
    ensures forall k :: 0 <= k < |rows| && Accepts(rows[k], token) ==> rows[k] in shown
  {
    if rows == [] then []
    else
      assert forall k :: 1 <= k < |rows| ==> rows[k] == rows[1..][k - 1];
      (if Accepts(rows[0], token) then [rows[0]] else []) + Visible(rows[1..], token)
  }

  /** Filtering a table split in two filters each part and keeps the parts in order. */
  lemma {:induction false} VisibleOfConcat(a: seq<Row>, b: seq<Row>, token: string)
    ensures Visible(a + b, token) == Visible(a, token) + Visible(b, token)
  {
    if a == [] {
      assert a + b == b;
    } else {
      assert (a + b)[0] == a[0] && (a + b)[1..] == a[1..] + b;
      VisibleOfConcat(a[1..], b, token);
    }
  }

  /** The view keeps a single row exactly when the filter accepts it; with VisibleOfConcat
      this fixes the view as the accepted rows in table order. */
  lemma VisibleOfOne(r: Row, token: string)
    ensures Visible([r], token) == if Accepts(r, token) then [r] else []
  {
    assert [r][1..] == [];
  }

  lemma LowerOfUpper(s: string)
    ensures Lower(Upper(s)) == Lower(s)
  {
  }

  lemma LowerOfLower(s: string)
    ensures Lower(Lower(s)) == Lower(s)
  {
  }

  /** The upper- and lower-case forms of a filter text accept the same rows. */
  lemma AcceptsIgnoresCase(r: Row, token: string)
    ensures Accepts(r, Upper(token)) <==> Accepts(r, token)
    ensures Accepts(r, Lower(token)) <==> Accepts(r, token)
  {
    LowerOfUpper(token);
    LowerOfLower(token);
  }

  /** An empty filter text hides nothing. */
  lemma EmptyTokenAcceptsEveryRow(r: Row)
    ensures Accepts(r, "")
  {
    var text := Lower(CellText(r.pid));
    assert StartsWith(text[0..], Lower(""));
    assert ColumnMatches(CellText(At(r, PidColumn)), "");
  }

  lemma {:induction false} VisibleWithEmptyToken(rows: seq<Row>)
    ensures Visible(rows, "") == rows
  {
    if rows != [] {
      EmptyTokenAcceptsEveryRow(rows[0]);
      VisibleWithEmptyToken(rows[1..]);
    }
  }
}

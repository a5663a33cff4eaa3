/** Runs of equal elements: a list of rows read as one element for each run. */
module Runs {

  /** One element for each run of equal ones. */
  function Collapsed<T(==)>(rows: seq<T>): (runs: seq<T>)
    ensures |runs| <= |rows| && (runs == [] <==> rows == [])
    ensures rows != [] ==> runs[0] == rows[0]
  {
    if rows == [] then []
    else if |rows| > 1 && rows[0] == rows[1] then Collapsed(rows[1..])
    else [rows[0]] + Collapsed(rows[1..])
  }

  /** How long each run is. */
  function Lengths<T(==)>(rows: seq<T>): (lengths: seq<nat>)
    ensures |lengths| == |Collapsed(rows)|
    ensures forall i :: 0 <= i < |lengths| ==> lengths[i] >= 1
  {
    if rows == [] then []
    else if |rows| > 1 && rows[0] == rows[1] then
      var rest := Lengths(rows[1..]);
      [rest[0] + 1] + rest[1..]
    else [1] + Lengths(rows[1..])
  }

  lemma ThreeRuns<T>(a: T, b: T)
    requires a != b
    ensures Collapsed([a, b, a]) == [a, b, a] && Lengths([a, b, a]) == [1, 1, 1]
  {
    assert [a, b, a][1..] == [b, a] && [b, a][1..] == [a] && [a][1..] == [];
    assert Collapsed([a]) == [a] && Collapsed([b, a]) == [b, a];
    assert Lengths([a]) == [1] && Lengths([b, a]) == [1, 1];
  }

  ghost predicate NoRepeat<T>(rows: seq<T>) {
    forall i :: 0 < i < |rows| ==> rows[i - 1] != rows[i]
  }

  lemma NoRepeatCons<T>(x: T, rows: seq<T>)
    requires NoRepeat(rows) && (rows != [] ==> x != rows[0])
    ensures NoRepeat([x] + rows)
  {
    var all := [x] + rows;
    forall i | 0 < i < |all|
      ensures all[i - 1] != all[i]
    {
      if i > 1 {
        assert all[i - 1] == rows[i - 2] && all[i] == rows[i - 1];
      }
    }
  }

  /** No two runs next to each other are equal. */
  lemma {:induction false} CollapsedNoRepeat<T>(rows: seq<T>)
    ensures NoRepeat(Collapsed(rows))
    ensures forall x :: x in Collapsed(rows) <==> x in rows
    ensures rows != [] ==> Collapsed(rows)[|Collapsed(rows)| - 1] == rows[|rows| - 1]
  {
    if rows != [] {
      CollapsedNoRepeat(rows[1..]);
      assert rows == [rows[0]] + rows[1..];
      if !(|rows| > 1 && rows[0] == rows[1]) {
        NoRepeatCons(rows[0], Collapsed(rows[1..]));
      }
    }
  }

  /** Collapsing shortens a list exactly if it has a repeat, and changes no other. */
  lemma {:induction false} CollapsedIsAll<T>(rows: seq<T>)
    ensures NoRepeat(rows) <==> |Collapsed(rows)| == |rows|
    ensures NoRepeat(rows) ==> Collapsed(rows) == rows
  {
    if rows != [] {
      var rest := rows[1..];
      CollapsedIsAll(rest);
      assert rows == [rows[0]] + rest;
      if |rows| > 1 && rows[0] == rows[1] {
        assert rows[1 - 1] == rows[1];
      } else {
        assert NoRepeat(rows) ==> NoRepeat(rest) by {
          assert forall i :: 0 < i < |rest| ==> rest[i - 1] == rows[i] && rest[i] == rows[i + 1];
        }
        if NoRepeat(rest) {
          NoRepeatCons(rows[0], rest);
        }
      }
    }
  }

  lemma {:induction false} CollapsedConcat<T>(a: seq<T>, b: seq<T>)
    requires a != [] && b != []
    ensures Collapsed(a + b) ==
      Collapsed(a) + if a[|a| - 1] == b[0] then Collapsed(b)[1..] else Collapsed(b)
  {
    var all := a + b;
    if |a| == 1 {
      assert all[1..] == b && all[0] == a[0] && a[1..] == [];
      assert Collapsed(a) == [a[0]];
      if a[0] == b[0] {
        assert Collapsed(b) == [b[0]] + Collapsed(b)[1..];
      }
    } else {
      assert all[1..] == a[1..] + b && all[0] == a[0] && all[1] == a[1];
      CollapsedConcat(a[1..], b);
    }
  }

  lemma {:induction false} CollapsedOne<T>(rows: seq<T>)
    requires rows != []
    ensures |Collapsed(rows)| == 1 <==> forall i :: 0 <= i < |rows| ==> rows[i] == rows[0]
  {
    if |rows| > 1 {
      var rest := rows[1..];
      CollapsedOne(rest);
      assert forall i :: 0 <= i < |rest| ==> rest[i] == rows[i + 1];
      assert forall i :: 0 < i < |rows| ==> rows[i] == rest[i - 1];
    }
  }

  /** More rows add no run exactly if they are all of the last one. */
  lemma CollapsedSame<T>(a: seq<T>, b: seq<T>)
    requires a != []
    ensures Collapsed(a + b) == Collapsed(a) <==> forall i :: 0 <= i < |b| ==> b[i] == a[|a| - 1]
  {
    if b == [] {
      assert a + b == a;
    } else {
      CollapsedConcat(a, b);
      CollapsedOne(b);
    }
  }

  lemma NoRepeatSplit<T>(a: seq<T>, b: seq<T>)
    requires NoRepeat(a + b)
    ensures NoRepeat(a) && NoRepeat(b) && (a != [] && b != [] ==> a[|a| - 1] != b[0])
  {
    var all := a + b;
    forall i | 0 < i < |a|
      ensures a[i - 1] != a[i]
    {
      assert all[i - 1] != all[i];
    }
    forall i | 0 < i < |b|
      ensures b[i - 1] != b[i]
    {
      assert all[|a| + i - 1] != all[|a| + i];
    }
    if a != [] && b != [] {
      assert all[|a| - 1] != all[|a|];
    }
  }

  // ----- Runs that never come back

  /** Equal rows are next to each other. */
  ghost predicate Grouped<T>(rows: seq<T>) {
    forall i, j, k :: 0 <= i < j < k < |rows| && rows[i] == rows[k] ==> rows[j] == rows[i]
  }

  ghost predicate Distinct<T>(rows: seq<T>) {
    forall i, j :: 0 <= i < j < |rows| ==> rows[i] != rows[j]
  }

  lemma GroupedAfter<T>(a: seq<T>, b: seq<T>)
    requires Grouped(a + b)
    ensures Grouped(b)
  {
    var all := a + b;
    forall i, j, k | 0 <= i < j < k < |b| && b[i] == b[k]
      ensures b[j] == b[i]
    {
      assert all[|a| + i] == all[|a| + k] && all[|a| + j] == b[j];
    }
  }

  /** A row on both sides of a place is on both sides next to it. */
  lemma SharedStraddles<T>(a: seq<T>, b: seq<T>, i: nat, k: nat)
    requires Grouped(a + b) && i < |a| && k < |b| && a[i] == b[k]
    ensures a[|a| - 1] == a[i] == b[0]
  {
    var all := a + b;
    assert all[i] == all[|a| + k];
    assert all[|a| - 1] == a[|a| - 1] && all[|a|] == b[0];
  }

  lemma {:induction false} CollapsedDistinct<T>(rows: seq<T>)
    requires Grouped(rows)
    ensures Distinct(Collapsed(rows))
  {
    if rows != [] {
      var first, rest := [rows[0]], rows[1..];
      assert rows == first + rest;
      GroupedAfter(first, rest);
      CollapsedDistinct(rest);
      CollapsedNoRepeat(rest);
      if |rows| == 1 || rows[0] != rows[1] {
        assert rest != [] ==> rest[0] == rows[1];
        if k :| 0 <= k < |rest| && rest[k] == first[0] {
          SharedStraddles(first, rest, 0, k);
        } else {
          assert first[0] !in Collapsed(rest);
        }
      }
    }
  }
}

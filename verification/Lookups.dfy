/** Tables, and the rows that models name by their first populated key. Values are integers; 0 is
    the zero value, and stands for NULL. */
module Lookups {
  import opened Options

  type Row = map<string, int>

  /** Rows by an identity of their own; primary keys are fields like others. */
  type Table = map<int, Row>

  function Field(row: Row, f: string): int {
    if f in row then row[f] else 0
  }

  /** The fields of a key and the values a model has in them. */
  datatype Lookup = Lookup(group: seq<string>, values: seq<int>)

  function Values(row: Row, fields: seq<string>): (values: seq<int>)
    ensures |values| == |fields|
  {
    seq(|fields|, i requires 0 <= i < |fields| => Field(row, fields[i]))
  }

  predicate Populated(values: seq<int>) {
    forall i :: 0 <= i < |values| ==> values[i] != 0
  }

  predicate HasValues(row: Row, fields: seq<string>) {
    Populated(Values(row, fields))
  }

  /** The first key whose fields all have values: the primary key, then the unique keys. */
  function FirstPopulated(row: Row, keys: seq<seq<string>>): Option<Lookup> {
    if keys == [] then None
    else if HasValues(row, keys[0]) then Some(Lookup(keys[0], Values(row, keys[0])))
    else FirstPopulated(row, keys[1..])
  }

  /** The lookup is by one of the keys, with the row's values in it and none of them zero. */
  lemma {:induction false} FirstIsAKey(row: Row, keys: seq<seq<string>>)
    ensures
      var l := FirstPopulated(row, keys);
      l.Some? ==> l.value.group in keys && l.value.values == Values(row, l.value.group) && Populated(l.value.values)
  {
    if keys == [] {
    } else {
      FirstIsAKey(row, keys[1..]);
    }
  }

  /** Every field of the key has a value, and the value is the row's. */
  predicate AllSet(row: Row, key: seq<string>) {
    forall k :: 0 <= k < |key| ==> Field(row, key[k]) != 0
  }

  /** The key of a lookup is the first all of whose fields have values; there is none if and only if
      no key is such. */
  lemma {:induction false} FirstIsFirst(row: Row, keys: seq<seq<string>>)
    ensures FirstPopulated(row, keys) == None <==> forall key :: key in keys ==> !AllSet(row, key)
    ensures
      var l := FirstPopulated(row, keys);
      l.Some? ==> exists i :: 0 <= i < |keys| && IsFirst(row, keys, i, l.value)
  {
    if keys != [] {
      assert HasValues(row, keys[0]) <==> AllSet(row, keys[0]) by {
        assert forall k :: 0 <= k < |keys[0]| ==> Values(row, keys[0])[k] == Field(row, keys[0][k]);
      }
      FirstIsFirst(row, keys[1..]);
      var l := FirstPopulated(row, keys);
      if HasValues(row, keys[0]) {
        assert IsFirst(row, keys, 0, l.value);
      } else if l.Some? {
        var i :| 0 <= i < |keys[1..]| && IsFirst(row, keys[1..], i, l.value);
        FirstNext(row, keys, i, l.value);
        assert IsFirst(row, keys, i + 1, l.value);
      }
      assert keys == [keys[0]] + keys[1..];
    }
  }

  predicate IsFirst(row: Row, keys: seq<seq<string>>, i: nat, l: Lookup)
    requires i < |keys|
  {
    && l.group == keys[i] && AllSet(row, keys[i]) && (forall j :: 0 <= j < i ==> !AllSet(row, keys[j]))
    && |l.values| == |keys[i]| && forall k :: 0 <= k < |l.values| ==> l.values[k] == Field(row, keys[i][k])
  }

  lemma FirstNext(row: Row, keys: seq<seq<string>>, i: nat, l: Lookup)
    requires i + 1 < |keys| && !AllSet(row, keys[0]) && IsFirst(row, keys[1..], i, l)
    ensures IsFirst(row, keys, i + 1, l)
  {
    assert forall j :: 0 < j < |keys| ==> keys[j] == keys[1..][j - 1];
  }

  /** Only the fields of the keys matter. */
  lemma {:induction false} SameFirst(a: Row, b: Row, keys: seq<seq<string>>)
    requires forall key, i :: key in keys && 0 <= i < |key| ==> Field(a, key[i]) == Field(b, key[i])
    ensures FirstPopulated(a, keys) == FirstPopulated(b, keys)
  {
    if keys == [] {
    } else {
      assert keys[0] in keys;
      assert Values(a, keys[0]) == Values(b, keys[0]);
      SameFirst(a, b, keys[1..]);
    }
  }

  /** The rows with the values of a lookup. */
  function NamedBy(t: Table, l: Lookup): set<int> {
    set id | id in t && Values(t[id], l.group) == l.values
  }

  /** The rows that a model with these fields names. */
  function Named(t: Table, row: Row, keys: seq<seq<string>>): set<int> {
    match FirstPopulated(row, keys)
    case None => {}
    case Some(l) => NamedBy(t, l)
  }

  /** No two rows have the same values in the fields of a key, all of them with a value. */
  predicate KeyUnique(t: Table, fields: seq<string>) {
    forall a, b :: a in t && b in t && a != b && HasValues(t[a], fields) ==>
      Values(t[a], fields) != Values(t[b], fields)
  }

  lemma NamesOne(t: Table, l: Lookup, id: int)
    requires KeyUnique(t, l.group) && Populated(l.values) && id in NamedBy(t, l)
    ensures NamedBy(t, l) == {id}
  {
    forall other | other in NamedBy(t, l)
      ensures other == id
    {
      assert HasValues(t[id], l.group);
    }
  }

  lemma {:induction false} Within<T>(a: set<T>, b: set<T>)
    requires a <= b
    ensures |a| <= |b|
    ensures |a| == |b| ==> a == b
  {
    if a == {} {
    } else {
      var k :| k in a;
      Within(a - {k}, b - {k});
    }
  }

  lemma AnyOf<T>(s: set<T>) returns (x: T)
    requires s != {}
    ensures x in s
  {
    x :| x in s;
  }

  /** A number above all of a set. */
  lemma {:induction false} Above(s: set<int>) returns (b: int)
    ensures b > 0 && forall x :: x in s ==> x < b
  {
    if s == {} {
      b := 1;
    } else {
      var x := AnyOf(s);
      var c := Above(s - {x});
      b := if x < c then c else x + 1;
      forall y | y in s
        ensures y < b
      {
        assert y != x ==> y in s - {x};
      }
    }
  }
}

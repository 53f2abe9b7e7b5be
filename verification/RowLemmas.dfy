/** How the row operations act on the rows of one name. */
module RowLemmas {
  import opened Text
  import opened Formatting
  import opened Device

  /** Rows carry the id exactly when they carry the name. */
  ghost predicate IdLinked(rows: seq<Row>, name: string, id: string) {
    forall i :: 0 <= i < |rows| ==> (Has(rows[i], ".id", id) <==> Has(rows[i], "name", name))
  }

  /** Every row has an id, and no two share one. */
  predicate DistinctIds(rows: seq<Row>) {
    && (forall i :: 0 <= i < |rows| ==> ".id" in rows[i])
    && (forall i, j :: 0 <= i < j < |rows| ==> rows[i][".id"] != rows[j][".id"])
  }

  predicate NoId(rows: seq<Row>, id: string) {
    forall i :: 0 <= i < |rows| ==> Get(rows[i], ".id") != Some(id)
  }

  predicate KeepsIdentity(fields: Row) {
    "name" !in fields && ".id" !in fields
  }

  lemma {:induction false} FindIsFirstNamed(rows: seq<Row>, name: string)
    ensures FindRow(rows, "name", name) == if Named(rows, name) == [] then None else Some(Named(rows, name)[0])
  {
    if rows != [] {
      FindIsFirstNamed(rows[1..], name);
    }
  }

  lemma {:induction false} NamedHolds(rows: seq<Row>, name: string, i: nat)
    requires i < |rows| && Has(rows[i], "name", name)
    ensures rows[i] in Named(rows, name)
  {
    if i > 0 {
      NamedHolds(rows[1..], name, i - 1);
    }
  }

  function AddAll(rows: seq<Row>, fields: Row): seq<Row> {
    seq(|rows|, i requires 0 <= i < |rows| => rows[i] + fields)
  }

  lemma AddAllPrefix(row: Row, rest: seq<Row>, fields: Row)
    ensures AddAll([], fields) == []
    ensures AddAll([row] + rest, fields) == [row + fields] + AddAll(rest, fields)
  {
  }

  lemma SetNamedStep(rows: seq<Row>, name: string, fields: Row)
    requires rows != []
    ensures SetNamed(rows, name, fields) == [SetOne(rows[0], name, fields)] + SetNamed(rows[1..], name, fields)
  {
  }

  lemma {:induction false} NamedAfterSet(rows: seq<Row>, name: string, fields: Row, asked: string)
    requires KeepsIdentity(fields)
    ensures Named(SetNamed(rows, name, fields), asked) ==
            if asked == name then AddAll(Named(rows, name), fields) else Named(rows, asked)
  {
    if rows != [] {
      SetNamedStep(rows, name, fields);
      NamedAfterSet(rows[1..], name, fields, asked);
      var first := SetOne(rows[0], name, fields);
      assert Has(first, "name", asked) == Has(rows[0], "name", asked);
      AddAllPrefix(rows[0], Named(rows[1..], name), fields);
      hide SetNamed, AddAll;
      NamedPrefix(first, SetNamed(rows[1..], name, fields), asked);
    }
  }

  lemma SetKeepsLink(rows: seq<Row>, name: string, fields: Row, linked: string, id: string)
    requires KeepsIdentity(fields) && IdLinked(rows, linked, id)
    ensures IdLinked(SetNamed(rows, name, fields), linked, id)
  {
    var after := SetNamed(rows, name, fields);
    assert forall i :: 0 <= i < |after| ==> after[i] == SetOne(rows[i], name, fields);
  }

  lemma NamedPrefix(row: Row, rest: seq<Row>, name: string)
    ensures [] + rest == rest
    ensures Named([row] + rest, name) == (if Has(row, "name", name) then [row] else []) + Named(rest, name)
  {
    assert ([row] + rest)[1..] == rest;
  }

  lemma {:induction false} NamedAfterRemove(rows: seq<Row>, name: string, asked: string)
    ensures Named(RemoveNamed(rows, name), asked) == if asked == name then [] else Named(rows, asked)
  {
    if rows != [] {
      var rest := RemoveNamed(rows[1..], name);
      NamedAfterRemove(rows[1..], name, asked);
      NamedPrefix(rows[0], rest, asked);
    }
  }

  lemma {:induction false} RemoveNamedKeepsSome(rows: seq<Row>, name: string)
    ensures forall r :: r in RemoveNamed(rows, name) ==> r in rows
  {
    if rows != [] {
      RemoveNamedKeepsSome(rows[1..], name);
    }
  }

  lemma {:induction false} RemoveByIdKeepsSome(rows: seq<Row>, id: Option<string>)
    ensures forall r :: r in RemoveById(rows, id) ==> r in rows
  {
    if rows != [] {
      RemoveByIdKeepsSome(rows[1..], id);
    }
  }

  /** Removing by id drops every row of the name when they carry the id, and none
      when none of them does. */
  lemma {:induction false} NamedAfterRemoveById(rows: seq<Row>, id: Option<string>, name: string, all: bool)
    requires forall i :: 0 <= i < |rows| && Has(rows[i], "name", name) ==> (Get(rows[i], ".id") == id) == all
    ensures Named(RemoveById(rows, id), name) == if all then [] else Named(rows, name)
  {
    if rows != [] {
      var rest := RemoveById(rows[1..], id);
      NamedAfterRemoveById(rows[1..], id, name, all);
      NamedPrefix(rows[0], rest, name);
    }
  }

  lemma {:induction false} NamedAfterAdd(rows: seq<Row>, row: Row, name: string)
    ensures Named(rows + [row], name) == Named(rows, name) + (if Has(row, "name", name) then [row] else [])
  {
    if rows == [] {
      assert rows + [row] == [row];
    } else {
      NamedAfterAdd(rows[1..], row, name);
      assert (rows + [row])[1..] == rows[1..] + [row];
      Associate(if Has(rows[0], "name", name) then [rows[0]] else [], Named(rows[1..], name),
                if Has(row, "name", name) then [row] else []);
    }
  }

  lemma {:induction false} UpdateFindsNamed(rows: seq<Row>, name: string, id: string, fields: Row, row: Row)
    requires KeepsIdentity(fields) && IdLinked(rows, name, id) && Named(rows, name) == [row]
    ensures HasId(rows, id)
    ensures Named(UpdateById(rows, id, fields), name) == [row + fields]
    ensures IdLinked(UpdateById(rows, id, fields), name, id)
  {
    var after := UpdateById(rows, id, fields);
    if Has(rows[0], ".id", id) {
      assert Has(rows[0], "name", name);
      assert Named(rows, name)[0] == rows[0] && |Named(rows, name)| == 1 + |Named(rows[1..], name)|;
      assert row == rows[0] && Named(rows[1..], name) == [];
      assert after[1..] == rows[1..];
    } else {
      assert !Has(rows[0], "name", name);
      assert IdLinked(rows[1..], name, id) by {
        assert forall i :: 0 <= i < |rows[1..]| ==> rows[1..][i] == rows[i + 1];
      }
      UpdateFindsNamed(rows[1..], name, id, fields, row);
      assert after[1..] == UpdateById(rows[1..], id, fields);
    }
  }
}

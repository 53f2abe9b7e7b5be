/** Finding the one row a write is about by what identifies it, never by its place or
    by an id remembered from a preview. */
module Resolution {
  import opened Text
  import opened Formatting
  import opened Device
  import opened RowLemmas

  // ---- Selecting by keys ----

  /** The list comprehension of every resolver, in menu order. */
  function Select(rows: seq<Row>, p: Row -> bool): seq<Row> {
    if rows == [] then [] else (if p(rows[0]) then [rows[0]] else []) + Select(rows[1..], p)
  }

  lemma SelectNext(rows: seq<Row>, p: Row -> bool)
    requires rows != []
    ensures Select(rows, p) == if p(rows[0]) then [rows[0]] + Select(rows[1..], p) else Select(rows[1..], p)
  {
  }

  /** The comprehension as a loop. */
  method Matching(rows: seq<Row>, p: Row -> bool) returns (matches: seq<Row>)
    ensures matches == Select(rows, p)
  {
    matches := [];
    var rest := rows;
    while rest != []
      invariant Select(rows, p) == matches + Select(rest, p)
      decreases |rest|
    {
      SelectNext(rest, p);
      hide Select;
      if p(rest[0]) {
        Associate(matches, [rest[0]], Select(rest[1..], p));
        matches := matches + [rest[0]];
      }
      rest := rest[1..];
    }
  }

  datatype Resolved = Found(row: Row) | Missing | Ambiguous(count: nat)

  function Resolve(rows: seq<Row>, p: Row -> bool): Resolved {
    var matches := Select(rows, p);
    if matches == [] then Missing else if |matches| > 1 then Ambiguous(|matches|) else Found(matches[0])
  }

  predicate Fits(row: Row, key: string, value: Option<string>) {
    value.Some? ==> Has(row, key, value.value)
  }

  /** `_resolve_route`: a destination, narrowed by what else is given. */
  function RouteKey(dst: string, gateway: Option<string>, comment: Option<string>): Row -> bool {
    row => Has(row, "dst-address", dst) && Fits(row, "gateway", gateway) && Fits(row, "comment", comment)
  }

  /** `_find_firewall_rule_rows`. */
  function RuleKey(comment: string, chain: Option<string>): Row -> bool {
    row => Has(row, "comment", comment) && Fits(row, "chain", chain)
  }

  // ---- Narrowing step by step ----

  function Holding(key: string, value: string): Row -> bool {
    row => Has(row, key, value)
  }

  function Narrow(rows: seq<Row>, key: string, value: Option<string>): seq<Row> {
    if value.Some? then Select(rows, Holding(key, value.value)) else rows
  }

  /** The comprehensions of `_resolve_route`, one after the other. */
  function RouteMatches(rows: seq<Row>, dst: string, gateway: Option<string>, comment: Option<string>): seq<Row> {
    Narrow(Narrow(Select(rows, Holding("dst-address", dst)), "gateway", gateway), "comment", comment)
  }

  /** Those of `_find_firewall_rule_rows`. */
  function RuleMatches(rows: seq<Row>, comment: string, chain: Option<string>): seq<Row> {
    Narrow(Select(rows, Holding("comment", comment)), "chain", chain)
  }

  lemma {:induction false} NarrowSelected(rows: seq<Row>, p: Row -> bool, key: string, value: Option<string>,
                                       q: Row -> bool)
    requires forall row :: q(row) <==> p(row) && Fits(row, key, value)
    ensures Narrow(Select(rows, p), key, value) == Select(rows, q)
  {
    if rows != [] {
      var rest := Select(rows[1..], p);
      NarrowSelected(rows[1..], p, key, value, q);
      SelectNext(rows, p);
      SelectNext(rows, q);
      if p(rows[0]) {
        assert ([rows[0]] + rest)[1..] == rest;
        if value.Some? {
          SelectNext([rows[0]] + rest, Holding(key, value.value));
        }
      }
    }
  }

  /** Narrowing one key at a time selects the rows that fit all the keys. */
  lemma RoutesNarrowed(rows: seq<Row>, dst: string, gateway: Option<string>, comment: Option<string>)
    ensures RouteMatches(rows, dst, gateway, comment) == Select(rows, RouteKey(dst, gateway, comment))
  {
    var byDst := Holding("dst-address", dst);
    var byGateway := (row: Row) => Has(row, "dst-address", dst) && Fits(row, "gateway", gateway);
    hide Select, Narrow, Has, Fits;
    NarrowSelected(rows, byDst, "gateway", gateway, byGateway);
    NarrowSelected(rows, byGateway, "comment", comment, RouteKey(dst, gateway, comment));
  }

  lemma RulesNarrowed(rows: seq<Row>, comment: string, chain: Option<string>)
    ensures RuleMatches(rows, comment, chain) == Select(rows, RuleKey(comment, chain))
  {
    var byComment := Holding("comment", comment);
    hide Select, Narrow, Has, Fits;
    NarrowSelected(rows, byComment, "chain", chain, RuleKey(comment, chain));
  }

  // ---- Exactly one row ----

  predicate OnlyMatch(rows: seq<Row>, p: Row -> bool, i: nat) {
    i < |rows| && p(rows[i]) && forall j :: 0 <= j < |rows| && j != i ==> !p(rows[j])
  }

  lemma {:induction false} SelectSome(rows: seq<Row>, p: Row -> bool)
    ensures Select(rows, p) == [] <==> forall i :: 0 <= i < |rows| ==> !p(rows[i])
    ensures forall r :: r in Select(rows, p) ==> r in rows && p(r)
  {
    if rows != [] {
      SelectSome(rows[1..], p);
      assert forall i :: 0 < i < |rows| ==> rows[i] == rows[1..][i - 1];
      if Select(rows, p) == [] {
        forall i | 0 <= i < |rows| ensures !p(rows[i]) {
          if i > 0 {
            assert rows[1..][i - 1] == rows[i];
          }
        }
      } else if p(rows[0]) {
        assert exists i :: 0 <= i < |rows| && p(rows[i]);
      } else {
        var i :| 0 <= i < |rows[1..]| && p(rows[1..][i]);
        assert p(rows[i + 1]);
      }
    }
  }

  lemma {:induction false} SelectOne(rows: seq<Row>, p: Row -> bool, i: nat)
    requires i < |rows|
    ensures Select(rows, p) == [rows[i]] <== OnlyMatch(rows, p, i)
    ensures |Select(rows, p)| == 1 && Select(rows, p)[0] == rows[i] && p(rows[i]) ==>
              exists k: nat :: OnlyMatch(rows, p, k)
  {
    SelectSome(rows, p);
    SelectSome(rows[1..], p);
    var rest := rows[1..];
    assert forall j :: 0 <= j < |rest| ==> rest[j] == rows[j + 1];
    if OnlyMatch(rows, p, i) {
      if i > 0 {
        assert OnlyMatch(rest, p, i - 1);
        SelectOne(rest, p, i - 1);
      }
    }
    if |Select(rows, p)| == 1 {
      FirstMatch(rows, p);
    }
  }

  lemma {:induction false} FirstMatch(rows: seq<Row>, p: Row -> bool)
    requires |Select(rows, p)| == 1
    ensures exists k: nat :: OnlyMatch(rows, p, k)
  {
    var rest := rows[1..];
    assert forall j :: 0 <= j < |rest| ==> rest[j] == rows[j + 1];
    SelectSome(rest, p);
    if p(rows[0]) {
      forall j | 0 < j < |rows| ensures !p(rows[j]) {
        assert rows[j] == rest[j - 1];
      }
      assert OnlyMatch(rows, p, 0);
    } else {
      FirstMatch(rest, p);
      var k: nat :| OnlyMatch(rest, p, k);
      forall j | 0 <= j < |rows| && j != k + 1 ensures !p(rows[j]) {
        if j > 0 {
          assert rows[j] == rest[j - 1];
        }
      }
      assert OnlyMatch(rows, p, k + 1);
    }
  }

  /** Resolution succeeds exactly when one row fits all the keys, with that row. */
  lemma ResolvesExactlyOne(rows: seq<Row>, p: Row -> bool, row: Row)
    ensures Resolve(rows, p) == Found(row) <==> exists i: nat :: OnlyMatch(rows, p, i) && rows[i] == row
    ensures Resolve(rows, p) == Missing <==> forall i :: 0 <= i < |rows| ==> !p(rows[i])
  {
    SelectSome(rows, p);
    if Resolve(rows, p) == Found(row) {
      FirstMatch(rows, p);
      var i: nat :| OnlyMatch(rows, p, i);
      SelectOne(rows, p, i);
      assert OnlyMatch(rows, p, i) && rows[i] == row;
    }
    if i: nat :| OnlyMatch(rows, p, i) && rows[i] == row {
      SelectOne(rows, p, i);
    }
  }

  // ---- Between preview and confirmation ----

  /** What others may do to the menu meanwhile. */
  datatype Edit = Insert(at: nat, row: Row) | Delete(at: nat) | Replace(at: nat, row: Row) | Reorder(rows: seq<Row>)

  /** An edit of rows that do not fit the keys, before or after it; any reordering. */
  predicate Avoids(rows: seq<Row>, p: Row -> bool, e: Edit) {
    match e
    case Insert(at, row) => at <= |rows| && !p(row)
    case Delete(at) => at < |rows| && !p(rows[at])
    case Replace(at, row) => at < |rows| && !p(rows[at]) && !p(row)
    case Reorder(after) => multiset(after) == multiset(rows)
  }

  function Edited(rows: seq<Row>, p: Row -> bool, e: Edit): seq<Row>
    requires Avoids(rows, p, e)
  {
    match e
    case Insert(at, row) => rows[..at] + [row] + rows[at..]
    case Delete(at) => rows[..at] + rows[at + 1..]
    case Replace(at, row) => rows[at := row]
    case Reorder(after) => after
  }

  predicate AllAvoid(rows: seq<Row>, p: Row -> bool, edits: seq<Edit>)
    decreases |edits|
  {
    edits == [] || (Avoids(rows, p, edits[0]) && AllAvoid(Edited(rows, p, edits[0]), p, edits[1..]))
  }

  function EditedBy(rows: seq<Row>, p: Row -> bool, edits: seq<Edit>): seq<Row>
    requires AllAvoid(rows, p, edits)
    decreases |edits|
  {
    if edits == [] then rows else EditedBy(Edited(rows, p, edits[0]), p, edits[1..])
  }

  lemma {:induction false} SelectAppend(a: seq<Row>, b: seq<Row>, p: Row -> bool)
    ensures Select(a + b, p) == Select(a, p) + Select(b, p)
  {
    if a == [] {
      assert a + b == b;
    } else {
      assert (a + b)[1..] == a[1..] + b;
      SelectAppend(a[1..], b, p);
    }
  }

  lemma SelectSingle(row: Row, p: Row -> bool)
    ensures Select([row], p) == if p(row) then [row] else []
  {
    assert [row][1..] == [];
  }

  lemma SelectSplit(rows: seq<Row>, at: nat, p: Row -> bool)
    requires at < |rows|
    ensures Select(rows, p) ==
            Select(rows[..at], p) + (if p(rows[at]) then [rows[at]] else []) + Select(rows[at + 1..], p)
  {
    hide Select;
    SplitAt(rows, at);
    SelectAppend(rows[..at], [rows[at]] + rows[at + 1..], p);
    SelectAppend([rows[at]], rows[at + 1..], p);
    SelectSingle(rows[at], p);
    Associate(Select(rows[..at], p), if p(rows[at]) then [rows[at]] else [], Select(rows[at + 1..], p));
  }

  /** How often each row is selected depends on how often it stands on the menu. */
  lemma {:induction false} SelectCounts(rows: seq<Row>, p: Row -> bool, row: Row)
    ensures multiset(Select(rows, p))[row] == if p(row) then multiset(rows)[row] else 0
  {
    if rows != [] {
      assert rows == [rows[0]] + rows[1..];
      SelectCounts(rows[1..], p, row);
    }
  }

  lemma InsertKeepsSelection(rows: seq<Row>, p: Row -> bool, at: nat, row: Row)
    requires at <= |rows| && !p(row)
    ensures Select(rows[..at] + [row] + rows[at..], p) == Select(rows, p)
  {
    hide Select;
    SelectSingle(row, p);
    SelectAppend(rows[..at] + [row], rows[at..], p);
    SelectAppend(rows[..at], [row], p);
    SelectAppend(rows[..at], rows[at..], p);
    assert rows == rows[..at] + rows[at..];
    assert Select(rows[..at], p) + [] == Select(rows[..at], p);
  }

  lemma DeleteKeepsSelection(rows: seq<Row>, p: Row -> bool, at: nat)
    requires at < |rows| && !p(rows[at])
    ensures Select(rows[..at] + rows[at + 1..], p) == Select(rows, p)
  {
    hide Select;
    SelectSplit(rows, at, p);
    SelectAppend(rows[..at], rows[at + 1..], p);
  }

  lemma ReplaceKeepsSelection(rows: seq<Row>, p: Row -> bool, at: nat, row: Row)
    requires at < |rows| && !p(rows[at]) && !p(row)
    ensures Select(rows[at := row], p) == Select(rows, p)
  {
    hide Select;
    var after := rows[at := row];
    SelectSplit(rows, at, p);
    SelectSplit(after, at, p);
    assert after[..at] == rows[..at] && after[at + 1..] == rows[at + 1..];
  }

  lemma ReorderKeepsSelection(rows: seq<Row>, p: Row -> bool, after: seq<Row>)
    requires multiset(after) == multiset(rows)
    ensures multiset(Select(after, p)) == multiset(Select(rows, p))
  {
    forall row ensures multiset(Select(after, p))[row] == multiset(Select(rows, p))[row] {
      SelectCounts(after, p, row);
      SelectCounts(rows, p, row);
    }
  }

  lemma EditKeepsSelection(rows: seq<Row>, p: Row -> bool, e: Edit)
    requires Avoids(rows, p, e)
    ensures multiset(Select(Edited(rows, p, e), p)) == multiset(Select(rows, p))
  {
    hide Select;
    match e {
      case Insert(at, row) => InsertKeepsSelection(rows, p, at, row);
      case Delete(at) => DeleteKeepsSelection(rows, p, at);
      case Replace(at, row) => ReplaceKeepsSelection(rows, p, at, row);
      case Reorder(after) => ReorderKeepsSelection(rows, p, after);
    }
  }

  lemma SameSelectionResolves(a: seq<Row>, b: seq<Row>, p: Row -> bool)
    requires multiset(Select(a, p)) == multiset(Select(b, p))
    ensures Resolve(a, p) == Resolve(b, p)
  {
    hide Select;
    SameElements(Select(a, p), Select(b, p));
  }

  lemma SameElements(s: seq<Row>, t: seq<Row>)
    requires multiset(s) == multiset(t)
    ensures |s| == |t| && (|s| == 1 ==> s == t)
  {
    assert |multiset(s)| == |s| && |multiset(t)| == |t|;
    if |s| == 1 {
      assert s[0] in multiset(t);
    }
  }

  /** Whatever others add, remove, edit or reorder among the rows that do not fit, the
      confirmed call resolves to the very row its preview showed. */
  lemma {:induction false} ResolutionIsStable(rows: seq<Row>, p: Row -> bool, edits: seq<Edit>)
    requires AllAvoid(rows, p, edits)
    ensures Resolve(EditedBy(rows, p, edits), p) == Resolve(rows, p)
    decreases |edits|
  {
    if edits != [] {
      var next := Edited(rows, p, edits[0]);
      EditKeepsSelection(rows, p, edits[0]);
      SameSelectionResolves(next, rows, p);
      hide Resolve, Select;
      ResolutionIsStable(next, p, edits[1..]);
    }
  }

  lemma {:induction false} UpdateOnly(rows: seq<Row>, i: nat, fields: Row)
    requires i < |rows| && DistinctIds(rows)
    ensures UpdateById(rows, rows[i][".id"], fields) == rows[i := rows[i] + fields]
  {
    UpdateAt(rows, i, rows[i][".id"], fields);
  }

  /** So the confirmed write changes the previewed row and no other. */
  lemma ConfirmedWriteHitsPreview(rows: seq<Row>, p: Row -> bool, edits: seq<Edit>, row: Row, fields: Row)
    requires Resolve(rows, p) == Found(row) && AllAvoid(rows, p, edits)
    requires DistinctIds(EditedBy(rows, p, edits))
    ensures var now := EditedBy(rows, p, edits);
            && ".id" in row
            && exists i: nat :: OnlyMatch(now, p, i) && now[i] == row
                                && UpdateById(now, row[".id"], fields) == now[i := row + fields]
  {
    var now := EditedBy(rows, p, edits);
    ResolutionIsStable(rows, p, edits);
    ResolvesExactlyOne(now, p, row);
    var i: nat :| OnlyMatch(now, p, i) && now[i] == row;
    UpdateOnly(now, i, fields);
    hide Resolve, Select, UpdateById;
  }
}

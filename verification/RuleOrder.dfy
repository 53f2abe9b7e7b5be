/** Reordering one firewall rule: the plan of guard.py and the device's move. */
module RuleOrder {
  import opened Formatting
  import opened Device
  import opened RowLemmas
  import opened Resolution

  // ---- The plan ----

  datatype Target = BeforeRule(comment: string) | At(position: nat)

  datatype Plan =
    | Plan(id: Option<string>, destination: Option<string>, oldIndex: nat, newIndex: nat)
    | NoRule(comment: string)
    | TooMany(comment: string, count: nat)

  function IndexOf(rows: seq<Row>, id: Option<string>): nat {
    if rows == [] || Get(rows[0], ".id") == id then 0 else 1 + IndexOf(rows[1..], id)
  }

  /** `move_firewall_rule` up to the write; `RemoveById` is its `remaining`. */
  function PlanMove(rows: seq<Row>, comment: string, chain: Option<string>, target: Target): Plan {
    var found := Resolve(rows, RuleKey(comment, chain));
    match found
    case Missing => NoRule(comment)
    case Ambiguous(count) => TooMany(comment, count)
    case Found(row) =>
      var id := Get(row, ".id");
      var remaining := RemoveById(rows, id);
      match target
      case BeforeRule(other) =>
        (match Resolve(remaining, RuleKey(other, chain))
         case Missing => NoRule(other)
         case Ambiguous(count) => TooMany(other, count)
         case Found(next) =>
           Plan(id, Get(next, ".id"), IndexOf(rows, id), IndexOf(remaining, Get(next, ".id"))))
      case At(position) =>
        var newIndex := if position < |remaining| then position else |remaining|;
        Plan(id, if newIndex < |remaining| then Get(remaining[newIndex], ".id") else None, IndexOf(rows, id), newIndex)
  }

  // ---- The device's move ----

  function InsertAt(rows: seq<Row>, i: nat, row: Row): seq<Row>
    requires i <= |rows|
  {
    rows[..i] + [row] + rows[i..]
  }

  function TakeOut(rows: seq<Row>, i: nat): seq<Row>
    requires i < |rows|
  {
    rows[..i] + rows[i + 1..]
  }

  /** `_move`: None when either id is unknown, and then nothing has changed. */
  function DeviceMove(rows: seq<Row>, numbers: Option<string>, destination: Option<string>): Option<seq<Row>> {
    var source := IndexOf(rows, numbers);
    if source >= |rows| then None
    else
      var rest := TakeOut(rows, source);
      if destination.None? then Some(rest + [rows[source]])
      else
        var dest := IndexOf(rest, destination);
        if dest >= |rest| then None else Some(InsertAt(rest, dest, rows[source]))
  }

  method FindIndex(rows: seq<Row>, id: Option<string>) returns (index: nat)
    ensures index == IndexOf(rows, id)
  {
    index := 0;
    while index < |rows| && Get(rows[index], ".id") != id
      invariant index <= |rows| && IndexOf(rows, id) == index + IndexOf(rows[index..], id)
    {
      assert rows[index..][1..] == rows[index + 1..];
      index := index + 1;
    }
  }

  /** `_find_firewall_rule_rows`. */
  method FindRules(rows: seq<Row>, comment: string, chain: Option<string>) returns (matches: seq<Row>)
    ensures matches == Select(rows, RuleKey(comment, chain))
  {
    RulesNarrowed(rows, comment, chain);
    matches := Matching(rows, Holding("comment", comment));
    if chain.Some? {
      matches := Matching(matches, Holding("chain", chain.value));
    }
  }

  class FilterMenu {
    var rows: seq<Row>

    constructor (rows: seq<Row>)
      ensures this.rows == rows
    {
      this.rows := rows;
    }

    method Move(numbers: Option<string>, destination: Option<string>) returns (ok: bool)
      modifies this
      ensures ok == DeviceMove(old(rows), numbers, destination).Some?
      ensures rows == if ok then DeviceMove(old(rows), numbers, destination).value else old(rows)
    {
      var source := FindIndex(rows, numbers);
      if source >= |rows| {
        return false;
      }
      var row := rows[source];
      rows := rows[..source] + rows[source + 1..];
      if destination.None? {
        rows := rows + [row];
        return true;
      }
      var dest := FindIndex(rows, destination);
      if dest >= |rows| {
        rows := rows[..source] + [row] + rows[source..];
        assert rows == old(rows);
        return false;
      }
      rows := rows[..dest] + [row] + rows[dest..];
      ok := true;
    }

    /** `move_firewall_rule`, with the menu as its client. */
    method MoveRule(comment: string, chain: Option<string>, target: Target, confirm: bool)
      returns (plan: Plan, ok: bool)
      modifies this
      ensures plan == PlanMove(old(rows), comment, chain, target)
      ensures !confirm || !plan.Plan? ==> rows == old(rows)
      ensures confirm && plan.Plan? ==>
                var moved := DeviceMove(old(rows), plan.id, plan.destination);
                ok == moved.Some? && rows == if ok then moved.value else old(rows)
    {
      ok := true;
      var matches := FindRules(rows, comment, chain);
      if matches == [] {
        return NoRule(comment), ok;
      }
      if |matches| > 1 {
        return TooMany(comment, |matches|), ok;
      }
      var id := Get(matches[0], ".id");
      var oldIndex := FindIndex(rows, id);
      var remaining := DropId(rows, id);
      var destination, newIndex := None, 0;
      match target {
        case BeforeRule(other) =>
          var others := FindRules(remaining, other, chain);
          if others == [] {
            return NoRule(other), ok;
          }
          if |others| > 1 {
            return TooMany(other, |others|), ok;
          }
          destination := Get(others[0], ".id");
          newIndex := FindIndex(remaining, destination);
        case At(position) =>
          newIndex := if position < |remaining| then position else |remaining|;
          if newIndex < |remaining| {
            destination := Get(remaining[newIndex], ".id");
          }
      }
      plan := Plan(id, destination, oldIndex, newIndex);
      if confirm {
        ok := Move(id, destination);
      }
    }
  }

  // ---- Correctness ----

  lemma {:induction false} IndexOfId(rows: seq<Row>, i: nat)
    requires i < |rows| && DistinctIds(rows)
    ensures IndexOf(rows, Some(rows[i][".id"])) == i
    ensures RemoveById(rows, Some(rows[i][".id"])) == TakeOut(rows, i)
  {
    var id := Some(rows[i][".id"]);
    TailDistinct(rows);
    if i > 0 {
      IndexOfId(rows[1..], i - 1);
      assert TakeOut(rows, i) == [rows[0]] + TakeOut(rows[1..], i - 1);
    } else {
      RemoveNothing(rows[1..], id);
      assert TakeOut(rows, 0) == rows[1..];
    }
  }

  lemma TailDistinct(rows: seq<Row>)
    requires DistinctIds(rows) && rows != []
    ensures DistinctIds(rows[1..])
    ensures forall i :: 0 <= i < |rows| - 1 ==> Get(rows[1..][i], ".id") != Some(rows[0][".id"])
  {
    assert forall i :: 0 <= i < |rows| - 1 ==> rows[1..][i] == rows[i + 1];
  }

  lemma {:induction false} RemoveNothing(rows: seq<Row>, id: Option<string>)
    requires forall i :: 0 <= i < |rows| ==> Get(rows[i], ".id") != id
    ensures RemoveById(rows, id) == rows
  {
    if rows != [] {
      RemoveNothing(rows[1..], id);
      assert rows == [rows[0]] + rows[1..];
    }
  }

  lemma TakeOutDistinct(rows: seq<Row>, i: nat)
    requires i < |rows| && DistinctIds(rows)
    ensures DistinctIds(TakeOut(rows, i))
  {
    var rest := TakeOut(rows, i);
    assert forall j :: 0 <= j < |rest| ==> rest[j] == rows[if j < i then j else j + 1];
  }

  /** The moved row stands at `newIndex`, and without it the menu is what it was: the
      others keep their order and all their fields. */
  predicate MovedTo(rows: seq<Row>, after: seq<Row>, oldIndex: nat, newIndex: nat) {
    && oldIndex < |rows| && newIndex < |after|
    && after[newIndex] == rows[oldIndex] && TakeOut(after, newIndex) == TakeOut(rows, oldIndex)
  }

  lemma InsertThenTake(rows: seq<Row>, i: nat, row: Row)
    requires i <= |rows|
    ensures |InsertAt(rows, i, row)| == |rows| + 1 && InsertAt(rows, i, row)[i] == row
    ensures TakeOut(InsertAt(rows, i, row), i) == rows
  {
  }

  lemma MoveLands(rows: seq<Row>, source: nat, dest: nat)
    requires source < |rows| && DistinctIds(rows) && dest < |rows|
    ensures var rest := TakeOut(rows, source);
            var destination := if dest < |rest| then Get(rest[dest], ".id") else None;
            var after := DeviceMove(rows, Some(rows[source][".id"]), destination);
            after == Some(InsertAt(rest, dest, rows[source])) && MovedTo(rows, after.value, source, dest)
  {
    var rest := TakeOut(rows, source);
    IndexOfId(rows, source);
    TakeOutDistinct(rows, source);
    InsertThenTake(rest, dest, rows[source]);
    if dest < |rest| {
      IndexOfId(rest, dest);
    } else {
      assert InsertAt(rest, dest, rows[source]) == rest + [rows[source]];
    }
  }

  /** What a successful plan is: the one matching rule, and where it is to go. */
  lemma PlanIs(rows: seq<Row>, comment: string, chain: Option<string>, target: Target)
    requires DistinctIds(rows)
    ensures var p := PlanMove(rows, comment, chain, target);
            p.Plan? ==>
              && OnlyMatch(rows, RuleKey(comment, chain), p.oldIndex)
              && p.newIndex < |rows|
              && var rest := TakeOut(rows, p.oldIndex);
                 && p.id == Some(rows[p.oldIndex][".id"])
                 && p.destination == (if p.newIndex < |rest| then Get(rest[p.newIndex], ".id") else None)
                 && (target.At? ==> p.newIndex == if target.position < |rest| then target.position else |rest|)
                 && (target.BeforeRule? ==> OnlyMatch(rest, RuleKey(target.comment, chain), p.newIndex))
  {
    var key := RuleKey(comment, chain);
    var p := PlanMove(rows, comment, chain, target);
    if p.Plan? {
      hide Select, Resolve, RemoveById, IndexOf, TakeOut, DistinctIds, RuleKey, OnlyMatch;
      var i := ResolvedIndex(rows, key);
      TakeOutDistinct(rows, i);
      if target.BeforeRule? {
        var k := ResolvedIndex(TakeOut(rows, i), RuleKey(target.comment, chain));
      }
      TakeOutShorter(rows, i);
    }
  }

  lemma ResolvedIndex(rows: seq<Row>, key: Row -> bool) returns (i: nat)
    requires DistinctIds(rows) && Resolve(rows, key).Found?
    ensures OnlyMatch(rows, key, i) && i < |rows| && rows[i] == Resolve(rows, key).row
    ensures Get(rows[i], ".id") == Some(rows[i][".id"])
    ensures IndexOf(rows, Get(rows[i], ".id")) == i && RemoveById(rows, Get(rows[i], ".id")) == TakeOut(rows, i)
  {
    hide RemoveById, IndexOf, Resolve;
    var row := Resolve(rows, key).row;
    ResolvesExactlyOne(rows, key, row);
    i :| OnlyMatch(rows, key, i) && rows[i] == row;
    IndexOfId(rows, i);
  }

  lemma TakeOutShorter(rows: seq<Row>, i: nat)
    requires i < |rows|
    ensures |TakeOut(rows, i)| == |rows| - 1
    ensures forall r :: r in TakeOut(rows, i) ==> r in rows
  {
  }

  predicate OneFits(rows: seq<Row>, key: Row -> bool) {
    exists i: nat :: i < |rows| && OnlyMatch(rows, key, i)
  }

  lemma OneFitsResolves(rows: seq<Row>, key: Row -> bool)
    ensures Resolve(rows, key).Found? <==> OneFits(rows, key)
  {
    if Resolve(rows, key).Found? {
      ResolvesExactlyOne(rows, key, Resolve(rows, key).row);
    }
    if i: nat :| i < |rows| && OnlyMatch(rows, key, i) {
      ResolvesExactlyOne(rows, key, rows[i]);
    }
    hide Resolve, Select;
  }

  /** A move is planned exactly when one rule fits and, to go before another, exactly
      one of the remaining rules fits that. */
  lemma PlansExactly(rows: seq<Row>, comment: string, chain: Option<string>, target: Target)
    requires DistinctIds(rows)
    ensures PlanMove(rows, comment, chain, target).Plan? <==>
            exists i: nat :: i < |rows| && OnlyMatch(rows, RuleKey(comment, chain), i)
                             && (target.BeforeRule? ==> OneFits(TakeOut(rows, i), RuleKey(target.comment, chain)))
  {
    var key := RuleKey(comment, chain);
    OneFitsResolves(rows, key);
    hide RuleKey, Resolve, RemoveById, IndexOf, TakeOut, OnlyMatch, DistinctIds;
    if Resolve(rows, key).Found? {
      var i := ResolvedIndex(rows, key);
      forall k: nat | k < |rows| && OnlyMatch(rows, key, k) ensures k == i {
        OnlyOne(rows, key, i, k);
      }
      if target.BeforeRule? {
        OneFitsResolves(TakeOut(rows, i), RuleKey(target.comment, chain));
      }
      hide OneFits;
      assert PlanMove(rows, comment, chain, target).Plan? <==>
             (target.BeforeRule? ==> OneFits(TakeOut(rows, i), RuleKey(target.comment, chain)));
    }
  }

  lemma OnlyOne(rows: seq<Row>, key: Row -> bool, i: nat, k: nat)
    requires OnlyMatch(rows, key, i) && OnlyMatch(rows, key, k)
    ensures i == k
  {
  }

  lemma MovedIsPermutation(rows: seq<Row>, after: seq<Row>, oldIndex: nat, newIndex: nat)
    requires MovedTo(rows, after, oldIndex, newIndex)
    ensures multiset(after) == multiset(rows)
  {
    assert after == after[..newIndex] + [after[newIndex]] + after[newIndex + 1..];
    assert rows == rows[..oldIndex] + [rows[oldIndex]] + rows[oldIndex + 1..];
    assert multiset(after) == multiset(TakeOut(after, newIndex)) + multiset{after[newIndex]};
    assert multiset(rows) == multiset(TakeOut(rows, oldIndex)) + multiset{rows[oldIndex]};
  }

  /** Planning and moving: the device accepts the move, the menu is a permutation, the
      previewed `position` is the rule's real index afterwards, the others keep their
      order, and a rule moved before another stands immediately before it. */
  lemma MoveIsAsPreviewed(rows: seq<Row>, comment: string, chain: Option<string>, target: Target)
    requires DistinctIds(rows)
    ensures var p := PlanMove(rows, comment, chain, target);
            p.Plan? ==>
              && var moved := DeviceMove(rows, p.id, p.destination);
                 && moved.Some? && multiset(moved.value) == multiset(rows)
                 && MovedTo(rows, moved.value, p.oldIndex, p.newIndex)
                 && (target.BeforeRule? ==>
                       p.newIndex + 1 < |rows| && RuleKey(target.comment, chain)(moved.value[p.newIndex + 1]))
  {
    var p := PlanMove(rows, comment, chain, target);
    PlanIs(rows, comment, chain, target);
    hide PlanMove;
    if p.Plan? {
      MoveLands(rows, p.oldIndex, p.newIndex);
      var after := DeviceMove(rows, p.id, p.destination).value;
      MovedIsPermutation(rows, after, p.oldIndex, p.newIndex);
      if target.BeforeRule? {
        var rest := TakeOut(rows, p.oldIndex);
        assert after[p.newIndex + 1] == rest[p.newIndex];
      }
    }
  }

  /** Where each row of the moved menu comes from. */
  lemma MovedFrom(rows: seq<Row>, after: seq<Row>, oldIndex: nat, newIndex: nat, i: nat) returns (k: nat)
    requires MovedTo(rows, after, oldIndex, newIndex) && i < |after|
    ensures k < |rows| && after[i] == rows[k] && (k == oldIndex <==> i == newIndex)
    ensures k == if i == newIndex then oldIndex
                 else var j := if i < newIndex then i else i - 1; if j < oldIndex then j else j + 1
  {
    var rest := TakeOut(rows, oldIndex);
    assert |TakeOut(after, newIndex)| == |after| - 1 && |rest| == |rows| - 1;
    if i == newIndex {
      k := oldIndex;
    } else {
      var j := if i < newIndex then i else i - 1;
      k := if j < oldIndex then j else j + 1;
      assert TakeOut(after, newIndex)[j] == after[i];
      assert rest[j] == rows[k];
    }
  }

  lemma PermutationKeepsIds(rows: seq<Row>, after: seq<Row>, oldIndex: nat, newIndex: nat)
    requires DistinctIds(rows) && MovedTo(rows, after, oldIndex, newIndex)
    ensures DistinctIds(after)
  {
    hide MovedTo;
    forall i | 0 <= i < |after| ensures ".id" in after[i] {
      var k := MovedFrom(rows, after, oldIndex, newIndex, i);
    }
    forall i, j | 0 <= i < j < |after| ensures after[i][".id"] != after[j][".id"] {
      var k := MovedFrom(rows, after, oldIndex, newIndex, i);
      var l := MovedFrom(rows, after, oldIndex, newIndex, j);
      assert k != l;
    }
  }

  /** Moving the rule back to its previewed old position restores the menu exactly. */
  lemma MovingBackRestores(rows: seq<Row>, comment: string, chain: Option<string>, target: Target)
    requires DistinctIds(rows)
    ensures var p := PlanMove(rows, comment, chain, target);
            p.Plan? ==>
              var after := DeviceMove(rows, p.id, p.destination);
              && after.Some?
              && var back := PlanMove(after.value, comment, chain, At(p.oldIndex));
                 && back.Plan? && back.oldIndex == p.newIndex
                 && DeviceMove(after.value, back.id, back.destination) == Some(rows)
  {
    var p := PlanMove(rows, comment, chain, target);
    MoveIsAsPreviewed(rows, comment, chain, target);
    PlanIs(rows, comment, chain, target);
    hide PlanMove;
    if p.Plan? {
      var after := DeviceMove(rows, p.id, p.destination).value;
      PermutationKeepsIds(rows, after, p.oldIndex, p.newIndex);
      MovesBack(rows, after, p.oldIndex, p.newIndex, comment, chain);
    }
  }

  lemma MovesBack(rows: seq<Row>, after: seq<Row>, oldIndex: nat, newIndex: nat, comment: string, chain: Option<string>)
    requires MovedTo(rows, after, oldIndex, newIndex) && DistinctIds(after) && multiset(after) == multiset(rows)
    requires OnlyMatch(rows, RuleKey(comment, chain), oldIndex)
    ensures var back := PlanMove(after, comment, chain, At(oldIndex));
            && back.Plan? && back.oldIndex == newIndex
            && DeviceMove(after, back.id, back.destination) == Some(rows)
  {
    var key := RuleKey(comment, chain);
    PlansBack(rows, after, oldIndex, comment, chain);
    PlanIs(after, comment, chain, At(oldIndex));
    var back := PlanMove(after, comment, chain, At(oldIndex));
    OnlyMatchAfter(rows, after, oldIndex, newIndex, key, back.oldIndex);
    MoveLands(after, newIndex, oldIndex);
    PutBack(rows, oldIndex);
    hide PlanMove, RuleKey, OnlyMatch, DeviceMove, DistinctIds, InsertAt;
  }

  lemma PutBack(rows: seq<Row>, i: nat)
    requires i < |rows|
    ensures InsertAt(TakeOut(rows, i), i, rows[i]) == rows
  {
  }

  lemma PlansBack(rows: seq<Row>, after: seq<Row>, oldIndex: nat, comment: string, chain: Option<string>)
    requires multiset(after) == multiset(rows) && OnlyMatch(rows, RuleKey(comment, chain), oldIndex)
    ensures PlanMove(after, comment, chain, At(oldIndex)).Plan?
  {
    var key := RuleKey(comment, chain);
    SelectOne(rows, key, oldIndex);
    hide RuleKey, Select;
    assert Avoids(rows, key, Reorder(after));
    EditKeepsSelection(rows, key, Reorder(after));
    SameSelectionResolves(after, rows, key);
  }

  lemma OnlyMatchAfter(rows: seq<Row>, after: seq<Row>, oldIndex: nat, newIndex: nat, key: Row -> bool, k: nat)
    requires MovedTo(rows, after, oldIndex, newIndex)
    requires OnlyMatch(rows, key, oldIndex) && OnlyMatch(after, key, k)
    ensures k == newIndex && |after| == |rows|
  {
    assert |TakeOut(after, newIndex)| == |after| - 1 && |TakeOut(rows, oldIndex)| == |rows| - 1;
  }
}

/** The guarded calls never put two rows of one key on a menu, and undo one another. */
module UniqueKeys {
  import opened Formatting
  import opened Device
  import opened RowLemmas
  import opened Resolution
  import opened KeyedMenus

  // ---- Keys and duplicates ----

  function WantedKey(w: Wanted): seq<string> {
    match w
    case WantDns(name, cname, _, _, _) => [name, RecordType(cname)]
    case WantLease(_, mac, _, _) => [mac]
    case WantNetwatch(host, _, _) => [host]
    case WantAddress(list, address, _, _) => [list, address]
    case WantPeer(interface, publicKey, _, _, _, _, _) => [interface, publicKey]
  }

  /** A row is a duplicate of what is wanted exactly when it has its key. */
  lemma DuplicatesByKey(w: Wanted, row: Row)
    ensures Duplicates(w)(row) <==> KeyOf(KindOf(Adding(w)), row) == Some(WantedKey(w))
  {
  }

  lemma Untouched(base: Row, key: string, value: Option<string>, k: string)
    requires k != key
    ensures Get(base + Given(key, value), k) == Get(base, k)
    ensures Get(base + Present(key, value), k) == Get(base, k)
  {
  }

  predicate Apart(a: string, b: string) {
    |a| != |b| || (a != "" && a[0] != b[0])
  }

  lemma ApartDiffer(a: string, b: string)
    requires Apart(a, b)
    ensures a != b
  {
  }

  /** Two optional fields leave every other field as it was. */
  lemma TwoGiven(base: Row, a: string, x: Option<string>, b: string, y: Option<string>, k: string)
    requires Apart(a, k) && Apart(b, k)
    ensures Get(base + Given(a, x) + Given(b, y), k) == Get(base, k)
  {
    ApartDiffer(a, k);
    ApartDiffer(b, k);
    Untouched(base, a, x, k);
    Untouched(base + Given(a, x), b, y, k);
  }

  lemma DnsPayload(name: string, cname: bool, value: string, ttl: Option<string>, comment: Option<string>)
    ensures var p := Payload(WantDns(name, cname, value, ttl, comment));
            Get(p, "name") == Some(name) && Get(p, "type") == Some(RecordType(cname))
  {
    var base := map["name" := name, "type" := RecordType(cname)] + map[if cname then "cname" else "address" := value];
    ApartDiffer("cname", "name");
    ApartDiffer("address", "name");
    ApartDiffer("cname", "type");
    ApartDiffer("address", "type");
    ApartDiffer("name", "type");
    assert Get(base, "name") == Some(name) && Get(base, "type") == Some(RecordType(cname));
    TwoGiven(base, "ttl", ttl, "comment", comment, "name");
    TwoGiven(base, "ttl", ttl, "comment", comment, "type");
  }

  lemma LeasePayload(address: string, mac: string, comment: Option<string>, server: Option<string>)
    ensures Get(Payload(WantLease(address, mac, comment, server)), "mac-address") == Some(mac)
  {
    ApartDiffer("address", "mac-address");
    TwoGiven(map["address" := address, "mac-address" := mac], "comment", comment, "server", server, "mac-address");
  }

  lemma NetwatchPayload(host: string, interval: Option<string>, comment: Option<string>)
    ensures Get(Payload(WantNetwatch(host, interval, comment)), "host") == Some(host)
  {
    TwoGiven(map["host" := host], "interval", interval, "comment", comment, "host");
  }

  lemma AddressPayload(list: string, address: string, comment: Option<string>, timeout: Option<string>)
    ensures var p := Payload(WantAddress(list, address, comment, timeout));
            Get(p, "list") == Some(list) && Get(p, "address") == Some(address)
  {
    var base := map["list" := list, "address" := address];
    ApartDiffer("list", "address");
    ApartDiffer("comment", "address");
    ApartDiffer("timeout", "address");
    TwoGiven(base, "comment", comment, "timeout", timeout, "list");
    TwoGiven(base, "comment", comment, "timeout", timeout, "address");
  }

  lemma PeerPayload(w: Wanted)
    requires w.WantPeer?
    ensures Get(Payload(w), "interface") == Some(w.interface) && Get(Payload(w), "public-key") == Some(w.publicKey)
  {
    var base := map["interface" := w.interface, "public-key" := w.publicKey, "allowed-address" := w.allowed];
    ApartDiffer("interface", "public-key");
    ApartDiffer("interface", "allowed-address");
    ApartDiffer("public-key", "allowed-address");
    PeerExtras(base, w, "interface");
    PeerExtras(base, w, "public-key");
  }

  lemma PeerExtras(base: Row, w: Wanted, k: string)
    requires w.WantPeer? && (k == "interface" || k == "public-key")
    ensures Get(base + Present("endpoint-address", w.endpoint) + Present("endpoint-port", w.port)
                + Present("persistent-keepalive", w.keepalive) + Present("comment", w.comment), k) == Get(base, k)
  {
    assert |"endpoint-address"| == 16 && |"endpoint-port"| == 13 && |"persistent-keepalive"| == 20 && |"comment"| == 7;
    assert |"interface"| == 9 && |"public-key"| == 10;
    var b1 := base + Present("endpoint-address", w.endpoint);
    var b2 := b1 + Present("endpoint-port", w.port);
    Untouched(base, "endpoint-address", w.endpoint, k);
    Untouched(b1, "endpoint-port", w.port, k);
    Untouched(b2, "persistent-keepalive", w.keepalive, k);
    Untouched(b2 + Present("persistent-keepalive", w.keepalive), "comment", w.comment, k);
  }

  lemma IdAdded(fields: Row, id: string, k: string)
    requires k != ".id"
    ensures Get(fields[".id" := id], k) == Get(fields, k) && Get(fields[".id" := id], ".id") == Some(id)
  {
  }

  /** The payload carries the key the duplicate check looked for. */
  lemma PayloadHasKey(w: Wanted, id: string)
    ensures KeyOf(KindOf(Adding(w)), Payload(w)[".id" := id]) == Some(WantedKey(w))
    ensures Get(Payload(w)[".id" := id], ".id") == Some(id)
  {
    hide Payload;
    var fields := Payload(w);
    assert |".id"| == 3;
    IdAdded(fields, id, "name");
    match w {
      case WantDns(name, cname, value, ttl, comment) =>
        DnsPayload(name, cname, value, ttl, comment);
        IdAdded(fields, id, "type");
      case WantLease(address, mac, comment, server) =>
        LeasePayload(address, mac, comment, server);
        IdAdded(fields, id, "mac-address");
      case WantNetwatch(host, interval, comment) =>
        NetwatchPayload(host, interval, comment);
        IdAdded(fields, id, "host");
      case WantAddress(list, address, comment, timeout) =>
        AddressPayload(list, address, comment, timeout);
        IdAdded(fields, id, "list");
        IdAdded(fields, id, "address");
      case WantPeer(interface, publicKey, _, _, _, _, _) =>
        PeerPayload(w);
        IdAdded(fields, id, "interface");
        IdAdded(fields, id, "public-key");
    }
  }

  // ---- Keys stay unique ----

  /** Every row of one list is a row of the other. */
  ghost predicate Within(some: seq<Row>, rows: seq<Row>) {
    forall r :: r in some ==> r in rows
  }

  lemma {:induction false} RemovalKeepsUnique(kind: Kind, rows: seq<Row>, id: Option<string>)
    requires Unique(kind, rows) && DistinctIds(rows)
    ensures Unique(kind, RemoveById(rows, id)) && DistinctIds(RemoveById(rows, id))
  {
    if rows != [] {
      var rest := rows[1..];
      assert forall i :: 0 <= i < |rest| ==> rest[i] == rows[i + 1];
      assert Unique(kind, rest) && DistinctIds(rest);
      RemovalKeepsUnique(kind, rest, id);
      RemoveByIdKeepsSome(rest, id);
      if Get(rows[0], ".id") != id {
        hide KeyOf;
        FrontKeepsUnique(kind, rows, RemoveById(rest, id));
      }
    }
  }

  lemma FrontKeepsUnique(kind: Kind, rows: seq<Row>, some: seq<Row>)
    requires Unique(kind, rows) && DistinctIds(rows) && rows != []
    requires Unique(kind, some) && DistinctIds(some) && Within(some, rows[1..])
    ensures Unique(kind, [rows[0]] + some) && DistinctIds([rows[0]] + some)
  {
    hide KeyOf;
    var all := [rows[0]] + some;
    forall j | 0 < j < |all|
      ensures ".id" in all[j] && all[0][".id"] != all[j][".id"]
              && (KeyOf(kind, all[0]).Some? ==> KeyOf(kind, all[0]) != KeyOf(kind, all[j]))
    {
      assert all[j] == some[j - 1] && some[j - 1] in rows[1..];
      var k :| 0 <= k < |rows[1..]| && rows[1..][k] == all[j];
      assert rows[k + 1] == all[j];
    }
    assert forall i :: 0 < i < |all| ==> all[i] == some[i - 1];
  }

  predicate NoKey(kind: Kind, rows: seq<Row>, key: seq<string>) {
    forall i :: 0 <= i < |rows| ==> KeyOf(kind, rows[i]) != Some(key)
  }

  lemma AdditionKeepsUnique(kind: Kind, rows: seq<Row>, row: Row, key: seq<string>, id: string)
    requires Unique(kind, rows) && DistinctIds(rows)
    requires KeyOf(kind, row) == Some(key) && Get(row, ".id") == Some(id) && NoKey(kind, rows, key) && NoId(rows, id)
    ensures Unique(kind, rows + [row]) && DistinctIds(rows + [row])
  {
    hide KeyOf;
    var all := rows + [row];
    assert forall i :: 0 <= i < |rows| ==> all[i] == rows[i];
    assert all[|rows|] == row;
  }

  lemma ReplacementKeepsUnique(kind: Kind, rows: seq<Row>, i: nat, row: Row)
    requires Unique(kind, rows) && DistinctIds(rows) && i < |rows|
    requires KeyOf(kind, row) == KeyOf(kind, rows[i]) && Get(row, ".id") == Get(rows[i], ".id")
    ensures Unique(kind, rows[i := row]) && DistinctIds(rows[i := row])
  {
    hide KeyOf;
  }

  lemma {:induction false} FoundAt(rows: seq<Row>, key: string, value: string) returns (i: nat)
    requires FindRow(rows, key, value).Some?
    ensures i < |rows| && rows[i] == FindRow(rows, key, value).value && Has(rows[i], key, value)
    ensures forall j :: 0 <= j < i ==> !Has(rows[j], key, value)
  {
    if Has(rows[0], key, value) {
      i := 0;
    } else {
      var k := FoundAt(rows[1..], key, value);
      i := k + 1;
      assert forall j :: 0 < j < i ==> rows[j] == rows[1..][j - 1];
    }
  }

  lemma {:induction false} FindsFirst(rows: seq<Row>, i: nat, key: string, value: string)
    requires i < |rows| && Has(rows[i], key, value) && forall j :: 0 <= j < i ==> !Has(rows[j], key, value)
    ensures FindRow(rows, key, value) == Some(rows[i])
  {
    if i > 0 {
      FindsFirst(rows[1..], i - 1, key, value);
    }
  }

  lemma {:induction false} NotFoundNowhere(rows: seq<Row>, key: string, value: string)
    requires FindRow(rows, key, value).None?
    ensures forall i :: 0 <= i < |rows| ==> !Has(rows[i], key, value)
  {
    if rows != [] {
      NotFoundNowhere(rows[1..], key, value);
      assert forall i :: 0 < i < |rows| ==> rows[i] == rows[1..][i - 1];
    }
  }

  /** The limits leave the queue's name, target and id alone. */
  lemma LimitsApart(maxLimit: string, limitAt: Option<string>)
    ensures "target" !in LimitFields(maxLimit, limitAt) && ".id" !in LimitFields(maxLimit, limitAt)
    ensures "name" !in LimitFields(maxLimit, limitAt)
  {
    assert |"max-limit"| == 9 && |"limit-at"| == 8 && |"target"| == 6 && |".id"| == 3 && |"name"| == 4;
  }

  lemma LimitKeepsUnique(rows: seq<Row>, target: string, queue: string, maxLimit: string, limitAt: Option<string>,
                         id: string)
    requires Unique(Queues, rows) && DistinctIds(rows) && NoId(rows, id)
    ensures var after := Called(rows, [], Limiting(target, queue, maxLimit, limitAt), true, id);
            Unique(Queues, after) && DistinctIds(after)
  {
    var limits := LimitFields(maxLimit, limitAt);
    LimitsApart(maxLimit, limitAt);
    if FindRow(rows, "target", target).Some? {
      var i := FoundAt(rows, "target", target);
      UpdateOnly(rows, i, limits);
      hide Unique, DistinctIds, LimitFields;
      ReplacementKeepsUnique(Queues, rows, i, rows[i] + limits);
    } else {
      var row := (map["name" := queue, "target" := target] + limits)[".id" := id];
      assert |"name"| == 4 && |"target"| == 6 && |".id"| == 3;
      NotFoundNowhere(rows, "target", target);
      hide LimitFields;
      AdditionKeepsUnique(Queues, rows, row, [target], id);
    }
  }

  /** An entry is added exactly when no row has its key and, for a peer, its interface
      exists. */
  lemma AddedExactly(rows: seq<Row>, interfaces: seq<Row>, wanted: Wanted)
    ensures Decide(rows, interfaces, Adding(wanted)).Add? <==>
            && NoKey(KindOf(Adding(wanted)), rows, WantedKey(wanted))
            && (wanted.WantPeer? ==> exists i :: 0 <= i < |interfaces| && Has(interfaces[i], "name", wanted.interface))
  {
    forall i | 0 <= i < |rows|
      ensures Duplicates(wanted)(rows[i]) <==> KeyOf(KindOf(Adding(wanted)), rows[i]) == Some(WantedKey(wanted))
    {
      DuplicatesByKey(wanted, rows[i]);
    }
    SelectSome(rows, Duplicates(wanted));
    hide KeyOf, WantedKey, Duplicates, Payload, Select;
    if wanted.WantPeer? {
      if FindRow(interfaces, "name", wanted.interface).Some? {
        var i := FoundAt(interfaces, "name", wanted.interface);
      } else {
        NotFoundNowhere(interfaces, "name", wanted.interface);
      }
    }
  }

  lemma AddKeepsUnique(rows: seq<Row>, interfaces: seq<Row>, wanted: Wanted, id: string)
    requires Unique(KindOf(Adding(wanted)), rows) && DistinctIds(rows) && NoId(rows, id)
    ensures var after := Called(rows, interfaces, Adding(wanted), true, id);
            Unique(KindOf(Adding(wanted)), after) && DistinctIds(after)
  {
    var kind := KindOf(Adding(wanted));
    PayloadHasKey(wanted, id);
    hide Payload, KeyOf, WantedKey, Duplicates, Unique, DistinctIds;
    if Decide(rows, interfaces, Adding(wanted)).Add? {
      SelectSome(rows, Duplicates(wanted));
      forall i | 0 <= i < |rows| ensures KeyOf(kind, rows[i]) != Some(WantedKey(wanted)) {
        DuplicatesByKey(wanted, rows[i]);
      }
      AdditionKeepsUnique(kind, rows, Payload(wanted)[".id" := id], WantedKey(wanted), id);
    }
  }

  /** One call's turn: the device's interfaces by then, whether it is carried out, and
      the id the device would give. */
  datatype Turn = Turn(call: Call, interfaces: seq<Row>, carriedOut: bool, id: string)

  function After(rows: seq<Row>, turn: Turn): seq<Row> {
    Called(rows, turn.interfaces, turn.call, turn.carriedOut, turn.id)
  }

  function CallAll(rows: seq<Row>, turns: seq<Turn>): seq<Row>
    decreases |turns|
  {
    if turns == [] then rows else CallAll(After(rows, turns[0]), turns[1..])
  }

  /** All calls are about this menu, and the device gives fresh ids. */
  predicate Proper(kind: Kind, rows: seq<Row>, turns: seq<Turn>)
    decreases |turns|
  {
    turns == [] ||
    (KindOf(turns[0].call) == kind && NoId(rows, turns[0].id) && Proper(kind, After(rows, turns[0]), turns[1..]))
  }

  lemma TurnKeepsUnique(kind: Kind, rows: seq<Row>, turn: Turn)
    requires Unique(kind, rows) && DistinctIds(rows) && KindOf(turn.call) == kind && NoId(rows, turn.id)
    ensures Unique(kind, After(rows, turn)) && DistinctIds(After(rows, turn))
  {
    hide Unique, DistinctIds, NoId;
    match turn.call {
      case Adding(wanted) => AddKeepsUnique(rows, turn.interfaces, wanted, turn.id);
      case Limiting(target, queue, maxLimit, limitAt) =>
        LimitKeepsUnique(rows, target, queue, maxLimit, limitAt, turn.id);
      case Removing(pick) =>
        hide Chosen;
        var d := Chosen(rows, pick);
        ChosenOnlyRemoves(rows, pick);
        if d.Remove? {
          RemovalKeepsUnique(kind, rows, Get(d.row, ".id"));
        }
    }
  }

  lemma ChosenOnlyRemoves(rows: seq<Row>, pick: Pick)
    ensures var d := Chosen(rows, pick);
            !d.Add? && !d.Update?
  {
    hide Resolve, FindRow, Select;
  }

  /** Starting from unique keys, no run of guarded calls, previewed, lost or carried
      out, ever puts two rows of one key on the menu. */
  lemma {:induction false} KeysStayUnique(kind: Kind, rows: seq<Row>, turns: seq<Turn>)
    requires Unique(kind, rows) && DistinctIds(rows) && Proper(kind, rows, turns)
    ensures Unique(kind, CallAll(rows, turns)) && DistinctIds(CallAll(rows, turns))
    decreases |turns|
  {
    hide Unique, DistinctIds, After, NoId;
    if turns != [] {
      TurnKeepsUnique(kind, rows, turns[0]);
      KeysStayUnique(kind, After(rows, turns[0]), turns[1..]);
    }
  }

  // ---- Undoing ----

  /** The remove call naming the added row by its key. */
  function KeyPick(w: Wanted): Pick {
    match w
    case WantDns(name, cname, _, _, _) => PickDns(name, Some(RecordType(cname)))
    case WantLease(_, mac, _, _) => PickLease(Some(mac), None)
    case WantNetwatch(host, _, _) => PickNetwatch(Some(host), None)
    case WantAddress(list, address, _, _) => PickAddress(list, address)
    case WantPeer(interface, publicKey, _, _, _, _, _) => PickPeer(interface, Some(publicKey), None)
  }

  predicate NoneFits(rows: seq<Row>, p: Row -> bool) {
    forall i :: 0 <= i < |rows| ==> !p(rows[i])
  }

  lemma NewIsOnly(rows: seq<Row>, row: Row, p: Row -> bool)
    requires NoneFits(rows, p) && p(row)
    ensures Select(rows + [row], p) == [row] && Resolve(rows + [row], p) == Found(row)
  {
    SelectAppend(rows, [row], p);
    SelectSome(rows, p);
    SelectSingle(row, p);
  }

  lemma NewIsFirst(rows: seq<Row>, row: Row, key: string, value: string)
    requires Has(row, key, value) && forall i :: 0 <= i < |rows| ==> !Has(rows[i], key, value)
    ensures FindRow(rows + [row], key, value) == Some(row)
  {
    assert forall j :: 0 <= j < |rows| ==> (rows + [row])[j] == rows[j];
    FindsFirst(rows + [row], |rows|, key, value);
  }

  lemma {:induction false} RemoveNew(rows: seq<Row>, row: Row, id: string)
    requires NoId(rows, id) && Get(row, ".id") == Some(id)
    ensures RemoveById(rows + [row], Some(id)) == rows
  {
    if rows == [] {
      assert [] + [row] == [row];
    } else {
      assert (rows + [row])[1..] == rows[1..] + [row];
      RemoveNew(rows[1..], row, id);
      assert [rows[0]] + rows[1..] == rows;
    }
  }

  lemma KeyPickFindsNew(rows: seq<Row>, row: Row, w: Wanted)
    requires NoneFits(rows, Duplicates(w)) && Duplicates(w)(row)
    ensures Chosen(rows + [row], KeyPick(w)) == Remove(row)
  {
    hide Select, Resolve, FindRow;
    match w {
      case WantDns(name, cname, _, _, _) =>
        var p := (r: Row) => Has(r, "name", name)
                             && (Some(RecordType(cname)).Some? ==> TypeOf(r) == Some(RecordType(cname)).value);
        forall i | 0 <= i < |rows| ensures !p(rows[i]) { assert !Duplicates(w)(rows[i]); }
        NewIsOnly(rows, row, p);
      case WantLease(_, mac, _, _) =>
        forall i | 0 <= i < |rows| ensures !Has(rows[i], "mac-address", mac) { assert !Duplicates(w)(rows[i]); }
        NewIsFirst(rows, row, "mac-address", mac);
      case WantNetwatch(host, _, _) =>
        NewIsOnly(rows, row, r => Has(r, "host", Some(host).value));
      case WantAddress(list, address, _, _) =>
        NewIsOnly(rows, row, r => Has(r, "list", list) && Has(r, "address", address));
      case WantPeer(interface, publicKey, _, _, _, _, _) =>
        NewIsOnly(rows, row, r => Has(r, "interface", interface) && Has(r, "public-key", Some(publicKey).value));
    }
  }

  /** Adding an entry and removing it by its key leaves the menu as it was. */
  lemma AddThenRemove(rows: seq<Row>, interfaces: seq<Row>, wanted: Wanted, id: string)
    requires NoId(rows, id) && Decide(rows, interfaces, Adding(wanted)).Add?
    ensures var after := Called(rows, interfaces, Adding(wanted), true, id);
            && Decide(after, interfaces, Removing(KeyPick(wanted))).Remove?
            && Called(after, interfaces, Removing(KeyPick(wanted)), true, id) == rows
  {
    var row := Payload(wanted)[".id" := id];
    PayloadHasKey(wanted, id);
    DuplicatesByKey(wanted, row);
    SelectSome(rows, Duplicates(wanted));
    hide Payload, KeyOf, WantedKey, Duplicates, Chosen, KeyPick, Select;
    KeyPickFindsNew(rows, row, wanted);
    RemoveNew(rows, row, id);
  }

  lemma LimitAgain(rows: seq<Row>, i: nat, target: string, queue: string, maxLimit: string,
                   limitAt: Option<string>, id: string)
    requires DistinctIds(rows) && i < |rows| && FindRow(rows, "target", target) == Some(rows[i])
    requires forall k :: k in LimitFields(maxLimit, limitAt) ==>
               Get(rows[i], k) == Some(LimitFields(maxLimit, limitAt)[k])
    ensures Decide(rows, [], Limiting(target, queue, maxLimit, limitAt)).Update?
    ensures Called(rows, [], Limiting(target, queue, maxLimit, limitAt), true, id) == rows
  {
    var limits := LimitFields(maxLimit, limitAt);
    UpdateOnly(rows, i, limits);
    hide DistinctIds, LimitFields, FindRow, UpdateById;
    assert rows[i] + limits == rows[i];
    assert Decide(rows, [], Limiting(target, queue, maxLimit, limitAt)) == Update(rows[i], limits);
  }

  lemma LimitedRow(rows: seq<Row>, target: string, queue: string, maxLimit: string, limitAt: Option<string>, id: string)
    returns (i: nat)
    requires DistinctIds(rows) && NoId(rows, id)
    ensures var after := Called(rows, [], Limiting(target, queue, maxLimit, limitAt), true, id);
            && DistinctIds(after) && i < |after| && FindRow(after, "target", target) == Some(after[i])
            && forall k :: k in LimitFields(maxLimit, limitAt) ==>
                  Get(after[i], k) == Some(LimitFields(maxLimit, limitAt)[k])
  {
    var limits := LimitFields(maxLimit, limitAt);
    LimitsApart(maxLimit, limitAt);
    if FindRow(rows, "target", target).Some? {
      i := FoundAt(rows, "target", target);
      UpdateOnly(rows, i, limits);
      hide LimitFields;
      FindsFirst(rows[i := rows[i] + limits], i, "target", target);
    } else {
      i := |rows|;
      NotFoundNowhere(rows, "target", target);
      assert |"name"| == 4 && |"target"| == 6 && |".id"| == 3;
      var row := (map["name" := queue, "target" := target] + limits)[".id" := id];
      hide LimitFields;
      NewIsFirst(rows, row, "target", target);
      NewIdDistinct(rows, row, id);
    }
  }

  lemma NewIdDistinct(rows: seq<Row>, row: Row, id: string)
    requires DistinctIds(rows) && NoId(rows, id) && Get(row, ".id") == Some(id)
    ensures DistinctIds(rows + [row])
  {
  }

  /** Limiting the same client again with the same values is an update, and changes
      nothing, whether the first call made the queue or found it. */
  lemma LimitIsIdempotent(rows: seq<Row>, target: string, queue: string, maxLimit: string, limitAt: Option<string>,
                          id: string, otherId: string)
    requires DistinctIds(rows) && NoId(rows, id)
    ensures var call := Limiting(target, queue, maxLimit, limitAt);
            var after := Called(rows, [], call, true, id);
            Decide(after, [], call).Update? && Called(after, [], call, true, otherId) == after
  {
    var after := Called(rows, [], Limiting(target, queue, maxLimit, limitAt), true, id);
    var i := LimitedRow(rows, target, queue, maxLimit, limitAt, id);
    hide DistinctIds, LimitFields, FindRow, Called, Decide;
    LimitAgain(after, i, target, queue, maxLimit, limitAt, otherId);
  }

  /** A limit that made its queue is undone by removing the queue of that target. */
  lemma LimitThenRemove(rows: seq<Row>, target: string, queue: string, maxLimit: string, limitAt: Option<string>,
                        id: string)
    requires NoId(rows, id) && Decide(rows, [], Limiting(target, queue, maxLimit, limitAt)).Add?
    ensures var after := Called(rows, [], Limiting(target, queue, maxLimit, limitAt), true, id);
            Called(after, [], Removing(PickQueue(None, Some(target))), true, id) == rows
  {
    var limits := LimitFields(maxLimit, limitAt);
    LimitsApart(maxLimit, limitAt);
    NotFoundNowhere(rows, "target", target);
    assert |"name"| == 4 && |"target"| == 6 && |".id"| == 3;
    var row := (map["name" := queue, "target" := target] + limits)[".id" := id];
    hide LimitFields;
    NewIsFirst(rows, row, "target", target);
    RemoveNew(rows, row, id);
  }
}

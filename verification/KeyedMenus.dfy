/** The menus whose rows are known by a key: what the guarded add, remove and limit
    calls decide, and the keys they keep unique. */
module KeyedMenus {
  import opened Formatting
  import opened Device
  import opened Resolution

  // ---- Keys ----

  datatype Kind = Dns | Leases | Netwatch | AddressList | Peers | Queues

  /** `_dns_record_type_of`: an absent or empty type is an address record. */
  function TypeOf(row: Row): string {
    if GetOr(row, "type", "") == "" then "A" else row["type"]
  }

  function Pair(row: Row, a: string, b: string): Option<seq<string>> {
    if a in row && b in row then Some([row[a], row[b]]) else None
  }

  function Single(row: Row, a: string): Option<seq<string>> {
    if a in row then Some([row[a]]) else None
  }

  function KeyOf(kind: Kind, row: Row): Option<seq<string>> {
    match kind
    case Dns => if "name" in row then Some([row["name"], TypeOf(row)]) else None
    case Leases => Single(row, "mac-address")
    case Netwatch => Single(row, "host")
    case AddressList => Pair(row, "list", "address")
    case Peers => Pair(row, "interface", "public-key")
    case Queues => Single(row, "target")
  }

  predicate Unique(kind: Kind, rows: seq<Row>) {
    forall i, j :: 0 <= i < j < |rows| && KeyOf(kind, rows[i]).Some? ==> KeyOf(kind, rows[i]) != KeyOf(kind, rows[j])
  }

  // ---- Calls ----

  /** What an add call asks for, validated. */
  datatype Wanted =
    | WantDns(name: string, cname: bool, value: string, ttl: Option<string>, comment: Option<string>)
    | WantLease(address: string, mac: string, comment: Option<string>, server: Option<string>)
    | WantNetwatch(host: string, interval: Option<string>, comment: Option<string>)
    | WantAddress(list: string, address: string, comment: Option<string>, timeout: Option<string>)
    | WantPeer(interface: string, publicKey: string, allowed: string, endpoint: Option<string>, port: Option<string>,
               keepalive: Option<string>, comment: Option<string>)

  /** How a remove call names its row; None where the argument was absent or empty. */
  datatype Pick =
    | PickDns(name: string, rtype: Option<string>)
    | PickLease(mac: Option<string>, leased: Option<string>)
    | PickNetwatch(host: Option<string>, comment: Option<string>)
    | PickAddress(list: string, address: string)
    | PickPeer(interface: string, publicKey: Option<string>, comment: Option<string>)
    | PickQueue(queue: Option<string>, target: Option<string>)

  datatype Call =
    | Adding(wanted: Wanted)
    | Removing(pick: Pick)
    | Limiting(target: string, queue: string, maxLimit: string, limitAt: Option<string>)

  function KindOf(call: Call): Kind {
    match call
    case Adding(WantDns(_, _, _, _, _)) => Dns
    case Adding(WantLease(_, _, _, _)) => Leases
    case Adding(WantNetwatch(_, _, _)) => Netwatch
    case Adding(WantAddress(_, _, _, _)) => AddressList
    case Adding(WantPeer(_, _, _, _, _, _, _)) => Peers
    case Removing(PickDns(_, _)) => Dns
    case Removing(PickLease(_, _)) => Leases
    case Removing(PickNetwatch(_, _)) => Netwatch
    case Removing(PickAddress(_, _)) => AddressList
    case Removing(PickPeer(_, _, _)) => Peers
    case Removing(PickQueue(_, _)) => Queues
    case Limiting(_, _, _, _) => Queues
  }

  function RecordType(cname: bool): string {
    if cname then "CNAME" else "A"
  }

  function Given(key: string, value: Option<string>): Row {
    if value.Some? && value.value != "" then map[key := value.value] else map[]
  }

  function Present(key: string, value: Option<string>): Row {
    if value.Some? then map[key := value.value] else map[]
  }

  /** The fields of a new row. */
  function Payload(w: Wanted): Row {
    match w
    case WantDns(name, cname, value, ttl, comment) =>
      map["name" := name, "type" := RecordType(cname)] + map[if cname then "cname" else "address" := value]
      + Given("ttl", ttl) + Given("comment", comment)
    case WantLease(address, mac, comment, server) =>
      map["address" := address, "mac-address" := mac] + Given("comment", comment) + Given("server", server)
    case WantNetwatch(host, interval, comment) =>
      map["host" := host] + Given("interval", interval) + Given("comment", comment)
    case WantAddress(list, address, comment, timeout) =>
      map["list" := list, "address" := address] + Given("comment", comment) + Given("timeout", timeout)
    case WantPeer(interface, publicKey, allowed, endpoint, port, keepalive, comment) =>
      map["interface" := interface, "public-key" := publicKey, "allowed-address" := allowed]
      + Present("endpoint-address", endpoint) + Present("endpoint-port", port)
      + Present("persistent-keepalive", keepalive) + Present("comment", comment)
  }

  function LimitFields(maxLimit: string, limitAt: Option<string>): Row {
    map["max-limit" := maxLimit] + Present("limit-at", limitAt)
  }

  /** The rows a duplicate check looks for. */
  function Duplicates(w: Wanted): Row -> bool {
    match w
    case WantDns(name, cname, _, _, _) => row => Has(row, "name", name) && TypeOf(row) == RecordType(cname)
    case WantLease(_, mac, _, _) => row => Has(row, "mac-address", mac)
    case WantNetwatch(host, _, _) => row => Has(row, "host", host)
    case WantAddress(list, address, _, _) => row => Has(row, "list", list) && Has(row, "address", address)
    case WantPeer(interface, publicKey, _, _, _, _, _) =>
      row => Has(row, "interface", interface) && Has(row, "public-key", publicKey)
  }

  // ---- Decisions ----

  /** What a call does to its menu; a preview stops here. */
  datatype Decision =
    | Add(fields: Row)
    | Update(row: Row, fields: Row)
    | Remove(row: Row)
    | Exists
    | NotFound
    | TooMany(count: nat)
    | NothingGiven
    | NoInterface

  function OneOf(found: Resolved): Decision {
    match found
    case Found(row) => Remove(row)
    case Missing => NotFound
    case Ambiguous(count) => TooMany(count)
  }

  function FirstOf(found: Option<Row>): Decision {
    if found.Some? then Remove(found.value) else NotFound
  }

  /** The first row by the first key, else by the second. */
  function FirstBy(rows: seq<Row>, a: string, x: Option<string>, b: string, y: Option<string>): Decision {
    var first := if x.Some? then FindRow(rows, a, x.value) else None;
    if x.None? && y.None? then NothingGiven
    else if first.None? && y.Some? then FirstOf(FindRow(rows, b, y.value))
    else FirstOf(first)
  }

  function OfRecord(name: string, rtype: Option<string>): Row -> bool {
    row => Has(row, "name", name) && (rtype.Some? ==> TypeOf(row) == rtype.value)
  }

  function Both(a: string, x: string, b: string, y: string): Row -> bool {
    row => Has(row, a, x) && Has(row, b, y)
  }

  function Chosen(rows: seq<Row>, pick: Pick): Decision {
    match pick
    case PickDns(name, rtype) => OneOf(Resolve(rows, OfRecord(name, rtype)))
    case PickLease(mac, address) => FirstBy(rows, "mac-address", mac, "address", address)
    case PickNetwatch(host, comment) =>
      var byHost := if host.Some? then Resolve(rows, Holding("host", host.value)) else Missing;
      if host.None? && comment.None? then NothingGiven
      else if byHost.Missing? && comment.Some? then OneOf(Resolve(rows, Holding("comment", comment.value)))
      else OneOf(byHost)
    case PickAddress(list, address) =>
      var matches := Select(rows, Both("list", list, "address", address));
      if matches == [] then NotFound else Remove(matches[0])
    case PickPeer(interface, publicKey, comment) =>
      if publicKey.None? && comment.None? then NothingGiven
      else if publicKey.Some? then
        OneOf(Resolve(rows, Both("interface", interface, "public-key", publicKey.value)))
      else OneOf(Resolve(rows, Both("interface", interface, "comment", comment.value)))
    case PickQueue(name, target) => FirstBy(rows, "name", name, "target", target)
  }

  /** The decision over the menu and, for a peer, the interfaces of the device. */
  function Decide(rows: seq<Row>, interfaces: seq<Row>, call: Call): Decision {
    match call
    case Adding(wanted) =>
      if wanted.WantPeer? && FindRow(interfaces, "name", wanted.interface).None? then NoInterface
      else if Select(rows, Duplicates(wanted)) != [] then Exists
      else Add(Payload(wanted))
    case Removing(pick) => Chosen(rows, pick)
    case Limiting(target, queue, maxLimit, limitAt) =>
      var limits := LimitFields(maxLimit, limitAt);
      var row := FindRow(rows, "target", target);
      if row.Some? then Update(row.value, limits) else Add(map["name" := queue, "target" := target] + limits)
  }

  /** The menu after the decided command takes effect; `id` is what the device gives a
      new row. */
  function Effect(rows: seq<Row>, d: Decision, id: string): seq<Row> {
    match d
    case Add(fields) => AddRow(rows, id, fields)
    case Update(row, fields) => UpdateById(rows, GetOr(row, ".id", ""), fields)
    case Remove(row) => RemoveById(rows, Get(row, ".id"))
    case _ => rows
  }

  /** A call previewed, lost on its way, or carried out. */
  function Called(rows: seq<Row>, interfaces: seq<Row>, call: Call, carriedOut: bool, id: string): seq<Row> {
    if carriedOut then Effect(rows, Decide(rows, interfaces, call), id) else rows
  }

  // ---- The code ----

  /** The one row that fits, to be removed. */
  method ChooseOnly(rows: seq<Row>, p: Row -> bool) returns (d: Decision)
    ensures d == OneOf(Resolve(rows, p))
  {
    var matches := Matching(rows, p);
    if matches == [] {
      return NotFound;
    }
    if |matches| > 1 {
      return TooMany(|matches|);
    }
    d := Remove(matches[0]);
  }

  /** The first row found by either key. */
  method ChooseFirst(rows: seq<Row>, a: string, x: Option<string>, b: string, y: Option<string>) returns (d: Decision)
    ensures d == FirstBy(rows, a, x, b, y)
  {
    if x.None? && y.None? {
      return NothingGiven;
    }
    var row := None;
    if x.Some? {
      row := FindFirst(rows, a, x.value);
    }
    if row.None? && y.Some? {
      row := FindFirst(rows, b, y.value);
    }
    d := if row.Some? then Remove(row.value) else NotFound;
  }

  method ChooseProbe(rows: seq<Row>, host: Option<string>, comment: Option<string>) returns (d: Decision)
    ensures d == Chosen(rows, PickNetwatch(host, comment))
  {
    if host.None? && comment.None? {
      return NothingGiven;
    }
    d := NotFound;
    if host.Some? {
      d := ChooseOnly(rows, Holding("host", host.value));
    }
    if d.NotFound? && comment.Some? {
      d := ChooseOnly(rows, Holding("comment", comment.value));
    }
  }

  method ChoosePeer(rows: seq<Row>, interface: string, publicKey: Option<string>, comment: Option<string>)
    returns (d: Decision)
    ensures d == Chosen(rows, PickPeer(interface, publicKey, comment))
  {
    if publicKey.Some? {
      d := ChooseOnly(rows, Both("interface", interface, "public-key", publicKey.value));
    } else if comment.Some? {
      d := ChooseOnly(rows, Both("interface", interface, "comment", comment.value));
    } else {
      d := NothingGiven;
    }
  }

  /** One menu of the device, changed through guarded calls. */
  class Menu {
    var rows: seq<Row>

    constructor (rows: seq<Row>)
      ensures this.rows == rows
    {
      this.rows := rows;
    }

    /** The guarded add calls. */
    method AddEntry(wanted: Wanted, interfaces: seq<Row>, confirm: bool, id: string) returns (d: Decision)
      modifies this
      ensures d == Decide(old(rows), interfaces, Adding(wanted))
      ensures rows == Called(old(rows), interfaces, Adding(wanted), confirm, id)
    {
      if wanted.WantPeer? {
        var interface := FindFirst(interfaces, "name", wanted.interface);
        if interface.None? {
          return NoInterface;
        }
      }
      var duplicates := Matching(rows, Duplicates(wanted));
      if duplicates != [] {
        return Exists;
      }
      var payload := Payload(wanted);
      if confirm {
        rows := rows + [payload[".id" := id]];
      }
      d := Add(payload);
    }

    /** `set_client_bandwidth`. */
    method LimitBandwidth(target: string, queue: string, maxLimit: string, limitAt: Option<string>, confirm: bool,
                          id: string) returns (d: Decision)
      modifies this
      ensures d == Decide(old(rows), [], Limiting(target, queue, maxLimit, limitAt))
      ensures rows == Called(old(rows), [], Limiting(target, queue, maxLimit, limitAt), confirm, id)
    {
      var row := FindFirst(rows, "target", target);
      var fields := map["max-limit" := maxLimit];
      if row.Some? {
        if limitAt.Some? {
          fields := fields["limit-at" := limitAt.value];
        }
        assert fields == LimitFields(maxLimit, limitAt);
        if confirm {
          var ok;
          rows, ok := UpdateRow(rows, GetOr(row.value, ".id", ""), fields);
        }
        return Update(row.value, fields);
      }
      var payload := map["name" := queue, "target" := target, "max-limit" := maxLimit];
      if limitAt.Some? {
        payload := payload["limit-at" := limitAt.value];
      }
      assert payload == map["name" := queue, "target" := target] + (fields + Present("limit-at", limitAt));
      if confirm {
        rows := rows + [payload[".id" := id]];
      }
      d := Add(payload);
    }

    /** The guarded remove calls. */
    method RemoveEntry(pick: Pick, confirm: bool) returns (d: Decision)
      modifies this
      ensures d == Decide(old(rows), [], Removing(pick))
      ensures rows == Called(old(rows), [], Removing(pick), confirm, "")
    {
      match pick {
        case PickDns(name, rtype) => d := ChooseOnly(rows, OfRecord(name, rtype));
        case PickLease(mac, leased) => d := ChooseFirst(rows, "mac-address", mac, "address", leased);
        case PickNetwatch(host, comment) => d := ChooseProbe(rows, host, comment);
        case PickAddress(list, address) =>
          var matches := Matching(rows, Both("list", list, "address", address));
          d := if matches == [] then NotFound else Remove(matches[0]);
        case PickPeer(interface, publicKey, comment) => d := ChoosePeer(rows, interface, publicKey, comment);
        case PickQueue(queue, target) => d := ChooseFirst(rows, "name", queue, "target", target);
      }
      if d.Remove? && confirm {
        rows := DropId(rows, Get(d.row, ".id"));
      }
    }
  }
}

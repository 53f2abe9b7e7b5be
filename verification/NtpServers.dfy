/** Distributing NTP servers over the fields of either RouterOS generation. */
module NtpServers {
  import opened Text
  import opened Formatting
  import opened Addresses
  import opened Device

  datatype Warning = Disabled | Extra(servers: seq<string>) | NotApplied(slot: string, server: string)

  datatype Plan = Plan(fields: Row, warnings: seq<Warning>) | NoServers | BadAddress | NothingApplies

  const PRIMARY := "primary-ntp"
  const SECONDARY := "secondary-ntp"
  const DNS_NAMES := "server-dns-names"
  const SERVERS := "servers"

  function Slot(i: nat): string {
    if i == 0 then PRIMARY else SECONDARY
  }

  /** `coerce_ros_bool(...) is False`, booleans being text here. */
  predicate IsOff(row: Row) {
    var v := Lower(Strip(GetOr(row, "enabled", "")));
    v == "false" || v == "no"
  }

  predicate IsRos6(row: Row) {
    SERVERS !in row && PRIMARY in row
  }

  function Validated(servers: seq<string>): Option<seq<string>> {
    if servers == [] then Some([])
    else
      var first, rest := ValidAddress(servers[0]), Validated(servers[1..]);
      if first.Some? && rest.Some? then Some([first.value] + rest.value) else None
  }

  // ---- Where a server can end up ----

  /** The first two servers: those with a slot. */
  function Slotted(servers: seq<string>): seq<string> {
    if |servers| > 2 then servers[..2] else servers
  }

  function Hostnames(servers: seq<string>): seq<string> {
    if servers == [] then []
    else (if IsLiteral(servers[0]) then [] else [servers[0]]) + Hostnames(servers[1..])
  }

  function Literals(servers: seq<string>): seq<string> {
    if servers == [] then []
    else (if IsLiteral(servers[0]) then [servers[0]] else []) + Literals(servers[1..])
  }

  function InField(fields: Row, key: string): seq<string> {
    if key in fields then [fields[key]] else []
  }

  function SlotServers(fields: Row): seq<string> {
    InField(fields, PRIMARY) + InField(fields, SECONDARY)
  }

  function DnsServers(fields: Row): seq<string> {
    if DNS_NAMES in fields then Split(fields[DNS_NAMES], ",") else []
  }

  function WarnedBy(w: Warning): seq<string> {
    match w
    case Disabled => []
    case Extra(servers) => servers
    case NotApplied(_, server) => [server]
  }

  function WarnedServers(warnings: seq<Warning>): seq<string> {
    if warnings == [] then [] else WarnedBy(warnings[0]) + WarnedServers(warnings[1..])
  }

  // ---- The two shapes ----

  function NotAppliedFrom(servers: seq<string>, from: nat): seq<Warning> {
    if servers == [] then []
    else (if IsLiteral(servers[0]) then [] else [NotApplied(Slot(from), servers[0])])
         + NotAppliedFrom(servers[1..], from + 1)
  }

  function Opening(before: Row): seq<Warning> {
    if IsOff(before) then [Disabled] else []
  }

  /** Of the first `n` servers, the literal addresses stand in their own slots. */
  predicate SlotsFilled(fields: Row, slots: seq<string>, n: nat) {
    forall i :: 0 <= i < 2 ==>
      Get(fields, Slot(i)) == if i < n <= |slots| && IsLiteral(slots[i]) then Some(slots[i]) else None
  }

  /** What a write to a ROS6 client must be. */
  ghost predicate PlacedRos6(before: Row, servers: seq<string>, fields: Row, warnings: seq<Warning>) {
    var slotted := Slotted(servers);
    && SlotsFilled(fields, slotted, |slotted|)
    && fields.Keys <= {PRIMARY, SECONDARY, DNS_NAMES} && fields != map[]
    && (DNS_NAMES in fields <==> DNS_NAMES in before && Hostnames(slotted) != [])
    && (DNS_NAMES in fields ==> fields[DNS_NAMES] == Join(Hostnames(slotted), ","))
    && warnings == Opening(before) + (if |servers| > 2 then [Extra(servers[2..])] else [])
                   + (if DNS_NAMES in before then [] else NotAppliedFrom(slotted, 0))
  }

  /** What a write to a ROS7 client must be. */
  predicate PlacedRos7(before: Row, servers: seq<string>, fields: Row, warnings: seq<Warning>) {
    fields == map[SERVERS := Join(servers, ",")] && warnings == Opening(before)
  }

  // ---- The code ----

  lemma {:induction false} SlottedStep(servers: seq<string>, i: nat, from: nat)
    requires i < |servers|
    ensures Hostnames(servers[..i + 1]) ==
            Hostnames(servers[..i]) + (if IsLiteral(servers[i]) then [] else [servers[i]])
    ensures NotAppliedFrom(servers[..i + 1], from) ==
            NotAppliedFrom(servers[..i], from)
            + (if IsLiteral(servers[i]) then [] else [NotApplied(Slot(from + i), servers[i])])
  {
    hide IsLiteral;
    if i == 0 {
      assert servers[..1][1..] == [] && servers[..0] == [];
    } else {
      assert servers[..i + 1][1..] == servers[1..][..i] && servers[..i][1..] == servers[1..][..i - 1];
      SlottedStep(servers[1..], i - 1, from + 1);
    }
  }

  lemma {:induction false} LiteralsStep(servers: seq<string>, i: nat)
    requires i < |servers|
    ensures Literals(servers[..i + 1]) == Literals(servers[..i]) + (if IsLiteral(servers[i]) then [servers[i]] else [])
  {
    hide IsLiteral;
    if i == 0 {
      assert servers[..1][1..] == [] && servers[..0] == [];
    } else {
      assert servers[..i + 1][1..] == servers[1..][..i] && servers[..i][1..] == servers[1..][..i - 1];
      LiteralsStep(servers[1..], i - 1);
    }
  }

  lemma FieldsDiffer()
    ensures PRIMARY != SECONDARY && PRIMARY != DNS_NAMES && SECONDARY != DNS_NAMES
  {
    assert |PRIMARY| == 11 && |SECONDARY| == 13 && |DNS_NAMES| == 16;
  }

  lemma FillNext(fields: Row, slots: seq<string>, i: nat)
    requires i < |slots| && i < 2 && SlotsFilled(fields, slots, i)
    ensures SlotsFilled(if IsLiteral(slots[i]) then fields[Slot(i) := slots[i]] else fields, slots, i + 1)
  {
    FieldsDiffer();
    hide IsLiteral;
  }

  lemma FillKeeps(fields: Row, slots: seq<string>, n: nat, names: string)
    requires SlotsFilled(fields, slots, n)
    ensures SlotsFilled(fields[DNS_NAMES := names], slots, n)
  {
    FieldsDiffer();
    hide IsLiteral;
  }

  method Ros6Plan(before: Row, servers: seq<string>, opening: seq<Warning>) returns (plan: Plan)
    requires servers != [] && opening == Opening(before)
    ensures plan.Plan? ==> PlacedRos6(before, servers, plan.fields, plan.warnings)
    ensures plan == NothingApplies || plan.Plan?
    ensures plan.NothingApplies? <==> DNS_NAMES !in before && Literals(Slotted(servers)) == []
  {
    hide IsLiteral, SlotsFilled, Join, Opening;
    var warnings := opening;
    if |servers| > 2 {
      warnings := warnings + [Extra(servers[2..])];
    }
    ghost var early := warnings;
    var slots := Slotted(servers);
    var fields: Row := map[];
    var dnsNames: seq<string> := [];
    NothingFilled(slots);
    for i := 0 to |slots|
      invariant SlotsFilled(fields, slots, i)
      invariant fields.Keys <= {PRIMARY, SECONDARY}
      invariant fields == map[] <==> Literals(slots[..i]) == []
      invariant dnsNames == if DNS_NAMES in before then Hostnames(slots[..i]) else []
      invariant warnings == early + (if DNS_NAMES in before then [] else NotAppliedFrom(slots[..i], 0))
    {
      SlottedStep(slots, i, 0);
      LiteralsStep(slots, i);
      FillNext(fields, slots, i);
      hide Hostnames, Literals, NotAppliedFrom;
      if IsLiteral(slots[i]) {
        fields := fields[Slot(i) := slots[i]];
        assert Slot(i) in fields;
      } else if DNS_NAMES in before {
        dnsNames := dnsNames + [slots[i]];
      } else {
        Associate(early, NotAppliedFrom(slots[..i], 0), [NotApplied(Slot(i), slots[i])]);
        warnings := warnings + [NotApplied(Slot(i), slots[i])];
      }
    }
    assert slots[..|slots|] == slots;
    hide Hostnames, Literals, NotAppliedFrom;
    ghost var filled := fields;
    if dnsNames != [] {
      fields := fields[DNS_NAMES := Join(dnsNames, ",")];
    }
    AllPlaced(before, servers, filled, fields, dnsNames, warnings);
    if fields == map[] {
      return NothingApplies;
    }
    plan := Plan(fields, warnings);
  }

  lemma AllPlaced(before: Row, servers: seq<string>, filled: Row, fields: Row, dnsNames: seq<string>,
                  warnings: seq<Warning>)
    requires servers != []
    requires SlotsFilled(filled, Slotted(servers), |Slotted(servers)|) && filled.Keys <= {PRIMARY, SECONDARY}
    requires filled == map[] <==> Literals(Slotted(servers)) == []
    requires dnsNames == if DNS_NAMES in before then Hostnames(Slotted(servers)) else []
    requires fields == if dnsNames != [] then filled[DNS_NAMES := Join(dnsNames, ",")] else filled
    requires warnings == Opening(before) + (if |servers| > 2 then [Extra(servers[2..])] else [])
                         + (if DNS_NAMES in before then [] else NotAppliedFrom(Slotted(servers), 0))
    ensures fields == map[] <==> DNS_NAMES !in before && Literals(Slotted(servers)) == []
    ensures fields != map[] ==> PlacedRos6(before, servers, fields, warnings)
  {
    EitherKind(Slotted(servers));
    FieldsDiffer();
    FillKeeps(filled, Slotted(servers), |Slotted(servers)|, Join(dnsNames, ","));
    hide SlotsFilled, Hostnames, Literals, NotAppliedFrom, Join, Opening;
    assert dnsNames != [] ==> DNS_NAMES in fields;
  }

  lemma NothingFilled(slots: seq<string>)
    ensures SlotsFilled(map[], slots, 0)
  {
  }

  lemma {:induction false} EitherKind(servers: seq<string>)
    ensures servers != [] ==> Hostnames(servers) != [] || Literals(servers) != []
  {
  }

  /** The client's menu, a single row or none yet. */
  class NtpClient {
    var rows: seq<Row>

    constructor (rows: seq<Row>)
      ensures this.rows == rows
    {
      this.rows := rows;
    }

    /** `set_ntp_servers`. */
    method SetServers(servers: seq<string>, confirm: bool) returns (plan: Plan)
      modifies this
      ensures plan.NoServers? <==> servers == []
      ensures plan.BadAddress? <==> servers != [] && Validated(servers).None?
      ensures plan.Plan? || plan.NothingApplies? ==> Validated(servers).Some? && Validated(servers).value != []
      ensures var before := if old(rows) == [] then map[] else old(rows)[0];
              && (plan.Plan? ==>
                    if IsRos6(before) then PlacedRos6(before, Validated(servers).value, plan.fields, plan.warnings)
                    else PlacedRos7(before, Validated(servers).value, plan.fields, plan.warnings))
              && (plan.NothingApplies? ==>
                    IsRos6(before) && DNS_NAMES !in before && Literals(Slotted(Validated(servers).value)) == [])
              && rows == if plan.Plan? && confirm
                         then [before + plan.fields] + (if old(rows) == [] then [] else old(rows)[1..])
                         else old(rows)
    {
      if servers == [] {
        return NoServers;
      }
      hide IsOff, PlacedRos6, Literals, Slotted;
      var validated := Validated(servers);
      ValidatedCounts(servers);
      if validated.None? {
        return BadAddress;
      }
      var before := if rows == [] then map[] else rows[0];
      var warnings := Opening(before);
      if IsRos6(before) {
        plan := Ros6Plan(before, validated.value, warnings);
      } else {
        plan := Plan(map[SERVERS := Join(validated.value, ",")], warnings);
      }
      if plan.Plan? && confirm {
        rows := [before + plan.fields] + (if rows == [] then [] else rows[1..]);
      }
    }
  }

  lemma {:induction false} ValidatedCounts(servers: seq<string>)
    ensures Validated(servers).Some? ==> |Validated(servers).value| == |servers|
    ensures Validated(servers).Some? ==> NoCommas(Validated(servers).value)
  {
    hide ValidAddress;
    if servers != [] {
      ValidatedCounts(servers[1..]);
      AcceptedHasNoComma(servers[0]);
    }
  }

  // ---- Conservation ----

  predicate NoCommas(servers: seq<string>) {
    forall i :: 0 <= i < |servers| ==> ',' !in servers[i]
  }

  lemma {:induction false} KindsCover(servers: seq<string>)
    ensures multiset(servers) == multiset(Literals(servers)) + multiset(Hostnames(servers))
  {
    if servers != [] {
      KindsCover(servers[1..]);
      assert servers == [servers[0]] + servers[1..];
    }
  }

  lemma {:induction false} HostnamesAreServers(servers: seq<string>)
    requires NoCommas(servers)
    ensures NoCommas(Hostnames(servers))
  {
    if servers != [] {
      assert NoCommas(servers[1..]) by {
        assert forall i :: 0 <= i < |servers| - 1 ==> servers[1..][i] == servers[i + 1];
      }
      HostnamesAreServers(servers[1..]);
    }
  }

  lemma {:induction false} WarnedAppend(a: seq<Warning>, b: seq<Warning>)
    ensures WarnedServers(a + b) == WarnedServers(a) + WarnedServers(b)
  {
    if a == [] {
      assert a + b == b;
    } else {
      assert (a + b)[1..] == a[1..] + b;
      WarnedAppend(a[1..], b);
      Associate(WarnedBy(a[0]), WarnedServers(a[1..]), WarnedServers(b));
    }
  }

  lemma {:induction false} NotAppliedWarn(servers: seq<string>, from: nat)
    ensures WarnedServers(NotAppliedFrom(servers, from)) == Hostnames(servers)
  {
    if servers != [] {
      NotAppliedWarn(servers[1..], from + 1);
      var rest := NotAppliedFrom(servers[1..], from + 1);
      hide IsLiteral;
      if IsLiteral(servers[0]) {
        assert [] + rest == rest && [] + Hostnames(servers[1..]) == Hostnames(servers[1..]);
      } else {
        assert ([NotApplied(Slot(from), servers[0])] + rest)[1..] == rest;
      }
    }
  }

  lemma OneWarning(w: Warning)
    ensures WarnedServers([w]) == WarnedBy(w)
  {
    assert [w][1..] == [] && WarnedBy(w) + [] == WarnedBy(w);
  }

  /** The slots hold exactly the literal addresses among the first two, in order. */
  lemma SlotsHoldLiterals(fields: Row, slots: seq<string>)
    requires |slots| <= 2 && SlotsFilled(fields, slots, |slots|)
    ensures SlotServers(fields) == Literals(slots)
  {
    SlotOf(fields, slots, 0);
    SlotOf(fields, slots, 1);
    LiteralsOfTwo(slots);
    hide IsLiteral, SlotsFilled, Literals, InField;
    assert Slot(0) == PRIMARY && Slot(1) == SECONDARY;
  }

  function IfLiteral(slots: seq<string>, i: nat): seq<string> {
    if i < |slots| && IsLiteral(slots[i]) then [slots[i]] else []
  }

  lemma LiteralsOfTwo(slots: seq<string>)
    requires |slots| <= 2
    ensures Literals(slots) == IfLiteral(slots, 0) + IfLiteral(slots, 1)
  {
    hide IsLiteral;
    if |slots| == 2 {
      var tail := slots[1..];
      assert tail[1..] == [] && tail[0] == slots[1];
      assert Literals(tail) == IfLiteral(slots, 1) + [];
    } else if |slots| == 1 {
      assert slots[1..] == [];
    }
  }

  lemma SlotOf(fields: Row, slots: seq<string>, i: nat)
    requires i < 2 && SlotsFilled(fields, slots, |slots|)
    ensures InField(fields, Slot(i)) == IfLiteral(slots, i)
  {
    hide IsLiteral;
    assert Get(fields, Slot(i)) == if i < |slots| && IsLiteral(slots[i]) then Some(slots[i]) else None;
  }

  function Beyond(servers: seq<string>): seq<string> {
    if |servers| > 2 then servers[2..] else []
  }

  lemma NoWarnings()
    ensures WarnedServers([]) == []
  {
  }

  lemma RosWarnings(before: Row, servers: seq<string>, fields: Row, warnings: seq<Warning>)
    requires PlacedRos6(before, servers, fields, warnings)
    ensures WarnedServers(warnings) == Beyond(servers)
                                       + (if DNS_NAMES in before then [] else Hostnames(Slotted(servers)))
  {
    var extra := if |servers| > 2 then [Extra(servers[2..])] else [];
    var lost := if DNS_NAMES in before then [] else NotAppliedFrom(Slotted(servers), 0);
    WarnedAppend(Opening(before) + extra, lost);
    WarnedAppend(Opening(before), extra);
    OneWarning(Disabled);
    NotAppliedWarn(Slotted(servers), 0);
    hide IsLiteral, SlotsFilled, IsOff, WarnedServers, Hostnames, NotAppliedFrom;
    assert WarnedServers([]) == [] by {
      NoWarnings();
    }
    if |servers| > 2 {
      OneWarning(Extra(servers[2..]));
    }
  }

  /** On ROS6 nothing is lost and nothing doubled: the slot fields, the DNS names and
      the warnings together hold exactly the given servers, each part in the given
      order, and at least one field is written. */
  lemma Ros6Conserves(before: Row, servers: seq<string>, fields: Row, warnings: seq<Warning>)
    requires PlacedRos6(before, servers, fields, warnings) && NoCommas(servers)
    ensures multiset(servers) ==
            multiset(SlotServers(fields)) + multiset(DnsServers(fields)) + multiset(WarnedServers(warnings))
    ensures SlotServers(fields) == Literals(Slotted(servers))
    ensures DnsServers(fields) == if DNS_NAMES in before then Hostnames(Slotted(servers)) else []
    ensures WarnedServers(warnings) ==
            Beyond(servers) + (if DNS_NAMES in before then [] else Hostnames(Slotted(servers)))
    ensures |fields| > 0
  {
    hide PlacedRos6, NoCommas, IsLiteral, Literals, Hostnames, SlotServers, DnsServers, WarnedServers;
    var slotted := Slotted(servers);
    RosWarnings(before, servers, fields, warnings);
    PlacedSlots(before, servers, fields, warnings);
    DnsHoldsHostnames(before, servers, fields, warnings);
    NotEmpty(before, servers, fields, warnings);
    KindsCover(slotted);
    assert servers == slotted + Beyond(servers);
    Sums(slotted, Beyond(servers), Literals(slotted), Hostnames(slotted), DnsServers(fields), WarnedServers(warnings),
         DNS_NAMES in before);
  }

  lemma PlacedSlots(before: Row, servers: seq<string>, fields: Row, warnings: seq<Warning>)
    requires PlacedRos6(before, servers, fields, warnings)
    ensures SlotServers(fields) == Literals(Slotted(servers))
  {
    hide SlotsFilled, SlotServers, Literals;
    SlotsHoldLiterals(fields, Slotted(servers));
  }

  lemma Sums(slotted: seq<string>, beyond: seq<string>, literals: seq<string>, hostnames: seq<string>,
             dns: seq<string>, warned: seq<string>, known: bool)
    requires multiset(slotted) == multiset(literals) + multiset(hostnames)
    requires dns == (if known then hostnames else []) && warned == beyond + (if known then [] else hostnames)
    ensures multiset(slotted + beyond) == multiset(literals) + multiset(dns) + multiset(warned)
  {
  }

  lemma NotEmpty(before: Row, servers: seq<string>, fields: Row, warnings: seq<Warning>)
    requires PlacedRos6(before, servers, fields, warnings)
    ensures |fields| > 0
  {
  }

  lemma DnsHoldsHostnames(before: Row, servers: seq<string>, fields: Row, warnings: seq<Warning>)
    requires PlacedRos6(before, servers, fields, warnings) && NoCommas(servers)
    ensures DnsServers(fields) == if DNS_NAMES in before then Hostnames(Slotted(servers)) else []
  {
    var slotted := Slotted(servers);
    assert NoCommas(slotted);
    HostnamesAreServers(slotted);
    hide SlotsFilled, Hostnames, NotAppliedFrom, Opening, Join, Split;
    if DNS_NAMES in fields {
      SplitJoin(Hostnames(slotted), ",");
    }
  }

  /** On ROS7 splitting the written value gives the validated list back. */
  lemma Ros7RoundTrip(before: Row, servers: seq<string>, given: seq<string>, fields: Row, warnings: seq<Warning>)
    requires Validated(given) == Some(servers) && servers != [] && PlacedRos7(before, servers, fields, warnings)
    ensures SERVERS in fields && Split(fields[SERVERS], ",") == servers
  {
    ValidatedCounts(given);
    SplitJoin(servers, ",");
  }
}

/** pfsense_apply: the PHP calls that make pfSense act on its configuration,
    one per named service, always in the same fixed order. */
module Apply {
  import opened ConfigTree
  import opened Php
  import opened Shell

  /** What a branch checks besides its name. */
  datatype Guard =
    | Always
    | Daemon(section: string) // `cfg[section]['enable']` is true
    | Package                 // the FRR package file exists

  /** A service name, the call it adds and its guard. */
  datatype Service = Service(name: string, code: string, guard: Guard)

  /** The if-chain, in its order. */
  const Table: seq<Service> := [
    Service("interfaces", "interfaces_configure();", Always),
    Service("hostname", "system_hostname_configure();", Always),
    Service("hosts", "system_hosts_generate();", Always),
    Service("resolv", "system_resolvconf_generate();", Always),
    Service("timezone", "system_timezone_configure();", Always),
    Service("ntp", "system_ntp_configure();", Always),
    Service("reload_dns", "send_event('service reload dns');", Always),
    Service("snmp", "services_snmpd_configure();", Always),
    Service("filter", "require_once('filter.inc');filter_configure();clear_subsystem_dirty('filter');", Always),
    Service("hasync", "interfaces_sync_setup();", Always),
    Service("dnsmasq", "services_dnsmasq_configure();", Daemon("dnsmasq")),
    Service("unbound", "services_unbound_configure();", Daemon("unbound")),
    Service("restart_webgui", "system_webgui_start();", Always),
    Service("frr", "include('/usr/local/pkg/frr.inc');frr_generate_config();", Package)
  ]

  /** `services` is untyped: `name in services` needs a string, list or dict
      and raises TypeError on anything else. */
  predicate Iterable(services: Tree)
  {
    services.Str? || services.List? || services.Map?
  }

  /** `name in services`: a substring of a string, an element of a list, a key of a dict. */
  predicate In(services: Tree, name: string)
  {
    match services
    case Str(s) => Substring(name, s)
    case List(xs) => Str(name) in xs
    case Map(m) => name in m
    case _ => false
  }

  /** The branch of `name` is entered: named, or 'all' named. */
  predicate Selected(services: Tree, name: string)
  {
    In(services, name) || In(services, "all")
  }

  /** `cfg[d]['enable']` is there and true; every failure is caught. */
  predicate DaemonEnabled(cfg: Tree, d: string)
  {
    Has(cfg, d) && Has(cfg.fields[d], "enable") && Truthy(cfg.fields[d].fields["enable"])
  }

  /** The guard inside a branch: a DNS daemon needs its section enabled, FRR
      needs its package file (`installed`). */
  predicate Enabled(cfg: Tree, installed: bool, g: Guard)
  {
    match g
    case Always => true
    case Daemon(d) => DaemonEnabled(cfg, d)
    case Package => installed
  }

  /** One block of the chain: `if name in services or DoAll`, then the
      block's own guard (`enabled`), then `configuration += code`. */
  function Block(named: bool, doAll: bool, enabled: bool, code: string): seq<Stmt>
  {
    if (named || doAll) && enabled then [Call(code)] else []
  }

  /** The call the branch `e` contributes. */
  function Step(e: Service, services: Tree, cfg: Tree, installed: bool): seq<Stmt>
  {
    Block(In(services, e.name), In(services, "all"), Enabled(cfg, installed, e.guard), e.code)
  }

  /** The calls of the first `n` branches of the chain `t`, in order. */
  function Chain(t: seq<Service>, n: nat, services: Tree, cfg: Tree, installed: bool): seq<Stmt>
    requires n <= |t|
  {
    if n == 0 then [] else Chain(t, n - 1, services, cfg, installed) + Step(t[n - 1], services, cfg, installed)
  }

  /** The statements of a run. */
  function Plan(services: Tree, cfg: Tree, installed: bool): seq<Stmt>
  {
    Chain(Table, |Table|, services, cfg, installed)
  }

  /** Branches 0 to 4 of the table, written out. */
  lemma Rows0(services: Tree, cfg: Tree, installed: bool)
    ensures Step(Table[0], services, cfg, installed) == Block(In(services, "interfaces"), In(services, "all"), true, "interfaces_configure();")
    ensures Step(Table[1], services, cfg, installed) == Block(In(services, "hostname"), In(services, "all"), true, "system_hostname_configure();")
    ensures Step(Table[2], services, cfg, installed) == Block(In(services, "hosts"), In(services, "all"), true, "system_hosts_generate();")
    ensures Step(Table[3], services, cfg, installed) == Block(In(services, "resolv"), In(services, "all"), true, "system_resolvconf_generate();")
    ensures Step(Table[4], services, cfg, installed) == Block(In(services, "timezone"), In(services, "all"), true, "system_timezone_configure();")
  {
  }

  /** Branches 5 to 9 of the table, written out. */
  lemma Rows1(services: Tree, cfg: Tree, installed: bool)
    ensures Step(Table[5], services, cfg, installed) == Block(In(services, "ntp"), In(services, "all"), true, "system_ntp_configure();")
    ensures Step(Table[6], services, cfg, installed) == Block(In(services, "reload_dns"), In(services, "all"), true, "send_event('service reload dns');")
    ensures Step(Table[7], services, cfg, installed) == Block(In(services, "snmp"), In(services, "all"), true, "services_snmpd_configure();")
    ensures Step(Table[8], services, cfg, installed) == Block(In(services, "filter"), In(services, "all"), true, "require_once('filter.inc');filter_configure();clear_subsystem_dirty('filter');")
    ensures Step(Table[9], services, cfg, installed) == Block(In(services, "hasync"), In(services, "all"), true, "interfaces_sync_setup();")
  {
  }

  /** Branches 10 to 13 of the table, written out. */
  lemma Rows2(services: Tree, cfg: Tree, installed: bool)
    ensures Step(Table[10], services, cfg, installed) == Block(In(services, "dnsmasq"), In(services, "all"), DaemonEnabled(cfg, "dnsmasq"), "services_dnsmasq_configure();")
    ensures Step(Table[11], services, cfg, installed) == Block(In(services, "unbound"), In(services, "all"), DaemonEnabled(cfg, "unbound"), "services_unbound_configure();")
    ensures Step(Table[12], services, cfg, installed) == Block(In(services, "restart_webgui"), In(services, "all"), true, "system_webgui_start();")
    ensures Step(Table[13], services, cfg, installed) == Block(In(services, "frr"), In(services, "all"), installed, "include('/usr/local/pkg/frr.inc');frr_generate_config();")
  {
  }

  /** One more branch of the chain. */
  lemma ChainNext(t: seq<Service>, n: nat, services: Tree, cfg: Tree, installed: bool)
    requires n < |t|
    ensures Chain(t, n + 1, services, cfg, installed) == Chain(t, n, services, cfg, installed) + Step(t[n], services, cfg, installed)
  {
  }

  /** Branches 0 to 4 appended to the chain before them. */
  lemma Part0(services: Tree, cfg: Tree, installed: bool)
    ensures Chain(Table, 5, services, cfg, installed) == []
      + Block(In(services, "interfaces"), In(services, "all"), true, "interfaces_configure();")
      + Block(In(services, "hostname"), In(services, "all"), true, "system_hostname_configure();")
      + Block(In(services, "hosts"), In(services, "all"), true, "system_hosts_generate();")
      + Block(In(services, "resolv"), In(services, "all"), true, "system_resolvconf_generate();")
      + Block(In(services, "timezone"), In(services, "all"), true, "system_timezone_configure();")
  {
    ChainNext(Table, 0, services, cfg, installed);
    ChainNext(Table, 1, services, cfg, installed);
    ChainNext(Table, 2, services, cfg, installed);
    ChainNext(Table, 3, services, cfg, installed);
    ChainNext(Table, 4, services, cfg, installed);
    Rows0(services, cfg, installed);
  }

  /** Branches 5 to 9 appended to the chain before them. */
  lemma Part1(services: Tree, cfg: Tree, installed: bool)
    ensures Chain(Table, 10, services, cfg, installed) == Chain(Table, 5, services, cfg, installed)
      + Block(In(services, "ntp"), In(services, "all"), true, "system_ntp_configure();")
      + Block(In(services, "reload_dns"), In(services, "all"), true, "send_event('service reload dns');")
      + Block(In(services, "snmp"), In(services, "all"), true, "services_snmpd_configure();")
      + Block(In(services, "filter"), In(services, "all"), true, "require_once('filter.inc');filter_configure();clear_subsystem_dirty('filter');")
      + Block(In(services, "hasync"), In(services, "all"), true, "interfaces_sync_setup();")
  {
    ChainNext(Table, 5, services, cfg, installed);
    ChainNext(Table, 6, services, cfg, installed);
    ChainNext(Table, 7, services, cfg, installed);
    ChainNext(Table, 8, services, cfg, installed);
    ChainNext(Table, 9, services, cfg, installed);
    Rows1(services, cfg, installed);
  }

  /** Branches 10 to 13 appended to the chain before them. */
  lemma Part2(services: Tree, cfg: Tree, installed: bool)
    ensures Plan(services, cfg, installed) == Chain(Table, 10, services, cfg, installed)
      + Block(In(services, "dnsmasq"), In(services, "all"), DaemonEnabled(cfg, "dnsmasq"), "services_dnsmasq_configure();")
      + Block(In(services, "unbound"), In(services, "all"), DaemonEnabled(cfg, "unbound"), "services_unbound_configure();")
      + Block(In(services, "restart_webgui"), In(services, "all"), true, "system_webgui_start();")
      + Block(In(services, "frr"), In(services, "all"), installed, "include('/usr/local/pkg/frr.inc');frr_generate_config();")
  {
    ChainNext(Table, 10, services, cfg, installed);
    ChainNext(Table, 11, services, cfg, installed);
    ChainNext(Table, 12, services, cfg, installed);
    ChainNext(Table, 13, services, cfg, installed);
    Rows2(services, cfg, installed);
  }

  /** The plan as the straight-line chain of blocks. */
  lemma Unrolled(services: Tree, cfg: Tree, installed: bool)
    ensures Plan(services, cfg, installed) == []
      + Block(In(services, "interfaces"), In(services, "all"), true, "interfaces_configure();")
      + Block(In(services, "hostname"), In(services, "all"), true, "system_hostname_configure();")
      + Block(In(services, "hosts"), In(services, "all"), true, "system_hosts_generate();")
      + Block(In(services, "resolv"), In(services, "all"), true, "system_resolvconf_generate();")
      + Block(In(services, "timezone"), In(services, "all"), true, "system_timezone_configure();")
      + Block(In(services, "ntp"), In(services, "all"), true, "system_ntp_configure();")
      + Block(In(services, "reload_dns"), In(services, "all"), true, "send_event('service reload dns');")
      + Block(In(services, "snmp"), In(services, "all"), true, "services_snmpd_configure();")
      + Block(In(services, "filter"), In(services, "all"), true, "require_once('filter.inc');filter_configure();clear_subsystem_dirty('filter');")
      + Block(In(services, "hasync"), In(services, "all"), true, "interfaces_sync_setup();")
      + Block(In(services, "dnsmasq"), In(services, "all"), DaemonEnabled(cfg, "dnsmasq"), "services_dnsmasq_configure();")
      + Block(In(services, "unbound"), In(services, "all"), DaemonEnabled(cfg, "unbound"), "services_unbound_configure();")
      + Block(In(services, "restart_webgui"), In(services, "all"), true, "system_webgui_start();")
      + Block(In(services, "frr"), In(services, "all"), installed, "include('/usr/local/pkg/frr.inc');frr_generate_config();")
  {
    Part0(services, cfg, installed);
    Part1(services, cfg, installed);
    Part2(services, cfg, installed);
  }

  /** One block as the module runs it. */
  method Emit(stmts: seq<Stmt>, named: bool, doAll: bool, enabled: bool, code: string) returns (r: seq<Stmt>)
    ensures r == stmts + Block(named, doAll, enabled, code)
  {
    r := stmts;
    if named || doAll {
      if enabled {
        r := r + [Call(code)];
      }
    }
  }

  /** The configuration text the chain builds. */
  method Configure(services: Tree, cfg: Tree, installed: bool) returns (stmts: seq<Stmt>)
    ensures stmts == Plan(services, cfg, installed)
  {
    var doAll := In(services, "all");
    stmts := [];
    stmts := Emit(stmts, In(services, "interfaces"), doAll, true, "interfaces_configure();");
    stmts := Emit(stmts, In(services, "hostname"), doAll, true, "system_hostname_configure();");
    stmts := Emit(stmts, In(services, "hosts"), doAll, true, "system_hosts_generate();");
    stmts := Emit(stmts, In(services, "resolv"), doAll, true, "system_resolvconf_generate();");
    stmts := Emit(stmts, In(services, "timezone"), doAll, true, "system_timezone_configure();");
    stmts := Emit(stmts, In(services, "ntp"), doAll, true, "system_ntp_configure();");
    stmts := Emit(stmts, In(services, "reload_dns"), doAll, true, "send_event('service reload dns');");
    stmts := Emit(stmts, In(services, "snmp"), doAll, true, "services_snmpd_configure();");
    stmts := Emit(stmts, In(services, "filter"), doAll, true, "require_once('filter.inc');filter_configure();clear_subsystem_dirty('filter');");
    stmts := Emit(stmts, In(services, "hasync"), doAll, true, "interfaces_sync_setup();");
    stmts := Emit(stmts, In(services, "dnsmasq"), doAll, DaemonEnabled(cfg, "dnsmasq"), "services_dnsmasq_configure();");
    stmts := Emit(stmts, In(services, "unbound"), doAll, DaemonEnabled(cfg, "unbound"), "services_unbound_configure();");
    stmts := Emit(stmts, In(services, "restart_webgui"), doAll, true, "system_webgui_start();");
    stmts := Emit(stmts, In(services, "frr"), doAll, installed, "include('/usr/local/pkg/frr.inc');frr_generate_config();");
    Unrolled(services, cfg, installed);
  }

  /** The module run; `cfg` is the whole configuration and `installed` is
      whether `/usr/local/pkg/frr.inc` exists. */
  method Run(services: Tree, cfg: Tree, installed: bool, checkMode: bool) returns (o: Outcome)
    requires Iterable(services)
    ensures o == Commit(checkMode, Plan(services, cfg, installed), Shared(""))
  {
    var stmts := Configure(services, cfg, installed);
    return Commit(checkMode, stmts, Shared(""));
  }

  // ------------------------------------------------------------------ properties

  /** The indices of the branches of `t` a run enters and passes, in order. */
  function Taken(t: seq<Service>, n: nat, services: Tree, cfg: Tree, installed: bool): (ks: seq<nat>)
    requires n <= |t|
    ensures forall i :: 0 <= i < |ks| ==> ks[i] < n
  {
    if n == 0 then []
    else
      var e := t[n - 1];
      Taken(t, n - 1, services, cfg, installed) + (if Selected(services, e.name) && Enabled(cfg, installed, e.guard) then [n - 1] else [])
  }

  /** The calls of the given branches of `t`, in the given order. */
  function Calls(t: seq<Service>, ks: seq<nat>): seq<Stmt>
    requires forall i :: 0 <= i < |ks| ==> ks[i] < |t|
  {
    seq(|ks|, i requires 0 <= i < |ks| => Call(t[ks[i]].code))
  }

  /** A branch is taken exactly when it is entered and its guard holds. */
  lemma {:induction false} TakenMeaning(t: seq<Service>, n: nat, services: Tree, cfg: Tree, installed: bool, k: nat)
    requires n <= |t|
    ensures k in Taken(t, n, services, cfg, installed) <==>
      k < n && Selected(services, t[k].name) && Enabled(cfg, installed, t[k].guard)
  {
    if n > 0 {
      TakenMeaning(t, n - 1, services, cfg, installed, k);
    }
  }

  /** Taken branches come in chain order, each at most once. */
  lemma {:induction false} TakenAscending(t: seq<Service>, n: nat, services: Tree, cfg: Tree, installed: bool)
    requires n <= |t|
    ensures forall i, j :: 0 <= i < j < |Taken(t, n, services, cfg, installed)| ==>
      Taken(t, n, services, cfg, installed)[i] < Taken(t, n, services, cfg, installed)[j]
  {
    if n > 0 {
      TakenAscending(t, n - 1, services, cfg, installed);
    }
  }

  /** Appending a branch appends its call. */
  lemma CallsSnoc(t: seq<Service>, ks: seq<nat>, k: nat)
    requires forall i :: 0 <= i < |ks| ==> ks[i] < |t|
    requires k < |t|
    ensures Calls(t, ks + [k]) == Calls(t, ks) + [Call(t[k].code)]
  {
  }

  /** The chain emits the calls of the taken branches. */
  lemma {:induction false} ChainIsCalls(t: seq<Service>, n: nat, services: Tree, cfg: Tree, installed: bool)
    requires n <= |t|
    ensures Chain(t, n, services, cfg, installed) == Calls(t, Taken(t, n, services, cfg, installed))
  {
    if n > 0 {
      ChainIsCalls(t, n - 1, services, cfg, installed);
      var ks := Taken(t, n - 1, services, cfg, installed);
      var e := t[n - 1];
      assert Chain(t, n, services, cfg, installed) == Chain(t, n - 1, services, cfg, installed) + Step(e, services, cfg, installed);
      if Selected(services, e.name) && Enabled(cfg, installed, e.guard) {
        assert Step(e, services, cfg, installed) == [Call(e.code)];
        assert Taken(t, n, services, cfg, installed) == ks + [n - 1];
        CallsSnoc(t, ks, n - 1);
      } else {
        assert Step(e, services, cfg, installed) == [];
        assert Taken(t, n, services, cfg, installed) == ks;
      }
    }
  }

  /** The chain depends on `services` only through which branches it enters. */
  lemma {:induction false} SameSelectionSameChain(t: seq<Service>, n: nat, s1: Tree, s2: Tree, cfg: Tree, installed: bool)
    requires n <= |t|
    requires forall k :: 0 <= k < |t| ==> (Selected(s1, t[k].name) <==> Selected(s2, t[k].name))
    ensures Chain(t, n, s1, cfg, installed) == Chain(t, n, s2, cfg, installed)
  {
    if n > 0 {
      SameSelectionSameChain(t, n - 1, s1, s2, cfg, installed);
      assert Selected(s1, t[n - 1].name) <==> Selected(s2, t[n - 1].name);
    }
  }

  /** A run emits one call per taken branch, in the order of the chain, and
      nothing else. */
  lemma PlanFollowsTable(services: Tree, cfg: Tree, installed: bool)
    ensures Plan(services, cfg, installed) == Calls(Table, Taken(Table, |Table|, services, cfg, installed))
    ensures forall i, j :: 0 <= i < j < |Taken(Table, |Table|, services, cfg, installed)| ==>
      Taken(Table, |Table|, services, cfg, installed)[i] < Taken(Table, |Table|, services, cfg, installed)[j]
  {
    ChainIsCalls(Table, |Table|, services, cfg, installed);
    TakenAscending(Table, |Table|, services, cfg, installed);
  }

  /** No two branches add the same call. */
  lemma CodesDistinct()
    ensures forall i, j :: 0 <= i < j < |Table| ==> Table[i].code != Table[j].code
  {
  }

  /** The call of branch `k` is in the statements exactly when the branch is
      entered and its guard holds. */
  lemma CallEmittedIff(services: Tree, cfg: Tree, installed: bool, k: nat)
    requires k < |Table|
    ensures Call(Table[k].code) in Plan(services, cfg, installed) <==>
      Selected(services, Table[k].name) && Enabled(cfg, installed, Table[k].guard)
  {
    PlanFollowsTable(services, cfg, installed);
    CodesDistinct();
    var ks := Taken(Table, |Table|, services, cfg, installed);
    TakenMeaning(Table, |Table|, services, cfg, installed, k);
    if Call(Table[k].code) in Plan(services, cfg, installed) {
      var i :| 0 <= i < |ks| && Calls(Table, ks)[i] == Call(Table[k].code);
      assert Table[ks[i]].code == Table[k].code;
      assert ks[i] == k;
    }
    if k in ks {
      var i :| 0 <= i < |ks| && ks[i] == k;
      assert Calls(Table, ks)[i] == Call(Table[k].code);
    }
  }

  /** Naming 'all' enters every branch: the statements are those of
      `['all']`, whatever else is named. */
  lemma AllEntersEveryBranch(services: Tree, cfg: Tree, installed: bool)
    requires In(services, "all")
    ensures Plan(services, cfg, installed) == Plan(List([Str("all")]), cfg, installed)
    ensures forall k :: 0 <= k < |Table| ==>
      (Call(Table[k].code) in Plan(services, cfg, installed) <==> Enabled(cfg, installed, Table[k].guard))
  {
    assert In(List([Str("all")]), "all");
    SameSelectionSameChain(Table, |Table|, services, List([Str("all")]), cfg, installed);
    forall k | 0 <= k < |Table|
      ensures Call(Table[k].code) in Plan(services, cfg, installed) <==> Enabled(cfg, installed, Table[k].guard)
    {
      CallEmittedIff(services, cfg, installed, k);
    }
  }

  /** The order of a services list, and repeats in it, do not matter. */
  lemma ListOrderIrrelevant(xs: seq<Tree>, ys: seq<Tree>, cfg: Tree, installed: bool)
    requires forall x :: x in xs <==> x in ys
    ensures Plan(List(xs), cfg, installed) == Plan(List(ys), cfg, installed)
  {
    SameSelectionSameChain(Table, |Table|, List(xs), List(ys), cfg, installed);
  }

  /** A name that is not a service contributes nothing. */
  lemma UnknownNameIgnored(xs: seq<Tree>, name: string, cfg: Tree, installed: bool)
    requires name != "all"
    requires forall k :: 0 <= k < |Table| ==> Table[k].name != name
    ensures Plan(List(xs + [Str(name)]), cfg, installed) == Plan(List(xs), cfg, installed)
  {
    forall k | 0 <= k < |Table|
      ensures Selected(List(xs + [Str(name)]), Table[k].name) <==> Selected(List(xs), Table[k].name)
    {
      assert Str(Table[k].name) in xs + [Str(name)] <==> Str(Table[k].name) in xs;
    }
    SameSelectionSameChain(Table, |Table|, List(xs + [Str(name)]), List(xs), cfg, installed);
  }

  /** dnsmasq and unbound are reconfigured only when their section is
      enabled; a missing section is skipped, not an error. */
  lemma DaemonNeedsEnabledSection(services: Tree, cfg: Tree, installed: bool)
    ensures Call(Table[10].code) in Plan(services, cfg, installed) <==>
      Selected(services, "dnsmasq") && DaemonEnabled(cfg, "dnsmasq")
    ensures Call(Table[11].code) in Plan(services, cfg, installed) <==>
      Selected(services, "unbound") && DaemonEnabled(cfg, "unbound")
    ensures !Has(cfg, "dnsmasq") ==> Call(Table[10].code) !in Plan(services, cfg, installed)
  {
    CallEmittedIff(services, cfg, installed, 10);
    CallEmittedIff(services, cfg, installed, 11);
  }

  /** FRR is regenerated only when its package is installed. */
  lemma FrrNeedsPackage(services: Tree, cfg: Tree, installed: bool)
    ensures Call(Table[13].code) in Plan(services, cfg, installed) <==> Selected(services, "frr") && installed
  {
    CallEmittedIff(services, cfg, installed, 13);
  }

  /** Naming nothing known sends nothing and reports no change. */
  lemma NothingNamedNoChange(cfg: Tree, installed: bool, checkMode: bool)
    ensures Plan(List([]), cfg, installed) == []
    ensures !Commit(checkMode, Plan(List([]), cfg, installed), Shared("")).changed
  {
    var ks := Taken(Table, |Table|, List([]), cfg, installed);
    ChainIsCalls(Table, |Table|, List([]), cfg, installed);
    if ks != [] {
      TakenMeaning(Table, |Table|, List([]), cfg, installed, ks[0]);
      assert false;
    }
  }
}

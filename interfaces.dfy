/** pfsense_interfaces: the addresses, description and enable flag of one entry
    of `$config['interfaces']`, and optionally the gateway it uses, rewritten as
    a whole entry of `$config['gateways']['gateway_item']`. */
module Interfaces {
  import opened ConfigTree
  import opened Php
  import opened Shell
  import opened Records

  /** The interface fields, in the module's order. */
  const Names: seq<string> := ["ipaddr", "subnet", "descr"]

  /** `base['p']='v';`; the interface loop validates a field only when it is
      about to set it (Changes), not before comparing. */
  const IfStyle := Style("interface", false, true, CountsAsDiffering)

  /** The gateway parameters and the record keys they are compared with. */
  const GatewayKeys: seq<(string, string)> :=
    [("name", "interface"), ("gateway", "gateway"), ("gateway_name", "name"), ("gateway_weight", "weight")]

  /** `$config['interfaces'][name]` */
  function Base(name: string): Ref
  {
    Ref("config", [Key("interfaces"), Key(name)])
  }

  /** `$config['gateways']['gateway_item'][index]` */
  function GatewayBase(index: Index): Ref
  {
    Ref("config", [Key("gateways"), Key("gateway_item"), Idx(index)])
  }

  /** The interface fields; a parameter counts only when it is a non-empty string. */
  function Truthful(args: Args, names: seq<string>): (fs: Fields)
    ensures |fs| == |names|
    ensures forall i :: 0 <= i < |names| ==>
      fs[i] == (names[i], if ArgTruthy(args, names[i]) then Arg(args, names[i]) else None)
  {
    if names == [] then []
    else [(names[0], if ArgTruthy(args, names[0]) then Arg(args, names[0]) else None)] + Truthful(args, names[1..])
  }

  /** The enable flag: added when asked for and missing, removed when not asked
      for and there (`'enable' in entry`, which for a string entry is a
      substring test). */
  function EnableStep(args: Args, rec: Tree, name: string): (ss: seq<Stmt>)
    ensures ss == [] <==> (ArgTruthy(args, "enable") <==> Contains(rec, "enable"))
  {
    if ArgTruthy(args, "enable") && !Contains(rec, "enable") then [Assign(Base(name).Field("enable"), false, Quoted(""))]
    else if !ArgTruthy(args, "enable") && Contains(rec, "enable") then [Unset(Base(name).Field("enable"))]
    else []
  }

  /** The interface field loop: a given field that is missing from the entry or
      differs from it is validated and then set; a field that already holds
      its value is not validated. */
  function Changes(rec: Tree, name: string, fs: Fields, valid: Validator): Result<seq<Stmt>>
    decreases |fs|
  {
    if fs == [] then Ok([])
    else if fs[0].1.None? || Same(rec, fs[0].0, fs[0].1.value) then Changes(rec, name, fs[1..], valid)
    else if !valid(fs[0].0, Str(fs[0].1.value)) then Err(Invalid(fs[0].0))
    else Prefixed([SetField(IfStyle, Base(name), fs[0].0, fs[0].1.value)], Changes(rec, name, fs[1..], valid))
  }

  /** Every given field that differs from the entry passes validate. */
  predicate ChangesAccepted(rec: Tree, fs: Fields, valid: Validator)
  {
    forall i :: 0 <= i < |fs| && fs[i].1.Some? && !Same(rec, fs[i].0, fs[i].1.value) ==> valid(fs[i].0, Str(fs[i].1.value))
  }

  /** The gateway lookup by name. */
  function Locate(gateways: Tree, args: Args): Lookup
    requires Has(gateways, "gateway_item")
  {
    Search(gateways.fields["gateway_item"], "name", ArgTree(args, "gateway_name"))
  }

  /** The uncaught reads and concatenations: the interface entry supports `in`
      (a dict, a list or a string), and `entry[p]` is read only on a dict;
      with a gateway, the gateway list is there, its search does not raise and
      the gateway name and weight are strings. */
  predicate Readable(args: Args, cfg: Tree, gateways: Tree)
  {
    Arg(args, "name").Some? &&
    (Has(cfg, Arg(args, "name").value) ==>
      var rec := cfg.fields[Arg(args, "name").value];
      Container(rec) &&
      forall i :: 0 <= i < |Names| && ArgTruthy(args, Names[i]) && Contains(rec, Names[i]) ==> rec.Map?) &&
    (ArgTruthy(args, "gateway") ==>
      Has(gateways, "gateway_item") && Locate(gateways, args).Done? &&
      Arg(args, "gateway_name").Some? && Arg(args, "gateway_weight").Some?)
  }

  /** A gateway parameter differs from the record: the key is missing or its value differs. */
  predicate Differs(rec: Tree, key: string, v: Tree)
  {
    !Has(rec, key) || rec.fields[key] != v
  }

  /** `diff or r`, carrying a failure through. */
  function Or(diff: bool, r: Result<bool>): (t: Result<bool>)
    ensures r.Err? ==> t == r
    ensures r.Ok? ==> t == Ok(diff || r.value)
  {
    match r
    case Err(e) => Err(e)
    case Ok(d) => Ok(diff || d)
  }

  /** The loop over the gateway parameters: every one is validated, and the
      gateway differs when any of them differs. */
  function GatewayCheck(ps: seq<(string, string)>, args: Args, rec: Tree, valid: Validator): Result<bool>
    decreases |ps|
  {
    if ps == [] then Ok(false)
    else if !valid(ps[0].0, ArgTree(args, ps[0].0)) then Err(Invalid(ps[0].0))
    else Or(Differs(rec, ps[0].1, ArgTree(args, ps[0].0)), GatewayCheck(ps[1..], args, rec, valid))
  }

  /** Which gateway entry to write: none, the sentinel (append a new one), or
      the found one when it differs. */
  function GatewayTarget(args: Args, gateways: Tree, valid: Validator): (r: Result<Option<Index>>)
    requires ArgTruthy(args, "gateway") ==> Has(gateways, "gateway_item") && Locate(gateways, args).Done?
    ensures r.Ok? && r.value.Some? ==>
      ArgTruthy(args, "gateway") && r.value.value == Locate(gateways, args).index
  {
    if !ArgTruthy(args, "gateway") then Ok(None)
    else
      var index := Locate(gateways, args).index;
      if index.Blank? then Ok(Some(Blank))
      else
        match GatewayCheck(GatewayKeys, args, gateways.fields["gateway_item"].items[index.k], valid)
        case Err(e) => Err(e)
        case Ok(d) => Ok(if d then Some(index) else None)
  }

  /** The interface's gateway name and the whole gateway entry. */
  function GatewayStmts(args: Args, index: Index): seq<Stmt>
    requires Arg(args, "name").Some? && Arg(args, "gateway").Some?
    requires Arg(args, "gateway_name").Some? && Arg(args, "gateway_weight").Some?
  {
    var name := Arg(args, "name").value;
    [Assign(Base(name).Field("gateway"), false, Quoted(Arg(args, "gateway_name").value)),
     Record(GatewayBase(index), [("interface", name), ("gateway", Arg(args, "gateway").value),
                                 ("name", Arg(args, "gateway_name").value), ("weight", Arg(args, "gateway_weight").value)])]
  }

  /** The statements of a run: the interface fields, the enable flag and the gateway. */
  function Plan(args: Args, cfg: Tree, gateways: Tree, valid: Validator): Result<seq<Stmt>>
    requires Readable(args, cfg, gateways)
  {
    var name := Arg(args, "name").value;
    if !Has(cfg, name) then Err(InterfaceNotFound(name))
    else
      var rec := cfg.fields[name];
      match Changes(rec, name, Truthful(args, Names), valid)
      case Err(e) => Err(e)
      case Ok(fields) =>
        match GatewayTarget(args, gateways, valid)
        case Err(e) => Err(e)
        case Ok(target) =>
          Ok(fields + EnableStep(args, rec, name) + (if target.Some? then GatewayStmts(args, target.value) else []))
  }

  /** The statements as written: a found gateway's position is an integer that
      the gateway entry's text concatenates to a string, which raises. */
  function PlanAsWritten(args: Args, cfg: Tree, gateways: Tree, valid: Validator): Result<seq<Stmt>>
    requires Readable(args, cfg, gateways)
  {
    var name := Arg(args, "name").value;
    if Has(cfg, name) && Changes(cfg.fields[name], name, Truthful(args, Names), valid).Ok? &&
       GatewayTarget(args, gateways, valid).Ok? && GatewayTarget(args, gateways, valid).value.Some? &&
       GatewayTarget(args, gateways, valid).value.value.At?
    then Err(Raises("TypeError"))
    else Plan(args, cfg, gateways, valid)
  }

  /** The interface field loop as the module writes it. */
  method ReconcileInterface(rec: Tree, name: string, fs: Fields, valid: Validator) returns (r: Result<seq<Stmt>>)
    ensures r == Changes(rec, name, fs, valid)
  {
    var stmts: seq<Stmt> := [];
    var i := 0;
    assert fs[i..] == fs;
    while i < |fs|
      invariant 0 <= i <= |fs|
      invariant Changes(rec, name, fs, valid) == Prefixed(stmts, Changes(rec, name, fs[i..], valid))
    {
      assert fs[i..][0] == fs[i] && fs[i..][1..] == fs[i + 1..];
      var delta: seq<Stmt> := [];
      if fs[i].1.Some? && !Same(rec, fs[i].0, fs[i].1.value) {
        var p := fs[i].0;
        var v := fs[i].1.value;
        if !valid(p, Str(v)) {
          return Err(Invalid(p));
        }
        delta := [SetField(IfStyle, Base(name), p, v)];
      }
      assert Changes(rec, name, fs[i..], valid) == Prefixed(delta, Changes(rec, name, fs[i + 1..], valid));
      PrefixedPrefixed(stmts, delta, Changes(rec, name, fs[i + 1..], valid));
      stmts := stmts + delta;
      i := i + 1;
    }
    assert fs[i..] == [] && stmts + [] == stmts;
    return Ok(stmts);
  }

  /** The gateway parameter loop as the module writes it. */
  method CheckGateway(args: Args, rec: Tree, valid: Validator) returns (r: Result<bool>)
    ensures r == GatewayCheck(GatewayKeys, args, rec, valid)
  {
    var ps := GatewayKeys;
    var diff := false;
    var i := 0;
    assert ps[i..] == ps;
    while i < |ps|
      invariant 0 <= i <= |ps|
      invariant GatewayCheck(ps, args, rec, valid) == Or(diff, GatewayCheck(ps[i..], args, rec, valid))
    {
      assert ps[i..][0] == ps[i] && ps[i..][1..] == ps[i + 1..];
      var p := ps[i].0;
      var key := ps[i].1;
      if !valid(p, ArgTree(args, p)) {
        return Err(Invalid(p));
      }
      if Differs(rec, key, ArgTree(args, p)) {
        diff := true;
      }
      i := i + 1;
    }
    assert ps[i..] == [];
    return Ok(diff);
  }

  /** The module run; `gateways` is the gateways section, read only with a gateway. */
  method Run(args: Args, cfg: Tree, gateways: Tree, valid: Validator, checkMode: bool) returns (r: Result<Outcome>)
    requires Readable(args, cfg, gateways)
    ensures r == Report(Plan(args, cfg, gateways, valid), checkMode, Shared(""))
  {
    var name := Arg(args, "name").value;
    if !Has(cfg, name) {
      return Err(InterfaceNotFound(name));
    }
    var rec := cfg.fields[name];
    var fields := ReconcileInterface(rec, name, Truthful(args, Names), valid);
    if fields.Err? {
      return Err(fields.error);
    }
    var stmts := fields.value + EnableStep(args, rec, name);
    var target: Option<Index> := None;
    if ArgTruthy(args, "gateway") {
      var index := Locate(gateways, args).index;
      if index.Blank? {
        target := Some(Blank);
      } else {
        var diff := CheckGateway(args, gateways.fields["gateway_item"].items[index.k], valid);
        if diff.Err? {
          return Err(diff.error);
        }
        if diff.value {
          target := Some(index);
        }
      }
    }
    if target.Some? {
      stmts := stmts + GatewayStmts(args, target.value);
    } else {
      assert stmts == fields.value + EnableStep(args, rec, name) + [];
    }
    return Ok(Commit(checkMode, stmts, Shared("")));
  }

  // ------------------------------------------------------------------ properties

  /** The gateway parameters pass exactly when validate accepts each of them,
      and then the gateway differs exactly when one of them differs. */
  lemma {:induction false} GatewayCheckMeaning(ps: seq<(string, string)>, args: Args, rec: Tree, valid: Validator)
    ensures GatewayCheck(ps, args, rec, valid).Ok? <==> forall i :: 0 <= i < |ps| ==> valid(ps[i].0, ArgTree(args, ps[i].0))
    ensures GatewayCheck(ps, args, rec, valid).Ok? ==>
      (GatewayCheck(ps, args, rec, valid).value <==> exists i :: 0 <= i < |ps| && Differs(rec, ps[i].1, ArgTree(args, ps[i].0)))
    decreases |ps|
  {
    if ps != [] {
      GatewayCheckMeaning(ps[1..], args, rec, valid);
      assert forall i :: 1 <= i < |ps| ==> ps[i] == ps[1..][i - 1];
    }
  }

  /** The field loop fails exactly when validate refuses a field it is about
      to set, and then with the first such field; otherwise it sets exactly the
      given fields that differ, in order. A field that already holds its value
      is never validated. */
  lemma {:induction false} ChangesMeaning(rec: Tree, name: string, fs: Fields, valid: Validator)
    ensures Changes(rec, name, fs, valid).Ok? <==> ChangesAccepted(rec, fs, valid)
    ensures Changes(rec, name, fs, valid).Ok? ==>
      Changes(rec, name, fs, valid).value == Differing(IfStyle, rec, Base(name), fs)
    ensures Changes(rec, name, fs, valid).Err? ==>
      exists i :: 0 <= i < |fs| && fs[i].1.Some? && !Same(rec, fs[i].0, fs[i].1.value) &&
        !valid(fs[i].0, Str(fs[i].1.value)) && Changes(rec, name, fs, valid) == Err(Invalid(fs[i].0)) &&
        ChangesAccepted(rec, fs[..i], valid)
    decreases |fs|
  {
    if fs != [] {
      ChangesMeaning(rec, name, fs[1..], valid);
      assert forall i :: 1 <= i < |fs| ==> fs[i] == fs[1..][i - 1];
      var r := Changes(rec, name, fs, valid);
      if r.Err? {
        if fs[0].1.Some? && !Same(rec, fs[0].0, fs[0].1.value) && !valid(fs[0].0, Str(fs[0].1.value)) {
          assert fs[..0] == [];
        } else {
          var i :| 0 <= i < |fs[1..]| && fs[1..][i].1.Some? && !Same(rec, fs[1..][i].0, fs[1..][i].1.value) &&
            !valid(fs[1..][i].0, Str(fs[1..][i].1.value)) &&
            Changes(rec, name, fs[1..], valid) == Err(Invalid(fs[1..][i].0)) &&
            ChangesAccepted(rec, fs[1..][..i], valid);
          assert fs[..i + 1][1..] == fs[1..][..i];
          assert fs[1..][i] == fs[i + 1];
        }
      }
    }
  }

  /** A missing interface is the error, before anything else. */
  lemma UnknownInterfaceFails(args: Args, cfg: Tree, gateways: Tree, valid: Validator)
    requires Readable(args, cfg, gateways) && !Has(cfg, Arg(args, "name").value)
    ensures Plan(args, cfg, gateways, valid) == Err(InterfaceNotFound(Arg(args, "name").value))
  {
  }

  /** An existing interface: exactly the non-empty field parameters that
      differ are set, the enable flag follows the parameter, and without a
      gateway nothing else is written. */
  lemma ExistingInterfaceSetsDiffering(args: Args, cfg: Tree, gateways: Tree, valid: Validator)
    requires Readable(args, cfg, gateways) && Has(cfg, Arg(args, "name").value)
    requires !ArgTruthy(args, "gateway")
    requires ChangesAccepted(cfg.fields[Arg(args, "name").value], Truthful(args, Names), valid)
    ensures var name := Arg(args, "name").value;
      var rec := cfg.fields[name];
      Plan(args, cfg, gateways, valid) ==
        Ok(Differing(IfStyle, rec, Base(name), Truthful(args, Names)) + EnableStep(args, rec, name))
  {
    var name := Arg(args, "name").value;
    var rec := cfg.fields[name];
    ChangesMeaning(rec, name, Truthful(args, Names), valid);
    var ss := Differing(IfStyle, rec, Base(name), Truthful(args, Names)) + EnableStep(args, rec, name);
    assert ss + [] == ss;
  }

  /** An interface that already holds every non-empty field parameter, whose
      enable flag agrees, and that names no gateway, needs no statement, whatever
      validate would say of those values. */
  lemma InSyncInterfaceIsQuiet(args: Args, cfg: Tree, gateways: Tree, valid: Validator)
    requires Readable(args, cfg, gateways) && Has(cfg, Arg(args, "name").value)
    requires !ArgTruthy(args, "gateway")
    requires var rec := cfg.fields[Arg(args, "name").value];
      (ArgTruthy(args, "enable") <==> Contains(rec, "enable")) &&
      forall i :: 0 <= i < |Names| && ArgTruthy(args, Names[i]) ==> Same(rec, Names[i], Arg(args, Names[i]).value)
    ensures Plan(args, cfg, gateways, valid) == Ok([])
  {
    var name := Arg(args, "name").value;
    var rec := cfg.fields[name];
    var fs := Truthful(args, Names);
    assert forall i :: 0 <= i < |fs| && fs[i].1.Some? ==> Same(rec, fs[i].0, fs[i].1.value);
    assert ChangesAccepted(rec, fs, valid);
    ExistingInterfaceSetsDiffering(args, cfg, gateways, valid);
    DifferingEmptyIffSame(IfStyle, rec, Base(name), fs);
  }

  /** A gateway name no entry carries appends a new gateway entry, without
      validating the gateway parameters. */
  lemma NewGatewayIsAppended(args: Args, cfg: Tree, gateways: Tree, valid: Validator)
    requires Readable(args, cfg, gateways) && Has(cfg, Arg(args, "name").value)
    requires ArgTruthy(args, "gateway") && Locate(gateways, args).index.Blank?
    requires ChangesAccepted(cfg.fields[Arg(args, "name").value], Truthful(args, Names), valid)
    ensures Plan(args, cfg, gateways, valid).Ok?
    ensures var ss := Plan(args, cfg, gateways, valid).value;
      ss[|ss| - 2..] == GatewayStmts(args, Blank)
  {
    ChangesMeaning(cfg.fields[Arg(args, "name").value], Arg(args, "name").value, Truthful(args, Names), valid);
  }

  /** A found gateway entry is rewritten exactly when one of its parameters
      differs from it. */
  lemma FoundGatewayWrittenIffDiffers(args: Args, gateways: Tree, valid: Validator)
    requires ArgTruthy(args, "gateway") && Has(gateways, "gateway_item")
    requires Locate(gateways, args).Done? && Locate(gateways, args).index.At?
    requires forall i :: 0 <= i < |GatewayKeys| ==> valid(GatewayKeys[i].0, ArgTree(args, GatewayKeys[i].0))
    ensures var k := Locate(gateways, args).index.k;
      var rec := gateways.fields["gateway_item"].items[k];
      GatewayTarget(args, gateways, valid).Ok? &&
      (GatewayTarget(args, gateways, valid).value.Some? <==>
        exists i :: 0 <= i < |GatewayKeys| && Differs(rec, GatewayKeys[i].1, ArgTree(args, GatewayKeys[i].0)))
  {
    var k := Locate(gateways, args).index.k;
    GatewayCheckMeaning(GatewayKeys, args, gateways.fields["gateway_item"].items[k], valid);
  }

  /** As written, rewriting a found gateway entry raises, where the plan that
      writes the position as text succeeds. */
  lemma AsWrittenFoundGatewayRaises(args: Args, cfg: Tree, gateways: Tree, valid: Validator)
    requires Readable(args, cfg, gateways) && Has(cfg, Arg(args, "name").value)
    requires ChangesAccepted(cfg.fields[Arg(args, "name").value], Truthful(args, Names), valid)
    requires ArgTruthy(args, "gateway") && Locate(gateways, args).index.At?
    requires GatewayTarget(args, gateways, valid) == Ok(Some(Locate(gateways, args).index))
    ensures PlanAsWritten(args, cfg, gateways, valid) == Err(Raises("TypeError"))
    ensures Plan(args, cfg, gateways, valid).Ok?
    ensures var ss := Plan(args, cfg, gateways, valid).value;
      ss[|ss| - 1..] == GatewayStmts(args, Locate(gateways, args).index)[1..]
  {
    ChangesMeaning(cfg.fields[Arg(args, "name").value], Arg(args, "name").value, Truthful(args, Names), valid);
  }

  /** Apart from a found gateway entry that differs, the plans agree. */
  lemma AsWrittenAgreesElsewhere(args: Args, cfg: Tree, gateways: Tree, valid: Validator)
    requires Readable(args, cfg, gateways)
    requires !(ArgTruthy(args, "gateway") && Locate(gateways, args).index.At?)
    ensures PlanAsWritten(args, cfg, gateways, valid) == Plan(args, cfg, gateways, valid)
  {
  }
}

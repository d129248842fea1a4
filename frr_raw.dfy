/** pfsense_frr_raw: the raw daemon configuration texts of the FRR package, held
    in the one record `$config['installedpackages']['frrglobalraw']['config'][0]`. */
module FrrRaw {
  import opened ConfigTree
  import opened Php
  import opened Shell
  import opened Records

  /** The daemon texts, in the module's order. */
  const Daemons: seq<string> := ["zebra", "bgpd", "ospfd", "ospf6d"]

  /** `$config['installedpackages']['frrglobalraw']['config'][0]`, whether or not it exists. */
  const Base := Ref("config", [Key("installedpackages"), Key("frrglobalraw"), Key("config"), Idx(At(0))])

  /** `$config['installedpackages'][name]` */
  function Package(name: string): Ref
  {
    Ref("config", [Key("installedpackages"), Key(name)])
  }

  /** What a change appends: the GUI's own FRR configuration is replaced, the
      configuration is saved and FRR regenerates its files. */
  const Tail: seq<Stmt> := [
    Unset(Package("frr")),
    Unset(Package("frrbgp")),
    Assign(Ref("frr", [Key("enable")]), false, Quoted("on")),
    Assign(Package("frrbgp").Field("config"), false, Var("frr")),
    Assign(Ref("frr", [Key("password")]), false, Code("uniqid()")),
    Assign(Package("frr").Field("config"), false, Var("frr")),
    Call("write_config();\n;include('/usr/local/pkg/frr.inc');frr_generate_config();")
  ]

  /** `cfg['frrglobalraw']['config'][0]`, where every failure is caught: only
      dicts can be subscripted by name, and `[0]` takes the first element of
      a list or the first character of a string. */
  function Record(cfg: Tree): (r: Option<Tree>)
    ensures r.Some? ==> Has(cfg, "frrglobalraw") && Has(cfg.fields["frrglobalraw"], "config")
  {
    if Has(cfg, "frrglobalraw") && Has(cfg.fields["frrglobalraw"], "config") then
      var c := cfg.fields["frrglobalraw"].fields["config"];
      if c.List? && c.items != [] then Some(c.items[0])
      else if c.Str? && c.s != "" then Some(Str([c.s[0]]))
      else None
    else None
  }

  /** The uncaught reads: `p in frr` needs a container, and `frr[p]` a dict. */
  predicate Readable(cfg: Tree, args: Args)
  {
    Record(cfg).Some? ==>
      var frr := Record(cfg).value;
      Container(frr) &&
      forall i :: 0 <= i < |Daemons| && Arg(args, Daemons[i]).Some? && Contains(frr, Daemons[i]) ==> frr.Map?
  }

  /** A daemon text is written when there is no record, or when the record
      has that key with a different value. */
  predicate Writes(frr: Option<Tree>, p: string, v: string)
  {
    frr.None? || (Contains(frr.value, p) && frr.value.Map? && frr.value.fields[p] != Str(v))
  }

  function SetText(p: string, v: string): Stmt
  {
    Assign(Base.Field(p), false, Quoted(v))
  }

  /** The daemon loop over the given texts, each validated first. */
  function Settings(fs: Fields, frr: Option<Tree>, valid: Validator): Result<seq<Stmt>>
    decreases |fs|
  {
    if fs == [] then Ok([])
    else if fs[0].1.None? then Settings(fs[1..], frr, valid)
    else if !valid(fs[0].0, Str(fs[0].1.value)) then Err(Invalid(fs[0].0))
    else
      var step := if Writes(frr, fs[0].0, fs[0].1.value) then [SetText(fs[0].0, fs[0].1.value)] else [];
      match Settings(fs[1..], frr, valid)
      case Err(e) => Err(e)
      case Ok(rest) => Ok(step + rest)
  }

  /** The statements for a `state`, when the package is `installed`. */
  function Plan(state: string, args: Args, cfg: Tree, valid: Validator, installed: bool): Result<seq<Stmt>>
  {
    if !installed then Err(FrrNotInstalled)
    else if state == "present" then Settings(Given(args, Daemons), Record(cfg), valid)
    else if state == "absent" then Ok(if Record(cfg).Some? then [Unset(Base)] else [])
    else Err(IncorrectState)
  }

  /** The reported code is the daemon statements; a write sends them with the
      tail through the shared write request. */
  function Finished(checkMode: bool, ss: seq<Stmt>): (o: Outcome)
    ensures o.phpcode == Script(ss)
    ensures o.changed <==> !checkMode && ss != []
    ensures o.request.Some? <==> o.changed
    ensures o.request.Some? ==> o.request.value == WriteRequest(Script(ss + Tail), "")
  {
    var write := !checkMode && ss != [];
    Outcome(Script(ss), if write then Some(WriteRequest(Script(ss + Tail), "")) else None, write)
  }

  /** The daemon loop as the module writes it. */
  method ReconcileDaemons(fs: Fields, frr: Option<Tree>, valid: Validator)
    returns (r: Result<seq<Stmt>>)
    ensures r == Settings(fs, frr, valid)
  {
    var stmts: seq<Stmt> := [];
    var i := 0;
    assert fs[i..] == fs;
    while i < |fs|
      invariant 0 <= i <= |fs|
      invariant Settings(fs, frr, valid) == Prefixed(stmts, Settings(fs[i..], frr, valid))
    {
      assert fs[i..][0] == fs[i] && fs[i..][1..] == fs[i + 1..];
      var delta: seq<Stmt> := [];
      if fs[i].1.Some? {
        var p := fs[i].0;
        var v := fs[i].1.value;
        if !valid(p, Str(v)) {
          return Err(Invalid(p));
        }
        if Writes(frr, p, v) {
          delta := [SetText(p, v)];
        }
      }
      assert Settings(fs[i..], frr, valid) == Prefixed(delta, Settings(fs[i + 1..], frr, valid));
      PrefixedPrefixed(stmts, delta, Settings(fs[i + 1..], frr, valid));
      stmts := stmts + delta;
      i := i + 1;
    }
    assert fs[i..] == [] && stmts + [] == stmts;
    return Ok(stmts);
  }

  /** The module run; `installed` is whether `/usr/local/pkg/frr.inc` exists. */
  method Run(state: string, args: Args, cfg: Tree, valid: Validator, installed: bool, checkMode: bool)
    returns (r: Result<Outcome>)
    requires Readable(cfg, args)
    ensures Plan(state, args, cfg, valid, installed).Err? ==> r == Err(Plan(state, args, cfg, valid, installed).error)
    ensures Plan(state, args, cfg, valid, installed).Ok? ==> r == Ok(Finished(checkMode, Plan(state, args, cfg, valid, installed).value))
  {
    if !installed {
      return Err(FrrNotInstalled);
    }
    var frr := Record(cfg);
    var stmts: seq<Stmt> := [];
    if state == "present" {
      var texts := ReconcileDaemons(Given(args, Daemons), frr, valid);
      if texts.Err? {
        return Err(texts.error);
      }
      stmts := texts.value;
    } else if state == "absent" {
      if frr.Some? {
        stmts := [Unset(Base)];
      }
    } else {
      return Err(IncorrectState);
    }
    return Ok(Finished(checkMode, stmts));
  }

  // ------------------------------------------------------------------ properties

  /** Every given daemon text passes validate. */
  predicate AllValid(fs: Fields, valid: Validator)
  {
    forall i :: 0 <= i < |fs| && fs[i].1.Some? ==> valid(fs[i].0, Str(fs[i].1.value))
  }

  /** The set statement of every given text the record calls for, in order. */
  function Updates(fs: Fields, frr: Option<Tree>): seq<Stmt>
  {
    if fs == [] then []
    else
      var step := if fs[0].1.Some? && Writes(frr, fs[0].0, fs[0].1.value) then [SetText(fs[0].0, fs[0].1.value)] else [];
      step + Updates(fs[1..], frr)
  }

  /** The daemon loop succeeds exactly when validate accepts every given text,
      and then emits exactly the updates. */
  lemma {:induction false} SettingsAreUpdates(fs: Fields, frr: Option<Tree>, valid: Validator)
    ensures Settings(fs, frr, valid).Ok? <==> AllValid(fs, valid)
    ensures Settings(fs, frr, valid).Ok? ==> Settings(fs, frr, valid).value == Updates(fs, frr)
    decreases |fs|
  {
    if fs != [] {
      SettingsAreUpdates(fs[1..], frr, valid);
      assert forall i :: 1 <= i < |fs| ==> fs[i] == fs[1..][i - 1];
    }
  }

  /** Without a record every given text is written. */
  lemma {:induction false} NoRecordWritesAll(fs: Fields)
    ensures forall s :: s in Updates(fs, None) <==>
      exists i :: 0 <= i < |fs| && fs[i].1.Some? && s == SetText(fs[i].0, fs[i].1.value)
    decreases |fs|
  {
    if fs != [] {
      NoRecordWritesAll(fs[1..]);
      assert forall i :: 1 <= i < |fs| ==> fs[i] == fs[1..][i - 1];
    }
  }

  /** With a record, a text is written only for a key the record already has;
      a key it lacks is never added. */
  lemma {:induction false} ExistingRecordNeverAddsKeys(fs: Fields, frr: Tree)
    ensures forall s :: s in Updates(fs, Some(frr)) ==>
      exists i :: 0 <= i < |fs| && fs[i].1.Some? && Contains(frr, fs[i].0) && s == SetText(fs[i].0, fs[i].1.value)
    decreases |fs|
  {
    if fs != [] {
      ExistingRecordNeverAddsKeys(fs[1..], frr);
      assert forall i :: 1 <= i < |fs| ==> fs[i] == fs[1..][i - 1];
    }
  }

  /** An existing record whose present keys all hold their texts gives no
      statement and reports no change. */
  lemma {:induction false} ExistingRecordQuietWhenSame(fs: Fields, frr: Tree)
    requires forall i :: 0 <= i < |fs| && fs[i].1.Some? && Contains(frr, fs[i].0) && frr.Map? ==> frr.fields[fs[i].0] == Str(fs[i].1.value)
    ensures Updates(fs, Some(frr)) == []
    decreases |fs|
  {
    if fs != [] {
      assert forall i :: 1 <= i < |fs| ==> fs[i] == fs[1..][i - 1];
      ExistingRecordQuietWhenSame(fs[1..], frr);
    }
  }

  /** Removal: unset exactly when the record exists. */
  lemma AbsentUnsetsIffExists(args: Args, cfg: Tree, valid: Validator)
    ensures Plan("absent", args, cfg, valid, true) == Ok(if Record(cfg).Some? then [Unset(Base)] else [])
    ensures Plan("absent", args, cfg, valid, false) == Err(FrrNotInstalled)
  {
  }
}

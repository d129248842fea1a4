/** pfsense_aliases: one firewall alias in `$config['aliases']['alias']`,
    located by its name, created, updated field by field, or removed. */
module Aliases {
  import opened ConfigTree
  import opened Php
  import opened Shell
  import opened Records

  /** The alias fields, in the module's order. */
  const Names: seq<string> := ["name", "address", "descr", "type", "detail"]

  /** `$alias['p']='v';`, no validation, a missing field counts as differing. */
  const AliasStyle := Style("alias", false, false, CountsAsDiffering)

  /** Emitted when the alias list cannot be searched. */
  const InitAliases := Call("if (empty($config['aliases'])) $config['aliases'] = [];")

  /** `$config['aliases']['alias'][index]` */
  function Base(index: Index): Ref
  {
    Ref("config", [Key("aliases"), Key("alias"), Idx(index)])
  }

  /** The list `cfg['alias']` exists and `search` over it does not raise. */
  predicate Searchable(cfg: Tree, name: string)
  {
    Has(cfg, "alias") && Search(cfg.fields["alias"], "name", Str(name)).Done?
  }

  /** The caught lookup: any failure gives the initialising statement and the sentinel. */
  function Locate(cfg: Tree, name: string): (r: (seq<Stmt>, Index))
    ensures r.0 == (if Searchable(cfg, name) then [] else [InitAliases])
    ensures !Searchable(cfg, name) ==> r.1 == Blank
    ensures r.1.At? ==>
      Searchable(cfg, name) && cfg.fields["alias"].List? &&
      r.1.k < |cfg.fields["alias"].items| && FieldIs(cfg.fields["alias"].items[r.1.k], "name", Str(name))
  {
    if !Has(cfg, "alias") then ([InitAliases], Blank)
    else
      match Search(cfg.fields["alias"], "name", Str(name))
      case Raised => ([InitAliases], Blank)
      case Done(i) => ([], i)
  }

  /** The statements for a `state` of the alias named by `args["name"]`. */
  function Plan(state: string, args: Args, cfg: Tree): Result<seq<Stmt>>
    requires Arg(args, "name").Some?
  {
    var (init, index) := Locate(cfg, Arg(args, "name").value);
    var rec := if index.At? then Found(cfg.fields["alias"], index) else Null;
    if state == "present" then
      match FieldsPlan(AliasStyle, index, rec, Base(index), Given(args, Names), AcceptAll)
      case Err(e) => Err(e)
      case Ok(ss) => Ok(init + ss + (if index.Blank? then [Append(AliasStyle, Base(index))] else []))
    else if state == "absent" then
      Ok(init + (if index.At? then [Unset(Base(index))] else []))
    else
      Err(IncorrectState)
  }

  /** The module run: plan, then commit with its own write request. */
  method Run(state: string, args: Args, cfg: Tree, checkMode: bool) returns (r: Result<Outcome>)
    requires Arg(args, "name").Some?
    ensures r == Report(Plan(state, args, cfg), checkMode, Local(AliasesSuffix))
  {
    var (init, index) := Locate(cfg, Arg(args, "name").value);
    var stmts := init;
    var base := Base(index);
    if state == "present" {
      var rec := if index.At? then Found(cfg.fields["alias"], index) else Null;
      var fields := ReconcileFields(AliasStyle, index, rec, base, Given(args, Names), AcceptAll);
      if fields.Err? {
        return Err(fields.error);
      }
      stmts := stmts + fields.value;
      if index.Blank? {
        stmts := stmts + [Append(AliasStyle, base)];
      } else {
        assert stmts == init + fields.value + [];
      }
    } else if state == "absent" {
      if index.At? {
        stmts := stmts + [Unset(base)];
      } else {
        assert stmts == init + [];
      }
    } else {
      return Err(IncorrectState);
    }
    return Ok(Commit(checkMode, stmts, Local(AliasesSuffix)));
  }

  // ------------------------------------------------------------------ properties

  /** The plan fails only for a state other than present and absent. */
  lemma PlanFailsOnlyOnState(state: string, args: Args, cfg: Tree)
    requires Arg(args, "name").Some?
    ensures Plan(state, args, cfg).Err? <==> state != "present" && state != "absent"
    ensures Plan(state, args, cfg).Err? ==> Plan(state, args, cfg).error == IncorrectState
  {
    var (init, index) := Locate(cfg, Arg(args, "name").value);
    var rec := if index.At? then Found(cfg.fields["alias"], index) else Null;
    FieldsPlanFails(AliasStyle, index, rec, Base(index), Given(args, Names), AcceptAll);
  }

  /** A new alias: every given field is staged in `$alias`, in order, then
      appended; when the list could not be searched the initialiser comes first. */
  lemma NewAliasIsStagedAndAppended(args: Args, cfg: Tree)
    requires Arg(args, "name").Some?
    requires Locate(cfg, Arg(args, "name").value).1.Blank?
    ensures Plan("present", args, cfg) ==
      Ok(Locate(cfg, Arg(args, "name").value).0 + AllStaged(AliasStyle, Given(args, Names)) +
         [Assign(Ref("config", [Key("aliases"), Key("alias"), Idx(Blank)]), false, Var("alias"))])
  {
    PlanFailsOnlyOnState("present", args, cfg);
    NotFoundStagesAll(AliasStyle, Null, Base(Blank), Given(args, Names), AcceptAll);
  }

  /** An existing alias: exactly the given fields that differ are set in place. */
  lemma ExistingAliasSetsDiffering(args: Args, cfg: Tree)
    requires Arg(args, "name").Some?
    requires Locate(cfg, Arg(args, "name").value).1.At?
    ensures var index := Locate(cfg, Arg(args, "name").value).1;
      Plan("present", args, cfg) ==
        Ok(Differing(AliasStyle, cfg.fields["alias"].items[index.k], Base(index), Given(args, Names)))
  {
    var index := Locate(cfg, Arg(args, "name").value).1;
    var rec := cfg.fields["alias"].items[index.k];
    PlanFailsOnlyOnState("present", args, cfg);
    FoundSetsDiffering(AliasStyle, index.k, rec, Base(index), Given(args, Names), AcceptAll);
    var ss := FieldsPlan(AliasStyle, index, rec, Base(index), Given(args, Names), AcceptAll).value;
    assert [] + ss + [] == ss;
  }

  /** An existing alias whose given fields all hold their values reports no
      change, and one with a differing field does when not in check mode. */
  lemma ExistingAliasChangedIffDiffers(args: Args, cfg: Tree, checkMode: bool)
    requires Arg(args, "name").Some?
    requires Locate(cfg, Arg(args, "name").value).1.At?
    ensures var rec := cfg.fields["alias"].items[Locate(cfg, Arg(args, "name").value).1.k];
      Report(Plan("present", args, cfg), checkMode, Local(AliasesSuffix)).Ok? &&
      (Report(Plan("present", args, cfg), checkMode, Local(AliasesSuffix)).value.changed <==>
        !checkMode && exists i :: 0 <= i < |Names| && Arg(args, Names[i]).Some? && !Same(rec, Names[i], Arg(args, Names[i]).value))
  {
    var index := Locate(cfg, Arg(args, "name").value).1;
    var rec := cfg.fields["alias"].items[index.k];
    ExistingAliasSetsDiffering(args, cfg);
    DifferingEmptyIffSame(AliasStyle, rec, Base(index), Given(args, Names));
  }

  /** Removal: unset exactly when the alias exists, after the initialiser when
      the list could not be searched. */
  lemma AbsentUnsetsIffFound(args: Args, cfg: Tree)
    requires Arg(args, "name").Some?
    ensures var (init, index) := Locate(cfg, Arg(args, "name").value);
      Plan("absent", args, cfg) == Ok(init + (if index.At? then [Unset(Base(index))] else []))
    ensures (Plan("absent", args, cfg).value == []) <==>
      Searchable(cfg, Arg(args, "name").value) && Locate(cfg, Arg(args, "name").value).1.Blank?
  {
  }
}

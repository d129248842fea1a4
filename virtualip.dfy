/** pfsense_virtualip: one virtual IP in `$config['virtualip']['vip']`, located
    by its uniqid and otherwise by its subnet. */
module VirtualIp {
  import opened ConfigTree
  import opened Php
  import opened Shell
  import opened Records

  /** The fields, in the module's order. */
  const Names: seq<string> := ["mode", "type", "uniqid", "interface", "descr", "subnet", "subnet_bits"]

  /** `$virtualip['p']='v';`, no validation, a missing field of the found record raises. */
  const VipStyle := Style("virtualip", false, false, MustExist)

  /** `$config['virtualip']['vip'][index]` */
  function Base(index: Index): Ref
  {
    Ref("config", [Key("virtualip"), Key("vip"), Idx(index)])
  }

  /** The section is a dict holding a `vip` entry; only then is anything looked up. */
  predicate HasVips(cfg: Tree)
  {
    cfg.Map? && "vip" in cfg.fields
  }

  /** The lookup by uniqid, when one is given. */
  function ByUniqid(cfg: Tree, args: Args): Lookup
    requires HasVips(cfg)
  {
    if Arg(args, "uniqid").Some? then Search(cfg.fields["vip"], "uniqid", ArgTree(args, "uniqid")) else Done(Blank)
  }

  /** Neither lookup is caught, so neither may raise. */
  predicate Searchable(cfg: Tree, args: Args)
  {
    HasVips(cfg) ==>
      ByUniqid(cfg, args).Done? &&
      (ByUniqid(cfg, args).index.Blank? ==> Search(cfg.fields["vip"], "subnet", ArgTree(args, "subnet")).Done?)
  }

  /** The uniqid lookup first, then the subnet lookup when it found nothing. */
  function Locate(cfg: Tree, args: Args): (index: Index)
    requires Searchable(cfg, args)
    ensures index.At? ==>
      HasVips(cfg) && cfg.fields["vip"].List? && index.k < |cfg.fields["vip"].items| &&
      (FieldIs(cfg.fields["vip"].items[index.k], "uniqid", ArgTree(args, "uniqid")) ||
       FieldIs(cfg.fields["vip"].items[index.k], "subnet", ArgTree(args, "subnet")))
  {
    if !HasVips(cfg) then Blank
    else if ByUniqid(cfg, args).index.At? then ByUniqid(cfg, args).index
    else Search(cfg.fields["vip"], "subnet", ArgTree(args, "subnet")).index
  }

  /** The parameters the field loop sees: on a section with a `vip` entry a
      missing uniqid is replaced by a `generated` one. */
  function Effective(cfg: Tree, args: Args, generated: string): (a: Args)
    ensures Arg(a, "uniqid").Some? <==> Arg(args, "uniqid").Some? || HasVips(cfg)
    ensures forall p :: p != "uniqid" ==> Arg(a, p) == Arg(args, p)
  {
    if HasVips(cfg) && Arg(args, "uniqid").None? then args["uniqid" := Some(generated)] else args
  }

  /** The found record, read from the `vip` list. */
  function Current(cfg: Tree, index: Index): Tree
    requires index.At? ==> HasVips(cfg) && cfg.fields["vip"].List? && index.k < |cfg.fields["vip"].items|
  {
    if index.At? then cfg.fields["vip"].items[index.k] else Null
  }

  /** Comparing with the found record raises where it lacks a given field. */
  predicate Readable(cfg: Tree, args: Args, generated: string)
  {
    Searchable(cfg, args) &&
    Comparable(VipStyle, Locate(cfg, args), Current(cfg, Locate(cfg, args)), Given(Effective(cfg, args, generated), Names))
  }

  /** The statements for a `state`, comparing with the found record. */
  function Plan(state: string, args: Args, cfg: Tree, generated: string): Result<seq<Stmt>>
    requires Searchable(cfg, args)
  {
    var index := Locate(cfg, args);
    if state == "present" then
      match FieldsPlan(VipStyle, index, Current(cfg, index), Base(index), Given(Effective(cfg, args, generated), Names), AcceptAll)
      case Err(e) => Err(e)
      case Ok(ss) => Ok(ss + (if index.Blank? then [Append(VipStyle, Base(index))] else []))
    else if state == "absent" then
      Ok(if index.At? then [Unset(Base(index))] else [])
    else
      Err(IncorrectState)
  }

  /** The statements as written: `uniqid()` calls the `time` module itself,
      which raises, and a found record is read as `cfg[index]`, a key the
      section dict never has (its keys are strings). */
  function PlanAsWritten(state: string, args: Args, cfg: Tree): Result<seq<Stmt>>
    requires Searchable(cfg, args)
  {
    var index := Locate(cfg, args);
    if HasVips(cfg) && Arg(args, "uniqid").None? then Err(Raises("TypeError"))
    else if state == "present" && index.At? && exists i :: 0 <= i < |Names| && Arg(args, Names[i]).Some? then
      Err(Raises("KeyError"))
    else Plan(state, args, cfg, "")
  }

  /** The module run, comparing with the found record. */
  method Run(state: string, args: Args, cfg: Tree, generated: string, checkMode: bool) returns (r: Result<Outcome>)
    requires Readable(cfg, args, generated)
    ensures r == Report(Plan(state, args, cfg, generated), checkMode, Shared(""))
  {
    var index := Locate(cfg, args);
    var base := Base(index);
    var stmts: seq<Stmt> := [];
    if state == "present" {
      var fields := ReconcileFields(VipStyle, index, Current(cfg, index), base, Given(Effective(cfg, args, generated), Names), AcceptAll);
      if fields.Err? {
        return Err(fields.error);
      }
      stmts := fields.value;
      if index.Blank? {
        stmts := stmts + [Append(VipStyle, base)];
      } else {
        assert stmts == fields.value + [];
      }
    } else if state == "absent" {
      if index.At? {
        stmts := [Unset(base)];
      }
    } else {
      return Err(IncorrectState);
    }
    return Ok(Commit(checkMode, stmts, Shared("")));
  }

  // ------------------------------------------------------------------ properties

  /** A given uniqid that some record carries wins over the subnet. */
  lemma UniqidTakesPrecedence(cfg: Tree, args: Args)
    requires Searchable(cfg, args) && HasVips(cfg) && Arg(args, "uniqid").Some?
    requires Search(cfg.fields["vip"], "uniqid", ArgTree(args, "uniqid")).Done?
    requires Search(cfg.fields["vip"], "uniqid", ArgTree(args, "uniqid")).index.At?
    ensures Locate(cfg, args) == Search(cfg.fields["vip"], "uniqid", ArgTree(args, "uniqid")).index
    ensures FieldIs(cfg.fields["vip"].items[Locate(cfg, args).k], "uniqid", ArgTree(args, "uniqid"))
  {
  }

  /** The plan fails only for a state other than present and absent. */
  lemma PlanFailsOnlyOnState(state: string, args: Args, cfg: Tree, generated: string)
    requires Searchable(cfg, args)
    ensures Plan(state, args, cfg, generated).Err? <==> state != "present" && state != "absent"
  {
    var index := Locate(cfg, args);
    FieldsPlanFails(VipStyle, index, Current(cfg, index), Base(index), Given(Effective(cfg, args, generated), Names), AcceptAll);
  }

  /** A new virtual IP: every given field (with the generated uniqid when none
      was given on a section that has a `vip` entry) is staged, then appended. */
  lemma NewVipIsStagedAndAppended(args: Args, cfg: Tree, generated: string)
    requires Searchable(cfg, args) && Locate(cfg, args).Blank?
    ensures Plan("present", args, cfg, generated) ==
      Ok(AllStaged(VipStyle, Given(Effective(cfg, args, generated), Names)) +
         [Assign(Ref("config", [Key("virtualip"), Key("vip"), Idx(Blank)]), false, Var("virtualip"))])
  {
    PlanFailsOnlyOnState("present", args, cfg, generated);
    NotFoundStagesAll(VipStyle, Null, Base(Blank), Given(Effective(cfg, args, generated), Names), AcceptAll);
  }

  /** An existing virtual IP: exactly the given fields that differ are set, so
      one that already matches reports no change. */
  lemma ExistingVipSetsDiffering(args: Args, cfg: Tree, generated: string, checkMode: bool)
    requires Searchable(cfg, args) && Locate(cfg, args).At?
    ensures var index := Locate(cfg, args);
      var fs := Given(Effective(cfg, args, generated), Names);
      Plan("present", args, cfg, generated) == Ok(Differing(VipStyle, cfg.fields["vip"].items[index.k], Base(index), fs))
    ensures var rec := cfg.fields["vip"].items[Locate(cfg, args).k];
      var a := Effective(cfg, args, generated);
      Report(Plan("present", args, cfg, generated), checkMode, Shared("")).value.changed <==>
        !checkMode && exists i :: 0 <= i < |Names| && Arg(a, Names[i]).Some? && !Same(rec, Names[i], Arg(a, Names[i]).value)
  {
    var index := Locate(cfg, args);
    var rec := cfg.fields["vip"].items[index.k];
    var fs := Given(Effective(cfg, args, generated), Names);
    PlanFailsOnlyOnState("present", args, cfg, generated);
    FoundSetsDiffering(VipStyle, index.k, rec, Base(index), fs, AcceptAll);
    DifferingEmptyIffSame(VipStyle, rec, Base(index), fs);
    var ss := FieldsPlan(VipStyle, index, rec, Base(index), fs, AcceptAll).value;
    assert ss + [] == ss;
  }

  /** Removal: unset exactly when the virtual IP exists. */
  lemma AbsentUnsetsIffFound(args: Args, cfg: Tree, generated: string)
    requires Searchable(cfg, args)
    ensures Plan("absent", args, cfg, generated) == Ok(if Locate(cfg, args).At? then [Unset(Base(Locate(cfg, args)))] else [])
  {
  }

  /** As written, updating an existing virtual IP with any field given raises,
      where the plan that reads the `vip` list succeeds. */
  lemma AsWrittenExistingRaises(args: Args, cfg: Tree, generated: string)
    requires Searchable(cfg, args) && Locate(cfg, args).At? && Arg(args, "uniqid").Some?
    requires Arg(args, "mode").Some?
    ensures PlanAsWritten("present", args, cfg) == Err(Raises("KeyError"))
    ensures Plan("present", args, cfg, generated).Ok?
  {
    assert Names[0] == "mode";
    PlanFailsOnlyOnState("present", args, cfg, generated);
  }

  /** As written, a run without a uniqid on a section with a `vip` entry
      raises, where the plan with a generated uniqid succeeds. */
  lemma AsWrittenMissingUniqidRaises(state: string, args: Args, cfg: Tree, generated: string)
    requires Searchable(cfg, args) && HasVips(cfg) && Arg(args, "uniqid").None?
    requires state == "present" || state == "absent"
    ensures PlanAsWritten(state, args, cfg) == Err(Raises("TypeError"))
    ensures Plan(state, args, cfg, generated).Ok?
  {
    PlanFailsOnlyOnState(state, args, cfg, generated);
  }

  /** Apart from those two cases the plans agree. */
  lemma AsWrittenAgreesElsewhere(state: string, args: Args, cfg: Tree, generated: string)
    requires Searchable(cfg, args)
    requires !(HasVips(cfg) && Arg(args, "uniqid").None?)
    requires !(state == "present" && Locate(cfg, args).At?)
    ensures PlanAsWritten(state, args, cfg) == Plan(state, args, cfg, generated)
  {
    assert Effective(cfg, args, generated) == args == Effective(cfg, args, "");
  }
}

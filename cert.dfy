/** pfsense_cert: one certificate in `$config['cert']`, located by its refid. */
module Cert {
  import opened ConfigTree
  import opened Php
  import opened Shell
  import opened Records

  /** The certificate fields, in the module's order. */
  const Names: seq<string> := ["refid", "descr", "crt", "prv"]

  /** `$cert['p']='v';`, validated, a missing field of the found record raises. */
  const CertStyle := Style("cert", false, true, MustExist)

  /** `$config['cert'][index]` */
  function Base(index: Index): Ref
  {
    Ref("config", [Key("cert"), Idx(index)])
  }

  /** The lookup is not caught: `search` must not raise on the cert section. */
  predicate Searchable(cfg: Tree, args: Args)
  {
    Arg(args, "refid").Some? && Search(cfg, "refid", Str(Arg(args, "refid").value)).Done?
  }

  function Locate(cfg: Tree, args: Args): (index: Index)
    requires Searchable(cfg, args)
    ensures index.At? ==> cfg.List? && index.k < |cfg.items| && FieldIs(cfg.items[index.k], "refid", ArgTree(args, "refid"))
  {
    Search(cfg, "refid", Str(Arg(args, "refid").value)).index
  }

  /** Comparing with the found certificate raises where it lacks a given field. */
  predicate Readable(cfg: Tree, args: Args)
  {
    Searchable(cfg, args) &&
    Comparable(CertStyle, Locate(cfg, args), Found(cfg, Locate(cfg, args)), Given(args, Names))
  }

  /** The statements for a `state`. */
  function Plan(state: string, args: Args, cfg: Tree, valid: Validator): Result<seq<Stmt>>
    requires Searchable(cfg, args)
  {
    var index := Locate(cfg, args);
    if state == "present" then
      match FieldsPlan(CertStyle, index, Found(cfg, index), Base(index), Given(args, Names), valid)
      case Err(e) => Err(e)
      case Ok(ss) => Ok(ss + (if index.Blank? then [Append(CertStyle, Base(index))] else []))
    else if state == "absent" then
      Ok(if index.At? then [Unset(Base(index))] else [])
    else
      Err(IncorrectState)
  }

  /** The module run: the field loop, then commit with the shared write request. */
  method Run(state: string, args: Args, cfg: Tree, valid: Validator, checkMode: bool) returns (r: Result<Outcome>)
    requires Readable(cfg, args)
    ensures r == Report(Plan(state, args, cfg, valid), checkMode, Shared(""))
  {
    var index := Locate(cfg, args);
    var base := Base(index);
    var stmts: seq<Stmt> := [];
    if state == "present" {
      var fields := ReconcileFields(CertStyle, index, Found(cfg, index), base, Given(args, Names), valid);
      if fields.Err? {
        return Err(fields.error);
      }
      stmts := fields.value;
      if index.Blank? {
        stmts := stmts + [Append(CertStyle, base)];
      } else {
        assert stmts == fields.value + [];
      }
    } else if state == "absent" {
      if index.At? {
        stmts := [Unset(base)];
      }
    } else {
      return Err(IncorrectState);
    }
    return Ok(Commit(checkMode, stmts, Shared("")));
  }

  // ------------------------------------------------------------------ properties

  /** Presence fails exactly when validate refuses a given field. */
  lemma PresentFailsIffRefused(args: Args, cfg: Tree, valid: Validator)
    requires Searchable(cfg, args)
    ensures Plan("present", args, cfg, valid).Err? <==> !Accepted(CertStyle, Given(args, Names), valid)
  {
    var index := Locate(cfg, args);
    FieldsPlanFails(CertStyle, index, Found(cfg, index), Base(index), Given(args, Names), valid);
  }

  /** A new certificate: every given field staged in `$cert`, then appended. */
  lemma NewCertIsStagedAndAppended(args: Args, cfg: Tree, valid: Validator)
    requires Searchable(cfg, args) && Locate(cfg, args).Blank?
    requires Plan("present", args, cfg, valid).Ok?
    ensures Plan("present", args, cfg, valid).value ==
      AllStaged(CertStyle, Given(args, Names)) + [Assign(Ref("config", [Key("cert"), Idx(Blank)]), false, Var("cert"))]
  {
    NotFoundStagesAll(CertStyle, Null, Base(Blank), Given(args, Names), valid);
  }

  /** An existing certificate: exactly the given fields that differ are set, so
      a certificate that already matches reports no change. */
  lemma ExistingCertSetsDiffering(args: Args, cfg: Tree, valid: Validator, checkMode: bool)
    requires Searchable(cfg, args) && Locate(cfg, args).At?
    requires Plan("present", args, cfg, valid).Ok?
    ensures var index := Locate(cfg, args);
      Plan("present", args, cfg, valid).value == Differing(CertStyle, cfg.items[index.k], Base(index), Given(args, Names))
    ensures var rec := cfg.items[Locate(cfg, args).k];
      Report(Plan("present", args, cfg, valid), checkMode, Shared("")).value.changed <==>
        !checkMode && exists i :: 0 <= i < |Names| && Arg(args, Names[i]).Some? && !Same(rec, Names[i], Arg(args, Names[i]).value)
  {
    var index := Locate(cfg, args);
    var rec := cfg.items[index.k];
    FoundSetsDiffering(CertStyle, index.k, rec, Base(index), Given(args, Names), valid);
    DifferingEmptyIffSame(CertStyle, rec, Base(index), Given(args, Names));
    var ss := FieldsPlan(CertStyle, index, rec, Base(index), Given(args, Names), valid).value;
    assert ss + [] == ss;
  }

  /** Removal: unset exactly when the certificate exists. */
  lemma AbsentUnsetsIffFound(args: Args, cfg: Tree, valid: Validator)
    requires Searchable(cfg, args)
    ensures Plan("absent", args, cfg, valid).Ok?
    ensures Plan("absent", args, cfg, valid).value != [] <==> Locate(cfg, args).At?
    ensures Locate(cfg, args).At? ==> Plan("absent", args, cfg, valid).value == [Unset(Base(Locate(cfg, args)))]
  {
  }
}

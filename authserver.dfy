/** pfsense_authserver: one LDAP or RADIUS server in
    `$config['system']['authserver']`, located by its refid. */
module AuthServer {
  import opened ConfigTree
  import opened Php
  import opened Shell
  import opened Records

  /** The identity fields, always written and always validated. */
  const Fixed: seq<string> := ["type", "refid", "name", "host"]

  /** `$auth['p'] = 'v';`, validated, a missing field of the found record raises. */
  const AuthStyle := Style("auth", true, true, MustExist)

  /** `$config['system']['authserver']`, the server list. */
  const Servers := Ref("config", [Key("system"), Key("authserver")])

  /** Emitted when the server list cannot be searched: the list is reset. */
  const ResetServers := Assign(Servers, false, Code("[]"))

  /** `$config['system']['authserver'][index]` */
  function Base(index: Index): Ref
  {
    Servers.Sub(Idx(index))
  }

  /** `p.split('_')[0]`: the text before the first underscore. */
  function Prefix(p: string): (r: string)
    ensures r <= p
    ensures forall i :: 0 <= i < |r| ==> r[i] != '_'
    ensures |r| < |p| ==> p[|r|] == '_'
  {
    if p == [] || p[0] == '_' then "" else [p[0]] + Prefix(p[1..])
  }

  /** The second field loop: the string parameters that belong to the server
      type (`ldap_...` for ldap, `radius_...` for radius), in parameter order. */
  function Selected(fs: Fields, kind: string): (r: Fields)
    ensures forall x :: x in r <==> x in fs && x.1.Some? && Prefix(x.0) == kind
    ensures |r| <= |fs|
  {
    if fs == [] then []
    else (if fs[0].1.Some? && Prefix(fs[0].0) == kind then [fs[0]] else []) + Selected(fs[1..], kind)
  }

  /** `order` is how `for p in params` walks the parameters: every declared
      parameter, each exactly once. */
  predicate Enumerates(args: Args, order: seq<string>)
    decreases |order|
  {
    if order == [] then args == map[] else order[0] in args && Enumerates(args - {order[0]}, order[1..])
  }

  /** What enumerating means: the same names, none twice. */
  lemma {:induction false} EnumeratesMeans(args: Args, order: seq<string>)
    requires Enumerates(args, order)
    ensures forall p :: p in args <==> p in order
    ensures forall i, j :: 0 <= i < j < |order| ==> order[i] != order[j]
  {
    if order != [] {
      var rest := args - {order[0]};
      EnumeratesMeans(rest, order[1..]);
      forall i, j | 0 <= i < j < |order|
        ensures order[i] != order[j]
      {
        assert order[j] == order[1..][j - 1];
        if 0 < i {
          assert order[i] == order[1..][i - 1];
        } else {
          assert order[j] in rest;
        }
      }
      forall p | p in args
        ensures p in order
      {
        if p != order[0] {
          assert p in rest;
          assert p in order[1..];
        }
      }
      forall p | p in order
        ensures p in args
      {
        if p != order[0] {
          var k :| 0 <= k < |order| && order[k] == p;
          assert order[1..][k - 1] == p;
        }
      }
    }
  }

  /** The identity fields are required parameters. */
  predicate Required(args: Args)
  {
    Arg(args, "type").Some? && Arg(args, "refid").Some? && Arg(args, "name").Some? && Arg(args, "host").Some?
  }

  /** The system section's server list exists and `search` over it does not raise. */
  predicate Searchable(cfg: Tree, refid: string)
  {
    Has(cfg, "authserver") && Search(cfg.fields["authserver"], "refid", Str(refid)).Done?
  }

  /** The caught lookup: any failure resets the list and gives the sentinel. */
  function Locate(cfg: Tree, refid: string): (r: (seq<Stmt>, Index))
    ensures r.0 == (if Searchable(cfg, refid) then [] else [ResetServers])
    ensures !Searchable(cfg, refid) ==> r.1 == Blank
    ensures r.1.At? ==>
      Searchable(cfg, refid) && cfg.fields["authserver"].List? &&
      r.1.k < |cfg.fields["authserver"].items| && FieldIs(cfg.fields["authserver"].items[r.1.k], "refid", Str(refid))
  {
    if !Has(cfg, "authserver") then ([ResetServers], Blank)
    else
      match Search(cfg.fields["authserver"], "refid", Str(refid))
      case Raised => ([ResetServers], Blank)
      case Done(i) => ([], i)
  }

  /** The found server, or nothing. */
  function Current(cfg: Tree, index: Index): Tree
  {
    if index.At? && Has(cfg, "authserver") && cfg.fields["authserver"].List? && index.k < |cfg.fields["authserver"].items|
    then cfg.fields["authserver"].items[index.k] else Null
  }

  /** The type-specific fields for parameters iterated in `order`. */
  function TypeFields(args: Args, order: seq<string>): Fields
    requires Required(args)
  {
    Selected(Given(args, order), Arg(args, "type").value)
  }

  /** Comparing with the found server raises where it lacks a written field. */
  predicate Readable(args: Args, order: seq<string>, cfg: Tree)
    requires Required(args)
  {
    var index := Locate(cfg, Arg(args, "refid").value).1;
    Comparable(AuthStyle, index, Current(cfg, index), Given(args, Fixed)) &&
    Comparable(AuthStyle, index, Current(cfg, index), TypeFields(args, order))
  }

  /** The statements for a `state`; `order` is the order the parameters are iterated in. */
  function Plan(state: string, args: Args, order: seq<string>, cfg: Tree, valid: Validator): Result<seq<Stmt>>
    requires Required(args)
  {
    var (init, index) := Locate(cfg, Arg(args, "refid").value);
    var rec := Current(cfg, index);
    if state == "present" then
      match FieldsPlan(AuthStyle, index, rec, Base(index), Given(args, Fixed), valid)
      case Err(e) => Err(e)
      case Ok(a) =>
        match FieldsPlan(AuthStyle, index, rec, Base(index), TypeFields(args, order), valid)
        case Err(e) => Err(e)
        case Ok(b) => Ok(init + a + b + (if index.Blank? then [Append(AuthStyle, Base(index))] else []))
    else if state == "absent" then
      Ok(init + (if index.At? then [Unset(Base(index))] else []))
    else
      Err(IncorrectState)
  }

  /** The module run: both field loops, then commit with the shared write request. */
  method Run(state: string, args: Args, order: seq<string>, cfg: Tree, valid: Validator, checkMode: bool)
    returns (r: Result<Outcome>)
    requires Required(args) && Enumerates(args, order) && Readable(args, order, cfg)
    ensures r == Report(Plan(state, args, order, cfg, valid), checkMode, Shared(""))
  {
    var (init, index) := Locate(cfg, Arg(args, "refid").value);
    var stmts := init;
    var base := Base(index);
    var rec := Current(cfg, index);
    if state == "present" {
      var fixed := ReconcileFields(AuthStyle, index, rec, base, Given(args, Fixed), valid);
      if fixed.Err? {
        return Err(fixed.error);
      }
      var typed := ReconcileFields(AuthStyle, index, rec, base, TypeFields(args, order), valid);
      if typed.Err? {
        return Err(typed.error);
      }
      stmts := stmts + fixed.value + typed.value;
      if index.Blank? {
        stmts := stmts + [Append(AuthStyle, base)];
      } else {
        assert stmts == init + fixed.value + typed.value + [];
      }
    } else if state == "absent" {
      if index.At? {
        stmts := stmts + [Unset(base)];
      } else {
        assert stmts == init + [];
      }
    } else {
      return Err(IncorrectState);
    }
    return Ok(Commit(checkMode, stmts, Shared("")));
  }

  // ------------------------------------------------------------------ properties

  /** Selecting keeps distinct names distinct. */
  lemma {:induction false} SelectedOnce(fs: Fields, kind: string)
    requires forall i, j :: 0 <= i < j < |fs| ==> fs[i].0 != fs[j].0
    ensures forall i, j :: 0 <= i < j < |Selected(fs, kind)| ==> Selected(fs, kind)[i].0 != Selected(fs, kind)[j].0
  {
    if fs != [] {
      var t := Selected(fs[1..], kind);
      SelectedOnce(fs[1..], kind);
      forall x | x in t
        ensures x.0 != fs[0].0
      {
        var k :| 0 <= k < |fs[1..]| && fs[1..][k] == x;
        assert fs[k + 1] == x;
      }
      var h := if fs[0].1.Some? && Prefix(fs[0].0) == kind then [fs[0]] else [];
      var r := h + t;
      assert Selected(fs, kind) == r;
      forall i, j | 0 <= i < j < |r|
        ensures r[i].0 != r[j].0
      {
        assert r[j] == t[j - |h|];
        if i < |h| {
          assert r[i] == fs[0];
          assert r[j] in t;
          assert r[j].0 != fs[0].0;
        } else {
          assert r[i] == t[i - |h|];
          assert i - |h| < j - |h| < |t|;
          assert t[i - |h|].0 != t[j - |h|].0;
        }
      }
    }
  }

  /** Walking an enumeration reads every declared parameter once. */
  lemma GivenEnumerated(args: Args, order: seq<string>)
    requires Enumerates(args, order)
    ensures forall p, v :: (p, Some(v)) in Given(args, order) <==> p in args && args[p] == Some(v)
    ensures forall i, j :: 0 <= i < j < |Given(args, order)| ==> Given(args, order)[i].0 != Given(args, order)[j].0
  {
    var fs := Given(args, order);
    EnumeratesMeans(args, order);
    forall p, v | p in args && args[p] == Some(v)
      ensures (p, Some(v)) in fs
    {
      var k :| 0 <= k < |order| && order[k] == p;
      assert fs[k] == (p, Some(v));
    }
    forall p, v | (p, Some(v)) in fs
      ensures p in args && args[p] == Some(v)
    {
      var k :| 0 <= k < |fs| && fs[k] == (p, Some(v));
      assert order[k] == p;
    }
    forall i, j | 0 <= i < j < |fs|
      ensures fs[i].0 != fs[j].0
    {
      assert fs[i].0 == order[i] && fs[j].0 == order[j];
    }
  }

  /** Selecting from the declared string parameters, none twice, gives those
      of the kind, none twice. */
  lemma SelectedExact(fs: Fields, kind: string, args: Args)
    requires forall p, v :: (p, Some(v)) in fs <==> p in args && args[p] == Some(v)
    requires forall i, j :: 0 <= i < j < |fs| ==> fs[i].0 != fs[j].0
    ensures forall p, v :: (p, Some(v)) in Selected(fs, kind) <==> p in args && args[p] == Some(v) && Prefix(p) == kind
    ensures forall i, j :: 0 <= i < j < |Selected(fs, kind)| ==> Selected(fs, kind)[i].0 != Selected(fs, kind)[j].0
  {
    SelectedOnce(fs, kind);
  }

  /** The type loop writes exactly the string parameters named after the
      server type, each once: a field is written with value `v` exactly when
      that parameter is declared with value `v` and its prefix is the type. */
  lemma TypeFieldsExact(args: Args, order: seq<string>)
    requires Required(args) && Enumerates(args, order)
    ensures forall p, v :: (p, Some(v)) in TypeFields(args, order) <==>
      p in args && args[p] == Some(v) && Prefix(p) == Arg(args, "type").value
    ensures forall i, j :: 0 <= i < j < |TypeFields(args, order)| ==>
      TypeFields(args, order)[i].0 != TypeFields(args, order)[j].0
  {
    var fs := Given(args, order);
    var kind := Arg(args, "type").value;
    assert TypeFields(args, order) == Selected(fs, kind);
    GivenEnumerated(args, order);
    SelectedExact(fs, kind, args);
  }

  /** Presence fails exactly when validate refuses an identity field or a
      type-specific one. */
  lemma PresentFailsIffRefused(args: Args, order: seq<string>, cfg: Tree, valid: Validator)
    requires Required(args)
    ensures Plan("present", args, order, cfg, valid).Err? <==>
      !Accepted(AuthStyle, Given(args, Fixed), valid) || !Accepted(AuthStyle, TypeFields(args, order), valid)
  {
    var (init, index) := Locate(cfg, Arg(args, "refid").value);
    var rec := Current(cfg, index);
    FieldsPlanFails(AuthStyle, index, rec, Base(index), Given(args, Fixed), valid);
    FieldsPlanFails(AuthStyle, index, rec, Base(index), TypeFields(args, order), valid);
  }

  /** A new server: identity fields, then the type's fields, staged in `$auth`
      and appended; an unsearchable list is reset first. */
  lemma NewServerIsStagedAndAppended(args: Args, order: seq<string>, cfg: Tree, valid: Validator)
    requires Required(args)
    requires Locate(cfg, Arg(args, "refid").value).1.Blank?
    requires Plan("present", args, order, cfg, valid).Ok?
    ensures Plan("present", args, order, cfg, valid).value ==
      Locate(cfg, Arg(args, "refid").value).0 + AllStaged(AuthStyle, Given(args, Fixed)) +
      AllStaged(AuthStyle, TypeFields(args, order)) + [Assign(Servers.Sub(Idx(Blank)), false, Var("auth"))]
  {
    NotFoundStagesAll(AuthStyle, Null, Base(Blank), Given(args, Fixed), valid);
    NotFoundStagesAll(AuthStyle, Null, Base(Blank), TypeFields(args, order), valid);
  }

  /** An existing server: exactly the written fields that differ are set in place. */
  lemma ExistingServerSetsDiffering(args: Args, order: seq<string>, cfg: Tree, valid: Validator)
    requires Required(args)
    requires Locate(cfg, Arg(args, "refid").value).1.At?
    requires Plan("present", args, order, cfg, valid).Ok?
    ensures var index := Locate(cfg, Arg(args, "refid").value).1;
      var rec := cfg.fields["authserver"].items[index.k];
      Plan("present", args, order, cfg, valid).value ==
        Differing(AuthStyle, rec, Base(index), Given(args, Fixed)) + Differing(AuthStyle, rec, Base(index), TypeFields(args, order))
  {
    var index := Locate(cfg, Arg(args, "refid").value).1;
    var rec := cfg.fields["authserver"].items[index.k];
    FoundSetsDiffering(AuthStyle, index.k, rec, Base(index), Given(args, Fixed), valid);
    FoundSetsDiffering(AuthStyle, index.k, rec, Base(index), TypeFields(args, order), valid);
    var a := FieldsPlan(AuthStyle, index, rec, Base(index), Given(args, Fixed), valid).value;
    var b := FieldsPlan(AuthStyle, index, rec, Base(index), TypeFields(args, order), valid).value;
    assert [] + a + b + [] == a + b;
  }

  /** When the list cannot be searched (it is missing, or a server lacks a
      refid) the statements start by emptying it, so a write replaces every
      existing server with this one. */
  lemma UnsearchableListIsReset(state: string, args: Args, order: seq<string>, cfg: Tree, valid: Validator)
    requires Required(args)
    requires !Searchable(cfg, Arg(args, "refid").value)
    requires Plan(state, args, order, cfg, valid).Ok?
    ensures Plan(state, args, order, cfg, valid).value[0] == ResetServers
    ensures Plan(state, args, order, cfg, valid).value[0] == Assign(Ref("config", [Key("system"), Key("authserver")]), false, Code("[]"))
  {
  }

  /** Removal: unset exactly when the server exists. */
  lemma AbsentUnsetsIffFound(args: Args, order: seq<string>, cfg: Tree, valid: Validator)
    requires Required(args)
    ensures var (init, index) := Locate(cfg, Arg(args, "refid").value);
      Plan("absent", args, order, cfg, valid) == Ok(init + (if index.At? then [Unset(Base(index))] else []))
    ensures (Plan("absent", args, order, cfg, valid).value == []) <==>
      Searchable(cfg, Arg(args, "refid").value) && Locate(cfg, Arg(args, "refid").value).1.Blank?
  {
  }
}

/** pfsense_group: one user group in `$config['system']['group']`, located by
    name; a new group takes its gid from `$config['system']['nextgid']`. */
module Group {
  import opened ConfigTree
  import opened Php
  import opened Shell
  import opened Records

  /** The string fields, in the module's order. */
  const Names: seq<string> := ["name", "description", "scope"]

  /** `$group['p']='v';`, validated, a missing field of the found record raises. */
  const GroupStyle := Style("group", false, true, MustExist)

  /** `$config['system']['nextgid']` */
  const NextGid := Ref("config", [Key("system"), Key("nextgid")])

  /** `$config['system']['nextgid']++;` */
  const Bump := Increment(NextGid)

  /** `$config['system']['group'][index]` */
  function Base(index: Index): Ref
  {
    Ref("config", [Key("system"), Key("group"), Idx(index)])
  }

  // ------------------------------------------------------------- the name rule

  /** `[a-zA-Z0-9_.]` */
  predicate HeadChar(c: char)
  {
    'a' <= c <= 'z' || 'A' <= c <= 'Z' || '0' <= c <= '9' || c == '_' || c == '.'
  }

  /** `[a-zA-Z0-9_.-]` */
  predicate InnerChar(c: char)
  {
    HeadChar(c) || c == '-'
  }

  /** `[a-zA-Z0-9_.$-]` */
  predicate LastChar(c: char)
  {
    InnerChar(c) || c == '$'
  }

  /** The whole of `s` is one head character, zero to thirty inner characters
      and one last character. */
  predicate Shaped(s: string)
  {
    2 <= |s| <= 32 && HeadChar(s[0]) && LastChar(s[|s| - 1]) &&
    forall i :: 1 <= i < |s| - 1 ==> InnerChar(s[i])
  }

  /** `^[a-zA-Z0-9_.][a-zA-Z0-9_.-]{0,30}[a-zA-Z0-9_.$-]$` as Python's `re.match`
      reads it: the final `$` also matches before one trailing newline. */
  predicate NameMatches(s: string)
  {
    Shaped(s) || (|s| > 0 && s[|s| - 1] == '\n' && Shaped(s[..|s| - 1]))
  }

  /** An accepted name has 2 to 32 characters besides a trailing newline, and
      it contains neither a quote nor a backslash, so the `'...'` literal it is
      written into reads back as the name. */
  lemma AcceptedNameIsLiteral(s: string)
    requires NameMatches(s)
    ensures 2 <= |s| <= 33
    ensures Unquote(s) == Some(s)
  {
    forall i | 0 <= i < |s|
      ensures s[i] != '\'' && s[i] != '\\'
    {
      if !Shaped(s) {
        assert i < |s| - 1 ==> s[i] == s[..|s| - 1][i];
      }
    }
    UnquoteVerbatim(s);
  }

  // ------------------------------------------------------------ specification

  /** A live `priv` value `set()` accepts: a list of scalars, or a string. */
  predicate PrivComparable(t: Tree)
  {
    (t.List? && forall x :: x in t.items ==> Scalar(x)) || t.Str?
  }

  /** `set(priv)` of the live value: a string is a set of one-character strings. */
  function PrivSet(t: Tree): set<Tree>
    requires PrivComparable(t)
  {
    if t.List? then Elements(t.items) else set i | 0 <= i < |t.s| :: Str([t.s[i]])
  }

  /** The two validations that come before the configuration is read. */
  predicate Admitted(args: Args, priv: seq<string>, valid: Validator)
    requires Arg(args, "name").Some?
  {
    var name := Arg(args, "name").value;
    valid("name", Str(name)) && NameMatches(name) && valid("priv", List(Strs(priv)))
  }

  /** The uncaught reads: the group list, a non-raising search, the gid source
      and, when present, the fields and `priv` of a found group. */
  predicate Readable(state: string, args: Args, system: Tree)
    requires Arg(args, "name").Some?
  {
    Has(system, "group") && Search(system.fields["group"], "name", Str(Arg(args, "name").value)).Done? &&
    var index := Search(system.fields["group"], "name", Str(Arg(args, "name").value)).index;
    (index.Blank? ==> Has(system, "nextgid") && (state == "present" ==> system.fields["nextgid"].Str?)) &&
    (index.At? ==>
      var rec := system.fields["group"].items[index.k];
      Has(rec, "gid") &&
      (state == "present" ==>
        Comparable(GroupStyle, index, rec, Given(args, Names)) && Has(rec, "priv") && PrivComparable(rec.fields["priv"])))
  }

  /** The module's preconditions: once both validations pass, the reads succeed. */
  predicate Runnable(state: string, args: Args, priv: seq<string>, system: Tree, valid: Validator)
  {
    Arg(args, "name").Some? && (Admitted(args, priv, valid) ==> Readable(state, args, system))
  }

  function Locate(state: string, args: Args, system: Tree): (index: Index)
    requires Arg(args, "name").Some? && Readable(state, args, system)
    ensures index.At? ==>
      system.fields["group"].List? && index.k < |system.fields["group"].items| &&
      FieldIs(system.fields["group"].items[index.k], "name", ArgTree(args, "name"))
  {
    Search(system.fields["group"], "name", Str(Arg(args, "name").value)).index
  }

  /** Everything after the gid is chosen, for a located group. */
  function Body(state: string, args: Args, priv: seq<string>, system: Tree, valid: Validator): Result<seq<Stmt>>
    requires Arg(args, "name").Some? && Readable(state, args, system)
  {
    var index := Locate(state, args, system);
    var rec := Found(system.fields["group"], index);
    if state == "present" then
      match FieldsPlan(GroupStyle, index, rec, Base(index), Given(args, Names), valid)
      case Err(e) => Err(e)
      case Ok(ss) =>
        if index.Blank? then
          Ok(ss + [Staged(GroupStyle, "gid", system.fields["nextgid"].s),
                   Assign(Ref("group", [Key("priv")]), false, Strings(priv)),
                   Append(GroupStyle, Base(index))])
        else if PrivSet(rec.fields["priv"]) != Elements(Strs(priv)) then
          Ok(ss + [Assign(Base(index).Field("priv"), false, Strings(priv))])
        else Ok(ss)
    else if state == "absent" then
      Ok(if index.At? then [Unset(Base(index))] else [])
    else
      Err(IncorrectState)
  }

  /** The statements as written: the gid counter is bumped whenever the group
      is not found, whatever the state. */
  function PlanAsWritten(state: string, args: Args, priv: seq<string>, system: Tree, valid: Validator): Result<seq<Stmt>>
    requires Runnable(state, args, priv, system, valid)
  {
    if !Admitted(args, priv, valid) then
      Err(Invalid(if valid("name", Str(Arg(args, "name").value)) && NameMatches(Arg(args, "name").value) then "priv" else "name"))
    else
      Prefixed(if Locate(state, args, system).Blank? then [Bump] else [],
               Body(state, args, priv, system, valid))
  }

  /** The statements: the gid counter is bumped only when a group is created. */
  function Plan(state: string, args: Args, priv: seq<string>, system: Tree, valid: Validator): Result<seq<Stmt>>
    requires Runnable(state, args, priv, system, valid)
  {
    if !Admitted(args, priv, valid) then
      Err(Invalid(if valid("name", Str(Arg(args, "name").value)) && NameMatches(Arg(args, "name").value) then "priv" else "name"))
    else
      Prefixed(if state == "present" && Locate(state, args, system).Blank? then [Bump] else [],
               Body(state, args, priv, system, valid))
  }

  /** The module run, with the gid counter bumped only on creation. */
  method Run(state: string, args: Args, priv: seq<string>, system: Tree, valid: Validator, checkMode: bool)
    returns (r: Result<Outcome>)
    requires Runnable(state, args, priv, system, valid)
    ensures r == Report(Plan(state, args, priv, system, valid), checkMode, Shared(""))
  {
    var name := Arg(args, "name").value;
    if !valid("name", Str(name)) || !NameMatches(name) {
      return Err(Invalid("name"));
    }
    if !valid("priv", List(Strs(priv))) {
      return Err(Invalid("priv"));
    }
    var index := Locate(state, args, system);
    var stmts: seq<Stmt> := [];
    var rec := Found(system.fields["group"], index);
    var base := Base(index);
    if state == "present" {
      if index.Blank? {
        stmts := [Bump];
      }
      var fields := ReconcileFields(GroupStyle, index, rec, base, Given(args, Names), valid);
      if fields.Err? {
        return Err(fields.error);
      }
      var tail: seq<Stmt> := [];
      if index.Blank? {
        tail := [Staged(GroupStyle, "gid", system.fields["nextgid"].s),
                 Assign(Ref("group", [Key("priv")]), false, Strings(priv)),
                 Append(GroupStyle, base)];
      } else if PrivSet(rec.fields["priv"]) != Elements(Strs(priv)) {
        tail := [Assign(base.Field("priv"), false, Strings(priv))];
      } else {
        assert fields.value + tail == fields.value;
      }
      assert Body(state, args, priv, system, valid) == Ok(fields.value + tail);
      stmts := stmts + (fields.value + tail);
    } else if state == "absent" {
      if index.At? {
        stmts := [Unset(base)];
      }
    } else {
      return Err(IncorrectState);
    }
    return Ok(Commit(checkMode, stmts, Shared("")));
  }

  // ------------------------------------------------------------------ properties

  /** A new group: the counter is bumped, the given fields are staged, the old
      counter value becomes its gid, its privileges are written and it is appended. */
  lemma NewGroupTakesNextGid(args: Args, priv: seq<string>, system: Tree, valid: Validator)
    requires Runnable("present", args, priv, system, valid) && Admitted(args, priv, valid)
    requires Locate("present", args, system).Blank?
    requires Plan("present", args, priv, system, valid).Ok?
    ensures Plan("present", args, priv, system, valid).value ==
      [Increment(Ref("config", [Key("system"), Key("nextgid")]))] + AllStaged(GroupStyle, Given(args, Names)) +
      [Assign(Ref("group", [Key("gid")]), false, Quoted(system.fields["nextgid"].s)),
       Assign(Ref("group", [Key("priv")]), false, Strings(priv)),
       Assign(Base(Blank), false, Var("group"))]
  {
    FieldsPlanFails(GroupStyle, Blank, Null, Base(Blank), Given(args, Names), valid);
    NotFoundStagesAll(GroupStyle, Null, Base(Blank), Given(args, Names), valid);
  }

  /** An existing group: the differing fields are set, and `priv` is rewritten
      exactly when its set of privileges differs. */
  lemma ExistingGroupSetsDiffering(args: Args, priv: seq<string>, system: Tree, valid: Validator)
    requires Runnable("present", args, priv, system, valid) && Admitted(args, priv, valid)
    requires Locate("present", args, system).At?
    requires Plan("present", args, priv, system, valid).Ok?
    ensures var index := Locate("present", args, system);
      var rec := system.fields["group"].items[index.k];
      Plan("present", args, priv, system, valid).value ==
        Differing(GroupStyle, rec, Base(index), Given(args, Names)) +
        (if PrivSet(rec.fields["priv"]) != Elements(Strs(priv)) then [Assign(Base(index).Field("priv"), false, Strings(priv))] else [])
  {
    var index := Locate("present", args, system);
    var rec := system.fields["group"].items[index.k];
    FieldsPlanFails(GroupStyle, index, rec, Base(index), Given(args, Names), valid);
    FoundSetsDiffering(GroupStyle, index.k, rec, Base(index), Given(args, Names), valid);
    var ss := FieldsPlan(GroupStyle, index, rec, Base(index), Given(args, Names), valid).value;
    assert ss + [] == ss;
  }

  /** An existing group needs no statement exactly when its given fields hold
      their values and its privileges are the same set. */
  lemma ExistingGroupQuietIffSame(args: Args, priv: seq<string>, system: Tree, valid: Validator)
    requires Runnable("present", args, priv, system, valid) && Admitted(args, priv, valid)
    requires Locate("present", args, system).At?
    requires Plan("present", args, priv, system, valid).Ok?
    ensures var rec := system.fields["group"].items[Locate("present", args, system).k];
      Plan("present", args, priv, system, valid).value == [] <==>
        (forall i :: 0 <= i < |Names| && Arg(args, Names[i]).Some? ==> Same(rec, Names[i], Arg(args, Names[i]).value)) &&
        PrivSet(rec.fields["priv"]) == Elements(Strs(priv))
  {
    var index := Locate("present", args, system);
    var rec := system.fields["group"].items[index.k];
    ExistingGroupSetsDiffering(args, priv, system, valid);
    DifferingEmptyIffSame(GroupStyle, rec, Base(index), Given(args, Names));
  }

  /** Removal: unset exactly when the group exists, and nothing otherwise. */
  lemma AbsentUnsetsIffFound(args: Args, priv: seq<string>, system: Tree, valid: Validator)
    requires Runnable("absent", args, priv, system, valid) && Admitted(args, priv, valid)
    ensures var index := Locate("absent", args, system);
      Plan("absent", args, priv, system, valid) == Ok(if index.At? then [Unset(Base(index))] else [])
  {
  }

  /** As written, removing a group that does not exist still bumps the gid
      counter, so such a run always writes and reports a change. */
  lemma AsWrittenAbsentMissingBumps(args: Args, priv: seq<string>, system: Tree, valid: Validator, checkMode: bool)
    requires Runnable("absent", args, priv, system, valid) && Admitted(args, priv, valid)
    requires Locate("absent", args, system).Blank?
    ensures PlanAsWritten("absent", args, priv, system, valid) == Ok([Bump])
    ensures Report(PlanAsWritten("absent", args, priv, system, valid), checkMode, Shared("")).value.changed == !checkMode
    ensures Plan("absent", args, priv, system, valid) == Ok([])
  {
    assert [Bump] + [] == [Bump];
  }

  /** The two plans differ only for the removal of a group that does not exist. */
  lemma AsWrittenDiffersOnlyThere(state: string, args: Args, priv: seq<string>, system: Tree, valid: Validator)
    requires Runnable(state, args, priv, system, valid)
    requires !(state == "absent" && Admitted(args, priv, valid) && Locate(state, args, system).Blank?)
    ensures PlanAsWritten(state, args, priv, system, valid) == Plan(state, args, priv, system, valid)
  {
  }
}

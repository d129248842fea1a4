/** pfsense_password: the password and authorized keys of an existing user in
    `$config['system']['user']`. The module has no check mode. */
module Password {
  import opened ConfigTree
  import opened Php
  import opened Shell
  import opened Records

  /** The fields, in the module's order. */
  const Names: seq<string> := ["password", "authorizedkeys"]

  /** Fields are set in place only; a missing field counts as differing. */
  const UserStyle := Style("user", false, false, CountsAsDiffering)

  /** `$config['system']['user'][index]` */
  function Base(index: Index): Ref
  {
    Ref("config", [Key("system"), Key("user"), Idx(index)])
  }

  /** `local_user_set_password(<user>, '<password>');` */
  function SetPassword(index: Index, password: string): Stmt
  {
    Call("local_user_set_password(" + RefText(Base(index)) + ", '" + password + "');")
  }

  /** The statement the write request runs after `write_config()`. */
  function Post(index: Index): string
  {
    "local_user_set(" + RefText(Base(index)) + ");"
  }

  /** The user list and a non-raising search are not caught. */
  predicate Searchable(system: Tree, args: Args)
  {
    Arg(args, "username").Some? && Arg(args, "password").Some? &&
    Has(system, "user") && Search(system.fields["user"], "name", ArgTree(args, "username")).Done?
  }

  function Locate(system: Tree, args: Args): (index: Index)
    requires Searchable(system, args)
    ensures index.At? ==>
      system.fields["user"].List? && index.k < |system.fields["user"].items| &&
      FieldIs(system.fields["user"].items[index.k], "name", ArgTree(args, "username"))
  {
    Search(system.fields["user"], "name", ArgTree(args, "username")).index
  }

  /** The field statements for a found user. */
  function Plan(system: Tree, args: Args): Result<seq<Stmt>>
    requires Searchable(system, args)
  {
    var index := Locate(system, args);
    if index.Blank? then Err(UserNotFound(Arg(args, "username").value))
    else FieldsPlan(UserStyle, index, system.fields["user"].items[index.k], Base(index), Given(args, Names), AcceptAll)
  }

  /** The reported code is the field statements; the write request adds the
      password call to them and runs `local_user_set` afterwards. */
  function Finished(index: Index, password: string, ss: seq<Stmt>): (o: Outcome)
    ensures o.phpcode == Script(ss)
    ensures o.changed <==> ss != []
    ensures o.request.Some? <==> o.changed
    ensures o.request.Some? ==> o.request.value == WriteRequest(Script(ss + [SetPassword(index, password)]), Post(index))
  {
    Outcome(Script(ss), if ss != [] then Some(WriteRequest(Script(ss + [SetPassword(index, password)]), Post(index))) else None, ss != [])
  }

  /** The module run. */
  method Run(system: Tree, args: Args) returns (r: Result<Outcome>)
    requires Searchable(system, args)
    ensures Plan(system, args).Err? ==> r == Err(Plan(system, args).error)
    ensures Plan(system, args).Ok? ==> r == Ok(Finished(Locate(system, args), Arg(args, "password").value, Plan(system, args).value))
  {
    var index := Locate(system, args);
    if index.Blank? {
      return Err(UserNotFound(Arg(args, "username").value));
    }
    var fields := ReconcileFields(UserStyle, index, system.fields["user"].items[index.k], Base(index), Given(args, Names), AcceptAll);
    if fields.Err? {
      return Err(fields.error);
    }
    return Ok(Finished(index, Arg(args, "password").value, fields.value));
  }

  // ------------------------------------------------------------------ properties

  /** An unknown user is an error, and a known one always gets a plan. */
  lemma FailsIffUnknownUser(system: Tree, args: Args)
    requires Searchable(system, args)
    ensures Plan(system, args).Err? <==> Locate(system, args).Blank?
    ensures Plan(system, args).Err? ==> Plan(system, args).error == UserNotFound(Arg(args, "username").value)
  {
    var index := Locate(system, args);
    if index.At? {
      FieldsPlanFails(UserStyle, index, system.fields["user"].items[index.k], Base(index), Given(args, Names), AcceptAll);
    }
  }

  /** A known user: exactly the fields that differ are set, and the run
      changes something exactly when one does. */
  lemma KnownUserSetsDiffering(system: Tree, args: Args)
    requires Searchable(system, args) && Locate(system, args).At?
    ensures var index := Locate(system, args);
      var rec := system.fields["user"].items[index.k];
      Plan(system, args) == Ok(Differing(UserStyle, rec, Base(index), Given(args, Names))) &&
      (Finished(index, Arg(args, "password").value, Plan(system, args).value).changed <==>
        exists i :: 0 <= i < |Names| && Arg(args, Names[i]).Some? && !Same(rec, Names[i], Arg(args, Names[i]).value))
  {
    var index := Locate(system, args);
    var rec := system.fields["user"].items[index.k];
    FailsIffUnknownUser(system, args);
    FoundSetsDiffering(UserStyle, index.k, rec, Base(index), Given(args, Names), AcceptAll);
    DifferingEmptyIffSame(UserStyle, rec, Base(index), Given(args, Names));
  }

  /** The password call is sent after the field statements but is not part of
      the reported code. */
  lemma PasswordCallIsNotReported(index: Index, password: string, ss: seq<Stmt>)
    requires ss != []
    ensures Finished(index, password, ss).request.value ==
      WriteRequest(Finished(index, password, ss).phpcode + Text(SetPassword(index, password)), Post(index))
  {
    var call := SetPassword(index, password);
    ScriptAppend(ss, [call]);
    assert Script([call]) == Text(call) + Script([]);
    assert Script(ss + [call]) == Script(ss) + Text(call);
  }
}

/** The pattern the record-list modules share (aliases, authserver, cert, group,
    virtualip, password): a record is located by an identity field; when there is
    none its fields are staged into a PHP temporary that is then appended, and when
    there is one a set statement is emitted for each field that differs. */
module Records {
  import opened ConfigTree
  import opened Php
  import opened Shell

  /** How a module treats a field the found record lacks. */
  datatype Missing =
    | CountsAsDiffering  // `not p in rec or rec[p] != v`
    | MustExist          // `rec[p] != v`, which raises when p is missing

  /** How a module writes its field statements: the temporary's name, whether the
      assignment is written ` = ` or `=`, whether each value is validated first. */
  datatype Style = Style(temp: string, spaced: bool, validated: bool, missing: Missing)

  /** The fields a module walks, in its order, each with the parameter's value
      when it is a string and None otherwise. */
  type Fields = seq<(string, Option<string>)>

  /** `$temp['p']='v';` */
  function Staged(st: Style, p: string, v: string): Stmt
  {
    Assign(Ref(st.temp, [Key(p)]), st.spaced, Quoted(v))
  }

  /** `base['p']='v';` */
  function SetField(st: Style, base: Ref, p: string, v: string): Stmt
  {
    Assign(base.Field(p), st.spaced, Quoted(v))
  }

  /** `base=$temp;`: with the sentinel index this is PHP's append. */
  function Append(st: Style, base: Ref): Stmt
  {
    Assign(base, false, Var(st.temp))
  }

  /** The record `search` found, or nothing for the sentinel. */
  function Found(elements: Tree, index: Index): (r: Tree)
    requires index.At? ==> elements.List? && index.k < |elements.items|
    ensures index.At? ==> r == elements.items[index.k]
  {
    if index.At? then elements.items[index.k] else Null
  }

  /** The found record's field already holds the desired string. */
  predicate Same(rec: Tree, p: string, v: string)
  {
    FieldIs(rec, p, Str(v))
  }

  /** Comparing a field the record lacks would raise where the module does not
      check for it. */
  predicate Comparable(st: Style, index: Index, rec: Tree, fs: Fields)
  {
    index.At? && st.missing.MustExist? ==> forall i :: 0 <= i < |fs| && fs[i].1.Some? ==> Has(rec, fs[i].0)
  }

  /** Statements emitted before a step that may still fail. */
  function Prefixed(ss: seq<Stmt>, r: Result<seq<Stmt>>): (t: Result<seq<Stmt>>)
    ensures r.Err? ==> t == r
    ensures r.Ok? ==> t == Ok(ss + r.value)
    ensures ss == [] ==> t == r
  {
    match r
    case Err(e) => Err(e)
    case Ok(rest) => assert ss == [] ==> ss + rest == rest; Ok(ss + rest)
  }

  lemma PrefixedPrefixed(a: seq<Stmt>, b: seq<Stmt>, r: Result<seq<Stmt>>)
    ensures Prefixed(a, Prefixed(b, r)) == Prefixed(a + b, r)
  {
    if r.Ok? {
      assert a + (b + r.value) == (a + b) + r.value;
    }
  }

  /** One given field. */
  function FieldStep(st: Style, index: Index, rec: Tree, base: Ref, p: string, v: string,
                     valid: Validator): Result<seq<Stmt>>
  {
    if st.validated && !valid(p, Str(v)) then Err(Invalid(p))
    else if index.Blank? then Ok([Staged(st, p, v)])
    else if Same(rec, p, v) then Ok([])
    else Ok([SetField(st, base, p, v)])
  }

  /** The field loop, in order; a field whose parameter is not a string is skipped. */
  function FieldsPlan(st: Style, index: Index, rec: Tree, base: Ref, fs: Fields, valid: Validator): Result<seq<Stmt>>
    decreases |fs|
  {
    if fs == [] then Ok([])
    else if fs[0].1.None? then FieldsPlan(st, index, rec, base, fs[1..], valid)
    else
      match FieldStep(st, index, rec, base, fs[0].0, fs[0].1.value, valid)
      case Err(e) => Err(e)
      case Ok(t) => Prefixed(t, FieldsPlan(st, index, rec, base, fs[1..], valid))
  }

  /** The field loop as the modules write it. */
  method ReconcileFields(st: Style, index: Index, rec: Tree, base: Ref, fs: Fields, valid: Validator)
    returns (r: Result<seq<Stmt>>)
    requires Comparable(st, index, rec, fs)
    ensures r == FieldsPlan(st, index, rec, base, fs, valid)
  {
    var stmts: seq<Stmt> := [];
    var i := 0;
    assert fs[i..] == fs;
    while i < |fs|
      invariant 0 <= i <= |fs|
      invariant FieldsPlan(st, index, rec, base, fs, valid) == Prefixed(stmts, FieldsPlan(st, index, rec, base, fs[i..], valid))
    {
      assert fs[i..][0] == fs[i] && fs[i..][1..] == fs[i + 1..];
      var p := fs[i].0;
      var delta: seq<Stmt> := [];
      if fs[i].1.Some? {
        var v := fs[i].1.value;
        if st.validated && !valid(p, Str(v)) {
          return Err(Invalid(p));
        }
        if index.Blank? {
          delta := [Staged(st, p, v)];
        } else if !Same(rec, p, v) {
          delta := [SetField(st, base, p, v)];
        }
        assert FieldStep(st, index, rec, base, p, v, valid) == Ok(delta);
      }
      assert FieldsPlan(st, index, rec, base, fs[i..], valid) == Prefixed(delta, FieldsPlan(st, index, rec, base, fs[i + 1..], valid));
      PrefixedPrefixed(stmts, delta, FieldsPlan(st, index, rec, base, fs[i + 1..], valid));
      stmts := stmts + delta;
      i := i + 1;
    }
    assert fs[i..] == [] && stmts + [] == stmts;
    return Ok(stmts);
  }

  // ---------------------------------------------------------------- reference

  /** Every given field passes validate (when the module validates). */
  predicate Accepted(st: Style, fs: Fields, valid: Validator)
  {
    forall i :: 0 <= i < |fs| && fs[i].1.Some? ==> !st.validated || valid(fs[i].0, Str(fs[i].1.value))
  }

  /** The staging statement of every given field, in order. */
  function AllStaged(st: Style, fs: Fields): seq<Stmt>
  {
    if fs == [] then []
    else (if fs[0].1.Some? then [Staged(st, fs[0].0, fs[0].1.value)] else []) + AllStaged(st, fs[1..])
  }

  /** The set statement of every given field that differs from the record, in order. */
  function Differing(st: Style, rec: Tree, base: Ref, fs: Fields): seq<Stmt>
  {
    if fs == [] then []
    else
      (if fs[0].1.Some? && !Same(rec, fs[0].0, fs[0].1.value) then [SetField(st, base, fs[0].0, fs[0].1.value)] else [])
      + Differing(st, rec, base, fs[1..])
  }

  /** The field loop fails exactly when validate refuses a given field, and then
      with the first refused one. */
  lemma {:induction false} FieldsPlanFails(st: Style, index: Index, rec: Tree, base: Ref, fs: Fields, valid: Validator)
    ensures FieldsPlan(st, index, rec, base, fs, valid).Ok? <==> Accepted(st, fs, valid)
    ensures FieldsPlan(st, index, rec, base, fs, valid).Err? ==>
      exists i :: 0 <= i < |fs| && fs[i].1.Some? && st.validated && !valid(fs[i].0, Str(fs[i].1.value)) &&
        FieldsPlan(st, index, rec, base, fs, valid) == Err(Invalid(fs[i].0)) &&
        Accepted(st, fs[..i], valid)
    decreases |fs|
  {
    if fs != [] {
      FieldsPlanFails(st, index, rec, base, fs[1..], valid);
      assert forall i :: 1 <= i < |fs| ==> fs[i] == fs[1..][i - 1];
      var r := FieldsPlan(st, index, rec, base, fs, valid);
      if r.Err? {
        if fs[0].1.Some? && st.validated && !valid(fs[0].0, Str(fs[0].1.value)) {
          assert fs[..0] == [];
        } else {
          var i :| 0 <= i < |fs[1..]| && fs[1..][i].1.Some? && st.validated && !valid(fs[1..][i].0, Str(fs[1..][i].1.value)) &&
            FieldsPlan(st, index, rec, base, fs[1..], valid) == Err(Invalid(fs[1..][i].0)) &&
            Accepted(st, fs[1..][..i], valid);
          assert fs[..i + 1][1..] == fs[1..][..i];
          assert fs[1..][i] == fs[i + 1];
        }
      }
    }
  }

  /** Not found: every given field is staged, in order. */
  lemma {:induction false} NotFoundStagesAll(st: Style, rec: Tree, base: Ref, fs: Fields, valid: Validator)
    requires FieldsPlan(st, Blank, rec, base, fs, valid).Ok?
    ensures FieldsPlan(st, Blank, rec, base, fs, valid).value == AllStaged(st, fs)
    decreases |fs|
  {
    if fs != [] {
      NotFoundStagesAll(st, rec, base, fs[1..], valid);
    }
  }

  /** Found: exactly the given fields that differ get a set statement, in order. */
  lemma {:induction false} FoundSetsDiffering(st: Style, k: nat, rec: Tree, base: Ref, fs: Fields, valid: Validator)
    requires FieldsPlan(st, At(k), rec, base, fs, valid).Ok?
    ensures FieldsPlan(st, At(k), rec, base, fs, valid).value == Differing(st, rec, base, fs)
    decreases |fs|
  {
    if fs != [] {
      FieldsPlanFails(st, At(k), rec, base, fs, valid);
      FieldsPlanFails(st, At(k), rec, base, fs[1..], valid);
      assert forall i :: 1 <= i < |fs| ==> fs[i] == fs[1..][i - 1];
      FoundSetsDiffering(st, k, rec, base, fs[1..], valid);
    }
  }

  /** The found record needs no statement exactly when every given field already
      holds its value. */
  lemma {:induction false} DifferingEmptyIffSame(st: Style, rec: Tree, base: Ref, fs: Fields)
    ensures Differing(st, rec, base, fs) == [] <==>
      forall i :: 0 <= i < |fs| && fs[i].1.Some? ==> Same(rec, fs[i].0, fs[i].1.value)
    decreases |fs|
  {
    if fs != [] {
      DifferingEmptyIffSame(st, rec, base, fs[1..]);
      assert forall i :: 1 <= i < |fs| ==> fs[i] == fs[1..][i - 1];
    }
  }

  /** `[(p, params[p]) for p in names]`, where only strings count. */
  function Given(args: Args, names: seq<string>): (fs: Fields)
    ensures |fs| == |names|
    ensures forall i :: 0 <= i < |names| ==> fs[i] == (names[i], Arg(args, names[i]))
  {
    if names == [] then [] else [(names[0], Arg(args, names[0]))] + Given(args, names[1..])
  }

  /** What a module reports for a plan: its failure, or the committed outcome. */
  function Report(plan: Result<seq<Stmt>>, checkMode: bool, w: Writer): (r: Result<Outcome>)
    ensures plan.Err? ==> r == Err(plan.error)
    ensures plan.Ok? ==> r == Ok(Commit(checkMode, plan.value, w))
  {
    match plan
    case Err(e) => Err(e)
    case Ok(ss) => Ok(Commit(checkMode, ss, w))
  }

  /** For a module that does not validate its fields. */
  function AcceptAll(name: string, value: Tree): bool
  {
    true
  }
}

/** pfsense_filter_rules: one firewall rule in `$config['filter']['rule']`,
    located by its tracker. The rule is always assembled in `$rule`; when
    anything differs it replaces (or is appended as) the rule. */
module FilterRules {
  import opened ConfigTree
  import opened Php
  import opened Shell
  import opened Records

  /** Written on every run. */
  const Core: seq<string> := ["type", "tracker", "ipprotocol", "interface", "direction", "statetype"]

  /** Written when given. */
  const Optional: seq<string> := ["descr", "log", "disabled", "quick", "floating", "protocol", "icmptype"]

  /** `$rule['p'] = 'v';`; a missing field of the found rule raises. */
  const RuleStyle := Style("rule", true, false, MustExist)

  /** `$config['filter']['rule'][index]` */
  function Base(index: Index): Ref
  {
    Ref("config", [Key("filter"), Key("rule"), Idx(index)])
  }

  /** `$rule['p'] = [<body>];`, where `render` is the `'key'=>%r` join of a dict. */
  function Endpoint(p: string, value: Tree, render: Tree -> string): Stmt
  {
    Assign(Ref("rule", [Key(p)]), true, Code("[" + render(value) + "]"))
  }

  /** The ICMP type only matters for the icmp protocol: with another protocol given it is dropped. */
  function Effective(args: Args): (a: Args)
    ensures Arg(args, "protocol").Some? && Arg(args, "protocol").value != "icmp" ==> Arg(a, "icmptype").None?
    ensures forall p :: p != "icmptype" ==> Arg(a, p) == Arg(args, p)
  {
    if Arg(args, "protocol").Some? && Arg(args, "protocol").value != "icmp" then args["icmptype" := None] else args
  }

  /** A given field differs when there is no rule or the rule holds another value. */
  predicate Differs(index: Index, rec: Tree, p: string, v: string)
  {
    index.Blank? || !Same(rec, p, v)
  }

  /** One field loop: the staged statements and whether any given field
      differs. With `all` every given field is staged, otherwise only the
      differing ones. */
  function Stage(fs: Fields, index: Index, rec: Tree, all: bool): (seq<Stmt>, bool)
    decreases |fs|
  {
    if fs == [] then ([], false)
    else
      var d := fs[0].1.Some? && Differs(index, rec, fs[0].0, fs[0].1.value);
      var here := if fs[0].1.Some? && (all || d) then [Staged(RuleStyle, fs[0].0, fs[0].1.value)] else [];
      var rest := Stage(fs[1..], index, rec, all);
      (here + rest.0, d || rest.1)
  }

  /** Two loop results one after the other. */
  function Join(a: (seq<Stmt>, bool), b: (seq<Stmt>, bool)): (seq<Stmt>, bool)
  {
    (a.0 + b.0, a.1 || b.1)
  }

  lemma JoinJoin(a: (seq<Stmt>, bool), b: (seq<Stmt>, bool), c: (seq<Stmt>, bool))
    ensures Join(a, Join(b, c)) == Join(Join(a, b), c)
  {
    assert a.0 + (b.0 + c.0) == (a.0 + b.0) + c.0;
  }

  /** A field loop as the module writes it. */
  method StageFields(fs: Fields, index: Index, rec: Tree, all: bool) returns (ss: seq<Stmt>, diff: bool)
    ensures (ss, diff) == Stage(fs, index, rec, all)
  {
    ss, diff := [], false;
    var i := 0;
    assert fs[i..] == fs;
    assert [] + Stage(fs, index, rec, all).0 == Stage(fs, index, rec, all).0;
    while i < |fs|
      invariant 0 <= i <= |fs|
      invariant Stage(fs, index, rec, all) == Join((ss, diff), Stage(fs[i..], index, rec, all))
    {
      assert fs[i..][0] == fs[i] && fs[i..][1..] == fs[i + 1..];
      var here: seq<Stmt> := [];
      var d := false;
      if fs[i].1.Some? {
        var p, v := fs[i].0, fs[i].1.value;
        d := Differs(index, rec, p, v);
        if all || d {
          here := [Staged(RuleStyle, p, v)];
        }
      }
      assert Stage(fs[i..], index, rec, all) == Join((here, d), Stage(fs[i + 1..], index, rec, all));
      JoinJoin((ss, diff), (here, d), Stage(fs[i + 1..], index, rec, all));
      ss, diff := ss + here, diff || d;
      i := i + 1;
    }
    assert fs[i..] == [] && ss + [] == ss;
  }

  /** What a run computes: the statements and whether they are written. */
  datatype Rule = Rule(stmts: seq<Stmt>, write: bool)

  /** The rule list, a non-raising search, string core fields and, for a found
      rule, every field it is compared on; none of these reads is caught. */
  predicate Readable(state: string, args: Args, cfg: Tree)
  {
    Has(cfg, "rule") && Search(cfg.fields["rule"], "tracker", ArgTree(args, "tracker")).Done? &&
    (state == "present" ==>
      (forall i :: 0 <= i < |Core| ==> Arg(args, Core[i]).Some?) &&
      var index := Search(cfg.fields["rule"], "tracker", ArgTree(args, "tracker")).index;
      (index.At? ==>
        var rec := cfg.fields["rule"].items[index.k];
        Has(rec, "source") && Has(rec, "destination") &&
        Comparable(RuleStyle, index, rec, Given(Effective(args), Core)) &&
        Comparable(RuleStyle, index, rec, Given(Effective(args), Optional))))
  }

  function Locate(state: string, args: Args, cfg: Tree): (index: Index)
    requires Readable(state, args, cfg)
    ensures index.At? ==>
      cfg.fields["rule"].List? && index.k < |cfg.fields["rule"].items| &&
      FieldIs(cfg.fields["rule"].items[index.k], "tracker", ArgTree(args, "tracker"))
  {
    Search(cfg.fields["rule"], "tracker", ArgTree(args, "tracker")).index
  }

  /** The statements and the write decision. As written, unchanged optional
      fields of an existing rule are left out of `$rule`, and a removal is
      never written; corrected, every given optional field is staged and a
      removal is written. */
  function Plan(state: string, args: Args, source: Tree, destination: Tree, cfg: Tree,
                render: Tree -> string, asWritten: bool): Result<Rule>
    requires Readable(state, args, cfg)
  {
    var index := Locate(state, args, cfg);
    var rec := Found(cfg.fields["rule"], index);
    if state == "present" then
      var a := Effective(args);
      var ends := index.Blank? || source != rec.fields["source"] || destination != rec.fields["destination"];
      var fields := Join(Stage(Given(a, Core), index, rec, true), Stage(Given(a, Optional), index, rec, !asWritten));
      var diff := ends || fields.1;
      Ok(Rule(fields.0 + (if diff then [Endpoint("source", source, render), Endpoint("destination", destination, render),
                                         Append(RuleStyle, Base(index))] else []), diff))
    else if state == "absent" then
      Ok(Rule(if index.At? then [Unset(Base(index))] else [], !asWritten && index.At?))
    else Err(IncorrectState)
  }

  /** The module run, corrected; its write goes through the module's own request. */
  method Run(state: string, args: Args, source: Tree, destination: Tree, cfg: Tree,
             render: Tree -> string, checkMode: bool) returns (r: Result<Outcome>)
    requires Readable(state, args, cfg)
    ensures Plan(state, args, source, destination, cfg, render, false).Err? ==>
      r == Err(Plan(state, args, source, destination, cfg, render, false).error)
    ensures Plan(state, args, source, destination, cfg, render, false).Ok? ==>
      var rule := Plan(state, args, source, destination, cfg, render, false).value;
      r == Ok(Finish(checkMode, rule.stmts, rule.write, Local(FilterSuffix)))
  {
    var index := Locate(state, args, cfg);
    var rec := Found(cfg.fields["rule"], index);
    var base := Base(index);
    var stmts: seq<Stmt> := [];
    var diff := false;
    if state == "present" {
      var a := Effective(args);
      if index.Blank? || source != rec.fields["source"] || destination != rec.fields["destination"] {
        diff := true;
      }
      var coreStmts, coreDiff := StageFields(Given(a, Core), index, rec, true);
      var optStmts, optDiff := StageFields(Given(a, Optional), index, rec, true);
      stmts := coreStmts + optStmts;
      diff := diff || coreDiff || optDiff;
      if diff {
        stmts := stmts + [Endpoint("source", source, render), Endpoint("destination", destination, render), Append(RuleStyle, base)];
      } else {
        assert stmts == coreStmts + optStmts + [];
      }
    } else if state == "absent" {
      if index.At? {
        stmts := [Unset(base)];
        diff := true;
      }
    } else {
      return Err(IncorrectState);
    }
    return Ok(Finish(checkMode, stmts, diff, Local(FilterSuffix)));
  }

  // ------------------------------------------------------------------ properties

  /** A field loop reports a difference exactly when some given field differs,
      and stages every given field when asked to, or exactly the differing ones. */
  lemma {:induction false} StageMeaning(fs: Fields, index: Index, rec: Tree, all: bool)
    ensures Stage(fs, index, rec, all).1 <==>
      exists i :: 0 <= i < |fs| && fs[i].1.Some? && Differs(index, rec, fs[i].0, fs[i].1.value)
    ensures all ==> Stage(fs, index, rec, all).0 == AllStaged(RuleStyle, fs)
    ensures forall s :: s in Stage(fs, index, rec, all).0 <==>
      exists i :: 0 <= i < |fs| && fs[i].1.Some? && (all || Differs(index, rec, fs[i].0, fs[i].1.value)) &&
        s == Staged(RuleStyle, fs[i].0, fs[i].1.value)
    decreases |fs|
  {
    if fs != [] {
      StageMeaning(fs[1..], index, rec, all);
      assert forall i :: 1 <= i < |fs| ==> fs[i] == fs[1..][i - 1];
    }
  }

  /** A new rule is always written: its fields, both endpoints and the append. */
  lemma NewRuleIsAppended(args: Args, source: Tree, destination: Tree, cfg: Tree, render: Tree -> string)
    requires Readable("present", args, cfg) && Locate("present", args, cfg).Blank?
    ensures var rule := Plan("present", args, source, destination, cfg, render, false).value;
      rule.write &&
      rule.stmts == AllStaged(RuleStyle, Given(Effective(args), Core)) + AllStaged(RuleStyle, Given(Effective(args), Optional)) +
        [Endpoint("source", source, render), Endpoint("destination", destination, render),
         Assign(Ref("config", [Key("filter"), Key("rule"), Idx(Blank)]), false, Var("rule"))]
  {
    StageMeaning(Given(Effective(args), Core), Blank, Null, true);
    StageMeaning(Given(Effective(args), Optional), Blank, Null, true);
  }

  /** An existing rule is written exactly when an endpoint or a given field
      differs from it. */
  lemma ExistingRuleWrittenIffDiffers(args: Args, source: Tree, destination: Tree, cfg: Tree,
                                      render: Tree -> string, asWritten: bool)
    requires Readable("present", args, cfg) && Locate("present", args, cfg).At?
    ensures var rec := cfg.fields["rule"].items[Locate("present", args, cfg).k];
      var a := Effective(args);
      Plan("present", args, source, destination, cfg, render, asWritten).value.write <==>
        source != rec.fields["source"] || destination != rec.fields["destination"] ||
        (exists i :: 0 <= i < |Core| && !Same(rec, Core[i], Arg(a, Core[i]).value)) ||
        (exists i :: 0 <= i < |Optional| && Arg(a, Optional[i]).Some? && !Same(rec, Optional[i], Arg(a, Optional[i]).value))
  {
    var index := Locate("present", args, cfg);
    var rec := cfg.fields["rule"].items[index.k];
    StageMeaning(Given(Effective(args), Core), index, rec, true);
    StageMeaning(Given(Effective(args), Optional), index, rec, !asWritten);
  }

  /** As written, removing an existing rule emits the unset but never writes
      it, so the removal has no effect and reports no change. */
  lemma AsWrittenRemovalNeverWritten(args: Args, source: Tree, destination: Tree, cfg: Tree,
                                     render: Tree -> string, checkMode: bool)
    requires Readable("absent", args, cfg) && Locate("absent", args, cfg).At?
    ensures var rule := Plan("absent", args, source, destination, cfg, render, true).value;
      rule.stmts == [Unset(Base(Locate("absent", args, cfg)))] &&
      !Finish(checkMode, rule.stmts, rule.write, Local(FilterSuffix)).changed &&
      Finish(checkMode, rule.stmts, rule.write, Local(FilterSuffix)).request.None?
  {
  }

  /** Corrected, removing an existing rule is written and reports a change
      outside check mode; removing a missing rule does nothing. */
  lemma RemovalWrittenIffFound(args: Args, source: Tree, destination: Tree, cfg: Tree,
                               render: Tree -> string, checkMode: bool)
    requires Readable("absent", args, cfg)
    ensures var rule := Plan("absent", args, source, destination, cfg, render, false).value;
      rule.stmts == (if Locate("absent", args, cfg).At? then [Unset(Base(Locate("absent", args, cfg)))] else []) &&
      (Finish(checkMode, rule.stmts, rule.write, Local(FilterSuffix)).changed <==> !checkMode && Locate("absent", args, cfg).At?)
  {
  }

  /** A field absent from a loop's names is never staged by it. */
  lemma {:induction false} OtherKeyNotStaged(fs: Fields, index: Index, rec: Tree, all: bool, p: string, v: string)
    requires forall i :: 0 <= i < |fs| ==> fs[i].0 != p
    ensures Staged(RuleStyle, p, v) !in Stage(fs, index, rec, all).0
    decreases |fs|
  {
    if fs != [] {
      assert fs[0].0 != p;
      assert forall i :: 1 <= i < |fs| ==> fs[i] == fs[1..][i - 1];
      OtherKeyNotStaged(fs[1..], index, rec, all, p, v);
    }
  }

  /** With distinct names, a field that holds its value is not staged when
      only differing fields are. */
  lemma {:induction false} SameNotStaged(fs: Fields, index: Index, rec: Tree, j: nat)
    requires j < |fs| && fs[j].1.Some? && index.At? && Same(rec, fs[j].0, fs[j].1.value)
    requires forall i, k :: 0 <= i < k < |fs| ==> fs[i].0 != fs[k].0
    ensures Staged(RuleStyle, fs[j].0, fs[j].1.value) !in Stage(fs, index, rec, false).0
    decreases |fs|
  {
    assert forall i :: 1 <= i < |fs| ==> fs[i] == fs[1..][i - 1];
    if j == 0 {
      OtherKeyNotStaged(fs[1..], index, rec, false, fs[0].0, fs[0].1.value);
    } else {
      SameNotStaged(fs[1..], index, rec, j - 1);
    }
  }

  /** The two field lists share no name, and no name repeats. */
  lemma FieldNamesDistinct()
    ensures forall i, j :: 0 <= i < |Core| && 0 <= j < |Optional| ==> Core[i] != Optional[j]
    ensures forall i, k :: 0 <= i < k < |Optional| ==> Optional[i] != Optional[k]
  {
  }

  /** As written, updating an existing rule leaves out of `$rule` a given
      optional field whose value is unchanged, and `$rule` then replaces the
      rule, so the field is lost. Corrected, it is staged. */
  lemma AsWrittenUpdateDropsUnchanged(args: Args, source: Tree, destination: Tree, cfg: Tree,
                                      render: Tree -> string, j: nat)
    requires Readable("present", args, cfg) && Locate("present", args, cfg).At?
    requires j < |Optional| && Arg(Effective(args), Optional[j]).Some?
    requires Same(cfg.fields["rule"].items[Locate("present", args, cfg).k], Optional[j], Arg(Effective(args), Optional[j]).value)
    requires Plan("present", args, source, destination, cfg, render, true).value.write
    ensures var index := Locate("present", args, cfg);
      var lost := Staged(RuleStyle, Optional[j], Arg(Effective(args), Optional[j]).value);
      var asWritten := Plan("present", args, source, destination, cfg, render, true).value.stmts;
      var corrected := Plan("present", args, source, destination, cfg, render, false).value.stmts;
      Append(RuleStyle, Base(index)) in asWritten && lost !in asWritten && lost in corrected
  {
    var index := Locate("present", args, cfg);
    var rec := cfg.fields["rule"].items[index.k];
    var a := Effective(args);
    var v := Arg(a, Optional[j]).value;
    var lost := Staged(RuleStyle, Optional[j], v);
    var core := Given(a, Core);
    var opt := Given(a, Optional);
    FieldNamesDistinct();
    OtherKeyNotStaged(core, index, rec, true, Optional[j], v);
    SameNotStaged(opt, index, rec, j);
    StageMeaning(opt, index, rec, true);
    var tail := [Endpoint("source", source, render), Endpoint("destination", destination, render), Append(RuleStyle, Base(index))];
    assert lost !in tail;
    var asWritten := Plan("present", args, source, destination, cfg, render, true).value.stmts;
    assert asWritten == Stage(core, index, rec, true).0 + Stage(opt, index, rec, false).0 + tail;
  }
}

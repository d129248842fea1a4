/** pfsense_config: reconcile whole sections of `$config` (system, interfaces,
    dhcpd, ...) against the values a play gives, key by key, emitting one PHP
    assignment per difference. */
module ConfigSections {
  import opened ConfigTree
  import opened Php
  import opened Shell

  /** A desired value under a section key, by the type the module branches on:
      every value a play can give, with a dict's sub-keys in iteration order. */
  datatype Desired =
    | DStr(s: string)                      // a string
    | DList(items: seq<string>)            // a list of strings
    | DMixed(elems: seq<Tree>)             // any other list (an item that is not a string)
    | DDict(entries: seq<(string, Tree)>)  // a dict of sub-keys, in iteration order
    | DNull                                // the other types, which the module refuses
    | DBool(b: bool)
    | DNum(n: int)

  /** Keys that hold arrays of records, which other modules manage. */
  const DoNotCreate: seq<string> :=
    ["rule", "cert", "user", "group", "authserver", "alias", "item", "monitor_type", "gateway_item", "package"]

  /** Key creation is allowed exactly when safe_mode is "no". */
  function AllowCreate(safeMode: string): bool
  {
    safeMode == "no"
  }

  /** The dict the play passed as a sub-key value list. */
  function Entries(es: seq<(string, Tree)>): map<string, Tree>
  {
    if es == [] then map[] else Entries(es[1..])[es[0].0 := es[0].1]
  }

  /** The value `validate` receives for a key. */
  function DesiredTree(d: Desired): Tree
  {
    match d
    case DStr(s) => Str(s)
    case DList(xs) => List(Strs(xs))
    case DMixed(ts) => List(ts)
    case DDict(es) => Map(Entries(es))
    case DNull => Null
    case DBool(b) => Bool(b)
    case DNum(n) => Num(n)
  }

  /** `result[section]` as first read: the live section, or an empty dict when it
      is not a dict. */
  function LiveSection(cfg: Tree, name: string): (r: map<string, Tree>)
    ensures Section(cfg, name).Map? ==> r == Section(cfg, name).fields
    ensures !Section(cfg, name).Map? ==> r == map[]
  {
    if Section(cfg, name).Map? then Section(cfg, name).fields else map[]
  }

  function KeyRef(section: string, key: string): Ref
  {
    Ref("config", [Key(section), Key(key)])
  }

  /** `$config['s']['k']='v';` */
  function SetKey(section: string, key: string, v: string): Stmt
  {
    Assign(KeyRef(section, key), false, Quoted(v))
  }

  /** `$config['s']['k']=['a','b'];` */
  function SetList(section: string, key: string, xs: seq<string>): Stmt
  {
    Assign(KeyRef(section, key), false, Strings(xs))
  }

  /** `$config['s']['k']['sub'] = 'v';` with quotes in v escaped. */
  function SetSubKey(section: string, key: string, sub: string, v: string): Stmt
  {
    Assign(KeyRef(section, key).Field(sub), true, Quoted(Escape(v)))
  }

  // ------------------------------------------------------------ preconditions

  predicate KeysDistinct<V>(es: seq<(string, V)>)
  {
    forall i, j :: 0 <= i < j < |es| ==> es[i].0 != es[j].0
  }

  /** The parameters come from dicts: keys, and the sub-keys of each dict value,
      are distinct. */
  predicate WellFormed(es: seq<(string, Desired)>)
  {
    KeysDistinct(es) && forall i :: 0 <= i < |es| && es[i].1.DDict? ==> KeysDistinct(es[i].1.entries)
  }

  // ------------------------------------------------------------ specification

  /** `set()` of a live list needs hashable items: no list and no dict. */
  predicate Hashable(ts: seq<Tree>)
  {
    forall t :: t in ts ==> Scalar(t)
  }

  /** A dict value without sub-keys: its loop never runs. */
  predicate NoSubkeys(d: Desired)
  {
    d.DDict? && d.entries == []
  }

  /** One sub-key of a dict value. */
  function SubStep(section: string, key: string, m: map<string, Tree>, k: string, v: Tree,
                   create: bool, valid: Validator): (r: Result<(seq<Stmt>, map<string, Tree>)>)
    ensures r.Ok? ==> v.Str? && k in r.value.1 && r.value.1[k] == v
    ensures r.Ok? ==> r.value.1 == m[k := v]
  {
    var path := section + ":" + key + ":" + k;
    if !valid(path, v) then Err(Invalid(path))
    else if k !in m && !create then Err(SubKeyNotFound(section + ":" + key, k))
    else if k in m && !m[k].Str? then Err(StringExpectedInConfig(path))
    else if !v.Str? then Err(StringValueExpected(path))
    else if k in m && m[k] == v then Ok(([], m))
    else Ok(([SetSubKey(section, key, k, v.s)], m[k := v]))
  }

  /** The keys of a list of pairs. */
  function Keys<V>(es: seq<(string, V)>): set<string>
  {
    set i | 0 <= i < |es| :: es[i].0
  }

  /** The sub-keys of a dict value, in order; every failure is one the module
      reports, none an exception. */
  function SubPlan(section: string, key: string, m: map<string, Tree>, es: seq<(string, Tree)>,
                   create: bool, valid: Validator): (r: Result<(seq<Stmt>, map<string, Tree>)>)
    ensures r.Err? ==> !r.error.Raises?
    decreases |es|
  {
    if es == [] then Ok(([], m))
    else
      match SubStep(section, key, m, es[0].0, es[0].1, create, valid)
      case Err(e) => Err(e)
      case Ok((s1, m1)) => Then(s1, SubPlan(section, key, m1, es[1..], create, valid))
  }

  lemma KeysOfTail<V>(es: seq<(string, V)>)
    requires es != []
    ensures Keys(es) == {es[0].0} + Keys(es[1..])
  {
    assert forall i :: 0 < i < |es| ==> es[i].0 == es[1..][i - 1].0;
    assert forall i :: 0 <= i < |es| - 1 ==> es[1..][i].0 == es[i + 1].0;
  }

  /** The sub-key loop changes only the sub-keys it is given. */
  lemma {:induction false} SubPlanFrame(section: string, key: string, m: map<string, Tree>, es: seq<(string, Tree)>,
                                          create: bool, valid: Validator)
    requires SubPlan(section, key, m, es, create, valid).Ok?
    ensures SubPlan(section, key, m, es, create, valid).value.1.Keys == m.Keys + Keys(es)
    ensures forall k :: k in m && k !in Keys(es) ==> SubPlan(section, key, m, es, create, valid).value.1[k] == m[k]
    decreases |es|
  {
    if es != [] {
      KeysOfTail(es);
      var m1 := SubStep(section, key, m, es[0].0, es[0].1, create, valid).value.1;
      SubPlanFrame(section, key, m1, es[1..], create, valid);
    }
  }

  /** One key of a section; it changes only that key, and adds it unless its
      value is a dict without sub-keys. The list and dict branches read
      `result[section][key]` without checking that it is there, and `set()`
      needs hashable items: those reads raise as the module does. */
  function KeyStep(section: string, sec: map<string, Tree>, key: string, d: Desired,
                   create: bool, valid: Validator): (r: Result<(seq<Stmt>, map<string, Tree>)>)
    ensures r.Ok? ==> r.value.1.Keys == sec.Keys + (if NoSubkeys(d) then {} else {key})
    ensures r.Ok? ==> forall k :: k in sec && k != key ==> r.value.1[k] == sec[k]
  {
    var path := section + ":" + key;
    if key in DoNotCreate then Err(CannotCreateArray(key))
    else if key !in sec && !create then Err(KeyNotFound(section, key))
    else if !valid(path, DesiredTree(d)) then Err(Invalid(path))
    else
      match d
      case DStr(v) =>
        if key in sec && !sec[key].Str? then Err(LiveTypeDiffers(path))
        else if key in sec && sec[key].s == v then Ok(([], sec))
        else Ok(([SetKey(section, key, v)], sec[key := Str(v)]))
      case DList(xs) =>
        if key !in sec then Err(Raises("KeyError"))
        else if !sec[key].List? then Err(LiveTypeDiffers(path))
        else if !Hashable(sec[key].items) then Err(Raises("TypeError"))
        else if Elements(sec[key].items) == Elements(Strs(xs)) then Ok(([], sec))
        else Ok(([SetList(section, key, xs)], sec[key := List(Strs(xs))]))
      case DMixed(ts) =>
        if key !in sec then Err(Raises("KeyError"))
        else if !sec[key].List? then Err(LiveTypeDiffers(path))
        else if !Hashable(sec[key].items) || !Hashable(ts) then Err(Raises("TypeError"))
        else if Elements(sec[key].items) == Elements(ts) then Ok(([], sec))
        else if !AllStr(ts) then Err(Raises("TypeError"))
        else Ok(([SetList(section, key, Texts(ts))], sec[key := List(ts)]))
      case DDict(es) =>
        if key !in sec then
          if es == [] then Ok(([], sec))
          else if !valid(path + ":" + es[0].0, es[0].1) then Err(Invalid(path + ":" + es[0].0))
          else Err(Raises("KeyError"))
        else if !sec[key].Map? then Err(LiveTypeDiffers(path))
        else
          (match SubPlan(section, key, sec[key].fields, es, create, valid)
           case Err(e) => Err(e)
           case Ok((ss, m)) => Ok((ss, sec[key := Map(m)])))
      case _ => Err(UnexpectedType(path))
  }

  /** The keys a section run adds to the section: all but those given a dict
      without sub-keys. */
  function Written(es: seq<(string, Desired)>): set<string>
  {
    set i | 0 <= i < |es| && !NoSubkeys(es[i].1) :: es[i].0
  }

  lemma WrittenOfTail(es: seq<(string, Desired)>)
    requires es != []
    ensures Written(es) == (if NoSubkeys(es[0].1) then {} else {es[0].0}) + Written(es[1..])
    ensures Written(es[1..]) <= Keys(es[1..])
  {
    assert forall i :: 0 < i < |es| ==> es[i] == es[1..][i - 1];
    assert forall i :: 0 <= i < |es| - 1 ==> es[1..][i] == es[i + 1];
  }

  /** The keys of one section, in order; it changes only the keys it is given. */
  function SectionPlan(section: string, sec: map<string, Tree>, es: seq<(string, Desired)>,
                       create: bool, valid: Validator): (r: Result<(seq<Stmt>, map<string, Tree>)>)
    ensures r.Ok? ==> r.value.1.Keys == sec.Keys + Written(es)
    ensures r.Ok? ==> forall k :: k in sec && k !in Keys(es) ==> r.value.1[k] == sec[k]
    decreases |es|
  {
    if es == [] then Ok(([], sec))
    else
      match KeyStep(section, sec, es[0].0, es[0].1, create, valid)
      case Err(e) => Err(e)
      case Ok((s1, sec1)) =>
        KeysOfTail(es);
        WrittenOfTail(es);
        Then(s1, SectionPlan(section, sec1, es[1..], create, valid))
  }

  /** The parameters: for each section, its dict of keys, or None when the section
      parameter is not a dict and is skipped. */
  type Params = seq<(string, Option<seq<(string, Desired)>>)>

  /** All sections, in order; on success also the reconciled sections (`result`). */
  function Plan(params: Params, cfg: Tree, res: map<string, map<string, Tree>>,
                create: bool, valid: Validator): (r: Result<(seq<Stmt>, map<string, map<string, Tree>>)>)
    decreases |params|
  {
    if params == [] then Ok(([], res))
    else if params[0].1.None? then Plan(params[1..], cfg, res, create, valid)
    else
      var name := params[0].0;
      match SectionPlan(name, LiveSection(cfg, name), params[0].1.value, create, valid)
      case Err(e) => Err(e)
      case Ok((s1, sec)) => Then(s1, Plan(params[1..], cfg, res[name := sec], create, valid))
  }

  // ------------------------------------------------------------ the module

  /** The sub-key loop of the dict branch. */
  method ReconcileSubkeys(section: string, key: string, m0: map<string, Tree>, es: seq<(string, Tree)>,
                          create: bool, valid: Validator) returns (r: Result<(seq<Stmt>, map<string, Tree>)>)
    ensures r == SubPlan(section, key, m0, es, create, valid)
  {
    var stmts: seq<Stmt> := [];
    var m := m0;
    var i := 0;
    assert es[i..] == es;
    assert Then(stmts, SubPlan(section, key, m, es[i..], create, valid)) == SubPlan(section, key, m0, es, create, valid);
    while i < |es|
      invariant 0 <= i <= |es|
      invariant SubPlan(section, key, m0, es, create, valid) == Then(stmts, SubPlan(section, key, m, es[i..], create, valid))
    {
      assert es[i..][0] == es[i] && es[i..][1..] == es[i + 1..];
      var k := es[i].0;
      var v := es[i].1;
      var path := section + ":" + key + ":" + k;
      var step := SubStep(section, key, m, k, v, create, valid);
      var before := m;
      if !valid(path, v) {
        return Err(Invalid(path));
      }
      if !(k in m || create) {
        return Err(SubKeyNotFound(section + ":" + key, k));
      }
      if k in m && !m[k].Str? {
        return Err(StringExpectedInConfig(path));
      }
      if !v.Str? {
        return Err(StringValueExpected(path));
      }
      var delta: seq<Stmt> := [];
      if !(k in m && m[k] == v) {
        delta := [SetSubKey(section, key, k, v.s)];
        m := m[k := v];
      }
      assert step == Ok((delta, m));
      assert SubPlan(section, key, before, es[i..], create, valid) == Then(delta, SubPlan(section, key, m, es[i + 1..], create, valid));
      ghost var rest := SubPlan(section, key, m, es[i + 1..], create, valid);
      ThenThen(stmts, delta, rest);
      assert SubPlan(section, key, m0, es, create, valid) == Then(stmts + delta, rest);
      stmts := stmts + delta;
      i := i + 1;
    }
    assert es[i..] == [] && stmts + [] == stmts;
    return Ok((stmts, m));
  }

  /** The body of the key loop: one key of a section. */
  method ReconcileKey(section: string, sec: map<string, Tree>, key: string, d: Desired,
                      create: bool, valid: Validator) returns (r: Result<(seq<Stmt>, map<string, Tree>)>)
    ensures r == KeyStep(section, sec, key, d, create, valid)
  {
    var path := section + ":" + key;
    if key in DoNotCreate {
      return Err(CannotCreateArray(key));
    }
    if !(key in sec || create) {
      return Err(KeyNotFound(section, key));
    }
    if !valid(path, DesiredTree(d)) {
      return Err(Invalid(path));
    }
    match d {
      case DStr(v) =>
        if key in sec && !sec[key].Str? {
          return Err(LiveTypeDiffers(path));
        }
        if key in sec && sec[key].s == v {
          return Ok(([], sec));
        }
        return Ok(([SetKey(section, key, v)], sec[key := Str(v)]));
      case DList(xs) =>
        if key !in sec {
          return Err(Raises("KeyError"));
        }
        if !sec[key].List? {
          return Err(LiveTypeDiffers(path));
        }
        if !Hashable(sec[key].items) {
          return Err(Raises("TypeError"));
        }
        if Elements(sec[key].items) == Elements(Strs(xs)) {
          return Ok(([], sec));
        }
        return Ok(([SetList(section, key, xs)], sec[key := List(Strs(xs))]));
      case DMixed(ts) =>
        if key !in sec {
          return Err(Raises("KeyError"));
        }
        if !sec[key].List? {
          return Err(LiveTypeDiffers(path));
        }
        if !Hashable(sec[key].items) || !Hashable(ts) {
          return Err(Raises("TypeError"));
        }
        if Elements(sec[key].items) == Elements(ts) {
          return Ok(([], sec));
        }
        if !AllStr(ts) {
          return Err(Raises("TypeError"));
        }
        return Ok(([SetList(section, key, Texts(ts))], sec[key := List(ts)]));
      case DDict(sub) =>
        if key !in sec {
          if sub == [] {
            return Ok(([], sec));
          }
          if !valid(path + ":" + sub[0].0, sub[0].1) {
            return Err(Invalid(path + ":" + sub[0].0));
          }
          return Err(Raises("KeyError"));
        }
        if !sec[key].Map? {
          return Err(LiveTypeDiffers(path));
        }
        var subResult := ReconcileSubkeys(section, key, sec[key].fields, sub, create, valid);
        if subResult.Err? {
          return Err(subResult.error);
        }
        return Ok((subResult.value.0, sec[key := Map(subResult.value.1)]));
      case _ =>
        return Err(UnexpectedType(path));
    }
  }

  /** One turn of the key loop at position `i`: the key's step, then the rest. */
  lemma SectionTurn(section: string, sec0: map<string, Tree>, sec: map<string, Tree>, es: seq<(string, Desired)>,
                    i: nat, stmts: seq<Stmt>, create: bool, valid: Validator)
    requires i < |es|
    requires SectionPlan(section, sec0, es, create, valid) == Then(stmts, SectionPlan(section, sec, es[i..], create, valid))
    ensures KeyStep(section, sec, es[i].0, es[i].1, create, valid).Err? ==>
      SectionPlan(section, sec0, es, create, valid) == Err(KeyStep(section, sec, es[i].0, es[i].1, create, valid).error)
    ensures KeyStep(section, sec, es[i].0, es[i].1, create, valid).Ok? ==>
      SectionPlan(section, sec0, es, create, valid) ==
        Then(stmts + KeyStep(section, sec, es[i].0, es[i].1, create, valid).value.0,
             SectionPlan(section, KeyStep(section, sec, es[i].0, es[i].1, create, valid).value.1, es[i + 1..], create, valid))
  {
    assert es[i..][0] == es[i] && es[i..][1..] == es[i + 1..];
    var step := KeyStep(section, sec, es[i].0, es[i].1, create, valid);
    if step.Ok? {
      ThenThen(stmts, step.value.0, SectionPlan(section, step.value.1, es[i + 1..], create, valid));
    }
  }

  /** The key loop of one section. */
  method ReconcileSection(section: string, sec0: map<string, Tree>, es: seq<(string, Desired)>,
                          create: bool, valid: Validator) returns (r: Result<(seq<Stmt>, map<string, Tree>)>)
    ensures r == SectionPlan(section, sec0, es, create, valid)
  {
    var stmts: seq<Stmt> := [];
    var sec := sec0;
    var i := 0;
    while i < |es|
      invariant 0 <= i <= |es|
      invariant SectionPlan(section, sec0, es, create, valid) == Then(stmts, SectionPlan(section, sec, es[i..], create, valid))
    {
      var step := ReconcileKey(section, sec, es[i].0, es[i].1, create, valid);
      SectionTurn(section, sec0, sec, es, i, stmts, create, valid);
      if step.Err? {
        return Err(step.error);
      }
      stmts := stmts + step.value.0;
      sec := step.value.1;
      i := i + 1;
    }
    assert es[i..] == [] && stmts + [] == stmts;
    return Ok((stmts, sec));
  }

  /** pfsense_config's main loop and ending: every dict section parameter is
      reconciled against the live section; the outcome is committed with no suffix. */
  method Reconcile(safeMode: string, params: Params, cfg: Tree, valid: Validator, checkMode: bool)
    returns (r: Result<Outcome>)
    ensures Plan(params, cfg, map[], AllowCreate(safeMode), valid).Err? ==>
      r == Err(Plan(params, cfg, map[], AllowCreate(safeMode), valid).error)
    ensures Plan(params, cfg, map[], AllowCreate(safeMode), valid).Ok? ==>
      r == Ok(Commit(checkMode, Plan(params, cfg, map[], AllowCreate(safeMode), valid).value.0, Shared("")))
  {
    var create := AllowCreate(safeMode);
    var stmts: seq<Stmt> := [];
    var res: map<string, map<string, Tree>> := map[];
    var i := 0;
    assert params[i..] == params;
    while i < |params|
      invariant 0 <= i <= |params|
      invariant Plan(params, cfg, map[], create, valid) == Then(stmts, Plan(params[i..], cfg, res, create, valid))
    {
      assert params[i..][0] == params[i] && params[i..][1..] == params[i + 1..];
      var name := params[i].0;
      if params[i].1.Some? {
        var sectionResult := ReconcileSection(name, LiveSection(cfg, name), params[i].1.value, create, valid);
        if sectionResult.Err? {
          return Err(sectionResult.error);
        }
        ThenThen(stmts, sectionResult.value.0, Plan(params[i + 1..], cfg, res[name := sectionResult.value.1], create, valid));
        stmts := stmts + sectionResult.value.0;
        res := res[name := sectionResult.value.1];
      }
      i := i + 1;
    }
    assert params[i..] == [] && stmts + [] == stmts;
    return Ok(Commit(checkMode, stmts, Shared("")));
  }

  // ------------------------------------------------------------ properties

  /** Safe mode: a successful sub-key loop only touched sub-keys that exist. */
  lemma {:induction false} SubPlanSafeModeNeedsSubkeys(section: string, key: string, m: map<string, Tree>,
                                                        es: seq<(string, Tree)>, valid: Validator)
    requires SubPlan(section, key, m, es, false, valid).Ok?
    ensures Keys(es) <= m.Keys
    decreases |es|
  {
    if es != [] {
      KeysOfTail(es);
      var m1 := SubStep(section, key, m, es[0].0, es[0].1, false, valid).value.1;
      SubPlanSafeModeNeedsSubkeys(section, key, m1, es[1..], valid);
    }
  }

  /** The live section already has the key, and a dict value's sub-keys. */
  predicate Present(sec: map<string, Tree>, key: string, d: Desired)
  {
    key in sec && (d.DDict? ==> sec[key].Map? && Keys(d.entries) <= sec[key].fields.Keys)
  }

  /** Outside safe_mode "no", nothing is created: a successful section run needs
      every desired key and sub-key to exist already. */
  lemma {:induction false} SectionSafeModeNeedsKeys(section: string, sec: map<string, Tree>,
                                                     es: seq<(string, Desired)>, valid: Validator)
    requires WellFormed(es)
    requires SectionPlan(section, sec, es, false, valid).Ok?
    ensures forall i :: 0 <= i < |es| ==> Present(sec, es[i].0, es[i].1)
    decreases |es|
  {
    if es != [] {
      var step := KeyStep(section, sec, es[0].0, es[0].1, false, valid);
      var sec1 := step.value.1;
      if es[0].1.DDict? {
        SubPlanSafeModeNeedsSubkeys(section, es[0].0, sec[es[0].0].fields, es[0].1.entries, valid);
      }
      assert WellFormed(es[1..]) by {
        assert forall i :: 0 <= i < |es| - 1 ==> es[1..][i] == es[i + 1];
      }
      SectionSafeModeNeedsKeys(section, sec1, es[1..], valid);
      forall i | 1 <= i < |es|
        ensures Present(sec, es[i].0, es[i].1)
      {
        assert es[1..][i - 1] == es[i];
        assert es[i].0 != es[0].0;
      }
    }
  }

  /** Every section parameter comes from a dict. */
  predicate ParamsWellFormed(params: Params)
  {
    forall i :: 0 <= i < |params| && params[i].1.Some? ==> WellFormed(params[i].1.value)
  }

  /** The same over all sections of a run. */
  lemma {:induction false} SafeModeNeverCreates(params: Params, cfg: Tree, res: map<string, map<string, Tree>>, valid: Validator)
    requires ParamsWellFormed(params)
    requires Plan(params, cfg, res, false, valid).Ok?
    ensures forall i, j :: 0 <= i < |params| && params[i].1.Some? && 0 <= j < |params[i].1.value| ==>
      Present(LiveSection(cfg, params[i].0), params[i].1.value[j].0, params[i].1.value[j].1)
    decreases |params|
  {
    if params != [] {
      assert forall i :: 0 <= i < |params| - 1 ==> params[1..][i] == params[i + 1];
      if params[0].1.Some? {
        var name := params[0].0;
        SectionSafeModeNeedsKeys(name, LiveSection(cfg, name), params[0].1.value, valid);
        var sec := SectionPlan(name, LiveSection(cfg, name), params[0].1.value, false, valid).value.1;
        SafeModeNeverCreates(params[1..], cfg, res[name := sec], valid);
      } else {
        SafeModeNeverCreates(params[1..], cfg, res, valid);
      }
    }
  }

  /** With safe_mode "no" a missing key or sub-key never gives the safe-mode
      failure. */
  lemma {:induction false} SubPlanCreateModeFinds(section: string, key: string, m: map<string, Tree>,
                                                   es: seq<(string, Tree)>, valid: Validator)
    ensures var r := SubPlan(section, key, m, es, true, valid);
      !r.Err? || !(r.error.KeyNotFound? || r.error.SubKeyNotFound?)
    decreases |es|
  {
    if es != [] {
      var step := SubStep(section, key, m, es[0].0, es[0].1, true, valid);
      if step.Ok? {
        SubPlanCreateModeFinds(section, key, step.value.1, es[1..], valid);
      }
    }
  }

  lemma KeyStepCreateModeFinds(section: string, sec: map<string, Tree>, key: string, d: Desired, valid: Validator)
    ensures var r := KeyStep(section, sec, key, d, true, valid);
      !r.Err? || !(r.error.KeyNotFound? || r.error.SubKeyNotFound?)
  {
    if d.DDict? && key !in DoNotCreate && key in sec && sec[key].Map? {
      SubPlanCreateModeFinds(section, key, sec[key].fields, d.entries, valid);
    }
  }

  /** Once the earlier gates pass (a key this module may manage, present or
      creatable, accepted by validate), the type checks fail as the module does:
      a live value of another type than the one given is reported, an unhashable
      list item or a given item `join` cannot take raises TypeError, a dict
      value fails exactly as its sub-key loop does, and a value of any other
      type is refused. */
  lemma KeyStepTypeFailures(section: string, sec: map<string, Tree>, key: string, d: Desired,
                            create: bool, valid: Validator)
    requires key !in DoNotCreate && (key in sec || create) && valid(section + ":" + key, DesiredTree(d))
    ensures var r := KeyStep(section, sec, key, d, create, valid);
      var path := section + ":" + key;
      (d.DStr? && key in sec && !sec[key].Str? ==> r == Err(LiveTypeDiffers(path))) &&
      ((d.DList? || d.DMixed?) && key in sec && !sec[key].List? ==> r == Err(LiveTypeDiffers(path))) &&
      ((d.DList? || d.DMixed?) && key in sec && sec[key].List? && !Hashable(sec[key].items) ==>
        r == Err(Raises("TypeError"))) &&
      (d.DMixed? && key in sec && sec[key].List? && !Hashable(d.elems) ==> r == Err(Raises("TypeError"))) &&
      (d.DMixed? && key in sec && sec[key].List? && Hashable(sec[key].items) && Hashable(d.elems) ==>
        (r.Err? <==> Elements(sec[key].items) != Elements(d.elems) && !AllStr(d.elems)) &&
        (r.Err? ==> r.error == Raises("TypeError"))) &&
      (d.DDict? && key in sec && !sec[key].Map? ==> r == Err(LiveTypeDiffers(path))) &&
      (d.DDict? && key in sec && sec[key].Map? ==>
        var sub := SubPlan(section, key, sec[key].fields, d.entries, create, valid);
        (r.Err? <==> sub.Err?) && (r.Err? ==> r.error == sub.error)) &&
      ((d.DNull? || d.DBool? || d.DNum?) ==> r == Err(UnexpectedType(path)))
  {
  }

  /** The same for one sub-key, once validate accepted it and it may be
      touched: a live sub-value that is not a string is reported first, then a
      given one that is not a string; with both strings the step succeeds. */
  lemma SubStepTypeFailures(section: string, key: string, m: map<string, Tree>, k: string, v: Tree,
                            create: bool, valid: Validator)
    requires valid(section + ":" + key + ":" + k, v) && (k in m || create)
    ensures var r := SubStep(section, key, m, k, v, create, valid);
      var path := section + ":" + key + ":" + k;
      (k in m && !m[k].Str? ==> r == Err(StringExpectedInConfig(path))) &&
      ((k in m ==> m[k].Str?) && !v.Str? ==> r == Err(StringValueExpected(path))) &&
      ((k in m ==> m[k].Str?) && v.Str? ==> r.Ok?)
  {
  }

  /** A list whose items all are strings is taken the same way in either
      form: the mixed-list branch only differs where an item is not a string. */
  lemma MixedOfStringsIsList(section: string, sec: map<string, Tree>, key: string, xs: seq<string>,
                             create: bool, valid: Validator)
    ensures KeyStep(section, sec, key, DMixed(Strs(xs)), create, valid) == KeyStep(section, sec, key, DList(xs), create, valid)
  {
    var ts := Strs(xs);
    assert AllStr(ts);
    assert Hashable(ts) by {
      forall t | t in ts
        ensures Scalar(t)
      {
        var i :| 0 <= i < |ts| && ts[i] == t;
      }
    }
    assert Texts(ts) == xs by {
      var ys := Texts(ts);
      assert Strs(ys) == Strs(xs);
      assert forall i :: 0 <= i < |xs| ==> Str(ys[i]) == Strs(ys)[i] == Strs(xs)[i] == Str(xs[i]);
    }
  }

  lemma {:induction false} SectionCreateModeFinds(section: string, sec: map<string, Tree>,
                                                   es: seq<(string, Desired)>, valid: Validator)
    ensures var r := SectionPlan(section, sec, es, true, valid);
      !r.Err? || !(r.error.KeyNotFound? || r.error.SubKeyNotFound?)
    decreases |es|
  {
    if es != [] {
      var step := KeyStep(section, sec, es[0].0, es[0].1, true, valid);
      KeyStepCreateModeFinds(section, sec, es[0].0, es[0].1, valid);
      if step.Ok? {
        SectionCreateModeFinds(section, step.value.1, es[1..], valid);
      }
    }
  }

  /** As written, safe_mode "no" does not create a list key or a dict key with
      sub-keys: the branch reads the missing key and raises KeyError. These are
      exactly the runs that raise it. */
  lemma AsWrittenNewKeyRaises(section: string, sec: map<string, Tree>, key: string, d: Desired,
                              create: bool, valid: Validator)
    ensures KeyStep(section, sec, key, d, create, valid) == Err(Raises("KeyError")) <==>
      create && key !in sec && key !in DoNotCreate && valid(section + ":" + key, DesiredTree(d)) &&
      (d.DList? || d.DMixed? || (d.DDict? && d.entries != [] &&
                    valid(section + ":" + key + ":" + d.entries[0].0, d.entries[0].1)))
  {
    if d.DDict? && key in sec && sec[key].Map? {
      var r := SubPlan(section, key, sec[key].fields, d.entries, create, valid);
      assert r.Err? ==> !r.error.Raises?;
    }
  }

  /** The key step as the description of safe_mode "no" has it: a new list key
      or dict key is created, not read. Everywhere else it is KeyStep. */
  function CreatingKeyStep(section: string, sec: map<string, Tree>, key: string, d: Desired,
                           create: bool, valid: Validator): Result<(seq<Stmt>, map<string, Tree>)>
  {
    if key in sec || !create || key in DoNotCreate || !valid(section + ":" + key, DesiredTree(d)) then
      KeyStep(section, sec, key, d, create, valid)
    else
      match d
      case DList(xs) => Ok(([SetList(section, key, xs)], sec[key := List(Strs(xs))]))
      case DMixed(ts) =>
        if AllStr(ts) then Ok(([SetList(section, key, Texts(ts))], sec[key := List(ts)]))
        else Err(Raises("TypeError"))
      case DDict(es) =>
        (match SubPlan(section, key, map[], es, true, valid)
         case Err(e) => Err(e)
         case Ok((ss, m)) => Ok((ss, sec[key := Map(m)])))
      case _ => KeyStep(section, sec, key, d, create, valid)
  }

  /** On a dict without the given sub-keys, accepted string values are all
      created, one statement each. */
  lemma {:induction false} SubPlanCreatesAll(section: string, key: string, m: map<string, Tree>,
                                              es: seq<(string, Tree)>, valid: Validator)
    requires KeysDistinct(es) && SubPasses(section, key, es, valid)
    requires forall j :: 0 <= j < |es| ==> es[j].0 !in m
    ensures SubPlan(section, key, m, es, true, valid).Ok?
    ensures |SubPlan(section, key, m, es, true, valid).value.0| == |es|
    decreases |es|
  {
    if es != [] {
      var m1 := m[es[0].0 := es[0].1];
      assert SubStep(section, key, m, es[0].0, es[0].1, true, valid) == Ok(([SetSubKey(section, key, es[0].0, es[0].1.s)], m1));
      assert forall j :: 1 <= j < |es| ==> es[j] == es[1..][j - 1];
      assert forall j :: 0 <= j < |es| - 1 ==> es[1..][j].0 !in m1;
      SubPlanCreatesAll(section, key, m1, es[1..], valid);
    }
  }

  /** So, corrected, with safe_mode "no" a new list key is set and a new dict
      key gets every sub-value, one statement each, and afterwards the key
      agrees with the play. */
  lemma CreatingKeyStepCreates(section: string, sec: map<string, Tree>, key: string, d: Desired, valid: Validator)
    requires key !in sec && key !in DoNotCreate && valid(section + ":" + key, DesiredTree(d))
    requires d.DList? || (d.DDict? && KeysDistinct(d.entries) && SubPasses(section, key, d.entries, valid))
    ensures var r := CreatingKeyStep(section, sec, key, d, true, valid);
      r.Ok? && key in r.value.1 && Agree(r.value.1, key, d) &&
      (d.DList? ==> r.value.0 == [SetList(section, key, d.items)]) &&
      (d.DDict? ==> |r.value.0| == |d.entries|)
  {
    if d.DDict? {
      SubPlanCreatesAll(section, key, map[], d.entries, valid);
      SubPlanAgrees(section, key, map[], d.entries, true, valid);
    }
  }

  /** The keys of arrays of records are refused, whatever the mode. */
  lemma {:induction false} ManagedArraysRefused(section: string, sec: map<string, Tree>,
                                                 es: seq<(string, Desired)>, create: bool, valid: Validator)
    requires SectionPlan(section, sec, es, create, valid).Ok?
    ensures forall i :: 0 <= i < |es| ==> es[i].0 !in DoNotCreate
    decreases |es|
  {
    if es != [] {
      var sec1 := KeyStep(section, sec, es[0].0, es[0].1, create, valid).value.1;
      ManagedArraysRefused(section, sec1, es[1..], create, valid);
      assert forall i :: 1 <= i < |es| ==> es[i] == es[1..][i - 1];
    }
  }

  /** The live sub-dict already holds every desired sub-value. */
  predicate SubAgrees(m: map<string, Tree>, es: seq<(string, Tree)>)
  {
    forall j :: 0 <= j < |es| ==> es[j].0 in m && m[es[j].0] == es[j].1
  }

  /** The live value already is what the play asks: the same string, the same set
      of strings, or a dict holding every desired sub-value; a missing key agrees
      only with a dict without sub-keys, which asks for nothing. */
  predicate Agree(sec: map<string, Tree>, key: string, d: Desired)
  {
    match d
    case DStr(v) => key in sec && sec[key] == Str(v)
    case DList(xs) => key in sec && sec[key].List? && Elements(sec[key].items) == Elements(Strs(xs))
    case DMixed(ts) => key in sec && sec[key].List? && Hashable(ts) && Elements(sec[key].items) == Elements(ts)
    case DDict(es) => if key in sec then sec[key].Map? && SubAgrees(sec[key].fields, es) else es == []
    case _ => false
  }

  predicate SectionAgrees(sec: map<string, Tree>, es: seq<(string, Desired)>)
  {
    forall i :: 0 <= i < |es| ==> Agree(sec, es[i].0, es[i].1)
  }

  /** A sub-key loop emits nothing exactly when the live dict already agrees, and
      then it changes nothing. */
  lemma {:induction false} SubQuietIffAgrees(section: string, key: string, m: map<string, Tree>,
                                              es: seq<(string, Tree)>, create: bool, valid: Validator)
    requires SubPlan(section, key, m, es, create, valid).Ok?
    ensures SubPlan(section, key, m, es, create, valid).value.0 == [] <==> SubAgrees(m, es)
    ensures SubPlan(section, key, m, es, create, valid).value.0 == [] ==> SubPlan(section, key, m, es, create, valid).value.1 == m
    decreases |es|
  {
    if es != [] {
      var step := SubStep(section, key, m, es[0].0, es[0].1, create, valid);
      SubQuietIffAgrees(section, key, step.value.1, es[1..], create, valid);
      assert forall j :: 1 <= j < |es| ==> es[j] == es[1..][j - 1];
    }
  }

  lemma KeyQuietIffAgrees(section: string, sec: map<string, Tree>, key: string, d: Desired,
                          create: bool, valid: Validator)
    requires KeyStep(section, sec, key, d, create, valid).Ok?
    ensures KeyStep(section, sec, key, d, create, valid).value.0 == [] <==> Agree(sec, key, d)
    ensures KeyStep(section, sec, key, d, create, valid).value.0 == [] ==> KeyStep(section, sec, key, d, create, valid).value.1 == sec
  {
    if d.DDict? && key in sec {
      SubQuietIffAgrees(section, key, sec[key].fields, d.entries, create, valid);
    }
  }

  /** A section run emits nothing exactly when every key already agrees, and then
      it changes nothing: a statement is emitted only for a real difference. */
  lemma {:induction false} SectionQuietIffAgrees(section: string, sec: map<string, Tree>,
                                                  es: seq<(string, Desired)>, create: bool, valid: Validator)
    requires SectionPlan(section, sec, es, create, valid).Ok?
    ensures SectionPlan(section, sec, es, create, valid).value.0 == [] <==> SectionAgrees(sec, es)
    ensures SectionPlan(section, sec, es, create, valid).value.0 == [] ==> SectionPlan(section, sec, es, create, valid).value.1 == sec
    decreases |es|
  {
    if es != [] {
      var step := KeyStep(section, sec, es[0].0, es[0].1, create, valid);
      KeyQuietIffAgrees(section, sec, es[0].0, es[0].1, create, valid);
      SectionQuietIffAgrees(section, step.value.1, es[1..], create, valid);
      assert forall j :: 1 <= j < |es| ==> es[j] == es[1..][j - 1];
    }
  }

  /** After a successful sub-key loop the dict holds every desired sub-value. */
  lemma {:induction false} SubPlanAgrees(section: string, key: string, m: map<string, Tree>,
                                          es: seq<(string, Tree)>, create: bool, valid: Validator)
    requires KeysDistinct(es)
    requires SubPlan(section, key, m, es, create, valid).Ok?
    ensures SubAgrees(SubPlan(section, key, m, es, create, valid).value.1, es)
    decreases |es|
  {
    if es != [] {
      var m1 := SubStep(section, key, m, es[0].0, es[0].1, create, valid).value.1;
      var tail := es[1..];
      assert forall j :: 1 <= j < |es| ==> es[j] == tail[j - 1];
      assert es[0].0 !in Keys(tail);
      SubPlanFrame(section, key, m1, tail, create, valid);
      SubPlanAgrees(section, key, m1, tail, create, valid);
    }
  }

  lemma KeyStepAgrees(section: string, sec: map<string, Tree>, key: string, d: Desired,
                      create: bool, valid: Validator)
    requires d.DDict? ==> KeysDistinct(d.entries)
    requires KeyStep(section, sec, key, d, create, valid).Ok?
    ensures Agree(KeyStep(section, sec, key, d, create, valid).value.1, key, d)
  {
    if d.DDict? && key in sec {
      SubPlanAgrees(section, key, sec[key].fields, d.entries, create, valid);
    }
  }

  /** After a successful section run the section agrees with every desired key. */
  lemma {:induction false} SectionPlanAgrees(section: string, sec: map<string, Tree>,
                                              es: seq<(string, Desired)>, create: bool, valid: Validator)
    requires WellFormed(es)
    requires SectionPlan(section, sec, es, create, valid).Ok?
    ensures SectionAgrees(SectionPlan(section, sec, es, create, valid).value.1, es)
    decreases |es|
  {
    if es != [] {
      var key := es[0].0;
      var sec1 := KeyStep(section, sec, key, es[0].1, create, valid).value.1;
      var tail := es[1..];
      var final := SectionPlan(section, sec, es, create, valid).value.1;
      KeyStepAgrees(section, sec, key, es[0].1, create, valid);
      assert forall j :: 1 <= j < |es| ==> es[j] == tail[j - 1];
      assert WellFormed(tail);
      SectionPlanAgrees(section, sec1, tail, create, valid);
      assert key !in Keys(tail);
      WrittenOfTail(es);
      assert final == SectionPlan(section, sec1, tail, create, valid).value.1;
      if key in sec1 {
        assert final[key] == sec1[key];
      } else {
        assert key !in final;
      }
    }
  }

  /** Every sub-value was accepted by validate and is a string. */
  predicate SubPasses(section: string, key: string, es: seq<(string, Tree)>, valid: Validator)
  {
    forall j :: 0 <= j < |es| ==> es[j].1.Str? && valid(section + ":" + key + ":" + es[j].0, es[j].1)
  }

  /** Every key may be managed here and was accepted by validate. */
  predicate SectionPasses(section: string, es: seq<(string, Desired)>, valid: Validator)
  {
    forall i :: 0 <= i < |es| ==>
      es[i].0 !in DoNotCreate && valid(section + ":" + es[i].0, DesiredTree(es[i].1)) &&
      (es[i].1.DDict? ==> SubPasses(section, es[i].0, es[i].1.entries, valid))
  }

  lemma {:induction false} SubPlanPasses(section: string, key: string, m: map<string, Tree>,
                                          es: seq<(string, Tree)>, create: bool, valid: Validator)
    requires SubPlan(section, key, m, es, create, valid).Ok?
    ensures SubPasses(section, key, es, valid)
    decreases |es|
  {
    if es != [] {
      var m1 := SubStep(section, key, m, es[0].0, es[0].1, create, valid).value.1;
      SubPlanPasses(section, key, m1, es[1..], create, valid);
      assert forall j :: 1 <= j < |es| ==> es[j] == es[1..][j - 1];
    }
  }

  lemma {:induction false} SectionPlanPasses(section: string, sec: map<string, Tree>,
                                              es: seq<(string, Desired)>, create: bool, valid: Validator)
    requires SectionPlan(section, sec, es, create, valid).Ok?
    ensures SectionPasses(section, es, valid)
    decreases |es|
  {
    if es != [] {
      var key := es[0].0;
      var sec1 := KeyStep(section, sec, key, es[0].1, create, valid).value.1;
      if es[0].1.DDict? && key in sec {
        SubPlanPasses(section, key, sec[key].fields, es[0].1.entries, create, valid);
      }
      SectionPlanPasses(section, sec1, es[1..], create, valid);
      assert forall j :: 1 <= j < |es| ==> es[j] == es[1..][j - 1];
    }
  }

  lemma {:induction false} SubQuietWhenAgrees(section: string, key: string, m: map<string, Tree>,
                                               es: seq<(string, Tree)>, create: bool, valid: Validator)
    requires SubAgrees(m, es) && SubPasses(section, key, es, valid)
    ensures SubPlan(section, key, m, es, create, valid) == Ok(([], m))
    decreases |es|
  {
    if es != [] {
      assert es[0].0 in m && m[es[0].0] == es[0].1;
      assert SubStep(section, key, m, es[0].0, es[0].1, create, valid) == Ok(([], m));
      assert forall j :: 1 <= j < |es| ==> es[j] == es[1..][j - 1];
      SubQuietWhenAgrees(section, key, m, es[1..], create, valid);
    }
  }

  /** A section that agrees gets no statement and stays as it is (in safe mode,
      once its keys are there). */
  lemma {:induction false} SectionQuietWhenAgrees(section: string, sec: map<string, Tree>,
                                                   es: seq<(string, Desired)>, create: bool, valid: Validator)
    requires SectionAgrees(sec, es) && SectionPasses(section, es, valid)
    requires forall i :: 0 <= i < |es| ==> create || es[i].0 in sec
    ensures SectionPlan(section, sec, es, create, valid) == Ok(([], sec))
    decreases |es|
  {
    if es != [] {
      var key := es[0].0;
      var d := es[0].1;
      assert Agree(sec, key, d);
      if d.DDict? && key in sec {
        SubQuietWhenAgrees(section, key, sec[key].fields, d.entries, create, valid);
        assert sec[key := Map(sec[key].fields)] == sec;
      }
      if d.DList? {
        forall t | t in sec[key].items
          ensures Scalar(t)
        {
          assert t in Elements(sec[key].items);
          assert t in Elements(Strs(d.items));
        }
      }
      if d.DMixed? {
        forall t | t in sec[key].items
          ensures Scalar(t)
        {
          assert t in Elements(sec[key].items);
          assert t in Elements(d.elems);
        }
      }
      assert key !in DoNotCreate && valid(section + ":" + key, DesiredTree(d));
      assert KeyStep(section, sec, key, d, create, valid) == Ok(([], sec));
      assert forall j :: 1 <= j < |es| ==> es[j] == es[1..][j - 1];
      SectionQuietWhenAgrees(section, sec, es[1..], create, valid);
    }
  }

  /** Idempotence on the section the module records in `result`: running the
      module again on it emits nothing and leaves it as it is. */
  lemma SectionRerunIsQuiet(section: string, sec: map<string, Tree>,
                            es: seq<(string, Desired)>, create: bool, valid: Validator)
    requires WellFormed(es)
    requires SectionPlan(section, sec, es, create, valid).Ok?
    ensures var after := SectionPlan(section, sec, es, create, valid).value.1;
      SectionPlan(section, after, es, create, valid) == Ok(([], after))
  {
    var after := SectionPlan(section, sec, es, create, valid).value.1;
    SectionPlanAgrees(section, sec, es, create, valid);
    SectionPlanPasses(section, sec, es, create, valid);
    if !create {
      SectionSafeModeNeedsKeys(section, sec, es, valid);
    }
    SectionQuietWhenAgrees(section, after, es, create, valid);
  }

  /** As written, a list key set to the empty list never settles in the stored
      configuration: the module sends `['']`, PHP stores the one-element list
      `[""]`, and from that live value the next run sends the same assignment
      again. */
  lemma EmptyListNeverConverges(section: string, sec: map<string, Tree>, key: string, create: bool, valid: Validator)
    requires key !in DoNotCreate && valid(section + ":" + key, List([]))
    requires key in sec && sec[key] == List([Str("")])
    ensures KeyStep(section, sec, key, DList([]), create, valid) == Ok(([SetList(section, key, [])], sec[key := List([])]))
    ensures ReadStrings(ValueText(SetList(section, key, []).rhs)) == Some([""])
    ensures List(Strs([""])) == sec[key]
  {
    assert Str("") in Elements(sec[key].items);
    ListTextReadsBack([]);
  }

  predicate AllAgree(params: Params, cfg: Tree)
  {
    forall i :: 0 <= i < |params| && params[i].1.Some? ==>
      SectionAgrees(LiveSection(cfg, params[i].0), params[i].1.value)
  }

  /** A run emits nothing exactly when every given section already agrees. */
  lemma {:induction false} PlanQuietIffAllAgree(params: Params, cfg: Tree, res: map<string, map<string, Tree>>,
                                                 create: bool, valid: Validator)
    requires Plan(params, cfg, res, create, valid).Ok?
    ensures Plan(params, cfg, res, create, valid).value.0 == [] <==> AllAgree(params, cfg)
    decreases |params|
  {
    if params != [] {
      var tail := params[1..];
      assert forall i :: 1 <= i < |params| ==> params[i] == tail[i - 1];
      if params[0].1.Some? {
        var name := params[0].0;
        var live := LiveSection(cfg, name);
        SectionQuietIffAgrees(name, live, params[0].1.value, create, valid);
        var sec := SectionPlan(name, live, params[0].1.value, create, valid).value.1;
        PlanQuietIffAllAgree(tail, cfg, res[name := sec], create, valid);
      } else {
        PlanQuietIffAllAgree(tail, cfg, res, create, valid);
      }
    }
  }

  /** So the module reports a change exactly when it is not in check mode and
      some given key differs from the live configuration. */
  lemma ChangedIffSomeKeyDiffers(params: Params, cfg: Tree, create: bool, valid: Validator, checkMode: bool)
    requires Plan(params, cfg, map[], create, valid).Ok?
    ensures Commit(checkMode, Plan(params, cfg, map[], create, valid).value.0, Shared("")).changed <==>
      !checkMode && !AllAgree(params, cfg)
  {
    PlanQuietIffAllAgree(params, cfg, map[], create, valid);
  }
}

/** The parsed configuration tree that pfSense's PHP shell hands back (json_encode
    of a part of `$config`, read back with json.loads), and the Python notions the
    Ansible modules apply to it: truth value, `str()`, `x[key]`, `key in x`. */
module ConfigTree {

  datatype Option<T> = None | Some(value: T)

  /** A JSON value as json.loads returns it. Objects are Python dicts, whose
      order the modules never depend on when reading live state. */
  datatype Tree =
    | Null
    | Bool(b: bool)
    | Num(n: int)
    | Str(s: string)
    | List(items: seq<Tree>)
    | Map(fields: map<string, Tree>)

  /** Python's truth value of a parsed value. */
  predicate Truthy(t: Tree)
  {
    match t
    case Null => false
    case Bool(b) => b
    case Num(n) => n != 0
    case Str(s) => s != ""
    case List(xs) => xs != []
    case Map(m) => m != map[]
  }

  /** `key in t` for a dict, and `t[key]` would not raise. */
  predicate Has(t: Tree, key: string)
  {
    t.Map? && key in t.fields
  }

  /** `t[key] == val`, where `t[key]` does not raise. */
  predicate FieldIs(t: Tree, key: string, val: Tree)
  {
    Has(t, key) && t.fields[key] == val
  }

  /** A value `set()` can hold: not a list and not a dict. */
  predicate Scalar(t: Tree)
  {
    !t.List? && !t.Map?
  }

  /** The section `$config[name]` returns: JSON null when it does not exist. */
  function Section(cfg: Tree, name: string): (r: Tree)
    ensures Has(cfg, name) ==> r == cfg.fields[name]
    ensures !Has(cfg, name) ==> r == Null
  {
    if Has(cfg, name) then cfg.fields[name] else Null
  }

  /** Python's `str()` of a non-negative integer: its decimal digits. */
  function NatText(n: nat): (r: string)
    ensures |r| > 0
    ensures forall i :: 0 <= i < |r| ==> '0' <= r[i] <= '9'
  {
    var d := ['0' + (n % 10) as char];
    if n < 10 then d else NatText(n / 10) + d
  }

  /** Python's `str()` of a scalar value. */
  function ScalarText(t: Tree): string
    requires Scalar(t)
  {
    match t
    case Null => "None"
    case Bool(b) => if b then "True" else "False"
    case Num(n) => if n < 0 then "-" + NatText(-n) else NatText(n)
    case Str(s) => s
  }

  /** String-typed Ansible parameters: a declared parameter the play leaves out is None. */
  type Args = map<string, Option<string>>

  function Arg(args: Args, name: string): (r: Option<string>)
    ensures name !in args ==> r == None
  {
    if name in args then args[name] else None
  }

  /** Python's truth value of a string parameter. */
  predicate ArgTruthy(args: Args, name: string)
  {
    Arg(args, name).Some? && Arg(args, name).value != ""
  }

  /** The parameter as the value `search` or `validate` receives (None is JSON null). */
  function ArgTree(args: Args, name: string): (r: Tree)
    ensures Arg(args, name).Some? <==> r.Str?
  {
    match Arg(args, name)
    case Some(s) => Str(s)
    case None => Null
  }

  /** A list of strings as parsed values. */
  function Strs(xs: seq<string>): (r: seq<Tree>)
    ensures |r| == |xs|
    ensures forall i :: 0 <= i < |xs| ==> r[i] == Str(xs[i])
  {
    if xs == [] then [] else [Str(xs[0])] + Strs(xs[1..])
  }

  /** Every item is a string. */
  predicate AllStr(ts: seq<Tree>)
  {
    forall i :: 0 <= i < |ts| ==> ts[i].Str?
  }

  /** The strings of a list whose items are all strings. */
  function Texts(ts: seq<Tree>): (xs: seq<string>)
    requires AllStr(ts)
    ensures Strs(xs) == ts
  {
    if ts == [] then [] else [ts[0].s] + Texts(ts[1..])
  }

  /** `set(xs)` */
  function Elements(ts: seq<Tree>): set<Tree>
  {
    set t | t in ts
  }

  /** `p in s` for strings. */
  predicate Substring(p: string, s: string)
    decreases |s|
  {
    p <= s || (s != [] && Substring(p, s[1..]))
  }

  /** `p in t`, for the values that support it (a number, a boolean or null
      would raise instead). */
  predicate Contains(t: Tree, p: string)
  {
    match t
    case Map(m) => p in m
    case List(xs) => Str(p) in xs
    case Str(s) => Substring(p, s)
    case _ => false
  }

  /** The values `in` does not raise on. */
  predicate Container(t: Tree)
  {
    t.Map? || t.List? || t.Str?
  }
}

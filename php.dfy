/** The PHP statements the modules send to pfSense's shell, as values, and the
    exact text each one is rendered to. */
module Php {
  import opened ConfigTree

  /** What `search` returns: the position of a record, or the "" sentinel. */
  datatype Index = At(k: nat) | Blank

  /** `str(index)`: the sentinel prints as nothing, so `"[" + str(index) + "]"`
      becomes PHP's append form `[]`. */
  function IndexText(i: Index): (r: string)
    ensures r == "" <==> i.Blank?
    ensures i.At? ==> forall j :: 0 <= j < |r| ==> '0' <= r[j] <= '9'
  {
    match i
    case At(k) => NatText(k)
    case Blank => ""
  }

  /** One subscript of a PHP variable: `['name']` or `[index]`. */
  datatype Sel = Key(name: string) | Idx(index: Index)

  /** A PHP variable with subscripts, such as `$config['aliases']['alias'][3]`. */
  datatype Ref = Ref(root: string, path: seq<Sel>)
  {
    function Sub(s: Sel): Ref { Ref(root, path + [s]) }
    function Field(name: string): Ref { Sub(Key(name)) }
  }

  function SelText(s: Sel): string
  {
    match s
    case Key(n) => "['" + n + "']"
    case Idx(i) => "[" + IndexText(i) + "]"
  }

  function PathText(p: seq<Sel>): string
  {
    if p == [] then "" else PathText(p[..|p| - 1]) + SelText(p[|p| - 1])
  }

  function RefText(r: Ref): string
  {
    "$" + r.root + PathText(r.path)
  }

  lemma {:induction false} RefTextSub(r: Ref, s: Sel)
    ensures RefText(r.Sub(s)) == RefText(r) + SelText(s)
  {
    assert (r.path + [s])[..|r.path|] == r.path;
  }

  /** Selecting the sentinel index ends the text in `[]`, PHP's append; a
      found position never does. */
  lemma SentinelAppends(r: Ref, i: Index)
    ensures i.Blank? <==> RefText(r.Sub(Idx(i)))[|RefText(r.Sub(Idx(i)))| - 2..] == "[]"
  {
    RefTextSub(r, Idx(i));
    var t := RefText(r.Sub(Idx(i)));
    var d := IndexText(i);
    var u := "[" + d + "]";
    assert t == RefText(r) + u;
    assert t[|t| - 2..] == u[|u| - 2..];
    if i.At? {
      assert u[|u| - 2] == d[|d| - 1];
      assert u[|u| - 2] != '[';
    }
  }

  /** `sep.join(xs)` */
  function Join(sep: string, xs: seq<string>): string
  {
    if xs == [] then ""
    else if |xs| == 1 then xs[0]
    else xs[0] + sep + Join(sep, xs[1..])
  }

  /** The list literal as the modules write it: `"['" + "','".join(xs) + "']"`. */
  function StringsTextAsWritten(xs: seq<string>): string
  {
    "['" + Join("','", xs) + "']"
  }

  /** The corrected list literal: the empty list written `[]`, so that every
      list of plain strings reads back as itself. */
  function StringsText(xs: seq<string>): string
  {
    if xs == [] then "[]" else StringsTextAsWritten(xs)
  }

  /** PHP's reading of a single-quoted literal's inside up to its closing
      quote: the contents and the text after the quote. */
  function ReadQuoted(t: string): (r: Option<(string, string)>)
    ensures r.Some? ==> |r.value.1| < |t|
    decreases |t|
  {
    if t == [] then None
    else if t[0] == '\'' then Some(("", t[1..]))
    else if t[0] == '\\' && |t| >= 2 && (t[1] == '\\' || t[1] == '\'') then
      match ReadQuoted(t[2..])
      case Some((c, rest)) => Some(([t[1]] + c, rest))
      case None => None
    else
      match ReadQuoted(t[1..])
      case Some((c, rest)) => Some(([t[0]] + c, rest))
      case None => None
  }

  /** The items of a list literal from the opening quote of its first item to
      the closing bracket. */
  function ReadItems(t: string): Option<seq<string>>
    decreases |t|
  {
    if t == [] || t[0] != '\'' then None
    else
      match ReadQuoted(t[1..])
      case None => None
      case Some((c, rest)) =>
        if rest == "]" then Some([c])
        else if rest != [] && rest[0] == ',' then
          match ReadItems(rest[1..])
          case Some(xs) => Some([c] + xs)
          case None => None
        else None
  }

  /** PHP's reading of a list literal of single-quoted strings. */
  function ReadStrings(t: string): Option<seq<string>>
  {
    if t == "[]" then Some([])
    else if t != [] && t[0] == '[' then ReadItems(t[1..])
    else None
  }

  /** Neither quotes nor backslashes. */
  predicate Plain(s: string)
  {
    forall i :: 0 <= i < |s| ==> s[i] != '\'' && s[i] != '\\'
  }

  lemma {:induction false} ReadQuotedPlain(s: string, rest: string)
    requires Plain(s)
    ensures ReadQuoted(s + "'" + rest) == Some((s, rest))
    decreases |s|
  {
    if s == [] {
      assert s + "'" + rest == "'" + rest;
    } else {
      assert (s + "'" + rest)[1..] == s[1..] + "'" + rest;
      ReadQuotedPlain(s[1..], rest);
      assert [s[0]] + s[1..] == s;
    }
  }

  lemma {:induction false} ReadItemsJoin(xs: seq<string>)
    requires xs != [] && forall i :: 0 <= i < |xs| ==> Plain(xs[i])
    ensures ReadItems("'" + Join("','", xs) + "']") == Some(xs)
    decreases |xs|
  {
    var t := "'" + Join("','", xs) + "']";
    if |xs| == 1 {
      assert Join("','", xs) == xs[0];
      assert t[0] == '\'' && t[1..] == xs[0] + "'" + "]";
      ReadQuotedPlain(xs[0], "]");
      assert [xs[0]] == xs;
    } else {
      var tail := "'" + Join("','", xs[1..]) + "']";
      assert t[1..] == xs[0] + "'" + ("," + tail);
      ReadQuotedPlain(xs[0], "," + tail);
      assert ("," + tail)[1..] == tail;
      ReadItemsJoin(xs[1..]);
      assert [xs[0]] + xs[1..] == xs;
    }
  }

  /** A list of plain strings reads back as itself, the empty list included. */
  lemma StringsRoundTrip(xs: seq<string>)
    requires forall i :: 0 <= i < |xs| ==> Plain(xs[i])
    ensures ReadStrings(StringsText(xs)) == Some(xs)
  {
    if xs != [] {
      var t := StringsText(xs);
      assert t == "[" + ("'" + Join("','", xs) + "']");
      assert t[1..] == "'" + Join("','", xs) + "']";
      assert t != "[]" by {
        assert |t| >= 4;
      }
      ReadItemsJoin(xs);
    }
  }

  /** As written, the empty list is sent as `['']`, which PHP reads as a list
      holding one empty string. */
  lemma AsWrittenEmptyListReadsBack()
    ensures StringsTextAsWritten([]) == "['']"
    ensures ReadStrings(StringsTextAsWritten([])) == Some([""])
  {
    var t := StringsTextAsWritten([]);
    assert t == "['']";
    assert t[1..] == "'" + "" + "'" + "]";
    ReadQuotedPlain("", "]");
  }

  /** Right-hand sides of assignments. */
  datatype Value =
    | Quoted(text: string)       // 'text', no escaping
    | Strings(items: seq<string>) // a list of string literals
    | Var(name: string)           // $name
    | Code(text: string)          // a PHP expression written out verbatim

  function ValueText(v: Value): string
  {
    match v
    case Quoted(t) => "'" + t + "'"
    case Strings(xs) => StringsTextAsWritten(xs)
    case Var(n) => "$" + n
    case Code(t) => t
  }

  /** What PHP reads back from a written list of plain strings: the list
      itself, except that the empty list comes back as `['']`. */
  lemma ListTextReadsBack(xs: seq<string>)
    requires forall i :: 0 <= i < |xs| ==> Plain(xs[i])
    ensures ReadStrings(ValueText(Strings(xs))) == (if xs == [] then Some([""]) else Some(xs))
  {
    if xs == [] {
      AsWrittenEmptyListReadsBack();
    } else {
      StringsRoundTrip(xs);
    }
  }

  /** `s.replace("'", "\\'")`: the one escaping any module applies (pfsense_config's
      sub-key values). */
  function Escape(s: string): (r: string)
    ensures |r| >= |s|
  {
    if s == [] then ""
    else (if s[0] == '\'' then "\\'" else [s[0]]) + Escape(s[1..])
  }

  /** PHP's reading of the inside of a single-quoted literal: `\\` is a backslash,
      `\'` a quote, any other character stands for itself. None when an unescaped
      quote ends the literal early or a lone backslash escapes the closing quote. */
  function Unquote(t: string): Option<string>
  {
    if t == [] then Some("")
    else if t[0] == '\'' then None
    else if t[0] == '\\' && |t| >= 2 && (t[1] == '\\' || t[1] == '\'') then
      match Unquote(t[2..])
      case Some(r) => Some([t[1]] + r)
      case None => None
    else if t[0] == '\\' && |t| == 1 then None
    else
      match Unquote(t[1..])
      case Some(r) => Some([t[0]] + r)
      case None => None
  }

  /** For a value without backslashes, the escaped literal reads back as the value. */
  lemma {:induction false} EscapeRoundTrip(s: string)
    requires forall i :: 0 <= i < |s| ==> s[i] != '\\'
    ensures Unquote(Escape(s)) == Some(s)
  {
    if s != [] {
      EscapeRoundTrip(s[1..]);
      var e := Escape(s[1..]);
      if s[0] == '\'' {
        var t := Escape(s);
        assert t == "\\'" + e;
        assert t[0] == '\\' && t[1] == '\'' && t[2..] == e;
        assert Unquote(t) == Some([t[1]] + s[1..]);
        assert [t[1]] + s[1..] == s;
      } else {
        var t := Escape(s);
        assert t == [s[0]] + e;
        assert t[0] == s[0] && t[1..] == e;
        assert Unquote(t) == Some([t[0]] + s[1..]);
        assert [t[0]] + s[1..] == s;
      }
    }
  }

  /** A value with neither quotes nor backslashes is its own literal. */
  lemma {:induction false} UnquoteVerbatim(s: string)
    requires forall i :: 0 <= i < |s| ==> s[i] != '\'' && s[i] != '\\'
    ensures Unquote(s) == Some(s)
  {
    if s != [] {
      UnquoteVerbatim(s[1..]);
      assert [s[0]] + s[1..] == s;
    }
  }

  /** A statement as the modules emit it. */
  datatype Stmt =
    | Assign(lhs: Ref, spaced: bool, rhs: Value)   // lhs=rhs; or lhs = rhs;
    | Unset(target: Ref)                           // unset(target);
    | Increment(target: Ref)                       // target++;
    | Record(lhs: Ref, pairs: seq<(string, string)>) // lhs=[ 'k'=>'v', ... ];
    | Call(text: string)                           // a line of PHP code

  function PairsText(ps: seq<(string, string)>): string
  {
    if ps == [] then ""
    else "'" + ps[0].0 + "'=>'" + ps[0].1 + "'" + (if |ps| == 1 then "" else ",\n" + PairsText(ps[1..]))
  }

  /** The exact text of one statement; never empty. */
  function Text(s: Stmt): (r: string)
    ensures |r| > 0
  {
    match s
    case Assign(l, sp, v) => RefText(l) + (if sp then " = " else "=") + ValueText(v) + ";\n"
    case Unset(t) => "unset(" + RefText(t) + ");\n"
    case Increment(t) => RefText(t) + "++;\n"
    case Record(l, ps) => RefText(l) + "=[\n" + PairsText(ps) + "];"
    case Call(t) => t + "\n"
  }

  /** The text of a statement list: `configuration` as the modules accumulate it. */
  function Script(ss: seq<Stmt>): (r: string)
    ensures r == "" <==> ss == []
  {
    if ss == [] then "" else Text(ss[0]) + Script(ss[1..])
  }

  lemma {:induction false} ScriptAppend(a: seq<Stmt>, b: seq<Stmt>)
    ensures Script(a + b) == Script(a) + Script(b)
  {
    if a != [] {
      assert (a + b)[0] == a[0] && (a + b)[1..] == a[1..] + b;
      ScriptAppend(a[1..], b);
      calc {
        Script(a + b);
        Text(a[0]) + Script(a[1..] + b);
        Text(a[0]) + (Script(a[1..]) + Script(b));
        (Text(a[0]) + Script(a[1..])) + Script(b);
        Script(a) + Script(b);
      }
    } else {
      assert a + b == b;
    }
  }
}

/** module_utils/pfsense.py: the framing of requests to pfSense's PHP shell
    (`pfSsh.php`), the extraction of the JSON payload from its output, the
    record locator `search`, and the decision to write that ends every module. */
module Shell {
  import opened ConfigTree
  import opened Php

  /** The failures the modules report through fail_json, one per message. */
  datatype Error =
    | ReadFailed                                  // 'error reading config'
    | WriteFailed                                 // 'error writing config'
    | BadJson(payload: string)                    // 'error converting to JSON'
    | CannotCreateArray(key: string)              // 'Cannot create array type, ...'
    | KeyNotFound(section: string, key: string)   // 'Key: ... Cannot create new keys in safe mode'
    | SubKeyNotFound(path: string, subkey: string) // 'SubKey: ... Cannot create new keys in safe mode'
    | LiveTypeDiffers(path: string)               // '<section>:<key> requires <type>'
    | StringExpectedInConfig(path: string)        // 'String expected in config at ...'
    | StringValueExpected(path: string)           // 'String value expected in ...'
    | UnexpectedType(path: string)                // '... has unexpected type ...'
    | Invalid(field: string)                      // validate refused the value
    | IncorrectState                              // 'Incorrect state value, ...'
    | TrackerMissing(rule: Tree)                  // 'tracker not found in rule'
    | NoMatchedRules                              // 'no matched rules: aborting'
    | InterfaceNotFound(name: string)             // 'interface ... not found'
    | UserNotFound(name: string)                  // 'username: ... not found'
    | FrrNotInstalled                             // 'pfsense-pkg-frr package not installed'
    | Raises(exception: string)                   // an uncaught Python exception, as written

  datatype Result<T> = Ok(value: T) | Err(error: Error)

  /** Statements emitted before a step that may still fail: a failure discards them. */
  function Then<S>(prefix: seq<Stmt>, r: Result<(seq<Stmt>, S)>): (t: Result<(seq<Stmt>, S)>)
    ensures r.Err? ==> t == r
    ensures r.Ok? ==> t == Ok((prefix + r.value.0, r.value.1))
    ensures prefix == [] ==> t == r
  {
    match r
    case Err(e) => Err(e)
    case Ok((ss, st)) => assert prefix == [] ==> prefix + ss == ss; Ok((prefix + ss, st))
  }

  lemma ThenThen<S>(a: seq<Stmt>, b: seq<Stmt>, r: Result<(seq<Stmt>, S)>)
    ensures Then(a, Then(b, r)) == Then(a + b, r)
  {
    if r.Ok? {
      assert a + (b + r.value.0) == (a + b) + r.value.0;
    }
  }

  /** `validate(module, label, value)`: the allow-list check the modules import.
      Its definition is not part of this model, so it is a parameter; false means
      it fails the module. */
  type Validator = (string, Tree) -> bool

  // ---------------------------------------------------------------- search

  /** What `search` does: return a position or the "" sentinel, or raise because
      `v[key]` raised on the way. */
  datatype Lookup = Done(index: Index) | Raised

  /** `v[key]` exists and differs from `val`: the scan goes on past v. */
  predicate Passes(v: Tree, key: string, val: Tree)
  {
    Has(v, key) && v.fields[key] != val
  }

  /** The loop of `search` from position `from` on. */
  function Scan(items: seq<Tree>, key: string, val: Tree, from: nat): (r: Lookup)
    requires from <= |items|
    ensures r.Done? && r.index.At? ==>
      from <= r.index.k < |items| && FieldIs(items[r.index.k], key, val) &&
      forall j :: from <= j < r.index.k ==> Passes(items[j], key, val)
    ensures r == Done(Blank) <==> forall j :: from <= j < |items| ==> Passes(items[j], key, val)
    ensures r == Raised <==>
      exists j :: from <= j < |items| && !Has(items[j], key) &&
        forall i :: from <= i < j ==> Passes(items[i], key, val)
    decreases |items| - from
  {
    if from == |items| then Done(Blank)
    else if !Has(items[from], key) then Raised
    else if items[from].fields[key] == val then Done(At(from))
    else Scan(items, key, val, from + 1)
  }

  /** `search(elements, key, val)`: the first record whose `key` equals `val`.
      A dict is enumerated by its keys, which are strings, so `v[key]` raises on
      the first one; anything but a list or dict yields the sentinel. */
  function Search(elements: Tree, key: string, val: Tree): (r: Lookup)
    ensures r.Done? && r.index.At? ==>
      elements.List? && r.index.k < |elements.items| &&
      FieldIs(elements.items[r.index.k], key, val) &&
      forall j :: 0 <= j < r.index.k ==> Passes(elements.items[j], key, val)
    ensures elements.List? ==>
      (r == Done(Blank) <==> forall j :: 0 <= j < |elements.items| ==> Passes(elements.items[j], key, val))
    ensures elements.List? ==>
      (r == Raised <==>
        exists j :: 0 <= j < |elements.items| && !Has(elements.items[j], key) &&
          forall i :: 0 <= i < j ==> Passes(elements.items[i], key, val))
    ensures elements.Map? ==> r == (if elements.fields == map[] then Done(Blank) else Raised)
    ensures !elements.List? && !elements.Map? ==> r == Done(Blank)
  {
    match elements
    case List(items) => Scan(items, key, val, 0)
    case Map(m) => if m == map[] then Done(Blank) else Raised
    case _ => Done(Blank)
  }

  /** A found record is a dict: `v[key]` did not raise on it. */
  lemma FoundIsRecord(elements: Tree, key: string, val: Tree)
    requires Search(elements, key, val).Done? && Search(elements, key, val).index.At?
    ensures elements.items[Search(elements, key, val).index.k].Map?
  {
  }

  // ---------------------------------------------------------------- requests

  const PersistDirective := "\nwrite_config();\n"
  const ExitDirective := "\nexec\nexit\n"

  /** The section a read asks for: `if section:` treats "" like None. */
  function Requested(section: Option<string>): Option<string>
  {
    if section.Some? && section.value != "" then section else None
  }

  /** `read_config`'s request: serialise `$config[section]`, or all of `$config`. */
  function ReadRequest(section: Option<string>): (r: string)
    ensures |r| >= |ExitDirective| && r[|r| - |ExitDirective|..] == ExitDirective
  {
    if Requested(section).Some? then
      "echo \"\n\".json_encode($config[\"" + section.value + "\"]).\"\n\";" + ExitDirective
    else
      "echo \"\n\".json_encode($config).\"\n\";" + ExitDirective
  }

  /** The request names its section: two reads send the same text exactly when
      they ask for the same section (or both for the whole tree). */
  lemma ReadRequestDetermines(a: Option<string>, b: Option<string>)
    ensures ReadRequest(a) == ReadRequest(b) <==> Requested(a) == Requested(b)
  {
    var head := "echo \"\n\".json_encode($config";
    var tail := "\"]).\"\n\";" + ExitDirective;
    var ra, rb := ReadRequest(a), ReadRequest(b);
    if ra == rb {
      if Requested(a).Some? && Requested(b).Some? {
        var x, y := a.value, b.value;
        assert ra == head + "[\"" + x + tail;
        assert rb == head + "[\"" + y + tail;
        assert |x| == |y|;
        assert x == ra[|head| + 2..|head| + 2 + |x|];
        assert y == rb[|head| + 2..|head| + 2 + |y|];
      }
    }
  }

  /** `write_config`'s request: the statements, the persist directive, the
      post-statements, the exit directive; post-statements run after the save. */
  function WriteRequest(configuration: string, post: string): (r: string)
    ensures |r| == |configuration| + |PersistDirective| + |post| + |ExitDirective|
    ensures r[..|configuration|] == configuration
    ensures r[|configuration|..|configuration| + |PersistDirective|] == PersistDirective
    ensures r[|configuration| + |PersistDirective|..|r| - |ExitDirective|] == post
    ensures r[|r| - |ExitDirective|..] == ExitDirective
  {
    configuration + PersistDirective + post + ExitDirective
  }

  // ---------------------------------------------------------------- output

  const StartMarker := "\npfSense shell: exec\n"
  const EndMarker := "\npfSense shell: exit\n"

  predicate MatchAt(text: string, pat: string, i: nat)
  {
    i + |pat| <= |text| && text[i..i + |pat|] == pat
  }

  /** The first occurrence of `pat` at or after `from` (Python's `str.index`). */
  function Find(text: string, pat: string, from: nat): (r: Option<nat>)
    requires from <= |text|
    ensures r.Some? ==>
      (from <= r.value && MatchAt(text, pat, r.value) &&
       forall j :: from <= j < r.value ==> !MatchAt(text, pat, j))
    ensures r.None? ==> forall j :: from <= j <= |text| ==> !MatchAt(text, pat, j)
    decreases |text| - from
  {
    if MatchAt(text, pat, from) then Some(from)
    else if from == |text| then None
    else Find(text, pat, from + 1)
  }

  /** The text between the end of the first start marker and the first end
      marker; Python's slice is empty when the end marker comes first. None when
      a marker is missing: `out.index` raises, and so does the handler, which reads
      `out[s:e]` before `s` or `e` is bound. */
  function Payload(out: string): (r: Option<string>)
  {
    match (Find(out, StartMarker, 0), Find(out, EndMarker, 0))
    case (Some(i), Some(e)) =>
      var s := i + |StartMarker|;
      Some(if s <= e then out[s..e] else "")
    case _ => None
  }

  lemma MatchAtExtended(text: string, ext: string, pat: string, j: nat)
    requires j + |pat| <= |text|
    ensures MatchAt(text + ext, pat, j) <==> MatchAt(text, pat, j)
  {
    assert (text + ext)[j..j + |pat|] == text[j..j + |pat|];
  }

  /** Framed output: when the start marker first occurs right after `pre` and the
      end marker first occurs right after the payload, the payload is returned
      exactly. */
  lemma {:induction false} PayloadOfFramedOutput(pre: string, p: string, post: string)
    requires forall j :: 0 <= j < |pre| ==> !MatchAt(pre + StartMarker, StartMarker, j)
    requires forall j :: 0 <= j < |pre| + |StartMarker| + |p| ==> !MatchAt(pre + StartMarker + p + EndMarker, EndMarker, j)
    ensures Payload(pre + StartMarker + p + EndMarker + post) == Some(p)
  {
    var out := pre + StartMarker + p + EndMarker + post;
    var a := pre + StartMarker;
    var b := pre + StartMarker + p + EndMarker;
    assert out == a + (p + EndMarker + post);
    assert out == b + post;
    forall j | 0 <= j < |pre| ensures !MatchAt(out, StartMarker, j) {
      MatchAtExtended(a, p + EndMarker + post, StartMarker, j);
    }
    MatchAtExtended(a, p + EndMarker + post, StartMarker, |pre|);
    assert a[|pre|..|pre| + |StartMarker|] == StartMarker;
    var s := Find(out, StartMarker, 0);
    assert s == Some(|pre|);
    var n := |pre| + |StartMarker| + |p|;
    forall j | 0 <= j < n ensures !MatchAt(out, EndMarker, j) {
      MatchAtExtended(b, post, EndMarker, j);
    }
    MatchAtExtended(b, post, EndMarker, n);
    assert b[n..n + |EndMarker|] == EndMarker;
    var e := Find(out, EndMarker, 0);
    assert e == Some(n);
    assert out[|pre| + |StartMarker|..n] == p;
  }

  /** `read_config`: a nonzero exit status or a payload that does not parse is a
      reported failure; otherwise the parsed payload. A missing marker leaves
      the slice bounds unbound, so the handler's own `out[s:e]` raises
      UnboundLocalError. `decode` stands for json.loads. */
  function ReadConfig(rc: int, out: string, decode: string -> Option<Tree>): (r: Result<Tree>)
    ensures r.Ok? <==> rc == 0 && Payload(out).Some? && decode(Payload(out).value).Some?
    ensures r.Ok? ==> r.value == decode(Payload(out).value).value
    ensures rc != 0 ==> r == Err(ReadFailed)
    ensures rc == 0 && Payload(out).None? ==> r == Err(Raises("UnboundLocalError"))
    ensures rc == 0 && Payload(out).Some? && decode(Payload(out).value).None? ==> r == Err(BadJson(Payload(out).value))
  {
    if rc != 0 then Err(ReadFailed)
    else match Payload(out)
      case None => Err(Raises("UnboundLocalError"))
      case Some(p) =>
        match decode(p)
        case None => Err(BadJson(p))
        case Some(t) => Ok(t)
  }

  /** `write_config`'s exit-status check. */
  function WriteStatus(rc: int): (r: Result<()>)
    ensures r.Ok? <==> rc == 0
  {
    if rc != 0 then Err(WriteFailed) else Ok(())
  }

  // ---------------------------------------------------------------- commit

  /** How a module sends its statements: through the shared `write_config` with a
      post-statement, or through a module-local copy that appends a fixed suffix. */
  datatype Writer = Shared(post: string) | Local(suffix: string)

  function Request(w: Writer, configuration: string): string
  {
    match w
    case Shared(post) => WriteRequest(configuration, post)
    case Local(suffix) => configuration + suffix
  }

  /** The filter subsystem is marked dirty so that the GUI offers to apply it. */
  const FilterDirty := "mark_subsystem_dirty(\"filter\");"

  /** The local copy in pfsense_filter_rules and pfsense_filter_audit:
      `\nwrite_config();\nmark_subsystem_dirty("filter");\nexec\nexit\n`. */
  const FilterSuffix := PersistDirective + FilterDirty + ExitDirective

  /** The local copy in pfsense_aliases. */
  const AliasesSuffix := "\nwrite_config();\nexec\nexit\n"

  /** The filter modules' local copy is the shared request with the filter marked
      dirty as the post-statement, so the marking runs after the save. */
  lemma FilterWriterIsShared(configuration: string)
    ensures Request(Local(FilterSuffix), configuration) == WriteRequest(configuration, FilterDirty)
  {
    assert configuration + (PersistDirective + FilterDirty + ExitDirective) ==
      configuration + PersistDirective + FilterDirty + ExitDirective;
  }

  /** What a module reports: `phpcode`, the write request sent (if any), `changed`. */
  datatype Outcome = Outcome(phpcode: string, request: Option<string>, changed: bool)

  /** The common ending: check mode returns the code without writing; otherwise
      the code is written and reported as a change when `write` holds. */
  function Finish(checkMode: bool, stmts: seq<Stmt>, write: bool, w: Writer): (o: Outcome)
    ensures o.phpcode == Script(stmts)
    ensures o.changed <==> !checkMode && write
    ensures o.request.Some? <==> o.changed
    ensures o.request.Some? ==> o.request.value == Request(w, Script(stmts))
  {
    var code := Script(stmts);
    if checkMode || !write then Outcome(code, None, false)
    else Outcome(code, Some(Request(w, code)), true)
  }

  /** Most modules write exactly when `configuration` is not empty. */
  function Commit(checkMode: bool, stmts: seq<Stmt>, w: Writer): (o: Outcome)
    ensures o.phpcode == Script(stmts)
    ensures o.changed <==> !checkMode && stmts != []
    ensures o.request.Some? <==> o.changed
    ensures o.request.Some? ==> o.request.value == Request(w, Script(stmts))
  {
    Finish(checkMode, stmts, stmts != [], w)
  }
}

/** pfsense_filter_audit: compares the live firewall rules with the rules a
    play supplies, by tracker; lists the live rules nobody supplied and, when
    enforced, removes them. */
module FilterAudit {
  import opened ConfigTree
  import opened Php
  import opened Shell

  /** `$config['filter']['rule'][k]` */
  function Base(k: nat): Ref
  {
    Ref("config", [Key("filter"), Key("rule"), Idx(At(k))])
  }

  /** Python's `str()`: scalars as Python writes them, lists and dicts by `repr`. */
  function PyStr(t: Tree, repr: Tree -> string): string
  {
    if Scalar(t) then ScalarText(t) else repr(t)
  }

  /** A supplied rule without a `state` key counts as present. */
  predicate Present(rule: Tree)
  {
    !Has(rule, "state") || rule.fields["state"] == Str("present")
  }

  /** The trackers of the supplied rules that are present, in order; the
      first rule without a tracker is an error. */
  function Trackers(rules: seq<Tree>, repr: Tree -> string): Result<seq<string>>
    decreases |rules|
  {
    if rules == [] then Ok([])
    else
      match Trackers(rules[..|rules| - 1], repr)
      case Err(e) => Err(e)
      case Ok(ts) =>
        var rule := rules[|rules| - 1];
        if !Has(rule, "tracker") then Err(TrackerMissing(rule))
        else Ok(ts + (if Present(rule) then [PyStr(rule.fields["tracker"], repr)] else []))
  }

  /** `tracker in trackers`: only a string tracker can equal a supplied one. */
  predicate Matched(rule: Tree, trackers: seq<string>)
    requires Has(rule, "tracker")
  {
    rule.fields["tracker"].Str? && rule.fields["tracker"].s in trackers
  }

  /** Every live rule has a tracker (reading it is not caught). */
  predicate Tracked(live: seq<Tree>)
  {
    forall k :: 0 <= k < |live| ==> Has(live[k], "tracker")
  }

  /** The positions of the live rules no supplied rule matches, ascending. */
  function Unmatched(live: seq<Tree>, trackers: seq<string>): (ks: seq<nat>)
    requires Tracked(live)
    ensures forall i :: 0 <= i < |ks| ==> ks[i] < |live|
    decreases |live|
  {
    if live == [] then []
    else
      var n := |live| - 1;
      Unmatched(live[..n], trackers) + (if Matched(live[n], trackers) then [] else [n])
  }

  /** The number of live rules a supplied rule matches. */
  function Count(live: seq<Tree>, trackers: seq<string>): nat
    requires Tracked(live)
    decreases |live|
  {
    if live == [] then 0
    else
      var n := |live| - 1;
      Count(live[..n], trackers) + (if Matched(live[n], trackers) then 1 else 0)
  }

  function Pick(live: seq<Tree>, ks: seq<nat>): (r: seq<Tree>)
    requires forall i :: 0 <= i < |ks| ==> ks[i] < |live|
    ensures |r| == |ks| && forall i :: 0 <= i < |ks| ==> r[i] == live[ks[i]]
  {
    if ks == [] then [] else [live[ks[0]]] + Pick(live, ks[1..])
  }

  function Unsets(ks: seq<nat>): (r: seq<Stmt>)
    ensures |r| == |ks| && forall i :: 0 <= i < |ks| ==> r[i] == Unset(Base(ks[i]))
  {
    if ks == [] then [] else [Unset(Base(ks[0]))] + Unsets(ks[1..])
  }

  /** The audit list and the committed outcome. */
  datatype Audit = Audit(audit: seq<Tree>, outcome: Outcome)

  /** `enforce` when it is a string, "no" otherwise. */
  function Enforcing(enforce: Option<string>): bool
  {
    enforce == Some("yes")
  }

  /** What the module reports for supplied `rules` against the live rule list. */
  function Plan(rules: seq<Tree>, live: seq<Tree>, enforce: Option<string>, repr: Tree -> string, checkMode: bool): Result<Audit>
    requires Tracked(live)
  {
    match Trackers(rules, repr)
    case Err(e) => Err(e)
    case Ok(ts) =>
      if Count(live, ts) == 0 then Err(NoMatchedRules)
      else
        var ks := Unmatched(live, ts);
        Ok(Audit(Pick(live, ks), Commit(checkMode, if Enforcing(enforce) then Unsets(ks) else [], Local(FilterSuffix))))
  }

  /** The loop over the supplied rules. */
  method CollectTrackers(rules: seq<Tree>, repr: Tree -> string) returns (r: Result<seq<string>>)
    ensures r == Trackers(rules, repr)
  {
    var trackers: seq<string> := [];
    var i := 0;
    while i < |rules|
      invariant 0 <= i <= |rules|
      invariant Trackers(rules[..i], repr) == Ok(trackers)
    {
      assert rules[..i + 1][..i] == rules[..i];
      var rule := rules[i];
      if !Has(rule, "tracker") {
        PrefixFails(rules, i + 1, repr);
        return Err(TrackerMissing(rule));
      }
      if Present(rule) {
        trackers := trackers + [PyStr(rule.fields["tracker"], repr)];
      } else {
        assert trackers + [] == trackers;
      }
      i := i + 1;
    }
    assert rules[..i] == rules;
    return Ok(trackers);
  }

  /** The loop over the live rules: the unmatched ones, their removals when
      `enforcing`, and the number matched. */
  method AuditLive(live: seq<Tree>, trackers: seq<string>, enforcing: bool)
    returns (audit: seq<Tree>, stmts: seq<Stmt>, count: nat)
    requires Tracked(live)
    ensures audit == Pick(live, Unmatched(live, trackers))
    ensures stmts == (if enforcing then Unsets(Unmatched(live, trackers)) else [])
    ensures count == Count(live, trackers)
  {
    audit, stmts, count := [], [], 0;
    var key := 0;
    while key < |live|
      invariant 0 <= key <= |live|
      invariant Tracked(live[..key])
      invariant count == Count(live[..key], trackers)
      invariant audit == Pick(live, Unmatched(live[..key], trackers))
      invariant stmts == (if enforcing then Unsets(Unmatched(live[..key], trackers)) else [])
    {
      var rule := live[key];
      UnmatchedStep(live, key, trackers);
      if !Matched(rule, trackers) {
        audit := audit + [rule];
        if enforcing {
          stmts := stmts + [Unset(Base(key))];
        }
      } else {
        count := count + 1;
      }
      key := key + 1;
    }
    assert live[..key] == live;
  }

  /** The module run; `cfg` is the filter section, read after the supplied
      rules are gathered. */
  method Run(rules: seq<Tree>, cfg: Tree, enforce: Option<string>, repr: Tree -> string, checkMode: bool)
    returns (r: Result<Audit>)
    requires Has(cfg, "rule") && cfg.fields["rule"].List? && Tracked(cfg.fields["rule"].items)
    ensures r == Plan(rules, cfg.fields["rule"].items, enforce, repr, checkMode)
  {
    var trackers := CollectTrackers(rules, repr);
    if trackers.Err? {
      return Err(trackers.error);
    }
    var audit, stmts, count := AuditLive(cfg.fields["rule"].items, trackers.value, Enforcing(enforce));
    if count == 0 {
      return Err(NoMatchedRules);
    }
    return Ok(Audit(audit, Commit(checkMode, stmts, Local(FilterSuffix))));
  }

  /** A failure in a prefix of the supplied rules is the failure of all of them. */
  lemma {:induction false} PrefixFails(rules: seq<Tree>, n: nat, repr: Tree -> string)
    requires n <= |rules| && Trackers(rules[..n], repr).Err?
    ensures Trackers(rules, repr) == Trackers(rules[..n], repr)
    decreases |rules| - n
  {
    if n < |rules| {
      assert rules[..n + 1][..n] == rules[..n];
      PrefixFails(rules, n + 1, repr);
    } else {
      assert rules[..n] == rules;
    }
  }

  /** How the unmatched positions grow by one live rule. */
  lemma UnmatchedGrows(live: seq<Tree>, key: nat, trackers: seq<string>)
    requires key < |live| && Tracked(live)
    ensures Tracked(live[..key + 1]) && live[..key + 1][..key] == live[..key]
    ensures Unmatched(live[..key + 1], trackers) ==
      Unmatched(live[..key], trackers) + (if Matched(live[key], trackers) then [] else [key])
  {
    assert live[..key + 1][..key] == live[..key];
    assert Tracked(live[..key]) by {
      assert forall k :: 0 <= k < key ==> live[..key][k] == live[k];
    }
  }

  /** The audit list and the unsets grow by one entry per audited position. */
  lemma PickUnsetsGrow(live: seq<Tree>, ks: seq<nat>, key: nat)
    requires key < |live| && forall i :: 0 <= i < |ks| ==> ks[i] < |live|
    ensures Pick(live, ks + [key]) == Pick(live, ks) + [live[key]]
    ensures Unsets(ks + [key]) == Unsets(ks) + [Unset(Base(key))]
  {
  }

  /** How the unmatched positions, the audit list and the unsets grow by one live rule. */
  lemma UnmatchedStep(live: seq<Tree>, key: nat, trackers: seq<string>)
    requires key < |live| && Tracked(live)
    ensures Tracked(live[..key + 1]) && live[..key + 1][..key] == live[..key]
    ensures Unmatched(live[..key + 1], trackers) ==
      Unmatched(live[..key], trackers) + (if Matched(live[key], trackers) then [] else [key])
    ensures Pick(live, Unmatched(live[..key], trackers) + [key]) == Pick(live, Unmatched(live[..key], trackers)) + [live[key]]
    ensures Unsets(Unmatched(live[..key], trackers) + [key]) == Unsets(Unmatched(live[..key], trackers)) + [Unset(Base(key))]
  {
    UnmatchedGrows(live, key, trackers);
    PickUnsetsGrow(live, Unmatched(live[..key], trackers), key);
  }

  // ------------------------------------------------------------------ properties

  /** A position is audited exactly when the live rule there is unmatched. */
  lemma {:induction false} UnmatchedMeaning(live: seq<Tree>, trackers: seq<string>, k: int)
    requires Tracked(live)
    ensures k in Unmatched(live, trackers) <==> 0 <= k < |live| && !Matched(live[k], trackers)
    decreases |live|
  {
    if live != [] {
      var n := |live| - 1;
      var front := live[..n];
      UnmatchedStep(live, n, trackers);
      var a := Unmatched(front, trackers);
      var tail: seq<nat> := if Matched(live[n], trackers) then [] else [n];
      assert k in a <==> 0 <= k < n && !Matched(live[k], trackers) by {
        UnmatchedMeaning(front, trackers, k);
        if 0 <= k < n {
          assert front[k] == live[k];
        }
      }
      assert k in tail <==> k == n && !Matched(live[n], trackers);
      assert Unmatched(live, trackers) == a + tail;
      assert k in a + tail <==> k in a || k in tail;
    }
  }

  /** The audited positions ascend, so each live rule is removed at most once. */
  lemma {:induction false} UnmatchedAscend(live: seq<Tree>, trackers: seq<string>)
    requires Tracked(live)
    ensures forall i, j :: 0 <= i < j < |Unmatched(live, trackers)| ==> Unmatched(live, trackers)[i] < Unmatched(live, trackers)[j]
    decreases |live|
  {
    if live != [] {
      var n := |live| - 1;
      UnmatchedStep(live, n, trackers);
      UnmatchedAscend(live[..n], trackers);
    }
  }

  /** Audited and matched rules together are all the live rules. */
  lemma {:induction false} AuditedPlusMatched(live: seq<Tree>, trackers: seq<string>)
    requires Tracked(live)
    ensures |Unmatched(live, trackers)| + Count(live, trackers) == |live|
    decreases |live|
  {
    if live != [] {
      var n := |live| - 1;
      UnmatchedStep(live, n, trackers);
      AuditedPlusMatched(live[..n], trackers);
    }
  }

  /** The trackers are gathered exactly when every supplied rule has one, and
      they are the present rules' trackers. */
  lemma {:induction false} TrackersMeaning(rules: seq<Tree>, repr: Tree -> string)
    ensures Trackers(rules, repr).Ok? <==> forall i :: 0 <= i < |rules| ==> Has(rules[i], "tracker")
    ensures Trackers(rules, repr).Ok? ==> forall s :: s in Trackers(rules, repr).value <==>
      exists i :: 0 <= i < |rules| && Present(rules[i]) && s == PyStr(rules[i].fields["tracker"], repr)
    decreases |rules|
  {
    if rules != [] {
      var n := |rules| - 1;
      TrackersMeaning(rules[..n], repr);
      assert forall i :: 0 <= i < n ==> rules[..n][i] == rules[i];
    }
  }

  /** Nothing is removed unless enforcement is "yes"; with it, exactly the
      audited rules are removed, and the run changes something outside check
      mode exactly when one is. */
  lemma EnforcementRemovesAudited(rules: seq<Tree>, live: seq<Tree>, enforce: Option<string>, repr: Tree -> string, checkMode: bool)
    requires Tracked(live) && Plan(rules, live, enforce, repr, checkMode).Ok?
    ensures var a := Plan(rules, live, enforce, repr, checkMode).value;
      var ks := Unmatched(live, Trackers(rules, repr).value);
      a.audit == Pick(live, ks) &&
      a.outcome.phpcode == Script(if enforce == Some("yes") then Unsets(ks) else []) &&
      (a.outcome.changed <==> !checkMode && enforce == Some("yes") && a.audit != [])
  {
  }

  /** When no live rule matches a supplied tracker the run fails, even in check mode. */
  lemma NoMatchAborts(rules: seq<Tree>, live: seq<Tree>, enforce: Option<string>, repr: Tree -> string, checkMode: bool)
    requires Tracked(live) && Trackers(rules, repr).Ok?
    requires forall k :: 0 <= k < |live| ==> !Matched(live[k], Trackers(rules, repr).value)
    ensures Plan(rules, live, enforce, repr, checkMode) == Err(NoMatchedRules)
  {
    NothingMatchedCountsZero(live, Trackers(rules, repr).value);
  }

  lemma {:induction false} NothingMatchedCountsZero(live: seq<Tree>, trackers: seq<string>)
    requires Tracked(live)
    requires forall k :: 0 <= k < |live| ==> !Matched(live[k], trackers)
    ensures Count(live, trackers) == 0
    decreases |live|
  {
    if live != [] {
      var n := |live| - 1;
      UnmatchedStep(live, n, trackers);
      assert forall k :: 0 <= k < n ==> live[..n][k] == live[k];
      NothingMatchedCountsZero(live[..n], trackers);
    }
  }
}

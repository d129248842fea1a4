# pfSense Ansible modules: a verified model of the statement generator

The Ansible modules of this repository manage a pfSense firewall declaratively.
Each module does the same four things:

- It reads the live configuration. For that it sends `pfSsh.php` a PHP request that
  prints `$config[section]` as JSON between two shell markers.
- It compares the play's parameters with that configuration.
- It builds PHP statements (`configuration`) that bring it in line.
- It sends those statements with `write_config();` and `exec`/`exit`. In check mode
  it only reports them.

This project models that generator in Dafny, one module per file:

- `tree.dfy` (`ConfigTree`): the parsed configuration as JSON values, and the
  play's string parameters.
- `php.dfy` (`Php`): PHP variable paths and statements, with their exact text.
  It also models PHP's reading of single-quoted literals and list literals, used
  for the round-trip properties.
- `shell.dfy` (`Shell`): the shared `module_utils/pfsense.py`. This covers
  `search`, the read and write requests, the marker framing of the shell's output
  and the common ending of a run (`phpcode`, the write, `changed`).
- `records.dfy` (`Records`): the field loop that the record modules share. For a
  new record it stages every given field in a PHP temporary and appends it at
  `[]`. For a found record it sets each field that differs.
- One file per module: `config.dfy`, `filter_rules.dfy`, `filter_audit.dfy`,
  `aliases.dfy`, `authserver.dfy`, `cert.dfy`, `group.dfy`, `virtualip.dfy`,
  `interfaces.dfy`, `password.dfy`, `frr_raw.dfy` and `apply.dfy`.

How each module is modelled:

- **The plan.** A pure `Plan` function states what statements a run emits, given
  the live configuration and the parameters. The module's own loops are methods
  (`Run`, `Reconcile…`, `CollectTrackers`, `AuditLive`, `StageFields`,
  `CheckGateway`, `Configure`), and each one is proved to compute its `Plan`.
  Lemmas then state what the plan means:
  - what is staged for a new record and what is set on a found one;
  - when nothing is emitted, and so when `changed` is reported;
  - when removal unsets;
  - which failures are reported.
- **Failures.** A failure reported through `fail_json` is an `Err` value. A
  missing marker in the shell's output is not one of them: the handler in
  `read_config` reads the slice bounds before they are bound and raises
  UnboundLocalError, which the model writes `Err(Raises("UnboundLocalError"))`.
- **Uncaught exceptions.** In pfsense_config, and in the as-written halves of
  the findings below, a Python exception that the module does not catch is the
  value `Err(Raises(name))`. In the other modules it is a precondition of the
  model. An example is comparing with a field that the found record lacks.
- **Outside inputs.** These are all parameters of the model:
  - the text the shell prints;
  - the allow-list check `validate`;
  - whether `frr.inc` exists;
  - the generated `uniqid`;
  - the `%r` rendering of a dict;
  - Python's `str()` of a JSON value.

## Model

| member | source | states |
|---|---|---|
| ConfigTree.Section | module_utils/pfsense.py:19-20 | `$config[name]` is the named section when the configuration has it, and JSON null otherwise |
| ConfigTree.NatText | module_utils/pfsense.py:20-22 | the decimal text of a position is non-empty and all digits |
| ConfigTree.Arg | library/pfsense_aliases.py:167-168 | a parameter the play does not declare reads as not given |
| ConfigTree.ArgTree | library/pfsense_aliases.py:160 | the value `search` compares with is a JSON string exactly when the parameter was given |
| ConfigTree.Strs | library/pfsense_config.py:205 | the desired list as JSON values keeps its length and puts each string at its own position |
| Php.IndexText | library/pfsense_aliases.py:165 | `str(index)` is empty exactly for the "" sentinel, and all digits for a position |
| Php.SentinelAppends | library/pfsense_aliases.py:165 | a path subscripted by the index ends in `[]` (PHP's append) exactly when `search` found nothing |
| Php.ReadQuoted | library/pfsense_config.py:206 | reading one single-quoted PHP item consumes part of the input, so the list reader terminates |
| Php.StringsText | library/pfsense_config.py:206 | corrected list literal: the source's literal, except that the empty list is written `[]` |
| Php.StringsRoundTrip | library/pfsense_config.py:206 | corrected, a list of plain strings, written as a PHP list literal, reads back as the same list, the empty list included |
| Php.AsWrittenEmptyListReadsBack | library/pfsense_config.py:206 | as written, the empty list is sent as `['']`, which PHP reads as the one-element list `[""]` |
| Php.ValueText | library/pfsense_config.py:195-227 | the text of a right-hand side: a quoted string, a list literal exactly as the modules build it, a PHP variable, or PHP code |
| Php.ListTextReadsBack | library/pfsense_config.py:206 | as written, a list of plain strings reads back in PHP as itself, except the empty list, which reads back as `[""]` |
| Php.Escape | library/pfsense_config.py:227 | escaping quotes never shortens a value |
| Php.EscapeRoundTrip | library/pfsense_config.py:227 | for a value without backslashes, the escaped single-quoted literal reads back in PHP as the value |
| Php.UnquoteVerbatim | library/pfsense_aliases.py:170 | a value with neither quotes nor backslashes is its own single-quoted literal |
| Php.Text | library/pfsense_aliases.py:170-177 | every emitted statement has non-empty text |
| Php.Script | library/pfsense_aliases.py:181-186 | `configuration` is empty exactly when no statement was emitted, which is when nothing is written |
| Php.ScriptAppend | library/pfsense_aliases.py:170-177 | accumulating statements concatenates their texts |
| Shell.Then | library/pfsense_authserver.py:149-153 | statements emitted before a step that fails are discarded with it; otherwise they come first |
| Shell.Scan | module_utils/pfsense.py:41-44 | the scan returns the first position at or after `from` whose `key` equals `val`; "" exactly when every element has `key` with another value; a raise exactly at the first element without that key |
| Shell.Search | module_utils/pfsense.py:38-44 | a found position holds a record whose `key` equals `val`; a dict is searched over its keys (a non-empty dict raises); any other value gives "" |
| Shell.FoundIsRecord | module_utils/pfsense.py:42-43 | a position that `search` returns holds a dict |
| Shell.ReadRequest | module_utils/pfsense.py:19-22 | the read request always ends with the `exec`/`exit` directive |
| Shell.ReadRequestDetermines | module_utils/pfsense.py:19-22 | two reads send the same request exactly when they ask for the same section; an empty section name asks for all of `$config` |
| Shell.WriteRequest | module_utils/pfsense.py:10 | the write request is exactly the statements, then `write_config();`, then the post text, then the `exec`/`exit` directive, in that order |
| Shell.Find | module_utils/pfsense.py:31-32 | `str.index`: the returned position is the first match at or after `from`; none means no match there |
| Shell.MatchAtExtended | module_utils/pfsense.py:31-32 | a match that fits in the text is unaffected by what follows |
| Shell.PayloadOfFramedOutput | module_utils/pfsense.py:28-33 | for output framed by the two markers, where the start marker first occurs right after the prefix, the payload is exactly the text between them |
| Shell.ReadConfig | module_utils/pfsense.py:24-35 | a read succeeds exactly when the exit status is 0, both markers are found and the payload decodes; the result is the decoded payload; a nonzero status is the read failure, a missing marker raises UnboundLocalError in the handler, and a payload that does not decode is the JSON failure |
| Shell.WriteStatus | module_utils/pfsense.py:12-14 | a write fails exactly on a nonzero exit status |
| Shell.FilterWriterIsShared | library/pfsense_filter_rules.py:128 | the filter modules' own write request equals the shared one with `mark_subsystem_dirty("filter");` as its post text |
| Shell.Finish | library/pfsense_filter_rules.py:241-248 | the code is always reported; a write is sent, and a change reported, exactly when the module decides to write outside check mode |
| Shell.Commit | library/pfsense_aliases.py:181-188 | a write is sent, and a change reported, exactly when statements were emitted outside check mode; the request carries them |
| Records.Found | library/pfsense_aliases.py:171 | the record compared with is the one at the found position |
| Records.Prefixed | library/pfsense_aliases.py:162-163 | statements emitted before a step that fails are discarded with it |
| Records.FieldsPlan | library/pfsense_cert.py:119-125 | the shared field loop: each given string field is validated, then staged for a new record or set when it differs on a found one |
| Records.ReconcileFields | library/pfsense_cert.py:119-125 | the field loop computes the field plan |
| Records.FieldsPlanFails | library/pfsense_cert.py:121 | the field loop fails exactly when validate refuses a given field, and then with the first refused one |
| Records.NotFoundStagesAll | library/pfsense_cert.py:122-123 | for a new record, every given field is staged in the temporary, in order |
| Records.FoundSetsDiffering | library/pfsense_cert.py:124-125 | for a found record, exactly the given fields that differ are set in place, in order |
| Records.DifferingEmptyIffSame | library/pfsense_cert.py:124-125 | a found record gets no field statement exactly when every given field already holds its value |
| Records.Given | library/pfsense_aliases.py:167-168 | the fields walked are the module's names, in order, each with its parameter |
| Records.Report | library/pfsense_aliases.py:178-188 | a failure is reported as such; otherwise the statements are committed |
| ConfigSections.LiveSection | library/pfsense_config.py:172-174 | the live section is the read section when it is a dict, and empty otherwise |
| ConfigSections.SubStep | library/pfsense_config.py:216-230 | an accepted sub-key carries a string value, and the reconciled dict holds it |
| ConfigSections.SubPlan | library/pfsense_config.py:216-230 | the sub-key loop, in order; every failure it gives is one the module reports, never an uncaught exception |
| ConfigSections.SubPlanFrame | library/pfsense_config.py:216-228 | the sub-key loop changes only the sub-keys it is given and keeps the others |
| ConfigSections.KeyStep | library/pfsense_config.py:180-234 | one key changes the reconciled section only at that key, and adds it unless its value is a dict without sub-keys (its failures are stated by KeyStepTypeFailures and AsWrittenNewKeyRaises) |
| ConfigSections.KeyStepTypeFailures | library/pfsense_config.py:188-232 | past the gates, a live value of another type is reported, an unhashable live or given list item raises TypeError, a given list with an item `join` cannot take raises TypeError exactly when the sets differ, a dict value fails exactly as its sub-key loop, and null, a boolean or a number is refused as unexpected |
| ConfigSections.SubStepTypeFailures | library/pfsense_config.py:216-224 | past validate and the safe-mode gate, a live sub-value that is not a string is reported first, then a given one that is not a string, and with both strings the step succeeds |
| ConfigSections.MixedOfStringsIsList | library/pfsense_config.py:199-207 | a list given in the general list form whose items all are strings gives exactly what the list-of-strings form gives |
| ConfigSections.SectionPlan | library/pfsense_config.py:177-234 | a section run adds exactly the keys it writes and keeps every key it is not given |
| ConfigSections.Plan | library/pfsense_config.py:166-234 | the run over the dict section parameters, in order, reconciling each against its live section and recording it in `result` |
| ConfigSections.ReconcileSubkeys | library/pfsense_config.py:216-230 | the sub-key loop computes the sub-key plan |
| ConfigSections.ReconcileKey | library/pfsense_config.py:180-234 | the key loop's body computes one key's step |
| ConfigSections.ReconcileSection | library/pfsense_config.py:177-234 | the key loop computes the section plan |
| ConfigSections.Reconcile | library/pfsense_config.py:155-243 | the module run, as written, fails with the plan's failure or commits the plan's statements |
| ConfigSections.SubPlanSafeModeNeedsSubkeys | library/pfsense_config.py:218-230 | in safe mode a successful sub-key loop touched only sub-keys that already exist |
| ConfigSections.SectionSafeModeNeedsKeys | library/pfsense_config.py:184-234 | in safe mode a successful section run needs every key, and every sub-key of a dict value, to exist already |
| ConfigSections.SafeModeNeverCreates | library/pfsense_config.py:155-234 | in safe mode a successful run creates no key and no sub-key in any section |
| ConfigSections.SubPlanCreateModeFinds | library/pfsense_config.py:218-230 | with safe_mode "no", a missing sub-key never gives the safe-mode failure |
| ConfigSections.KeyStepCreateModeFinds | library/pfsense_config.py:184-234 | with safe_mode "no", a missing key never gives the safe-mode failure; a new list or dict key raises KeyError instead, exactly as AsWrittenNewKeyRaises states |
| ConfigSections.SectionCreateModeFinds | library/pfsense_config.py:184-234 | with safe_mode "no", no section run gives the safe-mode failure (it can raise KeyError for a new list or dict key) |
| ConfigSections.AsWrittenNewKeyRaises | library/pfsense_config.py:199-218 | as written, a key step raises KeyError exactly with safe_mode "no", for a new list key, or a new dict key whose first sub-value validate accepts |
| ConfigSections.SubPlanCreatesAll | library/pfsense_config.py:216-228 | on a dict without the given sub-keys, every accepted string value is created, one statement each |
| ConfigSections.CreatingKeyStep | library/pfsense_config.py:199-228 | corrected key step: a new list key or dict key is created as an empty one would be filled; everywhere else it is the key step |
| ConfigSections.CreatingKeyStepCreates | library/pfsense_config.py:21-22 | corrected, with safe_mode "no" a new list key is set and a new dict key gets every sub-value, one statement each, and the key then agrees with the play |
| ConfigSections.ManagedArraysRefused | library/pfsense_config.py:155-181 | a successful run never touches a key that holds an array of records, whatever the mode |
| ConfigSections.SubQuietIffAgrees | library/pfsense_config.py:226-228 | a sub-key loop emits nothing exactly when the live dict already holds every value, and then changes nothing |
| ConfigSections.KeyQuietIffAgrees | library/pfsense_config.py:194-228 | a key emits nothing exactly when its live value already agrees (the same string, the same set, the same sub-values; a missing key only with a dict without sub-keys), and then nothing changes |
| ConfigSections.SectionQuietIffAgrees | library/pfsense_config.py:177-234 | a section emits nothing exactly when every given key already agrees, and then stays as it is |
| ConfigSections.SubPlanAgrees | library/pfsense_config.py:226-228 | after a successful sub-key loop the dict holds every desired value |
| ConfigSections.KeyStepAgrees | library/pfsense_config.py:194-228 | after a successful key step the key agrees with the play |
| ConfigSections.SectionPlanAgrees | library/pfsense_config.py:177-234 | after a successful section run every given key agrees with the play |
| ConfigSections.SubPlanPasses | library/pfsense_config.py:217-224 | a successful sub-key loop had every value accepted by validate, and every value a string |
| ConfigSections.SectionPlanPasses | library/pfsense_config.py:180-217 | a successful section run had every key accepted by validate and none reserved for another module |
| ConfigSections.SubQuietWhenAgrees | library/pfsense_config.py:226 | a sub-dict that already agrees gets no statement and stays as it is |
| ConfigSections.SectionQuietWhenAgrees | library/pfsense_config.py:177-234 | a section that already agrees gets no statement and stays as it is, in safe mode once its keys exist |
| ConfigSections.SectionRerunIsQuiet | library/pfsense_config.py:177-234 | idempotence on the section the module records in `result`: running a section again on it emits nothing and changes nothing |
| ConfigSections.EmptyListNeverConverges | library/pfsense_config.py:205-206 | as written, a list key set to `[]` whose stored value is `[""]` is assigned again, and PHP stores `['']` as `[""]` once more |
| ConfigSections.PlanQuietIffAllAgree | library/pfsense_config.py:166-236 | a whole run emits nothing exactly when every given section already agrees |
| ConfigSections.ChangedIffSomeKeyDiffers | library/pfsense_config.py:236-243 | a change is reported exactly outside check mode when some given key differs from the live one |
| FilterRules.Effective | library/pfsense_filter_rules.py:211-213 | with a protocol other than icmp given, the ICMP type is dropped; no other parameter changes |
| FilterRules.Plan | library/pfsense_filter_rules.py:203-248 | the run's statements and write decision, as written or corrected: the rule found by its tracker is staged, compared and written, or unset |
| FilterRules.StageFields | library/pfsense_filter_rules.py:219-228 | the field loops compute their staged statements and difference flag |
| FilterRules.Locate | library/pfsense_filter_rules.py:205 | a found position holds the rule with the given tracker |
| FilterRules.Run | library/pfsense_filter_rules.py:203-248 | the run, corrected, fails with the plan's failure or finishes with its statements and write decision |
| FilterRules.StageMeaning | library/pfsense_filter_rules.py:219-228 | a field loop flags a difference exactly when some given field differs, stages every field when asked to, and otherwise stages exactly the given differing ones |
| FilterRules.NewRuleIsAppended | library/pfsense_filter_rules.py:215-232 | a new rule is always written: all core fields, the given optional ones, both endpoints and the append |
| FilterRules.ExistingRuleWrittenIffDiffers | library/pfsense_filter_rules.py:215-232 | an existing rule is written exactly when an endpoint or a given field differs |
| FilterRules.AsWrittenRemovalNeverWritten | library/pfsense_filter_rules.py:234-248 | as written, removing an existing rule emits the unset but never writes it, and reports no change |
| FilterRules.RemovalWrittenIffFound | library/pfsense_filter_rules.py:234-236 | corrected, removal is written, and a change reported, exactly when the rule exists |
| FilterRules.OtherKeyNotStaged | library/pfsense_filter_rules.py:224-227 | a field the loop does not walk is never staged by it |
| FilterRules.SameNotStaged | library/pfsense_filter_rules.py:226-227 | as written, a given optional field that already holds its value is not staged |
| FilterRules.AsWrittenUpdateDropsUnchanged | library/pfsense_filter_rules.py:224-232 | as written, rewriting an existing rule replaces it by a `$rule` that lacks a given optional field whose value did not change; corrected, it is kept |
| FilterAudit.Unmatched | library/pfsense_filter_audit.py:165-168 | audited positions are positions of the live rule list |
| FilterAudit.Pick | library/pfsense_filter_audit.py:168 | the audit list holds the live rules at the audited positions, in order |
| FilterAudit.Unsets | library/pfsense_filter_audit.py:169-170 | one unset per audited position, in order |
| FilterAudit.Trackers | library/pfsense_filter_audit.py:150-161 | the trackers of the supplied rules that are present, in order; the first rule without one aborts |
| FilterAudit.Plan | library/pfsense_filter_audit.py:135-179 | what the audit reports: the unmatched live rules, their unsets when enforcing, and the failure when nothing matches |
| FilterAudit.CollectTrackers | library/pfsense_filter_audit.py:150-161 | the loop over the supplied rules computes their trackers or the failure |
| FilterAudit.AuditLive | library/pfsense_filter_audit.py:165-172 | the loop over the live rules computes the audit list, the unsets (only when enforcing) and the match count |
| FilterAudit.Run | library/pfsense_filter_audit.py:135-186 | the module run computes the audit plan |
| FilterAudit.PrefixFails | library/pfsense_filter_audit.py:150-154 | a supplied rule without a tracker aborts the run, whatever follows it |
| FilterAudit.UnmatchedStep | library/pfsense_filter_audit.py:165-172 | one more live rule extends the audited positions, the audit list and the unsets by it exactly when it is unmatched |
| FilterAudit.UnmatchedMeaning | library/pfsense_filter_audit.py:166-168 | a position is audited exactly when the live rule there matches no present supplied tracker |
| FilterAudit.UnmatchedAscend | library/pfsense_filter_audit.py:165 | audited positions ascend, so each live rule is removed at most once |
| FilterAudit.AuditedPlusMatched | library/pfsense_filter_audit.py:165-172 | audited plus matched rules are all the live rules |
| FilterAudit.TrackersMeaning | library/pfsense_filter_audit.py:150-161 | the trackers are gathered exactly when every supplied rule has one, and they are the trackers of the present rules |
| FilterAudit.EnforcementRemovesAudited | library/pfsense_filter_audit.py:142-170 | nothing is removed unless enforce is "yes"; with it, exactly the audited rules are unset |
| FilterAudit.NoMatchAborts | library/pfsense_filter_audit.py:177-179 | when no live rule matches, the run fails, even in check mode |
| FilterAudit.NothingMatchedCountsZero | library/pfsense_filter_audit.py:171-172 | the match count is zero when nothing matches |
| Aliases.Locate | library/pfsense_aliases.py:159-163 | a failed lookup is caught: it emits the initialiser and gives the sentinel; a found position holds the alias with that name |
| Aliases.Plan | library/pfsense_aliases.py:157-179 | the statements for a state: stage and append a new alias, set the differing fields of a found one, or unset it |
| Aliases.Run | library/pfsense_aliases.py:157-188 | the module run reports the plan through the module's own write request |
| Aliases.PlanFailsOnlyOnState | library/pfsense_aliases.py:166-179 | the plan fails exactly for a state other than present and absent |
| Aliases.NewAliasIsStagedAndAppended | library/pfsense_aliases.py:166-174 | a new alias is staged field by field in `$alias` and appended, after the initialiser when needed |
| Aliases.ExistingAliasSetsDiffering | library/pfsense_aliases.py:171-172 | an existing alias gets exactly the given fields that differ set in place |
| Aliases.ExistingAliasChangedIffDiffers | library/pfsense_aliases.py:171-188 | for an existing alias a change is reported exactly outside check mode when a given field differs |
| Aliases.AbsentUnsetsIffFound | library/pfsense_aliases.py:175-177 | removal unsets exactly when the alias exists, and otherwise emits only the initialiser when needed |
| AuthServer.Prefix | library/pfsense_authserver.py:167 | `p.split('_')[0]` is the longest underscore-free prefix of `p` |
| AuthServer.Selected | library/pfsense_authserver.py:166-167 | of the walked parameters, the second loop keeps exactly the string ones whose prefix is the server type, in order |
| AuthServer.Locate | library/pfsense_authserver.py:149-153 | a failed lookup resets the server list and gives the sentinel; a found position holds the server with that refid |
| AuthServer.Plan | library/pfsense_authserver.py:147-180 | the statements for a state: both field loops for a new or found server, or the unset |
| AuthServer.Run | library/pfsense_authserver.py:147-190 | the module run, walking every declared parameter once, computes the plan of both loops and commits it |
| AuthServer.EnumeratesMeans | library/pfsense_authserver.py:166 | `for p in params` walks exactly the declared parameters, none twice |
| AuthServer.GivenEnumerated | library/pfsense_authserver.py:166-167 | walking the parameters reads each declared one once, with its value |
| AuthServer.SelectedOnce | library/pfsense_authserver.py:166-167 | selecting the type's parameters keeps their names distinct |
| AuthServer.SelectedExact | library/pfsense_authserver.py:166-167 | selecting from the declared string parameters gives exactly those of the type, none twice |
| AuthServer.TypeFieldsExact | library/pfsense_authserver.py:166-172 | the type loop writes a field with value `v` exactly when that parameter is declared with `v` and its prefix is the server type, each field once |
| AuthServer.PresentFailsIffRefused | library/pfsense_authserver.py:159-168 | presence fails exactly when validate refuses an identity field or a field of the server's type |
| AuthServer.NewServerIsStagedAndAppended | library/pfsense_authserver.py:159-174 | a new server is staged in `$auth`, identity fields first, then the type's fields, and appended |
| AuthServer.ExistingServerSetsDiffering | library/pfsense_authserver.py:163-172 | an existing server gets exactly the written fields that differ set in place |
| AuthServer.UnsearchableListIsReset | library/pfsense_authserver.py:149-153 | when the server list cannot be searched, the statements start by resetting it to `[]` |
| AuthServer.AbsentUnsetsIffFound | library/pfsense_authserver.py:176-178 | removal unsets exactly when the server exists |
| Cert.Locate | library/pfsense_cert.py:115 | a found position holds the certificate with the given refid |
| Cert.Plan | library/pfsense_cert.py:113-131 | the statements for a state: stage and append a new certificate, set the differing fields of a found one, or unset it |
| Cert.Run | library/pfsense_cert.py:113-141 | the module run computes the plan and commits it |
| Cert.PresentFailsIffRefused | library/pfsense_cert.py:119-121 | presence fails exactly when validate refuses a given field |
| Cert.NewCertIsStagedAndAppended | library/pfsense_cert.py:122-127 | a new certificate is staged field by field in `$cert` and appended |
| Cert.ExistingCertSetsDiffering | library/pfsense_cert.py:124-141 | an existing certificate gets exactly the differing fields set, and a change is reported exactly when one differs |
| Cert.AbsentUnsetsIffFound | library/pfsense_cert.py:128-130 | removal never fails, and unsets exactly when the certificate exists |
| Group.AcceptedNameIsLiteral | library/pfsense_group.py:107 | a name the pattern accepts has 2 to 33 characters and is its own single-quoted PHP literal |
| Group.Locate | library/pfsense_group.py:111 | a found position holds the group with the given name |
| Group.Body | library/pfsense_group.py:118-136 | the statements after the gid is chosen: a new group staged with its privileges and appended, a found one's differing fields and privilege list set in place, or the unset |
| Group.Plan | library/pfsense_group.py:107-136 | corrected: the gid counter is bumped only when a group is created; the privilege list is written as the source writes it |
| Group.PlanAsWritten | library/pfsense_group.py:107-136 | as written: the gid counter is bumped whenever the group is not found |
| Group.Run | library/pfsense_group.py:107-147 | the run, with the gid counter corrected, computes the plan and commits it |
| Group.NewGroupTakesNextGid | library/pfsense_group.py:112-130 | a new group bumps the counter, is staged, takes the counter's old value as its gid, gets its privileges and is appended |
| Group.ExistingGroupSetsDiffering | library/pfsense_group.py:119-132 | an existing group gets exactly the differing fields set, and `priv` exactly when its set of privileges differs |
| Group.ExistingGroupQuietIffSame | library/pfsense_group.py:119-132 | an existing group needs no statement exactly when its given fields and its set of privileges already agree |
| Group.AbsentUnsetsIffFound | library/pfsense_group.py:134-136 | corrected, removal unsets exactly when the group exists, and emits nothing otherwise |
| Group.AsWrittenAbsentMissingBumps | library/pfsense_group.py:112-114 | as written, removing a group that does not exist bumps the gid counter and reports a change on every run |
| Group.AsWrittenDiffersOnlyThere | library/pfsense_group.py:112-136 | as-written and corrected plans agree except for removing a missing group |
| VirtualIp.Locate | library/pfsense_virtualip.py:100-107 | a found position holds the record with the given uniqid or, failing that, the given subnet |
| VirtualIp.Effective | library/pfsense_virtualip.py:102-105 | on a section with a `vip` entry a missing uniqid is generated; no other parameter changes |
| VirtualIp.Plan | library/pfsense_virtualip.py:98-123 | corrected: the statements for a state, comparing with the found record |
| VirtualIp.PlanAsWritten | library/pfsense_virtualip.py:98-123 | as written: generating a uniqid, or reading a found record, raises |
| VirtualIp.Run | library/pfsense_virtualip.py:98-132 | the run, corrected, computes the plan and commits it |
| VirtualIp.UniqidTakesPrecedence | library/pfsense_virtualip.py:102-107 | a given uniqid that a record carries selects that record, whatever the subnet |
| VirtualIp.PlanFailsOnlyOnState | library/pfsense_virtualip.py:110-123 | the plan fails exactly for a state other than present and absent |
| VirtualIp.NewVipIsStagedAndAppended | library/pfsense_virtualip.py:110-118 | a new virtual IP is staged field by field in `$virtualip` and appended |
| VirtualIp.ExistingVipSetsDiffering | library/pfsense_virtualip.py:115-132 | corrected, an existing virtual IP gets exactly the differing fields set, and a change is reported exactly when one differs |
| VirtualIp.AbsentUnsetsIffFound | library/pfsense_virtualip.py:119-121 | removal unsets exactly when the virtual IP exists |
| VirtualIp.AsWrittenExistingRaises | library/pfsense_virtualip.py:115 | as written, updating a found virtual IP raises KeyError where the corrected plan succeeds |
| VirtualIp.AsWrittenMissingUniqidRaises | library/pfsense_virtualip.py:66-67 | as written, generating a uniqid raises TypeError where the corrected plan succeeds |
| VirtualIp.AsWrittenAgreesElsewhere | library/pfsense_virtualip.py:100-123 | the as-written and corrected plans agree apart from those two cases |
| Interfaces.Truthful | library/pfsense_interfaces.py:109-110 | an interface field counts exactly when its parameter is a non-empty string |
| Interfaces.EnableStep | library/pfsense_interfaces.py:116-119 | the enable flag gets a statement exactly when the parameter's truth and the flag's presence disagree |
| Interfaces.GatewayTarget | library/pfsense_interfaces.py:123-137 | a gateway entry is written only when a gateway is given, and only at the position the lookup by gateway name returned |
| Interfaces.CheckGateway | library/pfsense_interfaces.py:131-135 | the gateway parameter loop computes its validation and difference result |
| Interfaces.ReconcileInterface | library/pfsense_interfaces.py:109-113 | the field loop computes Changes: a field missing from the entry or differing from it is validated, then set |
| Interfaces.ChangesMeaning | library/pfsense_interfaces.py:109-113 | the field loop fails exactly when validate refuses a field it is about to set, with the first such field; otherwise it sets exactly the given fields that differ, in order; a field that already holds its value is never validated |
| Interfaces.Plan | library/pfsense_interfaces.py:97-143 | corrected: the interface fields (validated only when they differ), the enable flag and the gateway entry |
| Interfaces.PlanAsWritten | library/pfsense_interfaces.py:97-143 | as written: a found gateway entry's text concatenates its integer position, which raises |
| Interfaces.Run | library/pfsense_interfaces.py:97-152 | the run, corrected, computes the plan and commits it |
| Interfaces.GatewayCheckMeaning | library/pfsense_interfaces.py:131-135 | the gateway loop passes exactly when validate accepts every gateway parameter, and then flags a difference exactly when one differs from the entry |
| Interfaces.UnknownInterfaceFails | library/pfsense_interfaces.py:100-104 | a missing interface is the error, before anything else |
| Interfaces.ExistingInterfaceSetsDiffering | library/pfsense_interfaces.py:109-119 | without a gateway, and when validate accepts the differing fields, exactly the differing non-empty field parameters are set, then the enable flag is reconciled |
| Interfaces.InSyncInterfaceIsQuiet | library/pfsense_interfaces.py:109-119 | an interface that already agrees, without a gateway, gets no statement, whatever validate would say of its values |
| Interfaces.NewGatewayIsAppended | library/pfsense_interfaces.py:128-143 | an unknown gateway name ends the statements with the interface's gateway and a new entry appended at `[]` |
| Interfaces.FoundGatewayWrittenIffDiffers | library/pfsense_interfaces.py:131-139 | corrected, a found gateway entry is rewritten in place exactly when a gateway parameter differs |
| Interfaces.AsWrittenFoundGatewayRaises | library/pfsense_interfaces.py:139 | as written, rewriting a found gateway entry raises TypeError where the corrected plan writes it |
| Interfaces.AsWrittenAgreesElsewhere | library/pfsense_interfaces.py:97-143 | apart from a found gateway entry, the as-written and corrected plans agree |
| Interfaces.Or | library/pfsense_interfaces.py:134-135 | the difference flag accumulates by `or` and a failure is carried through |
| Password.Locate | library/pfsense_password.py:94 | a found position holds the user with the given name |
| Password.Finished | library/pfsense_password.py:105-112 | the reported code is the field statements; a change is reported, and a write sent, exactly when there are some; the write adds the password call and runs `local_user_set` after `write_config()` |
| Password.Plan | library/pfsense_password.py:92-102 | the field statements for a found user, or the failure for an unknown one |
| Password.Run | library/pfsense_password.py:93-112 | the module run fails for an unknown user or finishes with the field statements |
| Password.FailsIffUnknownUser | library/pfsense_password.py:96-97 | the run fails exactly for an unknown user, with that user's name |
| Password.KnownUserSetsDiffering | library/pfsense_password.py:99-112 | a known user gets exactly the differing fields set, and a change is reported exactly when one differs |
| Password.PasswordCallIsNotReported | library/pfsense_password.py:105-111 | the password call is sent after the reported code but is not part of it |
| FrrRaw.Record | library/pfsense_frr_raw.py:96-99 | a record is found only under `frrglobalraw` and `config` |
| FrrRaw.Finished | library/pfsense_frr_raw.py:115-132 | the reported code is the daemon statements; a change is reported, and a write sent, exactly when there are some outside check mode; the write appends the FRR tail |
| FrrRaw.Settings | library/pfsense_frr_raw.py:103-107 | the daemon loop: each given text validated, then written when there is no record or the record's key differs |
| FrrRaw.Plan | library/pfsense_frr_raw.py:94-112 | the statements for a state, when the package is installed |
| FrrRaw.ReconcileDaemons | library/pfsense_frr_raw.py:103-107 | the daemon loop computes its plan |
| FrrRaw.Run | library/pfsense_frr_raw.py:94-132 | the module run fails with the plan's failure or finishes with its statements |
| FrrRaw.SettingsAreUpdates | library/pfsense_frr_raw.py:103-107 | the daemon loop succeeds exactly when validate accepts every given text, and then emits exactly the updates |
| FrrRaw.NoRecordWritesAll | library/pfsense_frr_raw.py:106-107 | without a record, every given text is written |
| FrrRaw.ExistingRecordNeverAddsKeys | library/pfsense_frr_raw.py:106 | with a record, only keys it already has are written |
| FrrRaw.ExistingRecordQuietWhenSame | library/pfsense_frr_raw.py:106 | a record whose keys already hold their texts gets no statement |
| FrrRaw.AbsentUnsetsIffExists | library/pfsense_frr_raw.py:108-110 | removal unsets exactly when the record exists; without the package the run fails |
| Apply.Emit | library/pfsense_apply.py:116-117 | one block appends its call exactly when it is entered and its guard holds |
| Apply.Configure | library/pfsense_apply.py:111-168 | the chain of blocks computes the plan |
| Apply.Run | library/pfsense_apply.py:103-177 | the module run commits the plan |
| Apply.Taken | library/pfsense_apply.py:116-168 | the taken branches are branches of the chain |
| Apply.TakenMeaning | library/pfsense_apply.py:116-168 | a branch is taken exactly when it is named, or 'all' is, and its guard holds |
| Apply.TakenAscending | library/pfsense_apply.py:116-168 | taken branches come in chain order, each at most once |
| Apply.ChainIsCalls | library/pfsense_apply.py:116-168 | the chain emits exactly the calls of the taken branches, in order |
| Apply.SameSelectionSameChain | library/pfsense_apply.py:111-168 | the statements depend on `services` only through which branches it enters |
| Apply.PlanFollowsTable | library/pfsense_apply.py:116-168 | a run emits one call per taken branch, in the order of the chain |
| Apply.CodesDistinct | library/pfsense_apply.py:116-168 | no two branches add the same call |
| Apply.CallEmittedIff | library/pfsense_apply.py:116-168 | the call of a branch is emitted exactly when the branch is entered and its guard holds |
| Apply.AllEntersEveryBranch | library/pfsense_apply.py:111-114 | naming 'all' gives the statements of `['all']`: every branch whose guard holds |
| Apply.ListOrderIrrelevant | library/pfsense_apply.py:111-168 | the order of a services list, and its repeats, do not matter |
| Apply.UnknownNameIgnored | library/pfsense_apply.py:116-168 | a name that is no service contributes nothing |
| Apply.DaemonNeedsEnabledSection | library/pfsense_apply.py:146-158 | dnsmasq and unbound are reconfigured exactly when selected and their section is enabled; a missing section means no call |
| Apply.FrrNeedsPackage | library/pfsense_apply.py:166-168 | FRR is regenerated exactly when selected and its package is installed |
| Apply.NothingNamedNoChange | library/pfsense_apply.py:170-177 | an empty services list sends nothing and reports no change |

## Left out

- Running commands, reading files and the platform check (`pfsense_check`) are left out. The shell's exit status and output, and whether `frr.inc` exists, are inputs.
- JSON decoding is the `decode` parameter of `Shell.ReadConfig`. The modules read the configuration through it, and the model takes the read tree directly.
- The re-reads after a write, which only fill the reported result, are left out.
- `validate` (an allow-list kept outside the core) is a parameter. The group name pattern is modelled as a full match of the pattern in the source.
- The repr and `%r` rendering of the rule endpoints, and Python's `str()` of a parsed value, are parameters.
- The generated uniqid of pfsense_virtualip is a parameter.
- Python 2 dict order is not modelled. Where a module iterates a dict (pfsense_config's sections, keys and sub-keys, pfsense_authserver's parameters), the order is a given sequence; for the authserver parameters it lists every declared parameter once. The interface gateway parameters are walked in one fixed order (`GatewayKeys`); only which refused parameter is reported depends on it.
- SectionRerunIsQuiet: idempotence is on the section as the module records it in `result`, not on the stored configuration. For a list key set to `[]` they differ: PHP stores `['']` as `[""]` and every later run assigns the key again (EmptyListNeverConverges).
- ConfigSections.Reconcile: with safe_mode "no", a new list key or a new dict key with sub-keys raises KeyError, as written, although the module's description says new keys can be created (AsWrittenNewKeyRaises); the corrected CreatingKeyStep is proved beside it and is not used by the run.
- Group.Run: corrected only for the gid counter (Group.Plan). The privilege list is written as the source writes it, so an empty list is sent as `['']`.
- Comparisons follow JSON values. Python's `True == 1` and `1 == 1.0` between a boolean and a number are not modelled.
- Ansible's own argument checks (types, required parameters, choices) are left out. Parameters are strings or not given.
- Apply.Run: `services` must be a string, list or dict. With anything else `in` raises TypeError, which the model makes a precondition.
- Apply.DaemonEnabled: the `enable` flag counts by JSON truth. A Python object that is not JSON cannot occur there.
- Interfaces.Run: with a gateway given, a missing `gateway_name` or `gateway_weight` is a precondition. In the source the concatenation raises TypeError.
- Interfaces.Run: an interface entry that is a list or a string is modelled (`in` is membership or a substring test), but one that contains a given field's name is a precondition: `entry[p]` then raises TypeError in the source. An entry of any other type, on which `in` raises, is one too.
- Interfaces.Run: corrected for the found gateway's position (Interfaces.Plan); the source's TypeError there is Interfaces.PlanAsWritten.
- VirtualIp.Run: corrected for the read of the found record and the uniqid call (VirtualIp.Plan); the source's KeyError and TypeError there are VirtualIp.PlanAsWritten.
- FilterRules.Run: corrected, so a removal is written (FilterRules.Plan with the corrected flag); as written it is never sent, which FilterRules.AsWrittenRemovalNeverWritten states.
- `isstr` is imported from module_utils/pfsense.py but not defined there; the model reads it as "is a string" (a JSON string, or a parameter that is given, since parameters are strings).
- Password.Run: the module has no check mode, so the model has no check-mode parameter.
- FilterRules.Run: the source and destination values are rendered by the `render` parameter, and their comparison (`cmp`) is equality of the parsed values.

## Findings

| source | as written | input that shows it | evidently intended | confidence | as-written member | corrected member |
|---|---|---|---|---|---|---|
| library/pfsense_filter_rules.py:234-248 | only the presence branch sets `diff`, so a removal's `unset` is put in `phpcode` but never written | state absent, with a tracker that an existing rule carries | the removal is written and reported as a change | not executed | FilterRules.AsWrittenRemovalNeverWritten | FilterRules.RemovalWrittenIffFound |
| library/pfsense_group.py:112-114 | `nextgid++` is emitted whenever the group is not found, whatever the state | state absent, with a name no group carries: every run writes and reports a change | the counter is bumped only when a group is created | not executed | Group.AsWrittenAbsentMissingBumps | Group.AbsentUnsetsIffFound |
| library/pfsense_virtualip.py:115 | a found record is read as `cfg[index]`, but `cfg` is the section dict and `index` an integer | state present, with a given mode and a uniqid or subnet of an existing virtual IP: KeyError | the found record `cfg['vip'][index]` is compared | not executed | VirtualIp.AsWrittenExistingRaises | VirtualIp.ExistingVipSetsDiffering |
| library/pfsense_interfaces.py:139 | a found gateway's integer position is concatenated to a string | a gateway name that an existing entry carries, one of whose parameters differs: TypeError | the entry is rewritten at `[k]` | not executed | Interfaces.AsWrittenFoundGatewayRaises | Interfaces.FoundGatewayWrittenIffDiffers |
| library/pfsense_config.py:206 | the list literal is built as `"['" + "','".join(xs) + "']"` | a list key set to `[]`: PHP receives `['']`, a one-element list, so the key never converges | the empty list is written as `[]` | not executed | ConfigSections.EmptyListNeverConverges | Php.StringsRoundTrip |
| library/pfsense_config.py:199-218 | the list and dict branches read `result[section][key]` without checking that it exists | safe_mode "no" with a list key, or a dict key with sub-keys, that the section does not have: KeyError | new keys are created, as the description at lines 21-22 says | not executed | ConfigSections.AsWrittenNewKeyRaises | ConfigSections.CreatingKeyStepCreates |
| library/pfsense_virtualip.py:66-67 | `uniqid()` calls `time()`, but `time` is the imported module and cannot be called | no uniqid given, on a section that has a `vip` entry: TypeError | a fresh identifier from the clock | not executed | VirtualIp.AsWrittenMissingUniqidRaises | VirtualIp.Effective |
| library/pfsense_filter_rules.py:224-232 | on an update `$rule` is rebuilt from scratch, but only the optional fields that differ are staged | an existing rule with a description, rewritten because its log flag changed: the description is lost | every given optional field is kept in the rewritten rule | not executed | FilterRules.AsWrittenUpdateDropsUnchanged | FilterRules.ExistingRuleWrittenIffDiffers |

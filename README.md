# sve: a verified model of the configuration auditor's core

sve audits the configuration files of installed network services (ftp and
ssh, with apache planned). Each service has a rule table. A rule pairs a
pattern that detects a weak setting with optional prerequisites. For each
requested service, sve:

- reads the service's configuration file;
- runs the rules in table order;
- records a failure entry, with an evidence line, for every rule whose
  pattern triggers and whose prerequisites hold;
- reports per-service counts;
- finally prints either the failures with their total, or an all-passed line.

This project models that core in Dafny:

- `ServiceInfo` (`service_info.dfy`) holds the catalog:
  - the audited services;
  - their installed names and configuration paths on Arch Linux;
  - the ftp and ssh rule tables;
  - the vulnerable and normal templates.

  Its lemmas state the integrity the engine relies on:
  - distinct names;
  - only the three rule kinds;
  - prerequisite lists of equal length;
  - every prerequisite resolving to a template;
  - every default rule having a template;
  - anchored patterns;
  - prerequisite chains one step deep.
- `Sve` (`sve.dfy`) is the engine `get_failures` and its summary
  `show_failures`.
  - `GetFailures`, `CheckService` and `CheckRules` are the two nested loops,
    written as methods. Each is proved equal to a fold (`RunServices`,
    `RunService`, `RunRules`).
  - The lemmas about the folds say what a run adds up to:
    - every rule is counted once;
    - failures appear in table order, exactly for the failing rules;
    - `tests_passed` is the sum of the reported passes;
    - every requested service gets a failure list;
    - the failure total agrees with the reported failures;
    - the closing summary agrees with all of the above.
- `Utils` (`utils.dfy`) holds the selection helpers:
  - configuration paths per distribution, with their two exits;
  - the version filter;
  - the existing and active services;
  - the longest name and version lengths;
  - the "collected N items" line.
- `Drawing` (`drawing.dfy`) holds terminal colouring and the centred header
  line.
- `Words` (`words.dfy`) is the first-word search that names the option of a
  failing default rule. `Numerals` renders counts in decimal. `Dicts`
  models Python's insertion-ordered dictionaries as sequences of pairs.
  `Results` is the usual Option/Result pair.
- `Bridge` (`bridge.dfy`) reads the catalog the way the engine does. It
  proves, for the real rule tables, which errors a run can still stop on.

What is left as a parameter:

- The regular-expression engine (`re.findall`), `config_exists` and
  `check_prereqs` are function values of an `Oracle`. Every property holds
  for all of them.
- The contents of the configuration files are a map from path to text.
- The output of `systemctl` and the terminal width are plain parameters.
- Exits (`sys.exit`, uncaught `KeyError`) become `Err` values.

## Model

| member | source | states |
|---|---|---|
| Dicts.Get | sve/sve.py:66 | a lookup finds a value exactly when the key is present, and the value is the one stored under it |
| Dicts.Put | sve/sve.py:61 | after `d[k] = v`, `k` maps to `v`. Every other key keeps its value. The key set gains `k`. The length grows by one exactly for a new key. Distinct keys stay distinct |
| Dicts.PutOrder | sve/sve.py:61 | storing under an existing key leaves every key in its place. A new key is appended at the end, after all the old pairs |
| Dicts.PutTwice | sve/sve.py:61-112 | resetting a service's list and then storing its filled list is the same as storing the filled list once |
| Dicts.Restrict | sve/utils.py:92 | the comprehension keeps exactly the requested keys, with their values, and never grows. What it keeps is a subsequence of the dictionary, so the dictionary's order is kept |
| Numerals.NatToString | sve/utils.py:205 | a count is rendered as a non-empty string of decimal digits with no leading zero |
| Numerals.NatToStringValue | sve/utils.py:205 | the rendered digits read back as the count |
| Numerals.CountBetween | sve/sve.py:154-156 | a count rendered between text that does not end with a digit and text that does not start with one is a maximal run of digits there, and it reads back as the count |
| Drawing.ColorAsWritten | sve/drawing.py:6-21 | `color` as written succeeds exactly for 'r', 'g' and 'n', and exits naming the colour otherwise. The message can be recovered from the coloured string |
| Drawing.Color | sve/drawing.py:6-21 | corrected `color`: it also accepts the yellow 'y'. It succeeds exactly for r, g, n and y, wraps the message between the colour's prefix and the reset suffix, and the message and colour can be recovered |
| Drawing.UncolorPaint | sve/drawing.py:14-19 | the colour prefixes are distinguishable, so prefix + message + reset decodes back to the colour and the message |
| Drawing.FloorDiv | sve/drawing.py:39 | `//` by a positive divisor rounds towards minus infinity |
| Drawing.Repeat | sve/drawing.py:40 | `s * n` is empty for `n <= 0`. Otherwise it has length `n * |s|`, starts with `s` and repeats with period `|s|`, so it is `n` copies of `s`. For a one-character border every character is that border |
| Drawing.HeaderLine | sve/drawing.py:34-45 | the uncoloured header fails exactly when the terminal is narrower than the title |
| Drawing.Header | sve/drawing.py:24-47 | corrected `header`, with 'y' accepted as `Drawing.Color` does: it succeeds exactly when the terminal is wide enough and the colour is known. The width is checked first, and an unknown colour at a sufficient width exits naming that colour. The result is the header line in the requested colour |
| Drawing.Border | sve/drawing.py:39-40 | for a one-character border type, the border is made only of that character. It is the longest run that fits twice beside the title and its two spaces. It is empty when there is no room for one character on each side |
| Drawing.Extra | sve/drawing.py:42-45 | the extra border is empty exactly when the width and the title length have the same parity, and one border string otherwise |
| Drawing.HeaderFillsWidth | sve/drawing.py:39-47 | with room for the title, two spaces and a one-character border, the header is exactly as wide as the terminal |
| Drawing.HeaderCentred | sve/drawing.py:39-47 | the title sits between two equal borders, and the right padding is as long as the left or one longer |
| Drawing.YellowHeaderExitsAsWritten | sve/drawing.py:14-21 | as written, a header in 'y' exits with "unknown color" whenever the terminal is wide enough for the title. A narrower terminal exits on the width check first |
| Drawing.HeaderRendersProgramColors | sve/drawing.py:6-47 | with 'y' accepted, every colour the program passes renders a header when the terminal is wide enough |
| ServiceInfo.EntryNamesDistinct | sve/service_info.py:45-308 | rule names, vulnerable-template names and normal-template names are distinct within each table, as dictionary keys are |
| ServiceInfo.FtpNamesDistinct | sve/service_info.py:46-181 | the ftp rule names are distinct |
| ServiceInfo.SshNamesDistinct | sve/service_info.py:182-278 | the ssh rule names are distinct |
| ServiceInfo.KindsAreClosed | sve/service_info.py:45-279 | every rule's type is explicit, default or special regex |
| ServiceInfo.PrereqListsAreParallel | sve/service_info.py:45-279 | every rule has as many prerequisite types as prerequisites |
| ServiceInfo.FtpPrereqsResolve | sve/service_info.py:46-181 | every ftp prerequisite names a template of the table its type selects: vulnerable for a type starting with "vulnerable", normal otherwise |
| ServiceInfo.SshPrereqsResolve | sve/service_info.py:182-278 | the same for ssh, including the `vulnerable explicit` prerequisite of 'use login no' |
| ServiceInfo.DefaultRulesHaveTemplates | sve/service_info.py:283-292 | every default rule of ftp and ssh has a vulnerable template under its own name |
| ServiceInfo.DetectionRegexesAnchored | sve/service_info.py:45-279 | every alternative of every rule pattern starts with `^` |
| ServiceInfo.FtpRegexesAnchored | sve/service_info.py:46-181 | the same, for the ftp rules |
| ServiceInfo.SshRegexesAnchored | sve/service_info.py:182-278 | the same, for the ssh rules |
| ServiceInfo.FtpPrereqChainsShallow | sve/service_info.py:46-181 | a prerequisite naming an ftp rule names one with no prerequisites of its own |
| ServiceInfo.SshPrereqChainsShallow | sve/service_info.py:182-278 | the same for ssh |
| ServiceInfo.ServiceKeysAgree | sve/service_info.py:19-308 | the rule tables, both template tables and the Arch Linux installed-name and configuration rows all cover exactly the audited services, in order |
| Words.WordRun | sve/sve.py:100 | the run taken is a prefix of the text, made only of `[a-zA-Z_]` characters, and maximal |
| Words.FirstWordFinds | sve/sve.py:100 | `Words.FirstWord` models `re.findall(r'[a-zA-Z_]+', t)[0]`. The word exists exactly when `t` has a word character. It is then the maximal run starting at the first such character |
| Words.FirstWordSkip | sve/sve.py:100 | characters that are not word characters before the text do not change the first word |
| Words.StripEscapesPlain | sve/service_info.py:285-291 | the corrected reading keeps text without backslashes unchanged |
| Words.StripEscapesEscape | sve/service_info.py:285-291 | the corrected reading drops an escape sequence such as `\w` entirely |
| Words.FirstWordIs | sve/sve.py:100 | a word after separators and ending at a separator (or at an escape followed by one) is the first word found |
| Words.StrippedWordAfterEscape | sve/sve.py:100 | after an escape sequence, with only separators around it, the corrected reading finds the following word |
| Sve.Lookup | sve/sve.py:66-74 | `d[k]` fails exactly when the key is missing, with the error for that lookup. Otherwise it returns the stored value |
| Sve.CompileFlags | sve/sve.py:78 | multiline is always set. The rule's own flags are added. The conditional makes no difference |
| Sve.Fails | sve/sve.py:81-87 | a rule fails only when `config_exists` finds its pattern. Without prerequisites it fails exactly then |
| Sve.BadLine | sve/sve.py:95-104 | the evidence line is `E   ` and the evidence, in red |
| Sve.Evidence | sve/sve.py:90-104 | corrected reading of the fallback: a default rule uses the first match of its vulnerable template, or else `implicit: ` and the first word of the template outside its escape sequences, failing with no template or no name. An explicit rule uses its own first match and fails with none. Any other kind reuses the last evidence line, failing when there is none |
| Sve.RuleStep | sve/sve.py:81-119 | a failing rule appends exactly one failure entry under its name and counts one failure. A passing rule counts one pass and one `tests_passed`, and changes nothing else |
| Sve.FailingNames | sve/sve.py:81-88 | the failing names are exactly the table's names whose pattern triggers with satisfied prerequisites |
| Sve.RunRulesCounts | sve/sve.py:77-119 | over a rule table, passes plus failures equal the table length. The failures are appended only, one per failed rule, named in table order by the failing rules, and carry the service and path. Only passes add to `tests_passed` |
| Sve.RuleStepFailing | sve/sve.py:88-112 | a failing rule with evidence appends the failure built from its description, regex, path and evidence, and keeps the evidence line |
| Sve.RuleStepPassing | sve/sve.py:113-119 | a passing rule only counts a pass |
| Sve.CheckRules | sve/sve.py:77-119 | the inner loop computes exactly the fold over the rule table, errors included |
| Sve.CheckService | sve/sve.py:60-124 | one outer iteration computes exactly the per-service step: reset, the lookups in program order, skip on an empty table, version, rules, `show_percentage` |
| Sve.GetFailures | sve/sve.py:43-126 | `get_failures` computes exactly the fold over the services, stopping at the first error |
| Sve.RunServiceEffect | sve/sve.py:60-124 | a service's iteration touches only its own failure list. With rules, it adds one `show_percentage` record for itself with its version. That record counts every rule once, and the list holds the failing rules in order. `tests_passed` grows by the passes. An empty table adds nothing |
| Sve.EmptyTableRunsNothing | sve/sve.py:61-72 | a service with an empty table succeeds exactly when its templates, configuration path and file exist. It needs no version and only resets its failure list |
| Sve.ServiceShownStep | sve/sve.py:113-124 | one service adds at most one `show_percentage` record, for itself, and adds its passes to `tests_passed` |
| Sve.ServiceFailedStep | sve/sve.py:60-124 | a new service adds as many failure entries as its record reports failures |
| Sve.RunServiceStops | sve/sve.py:60-119 | one service's iteration stops only at a lookup or file read whose target is missing, or inside its rule walk with the walk's own error |
| Sve.RunServicesPassed | sve/sve.py:60-124 | records are only appended, each for a requested service, and `tests_passed` grows by their passes |
| Sve.RunServicesKeys | sve/sve.py:60-61 | every requested service, and nothing else, gains a failure list |
| Sve.RunServicesFailed | sve/sve.py:60-124 | with no service requested twice, the failure lists grow by the failures the records report |
| Sve.GetFailuresTotals | sve/sve.py:43-126 | `tests_passed` is the sum of the reported passes, the failure lists cover exactly the requested services, and with distinct services the entries total the reported failures |
| Sve.TotalFailed | sve/sve.py:145 | the failure total is at least the length of every service's failure list |
| Sve.AnyFailures | sve/sve.py:147 | some failure list is non-empty exactly when the FAILURES listing has a service to show |
| Sve.AnyFailuresIffTotal | sve/sve.py:145-147 | some failure list is non-empty exactly when the failure total is positive |
| Sve.NonEmptyLists | sve/sve.py:149-153 | the services listed under FAILURES are exactly those with a non-empty list |
| Sve.ShowFailures | sve/sve.py:142-156 | "no tests ran" exactly when `total_services` is 0. Otherwise the failure listing with the total, exactly when it is positive. Otherwise the all-passed line with `tests_passed` |
| Sve.SummaryTitle | sve/sve.py:143-156 | the closing title is yellow, red or green by outcome and ends with ` in <time> seconds`, with nothing between that tail and the fixed words before it. "no tests ran" opens the first. The second opens with the failure count, then " tests failed, ", then the pass count and " passed". The third opens with the pass count and " tests passed". Each count is a maximal run of digits that reads back as the total |
| Sve.SummaryHeader | sve/sve.py:143-156 | corrected, with 'y' accepted: the closing header succeeds exactly when its title fits, and it is that title's header line in the title's colour |
| Sve.SummaryMatchesProgress | sve/sve.py:139-156 | after a run over distinct services, the failures are listed exactly when some service reported one. The printed totals are the sums of the reported failures and passes |
| Sve.RunRulesErrors | sve/sve.py:90-104 | when every default rule has a template with a word, a rule walk stops only on an explicit rule without a match or on an unbound evidence line |
| Sve.RunRulesAfterEvidence | sve/sve.py:102-111 | once an evidence line exists, such a walk stops only on an explicit rule without a match |
| Utils.GetConfigs | sve/utils.py:78-96 | an unknown distribution exits. A request naming services without a configuration exits, naming exactly those. Otherwise the result is the distribution's paths for the requested services, or all of them, in the table's order (a subsequence of the row) |
| Utils.FilterVersions | sve/utils.py:174-177 | only the requested services' versions are kept, unchanged, or all when none are requested. The result is a subsequence of the versions, so their order is kept |
| Utils.ExistingIn | sve/utils.py:51-54 | the existing services are exactly the installed names of selected services whose `.service` unit is listed |
| Utils.GetExisting | sve/utils.py:36-56 | the loop returns the existing services in table order. An unknown distribution is a `KeyError` |
| Utils.StatusColor | sve/utils.py:73 | a status is green exactly when the text contains "Active: active", and red otherwise |
| Utils.ActiveColors | sve/utils.py:67-75 | each selected service's installed name is green exactly when its status contains "Active: active", red otherwise. No other key is touched |
| Utils.GetActive | sve/utils.py:59-75 | the loop builds that dictionary. An unknown distribution is a `KeyError` |
| Utils.GetLongestVersion | sve/utils.py:180-195 | the results bound every name and version length and are attained, or 0 when there are none |
| Utils.CollectedMessage | sve/utils.py:200-205 | corrected, with 'y' accepted: "collected 0 items" with the yellow "no tests performed" header, which fails exactly when the terminal is too narrow. Exactly "collected 1 item" for one service. For N of 2 or more, "collected N items" whose digits read back as N, with no leading zero |
| Bridge.CoveredWhenWordy | sve/sve.py:90-101 | when every default rule has a template and every template has a word, the engine's reading of the tables covers the default rules |
| Bridge.TemplateFirstWord | sve/sve.py:100 | as written, the fallback finds the first word of the template text itself |
| Bridge.TemplateOptionName | sve/sve.py:100 | corrected, a template opening with `(^` followed by a name finds that name |
| Bridge.TemplateOptionNameAfterEscape | sve/sve.py:100 | corrected, a template whose name follows an escape sequence finds that name |
| Bridge.FtpOptionNames | sve/service_info.py:285-286 | the ftp templates name `anonymous_enable` and `ftpd_banner` |
| Bridge.AnonEnableName | sve/service_info.py:285 | the 'anon enable' template names `anonymous_enable` |
| Bridge.BannerName | sve/service_info.py:286 | with escapes skipped, the 'banner' template names `ftpd_banner` |
| Bridge.SshOptionNames | sve/service_info.py:289-291 | the ssh templates name `UseLogin`, `PermitRootLogin` and `PasswordAuthentication` |
| Bridge.UseLoginName | sve/service_info.py:289 | the 'use login no' template names `UseLogin` |
| Bridge.RootLoginName | sve/service_info.py:290 | the 'root login' template names `PermitRootLogin` |
| Bridge.PasswordAuthName | sve/service_info.py:291 | the 'password auth' template names `PasswordAuthentication` |
| Bridge.BannerFallbackAsWritten | sve/sve.py:99-101 | as written, the fallback for the 'banner' rule reports `implicit: w`, the letter of the template's `\w` |
| Bridge.VulnTemplatesWordy | sve/service_info.py:283-292 | every vulnerable template has an option name outside its escape sequences |
| Bridge.DefaultsAreCovered | sve/service_info.py:45-292 | every default ftp and ssh rule finds a template with a name |
| Bridge.CatalogRunErrors | sve/sve.py:90-104 | over the real ftp and ssh tables, a run never stops for a missing template or option name. It stops only on an explicit rule without a match, or on the special-regex rule failing before any evidence line exists |
| Bridge.CatalogServiceErrors | sve/sve.py:60-119 | with the catalog, an ftp or ssh iteration never stops for missing rules, templates or option names. It stops only on the configuration path, the file, the version, an explicit rule without a match, or the special-regex rule before any evidence line |
| Bridge.CatalogKeys | sve/service_info.py:19-296 | the catalog the engine reads covers exactly the audited services, in both tables |

## Left out

- `show_service_info(service, versions[service])`, called at sve/sve.py:74, is not modelled. Under the definition at sve/utils.py:198-210 that call would take `len(service)` as the count, printing "collected 3 items" for ftp. Then `get_longest_version` would call `.items()` on a version string (sve/utils.py:191) and raise `AttributeError`. The module the engine imports as `.utils` is not part of this model. The model takes the call to print only and leaves the engine's state alone. The count line of the definition shown is modelled as `Utils.CollectedMessage`.
- Drawing.Header: `header` prints the line and returns `None`. The model returns the coloured line. It takes the corrected reading from the findings, accepting 'y'. As written, every yellow header exits (`Drawing.YellowHeaderExitsAsWritten`).
- Sve.SummaryHeader: it uses the corrected `Drawing.Header`. As written, the yellow "no tests ran" header exits instead of printing. Also, because `header` prints its own line and returns `None` (sve/drawing.py:47), each `print(header(...))` in `show_failures` prints the header line and then a line "None". The model returns the header line as the value printed, without the "None" line.
- Utils.CollectedMessage: it uses the corrected `Drawing.Header`. As written, the zero-item line exits on the yellow "no tests performed" header. Even with 'y' accepted, `header` prints its line before the f-string around it is built (sve/drawing.py:47, sve/utils.py:201). So the program would print the header line first, then "collected 0 items", a blank line and "None". The model returns the message in the order the f-string spells it, with the header line in place of that "None".
- Sve.Evidence: it takes the corrected reading of the option-name fallback, which skips escape sequences. The as-written reading is `Bridge.TemplateFirstWord` / `Bridge.BannerFallbackAsWritten`. Of the catalog's templates, only the ftp 'banner' template has an escape sequence before its option name, so only its fallback differs between the two readings. `Sve.RuleStep`, `Sve.RunRules`, `Sve.CheckRules`, `Sve.CheckService` and `Sve.GetFailures` inherit this reading through `Sve.Evidence`.
- Dicts.Put: its contract gives lookups, key set, length and distinctness. Where the pairs sit is stated separately by `Dicts.PutOrder`.
- The terminal width read from `stty size` is a parameter.
- The printed layout of `show_test_status`, `show_percentage` and the FAILURES listing is not modelled, and neither is `get_error`, which is not part of this model. A failure is the record of `get_error`'s arguments. Each `show_percentage` call is kept as a record of its service, version and counters.
- Wall-clock timing in `show_failures`. The rounded time is a string parameter of `Sve.SummaryTitle`.
- Sve.Evidence: the regular-expression engine and `config_exists` / `check_prereqs` are uninterpreted `Oracle` functions. Python's `re` semantics are not modelled. That includes `findall` returning tuples for patterns with groups, where the model takes the first match as a string.
- Sve.CompileFlags: regular expressions are not compiled, so a pattern that does not compile is not modelled. The catalog has no `regex flags` field, and `Bridge` reads it as 0.
- The engine reads `templates[name]['vuln']` and `config['regex flags']` and a table `services_templates`. The catalog spells none of these. `Bridge` states the reading the model takes: the pattern text with no extra flags, and the vulnerable templates.
- The version probes (`get_ftp_version`, `get_ssh_version`, `get_apache_version`) and `get_os` run external commands. Only the filter step of `get_versions` is modelled (`Utils.FilterVersions`).
- Utils.GetExisting and Utils.GetActive: the `systemctl` output is a parameter, and the substring test is on whole strings, without decoding bytes.
- Words.StripEscapes: its own contract states only that the text never grows. What the corrected reading means is stated by `Words.StripEscapesPlain` and `Words.StripEscapesEscape` and the name lemmas in `Bridge`.
- Exits and uncaught exceptions end the program. The model returns them as `Err` values naming the failed step.
- The command-line parser and `main` are not modelled.
- Apache has no rules in the catalog and is not modelled.

## Findings

| source | as written | input that shows it | evidently intended | confidence | as-written member | corrected member |
|---|---|---|---|---|---|---|
| sve/drawing.py:14-21 | `color` knows only 'r', 'g' and 'n' and exits on anything else, yet `header(..., 'y')` is called at sve/sve.py:143 and sve/utils.py:201 | `show_failures` with `total_services == 0`, or `show_service_info` with no existing services: the yellow header exits with "error: unknown color: y" | a yellow code is accepted and the line printed in yellow | not executed | Drawing.YellowHeaderExitsAsWritten | Drawing.HeaderRendersProgramColors |
| sve/sve.py:99-101 | the implicit option name is the first `[a-zA-Z_]+` run of the raw template. For the 'banner' template (sve/service_info.py:286) that is the `w` of its `\w` | the ftp 'banner' rule fails and its vulnerable template finds no line in the file: the evidence reads `implicit: w` | the option name `ftpd_banner`, found once escape sequences are skipped | not executed | Bridge.BannerFallbackAsWritten | Bridge.BannerName |

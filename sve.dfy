/** The rule evaluation engine (sve/sve.py): `get_failures` walks every
    requested service's rule table in order, decides for each rule whether
    it fails, builds the evidence line of each failure, and counts passed
    and failed rules; `show_failures` totals the failures and picks the
    summary.

    The regular-expression engine and the helpers `config_exists` and
    `check_prereqs`, whose bodies are not part of this model, are the
    fields of an `Oracle`: every statement below holds for every choice of
    them. The configuration files are a map from path to contents. */
module Sve {
  import opened Results
  import opened Dicts
  import Drawing
  import Numerals
  import opened Words
  import Utils

  /** `re.M`. */
  const Multiline: bv32 := 8

  /** A compiled regular expression: `re.compile(pattern, flags=flags)`. */
  datatype Compiled = Compiled(pattern: string, flags: bv32)

  /** The record `get_failures` reads for one rule. */
  datatype RuleConfig = RuleConfig(
    description: string,
    kind: string,
    regex: string,
    regexFlags: bv32,
    prereq: seq<string>,
    prereqType: seq<string>)

  /** The record read from `services_templates[service][name]`. */
  datatype Template = Template(vuln: string)

  /** `services_entries` and `services_templates`. */
  datatype Catalog = Catalog(
    entries: Dict<string, Dict<string, RuleConfig>>,
    templates: Dict<string, Dict<string, Template>>)

  /** The functions the engine calls but does not define. */
  datatype Oracle = Oracle(
    configExists: (Compiled, string, string) -> bool,               // config_exists(regex, type, text)
    checkPrereqs: (string, seq<string>, seq<string>, string, bv32) -> bool,  // check_prereqs(service, prereq, prereq_type, text, flags)
    findAll: (Compiled, string) -> seq<string>)                     // re.findall(regex, text)

  /** The arguments of the `get_error` call that reports a failed rule. */
  datatype Failure = Failure(
    service: string,
    name: string,
    description: string,
    regex: Compiled,
    path: string,
    badLine: string)

  /** The ways `get_failures` stops with an exception. */
  datatype RunError =
    | NoTemplates(service: string)              // services_templates[service]
    | NoConfigPath(service: string)             // configs[service]
    | Unreadable(path: string)                  // open(configs[service])
    | NoEntries(service: string)                // services_entries[service]
    | NoVersion(service: string)                // versions[service]
    | NoTemplate(service: string, name: string) // templates[name]
    | NoMatch(service: string, name: string)    // re.findall(regex, srv_file)[0]
    | NoOptionName(service: string, name: string)  // re.findall(r'[a-zA-Z_]+', ...)[0]
    | UnboundEvidence(service: string, name: string)  // bad_line never assigned

  /** `d[k]`, with the exception it raises when `k` is missing. */
  function Lookup<V>(d: Dict<string, V>, k: string, e: RunError): (r: Result<V, RunError>)
    ensures r.Err? <==> k !in KeySet(d)
    ensures r.Err? ==> r.error == e
    ensures r.Ok? ==> Get(d, k) == Some(r.value)
  {
    match Get(d, k)
    case None => Err(e)
    case Some(v) => Ok(v)
  }

  // FLAGS

  /** `re.M | config['regex flags'] if config['regex flags'] else re.M`:
      multiline is always set, and the conditional makes no difference. */
  function CompileFlags(regexFlags: bv32): (f: bv32)
    ensures f & Multiline == Multiline
    ensures f == Multiline | regexFlags
    ensures f & !Multiline == regexFlags & !Multiline
  {
    if regexFlags != 0 then Multiline | regexFlags else Multiline
  }

  // ONE RULE

  /** The rule fails when its pattern triggers and its prerequisites are
      empty or satisfied; a rule whose pattern does not trigger passes
      whatever its prerequisites. */
  predicate Fails(o: Oracle, service: string, text: string, config: RuleConfig)
    ensures Fails(o, service, text, config) ==>
      o.configExists(Compiled(config.regex, CompileFlags(config.regexFlags)), config.kind, text)
    ensures config.prereq == [] ==>
      (Fails(o, service, text, config) <==>
       o.configExists(Compiled(config.regex, CompileFlags(config.regexFlags)), config.kind, text))
  {
    var flags := CompileFlags(config.regexFlags);
    o.configExists(Compiled(config.regex, flags), config.kind, text) &&
    (config.prereq == [] || o.checkPrereqs(service, config.prereq, config.prereqType, text, flags))
  }

  /** `color(f"E   {evidence}", "r")`. */
  function BadLine(evidence: string): (b: string)
    ensures Drawing.Uncolor(b) == Some(("r", "E   " + evidence))
  {
    Drawing.Color("E   " + evidence, "r").value
  }

  /** The regular expression handed to `get_error` for a failed rule and its
      evidence line.
      - A `default` rule uses its vulnerable template: the first match in
        the file, or else `implicit: ` and the first word of the template
        outside its escape sequences (see the findings).
      - An `explicit` rule uses its own first match.
      - Any other kind assigns no evidence line, so the one left over from
        the previous failure is reused, and there is none before the first. */
  function Evidence(o: Oracle, service: string, templates: Dict<string, Template>, name: string,
                    config: RuleConfig, text: string, stale: Option<string>): (r: Result<(Compiled, string), RunError>)
    ensures config.kind == "default" ==>
      match Get(templates, name)
      case None => r == Err(NoTemplate(service, name))
      case Some(t) =>
        var regex := Compiled(t.vuln, CompileFlags(config.regexFlags));
        var matches := o.findAll(regex, text);
        if matches != [] then r.Ok? && r.value.0 == regex && Drawing.Uncolor(r.value.1) == Some(("r", "E   " + matches[0]))
        else match FirstWord(StripEscapes(t.vuln))
          case None => r == Err(NoOptionName(service, name))
          case Some(w) => r.Ok? && r.value.0 == regex && Drawing.Uncolor(r.value.1) == Some(("r", "E   implicit: " + w))
    ensures config.kind == "explicit" ==>
      var regex := Compiled(config.regex, CompileFlags(config.regexFlags));
      var matches := o.findAll(regex, text);
      if matches == [] then r == Err(NoMatch(service, name))
      else r.Ok? && r.value.0 == regex && Drawing.Uncolor(r.value.1) == Some(("r", "E   " + matches[0]))
    ensures config.kind != "default" && config.kind != "explicit" ==>
      r == if stale.None? then Err(UnboundEvidence(service, name))
           else Ok((Compiled(config.regex, CompileFlags(config.regexFlags)), stale.value))
  {
    var flags := CompileFlags(config.regexFlags);
    if config.kind == "default" then
      var t :- Lookup(templates, name, NoTemplate(service, name));
      var regex := Compiled(t.vuln, flags);
      var matches := o.findAll(regex, text);
      if matches != [] then Ok((regex, BadLine(matches[0])))
      else
        match FirstWord(StripEscapes(t.vuln))
        case None => Err(NoOptionName(service, name))
        case Some(w) =>
          assert "E   " + ("implicit: " + w) == "E   implicit: " + w;
          Ok((regex, BadLine("implicit: " + w)))
    else
      var regex := Compiled(config.regex, flags);
      if config.kind == "explicit" then
        var matches := o.findAll(regex, text);
        if matches == [] then Err(NoMatch(service, name)) else Ok((regex, BadLine(matches[0])))
      else
        match stale
        case None => Err(UnboundEvidence(service, name))
        case Some(b) => Ok((regex, b))
  }

  /** The per-service counters `service_test_stats`. */
  datatype Stats = Stats(passed: nat, failed: nat)

  /** What the walk over one rule table carries: the service's failure list
      so far, its counters, the overall `tests_passed` and the last evidence
      line. */
  datatype Tally = Tally(fails: seq<Failure>, stats: Stats, testsPassed: nat, badLine: Option<string>)

  /** One iteration of the inner loop of `get_failures`. */
  function RuleStep(o: Oracle, service: string, path: string, text: string, templates: Dict<string, Template>,
                    rule: (string, RuleConfig), t: Tally): (r: Result<Tally, RunError>)
    ensures r.Ok? && Fails(o, service, text, rule.1) ==>
      && |r.value.fails| == |t.fails| + 1 && r.value.fails[..|t.fails|] == t.fails
      && r.value.fails[|t.fails|].name == rule.0
      && r.value.stats == t.stats.(failed := t.stats.failed + 1)
      && r.value.testsPassed == t.testsPassed
    ensures !Fails(o, service, text, rule.1) ==>
      r == Ok(t.(stats := t.stats.(passed := t.stats.passed + 1), testsPassed := t.testsPassed + 1))
  {
    var (name, config) := rule;
    if Fails(o, service, text, config) then
      var ev :- Evidence(o, service, templates, name, config, text, t.badLine);
      var failure := Failure(service, name, config.description, ev.0, path, ev.1);
      Ok(t.(fails := t.fails + [failure], stats := t.stats.(failed := t.stats.failed + 1), badLine := Some(ev.1)))
    else
      Ok(t.(stats := t.stats.(passed := t.stats.passed + 1), testsPassed := t.testsPassed + 1))
  }

  /** The inner loop of `get_failures` over the rules in table order. */
  function RunRules(o: Oracle, service: string, path: string, text: string, templates: Dict<string, Template>,
                    rules: Dict<string, RuleConfig>, t: Tally): Result<Tally, RunError>
    decreases |rules|
  {
    if rules == [] then Ok(t)
    else
      var t' :- RuleStep(o, service, path, text, templates, rules[0], t);
      RunRules(o, service, path, text, templates, rules[1..], t')
  }

  /** The names of the rules that fail, in table order. */
  function FailingNames(o: Oracle, service: string, text: string, rules: Dict<string, RuleConfig>): (r: seq<string>)
    ensures |r| <= |rules|
    ensures forall n :: n in r <==> exists k :: 0 <= k < |rules| && rules[k].0 == n && Fails(o, service, text, rules[k].1)
  {
    if rules == [] then []
    else
      var rest := FailingNames(o, service, text, rules[1..]);
      assert forall k :: 0 < k < |rules| ==> rules[k] == rules[1..][k - 1];
      if Fails(o, service, text, rules[0].1) then [rules[0].0] + rest else rest
  }

  function Names(fs: seq<Failure>): (r: seq<string>)
    ensures |r| == |fs| && forall i :: 0 <= i < |fs| ==> r[i] == fs[i].name
  {
    seq(|fs|, i requires 0 <= i < |fs| => fs[i].name)
  }

  /** Each rule is counted once: as passed, or as failed with one failure
      entry appended in table order; the failing rules are exactly those
      `Fails` selects, and only passes add to `tests_passed`. */
  lemma {:induction false} RunRulesCounts(o: Oracle, service: string, path: string, text: string,
                                          templates: Dict<string, Template>, rules: Dict<string, RuleConfig>, t: Tally)
    requires RunRules(o, service, path, text, templates, rules, t).Ok?
    ensures var t' := RunRules(o, service, path, text, templates, rules, t).value;
      && t'.stats.passed + t'.stats.failed == t.stats.passed + t.stats.failed + |rules|
      && |t.fails| <= |t'.fails|
      && |t'.fails| - |t.fails| == t'.stats.failed - t.stats.failed
      && t'.fails[..|t.fails|] == t.fails
      && Names(t'.fails[|t.fails|..]) == FailingNames(o, service, text, rules)
      && t'.testsPassed - t.testsPassed == t'.stats.passed - t.stats.passed
      && forall i :: |t.fails| <= i < |t'.fails| ==> t'.fails[i].service == service && t'.fails[i].path == path
    decreases |rules|
  {
    if rules != [] {
      var t1 := RuleStep(o, service, path, text, templates, rules[0], t).value;
      RunRulesCounts(o, service, path, text, templates, rules[1..], t1);
      var t' := RunRules(o, service, path, text, templates, rules, t).value;
      assert t' == RunRules(o, service, path, text, templates, rules[1..], t1).value;
      if Fails(o, service, text, rules[0].1) {
        assert t'.fails[..|t1.fails|][..|t.fails|] == t'.fails[..|t.fails|];
        assert Names(t'.fails[|t.fails|..]) == [rules[0].0] + Names(t'.fails[|t1.fails|..]);
      }
    }
  }

  // ONE SERVICE

  /** What `get_failures` has built after some services: `failure_msgs`,
      `tests_passed`, the last evidence line, and the service, version and
      counters of each `show_percentage` call so far. */
  datatype Progress = Progress(
    failureMsgs: Dict<string, seq<Failure>>,
    testsPassed: nat,
    badLine: Option<string>,
    shown: seq<(string, string, Stats)>)

  /** One iteration of the outer loop of `get_failures`. The failure list is
      reset first; then the templates, the configuration path, the file and
      the rule table are looked up in that order; an empty table ends the
      iteration; otherwise the version is looked up and the rules are run. */
  function RunService(o: Oracle, cat: Catalog, configs: Dict<string, string>, files: map<string, string>,
                      versions: Dict<string, string>, service: string, p: Progress): Result<Progress, RunError>
  {
    var templates :- Lookup(cat.templates, service, NoTemplates(service));
    var path :- Lookup(configs, service, NoConfigPath(service));
    if path !in files then Err(Unreadable(path))
    else
      var text := files[path];
      var rules :- Lookup(cat.entries, service, NoEntries(service));
      if rules == [] then Ok(p.(failureMsgs := Put(p.failureMsgs, service, [])))
      else
        var version :- Lookup(versions, service, NoVersion(service));
        var t :- RunRules(o, service, path, text, templates, rules, Tally([], Stats(0, 0), p.testsPassed, p.badLine));
        Ok(Progress(Put(p.failureMsgs, service, t.fails), t.testsPassed, t.badLine, p.shown + [(service, version, t.stats)]))
  }

  /** Where one service's iteration can stop: at one of its lookups or the
      file read, each only when what it looks for is missing, or inside its
      rule walk, with the error the walk stops on. */
  lemma RunServiceStops(o: Oracle, cat: Catalog, configs: Dict<string, string>, files: map<string, string>,
                        versions: Dict<string, string>, service: string, p: Progress)
    ensures var r := RunService(o, cat, configs, files, versions, service, p);
      var ts, path, rules := Get(cat.templates, service), Get(configs, service), Get(cat.entries, service);
      r.Err? ==>
        || (r.error == NoTemplates(service) && ts.None?)
        || (r.error == NoConfigPath(service) && path.None?)
        || (r.error == Unreadable(path.value) && path.Some? && path.value !in files)
        || (r.error == NoEntries(service) && rules.None?)
        || (r.error == NoVersion(service) && Get(versions, service).None?)
        || (&& ts.Some? && path.Some? && path.value in files && rules.Some?
            && var run := RunRules(o, service, path.value, files[path.value], ts.value, rules.value,
                                   Tally([], Stats(0, 0), p.testsPassed, p.badLine));
               run.Err? && r.error == run.error)
  {
  }

  /** The outer loop of `get_failures` over the requested services. */
  function RunServices(o: Oracle, cat: Catalog, configs: Dict<string, string>, files: map<string, string>,
                       versions: Dict<string, string>, services: seq<string>, p: Progress): Result<Progress, RunError>
    decreases |services|
  {
    if services == [] then Ok(p)
    else
      var p' :- RunService(o, cat, configs, files, versions, services[0], p);
      RunServices(o, cat, configs, files, versions, services[1..], p')
  }

  /** What `get_failures` returns, `(failure_msgs, tests_passed)`, with the
      `show_percentage` calls it made. */
  datatype Report = Report(
    failureMsgs: Dict<string, seq<Failure>>,
    testsPassed: nat,
    shown: seq<(string, string, Stats)>)

  function GetFailuresSpec(o: Oracle, cat: Catalog, configs: Dict<string, string>, files: map<string, string>,
                           versions: Dict<string, string>, services: seq<string>): Result<Report, RunError>
  {
    var p :- RunServices(o, cat, configs, files, versions, services, Progress([], 0, None, []));
    Ok(Report(p.failureMsgs, p.testsPassed, p.shown))
  }

  /** A failing rule whose evidence is found appends its failure entry. */
  lemma RuleStepFailing(o: Oracle, service: string, path: string, text: string, templates: Dict<string, Template>,
                        rule: (string, RuleConfig), t: Tally, ev: (Compiled, string))
    requires Fails(o, service, text, rule.1)
    requires Evidence(o, service, templates, rule.0, rule.1, text, t.badLine) == Ok(ev)
    ensures RuleStep(o, service, path, text, templates, rule, t) ==
      Ok(Tally(t.fails + [Failure(service, rule.0, rule.1.description, ev.0, path, ev.1)],
               t.stats.(failed := t.stats.failed + 1), t.testsPassed, Some(ev.1)))
  {
  }

  /** A passing rule only counts. */
  lemma RuleStepPassing(o: Oracle, service: string, path: string, text: string, templates: Dict<string, Template>,
                        rule: (string, RuleConfig), t: Tally)
    requires !Fails(o, service, text, rule.1)
    ensures RuleStep(o, service, path, text, templates, rule, t) ==
      Ok(Tally(t.fails, t.stats.(passed := t.stats.passed + 1), t.testsPassed + 1, t.badLine))
  {
  }

  lemma RunRulesUnfold(o: Oracle, service: string, path: string, text: string, templates: Dict<string, Template>,
                       rules: Dict<string, RuleConfig>, j: int, t: Tally)
    requires 0 <= j < |rules|
    ensures RunRules(o, service, path, text, templates, rules[j..], t) ==
      match RuleStep(o, service, path, text, templates, rules[j], t)
      case Err(e) => Err(e)
      case Ok(t') => RunRules(o, service, path, text, templates, rules[j + 1..], t')
  {
    assert rules[j..][0] == rules[j] && rules[j..][1..] == rules[j + 1..];
  }

  lemma RunServicesUnfold(o: Oracle, cat: Catalog, configs: Dict<string, string>, files: map<string, string>,
                          versions: Dict<string, string>, services: seq<string>, i: int, p: Progress)
    requires 0 <= i < |services|
    ensures RunServices(o, cat, configs, files, versions, services[i..], p) ==
      match RunService(o, cat, configs, files, versions, services[i], p)
      case Err(e) => Err(e)
      case Ok(p') => RunServices(o, cat, configs, files, versions, services[i + 1..], p')
  {
    assert services[i..][0] == services[i] && services[i..][1..] == services[i + 1..];
  }

  /** The inner loop of `get_failures` (the rules of one service, in table
      order), run from the counters and evidence line in `t`. */
  method CheckRules(o: Oracle, service: string, path: string, text: string, templates: Dict<string, Template>,
                    rules: Dict<string, RuleConfig>, t: Tally) returns (r: Result<Tally, RunError>)
    ensures r == RunRules(o, service, path, text, templates, rules, t)
  {
    var fails := t.fails;
    var stats := t.stats;
    var testsPassed := t.testsPassed;
    var badLine := t.badLine;
    var j := 0;
    assert rules[j..] == rules;
    while j < |rules|
      invariant 0 <= j <= |rules|
      invariant RunRules(o, service, path, text, templates, rules[j..], Tally(fails, stats, testsPassed, badLine))
             == RunRules(o, service, path, text, templates, rules, t)
    {
      ghost var cur := Tally(fails, stats, testsPassed, badLine);
      RunRulesUnfold(o, service, path, text, templates, rules, j, cur);
      var (name, config) := rules[j];
      var flags := CompileFlags(config.regexFlags);
      var regex := Compiled(config.regex, flags);
      if o.configExists(regex, config.kind, text) &&
         (config.prereq == [] || o.checkPrereqs(service, config.prereq, config.prereqType, text, flags))
      {
        assert Fails(o, service, text, config);
        var ev :- Evidence(o, service, templates, name, config, text, badLine);
        fails := fails + [Failure(service, name, config.description, ev.0, path, ev.1)];
        badLine := Some(ev.1);
        stats := stats.(failed := stats.failed + 1);
        RuleStepFailing(o, service, path, text, templates, rules[j], cur, ev);
      } else {
        RuleStepPassing(o, service, path, text, templates, rules[j], cur);
        testsPassed := testsPassed + 1;
        stats := stats.(passed := stats.passed + 1);
      }
      j := j + 1;
    }
    r := Ok(Tally(fails, stats, testsPassed, badLine));
  }

  /** One iteration of the outer loop of `get_failures`, on the state `p`
      built by the services before. */
  method CheckService(o: Oracle, cat: Catalog, configs: Dict<string, string>, files: map<string, string>,
                      versions: Dict<string, string>, service: string, p: Progress) returns (r: Result<Progress, RunError>)
    ensures r == RunService(o, cat, configs, files, versions, service, p)
  {
    var failureMsgs := Put(p.failureMsgs, service, []);
    var templates :- Lookup(cat.templates, service, NoTemplates(service));
    var path :- Lookup(configs, service, NoConfigPath(service));
    if path !in files {
      return Err(Unreadable(path));
    }
    var text := files[path];
    var rules :- Lookup(cat.entries, service, NoEntries(service));
    if rules == [] {
      return Ok(p.(failureMsgs := failureMsgs));
    }
    var version :- Lookup(versions, service, NoVersion(service));
    var t :- CheckRules(o, service, path, text, templates, rules, Tally([], Stats(0, 0), p.testsPassed, p.badLine));
    PutTwice(p.failureMsgs, service, [], t.fails);
    failureMsgs := Put(failureMsgs, service, t.fails);
    r := Ok(Progress(failureMsgs, t.testsPassed, t.badLine, p.shown + [(service, version, t.stats)]));
  }

  /** `get_failures(services, configs, versions)`. */
  method GetFailures(o: Oracle, cat: Catalog, configs: Dict<string, string>, files: map<string, string>,
                     versions: Dict<string, string>, services: seq<string>) returns (r: Result<Report, RunError>)
    ensures r == GetFailuresSpec(o, cat, configs, files, versions, services)
  {
    var failureMsgs: Dict<string, seq<Failure>> := [];
    var testsPassed: nat := 0;
    var badLine: Option<string> := None;
    var shown: seq<(string, string, Stats)> := [];
    var i := 0;
    while i < |services|
      invariant 0 <= i <= |services|
      invariant RunServices(o, cat, configs, files, versions, services[i..], Progress(failureMsgs, testsPassed, badLine, shown))
             == RunServices(o, cat, configs, files, versions, services, Progress([], 0, None, []))
    {
      RunServicesUnfold(o, cat, configs, files, versions, services, i, Progress(failureMsgs, testsPassed, badLine, shown));
      var p :- CheckService(o, cat, configs, files, versions, services[i], Progress(failureMsgs, testsPassed, badLine, shown));
      failureMsgs, testsPassed, badLine, shown := p.failureMsgs, p.testsPassed, p.badLine, p.shown;
      i := i + 1;
    }
    assert services[i..] == [];
    r := Ok(Report(failureMsgs, testsPassed, shown));
  }

  // WHAT A RUN ADDS UP TO

  /** A successful iteration for `service` resets and then fills that
      service's failure list only. An empty rule table runs nothing and adds
      nothing to the counts. Otherwise the service's counters account for
      every rule once, its failure list holds one entry per failed rule in
      table order, and only its passes are added to `tests_passed`. */
  lemma RunServiceEffect(o: Oracle, cat: Catalog, configs: Dict<string, string>, files: map<string, string>,
                         versions: Dict<string, string>, service: string, p: Progress)
    requires RunService(o, cat, configs, files, versions, service, p).Ok?
    ensures Get(cat.entries, service).Some? && Get(configs, service).Some? && Get(configs, service).value in files
    ensures var p' := RunService(o, cat, configs, files, versions, service, p).value;
      && (forall k | k != service :: Get(p'.failureMsgs, k) == Get(p.failureMsgs, k))
      && KeySet(p'.failureMsgs) == KeySet(p.failureMsgs) + {service}
      && |p.shown| <= |p'.shown| && p'.shown[..|p.shown|] == p.shown
      && Get(p'.failureMsgs, service).Some?
      && p'.failureMsgs == Put(p.failureMsgs, service, Get(p'.failureMsgs, service).value)
      && var rules := Get(cat.entries, service).value;
         var text := files[Get(configs, service).value];
         var fails := Get(p'.failureMsgs, service).value;
         if rules == [] then
           fails == [] && p'.shown == p.shown && p'.testsPassed == p.testsPassed
         else
           && |p'.shown| == |p.shown| + 1
           && p'.shown[|p.shown|].0 == service
           && Get(versions, service) == Some(p'.shown[|p.shown|].1)
           && p'.shown[|p.shown|].2.passed + p'.shown[|p.shown|].2.failed == |rules|
           && |fails| == p'.shown[|p.shown|].2.failed
           && Names(fails) == FailingNames(o, service, text, rules)
           && p'.testsPassed == p.testsPassed + p'.shown[|p.shown|].2.passed
  {
    var path := Get(configs, service).value;
    var rules := Get(cat.entries, service).value;
    if rules != [] {
      var t0 := Tally([], Stats(0, 0), p.testsPassed, p.badLine);
      RunRulesCounts(o, service, path, files[path], Get(cat.templates, service).value, rules, t0);
      var t := RunRules(o, service, path, files[path], Get(cat.templates, service).value, rules, t0).value;
      assert t.fails[0..] == t.fails;
    }
  }

  /** A service with an empty rule table still needs its templates, its
      configuration path and a readable file, but no version; it leaves an
      empty failure list and changes nothing else. */
  lemma EmptyTableRunsNothing(o: Oracle, cat: Catalog, configs: Dict<string, string>, files: map<string, string>,
                              versions: Dict<string, string>, service: string, p: Progress)
    requires Get(cat.entries, service) == Some([])
    ensures var r := RunService(o, cat, configs, files, versions, service, p);
      && (r.Ok? <==> service in KeySet(cat.templates) && service in KeySet(configs) && Get(configs, service).value in files)
      && (r.Ok? ==> r.value == p.(failureMsgs := Put(p.failureMsgs, service, [])))
      && (service in KeySet(cat.templates) && service in KeySet(configs) && Get(configs, service).value !in files ==>
            r == Err(Unreadable(Get(configs, service).value)))
  {
  }

  /** The passes of the `show_percentage` calls, added up. */
  function SumPassed(shown: seq<(string, string, Stats)>): nat
  {
    if shown == [] then 0 else shown[0].2.passed + SumPassed(shown[1..])
  }

  /** The failures of the `show_percentage` calls, added up. */
  function SumFailed(shown: seq<(string, string, Stats)>): nat
  {
    if shown == [] then 0 else shown[0].2.failed + SumFailed(shown[1..])
  }

  /** `sum([len(fails) for fails in failure_msgs.values()])`. */
  function TotalFailed(msgs: Dict<string, seq<Failure>>): (r: nat)
    ensures forall i :: 0 <= i < |msgs| ==> |msgs[i].1| <= r
  {
    if msgs == [] then 0
    else
      var init := msgs[..|msgs| - 1];
      assert forall i :: 0 <= i < |init| ==> init[i] == msgs[i];
      TotalFailed(init) + |msgs[|msgs| - 1].1|
  }

  predicate Distinct(services: seq<string>)
  {
    forall i, j :: 0 <= i < j < |services| ==> services[i] != services[j]
  }

  lemma {:induction false} SumsAppend(a: seq<(string, string, Stats)>, b: seq<(string, string, Stats)>)
    ensures SumPassed(a + b) == SumPassed(a) + SumPassed(b)
    ensures SumFailed(a + b) == SumFailed(a) + SumFailed(b)
  {
    if a != [] {
      assert (a + b)[1..] == a[1..] + b;
      SumsAppend(a[1..], b);
    } else {
      assert a + b == b;
    }
  }

  lemma PrefixChain<T>(a: seq<T>, b: seq<T>, c: seq<T>)
    requires |a| <= |b| && b[..|a|] == a && |b| <= |c| && c[..|b|] == b
    ensures |a| <= |c| && c[..|a|] == a && c[|a|..] == b[|a|..] + c[|b|..]
  {
    assert c[..|a|] == c[..|b|][..|a|];
  }

  /** One service adds at most one `show_percentage` call, for itself, and
      adds to `tests_passed` the passes that call reports. */
  lemma ServiceShownStep(o: Oracle, cat: Catalog, configs: Dict<string, string>, files: map<string, string>,
                         versions: Dict<string, string>, service: string, p: Progress)
    requires RunService(o, cat, configs, files, versions, service, p).Ok?
    ensures var p' := RunService(o, cat, configs, files, versions, service, p).value;
      && |p.shown| <= |p'.shown| <= |p.shown| + 1 && p'.shown[..|p.shown|] == p.shown
      && p'.testsPassed == p.testsPassed + SumPassed(p'.shown[|p.shown|..])
      && (forall k :: |p.shown| <= k < |p'.shown| ==> p'.shown[k].0 == service)
  {
    RunServiceEffect(o, cat, configs, files, versions, service, p);
  }

  /** A service that had no failure list adds its list at the end, with as
      many entries as the `show_percentage` call it adds reports failures
      (none when it adds no call). */
  lemma ServiceFailedStep(o: Oracle, cat: Catalog, configs: Dict<string, string>, files: map<string, string>,
                          versions: Dict<string, string>, service: string, p: Progress)
    requires RunService(o, cat, configs, files, versions, service, p).Ok?
    requires service !in KeySet(p.failureMsgs)
    ensures var p' := RunService(o, cat, configs, files, versions, service, p).value;
      && KeySet(p'.failureMsgs) == KeySet(p.failureMsgs) + {service}
      && |p.shown| <= |p'.shown| && p'.shown[..|p.shown|] == p.shown
      && TotalFailed(p'.failureMsgs) == TotalFailed(p.failureMsgs) + SumFailed(p'.shown[|p.shown|..])
  {
    RunServiceEffect(o, cat, configs, files, versions, service, p);
    var p' := RunService(o, cat, configs, files, versions, service, p).value;
    var fails := Get(p'.failureMsgs, service).value;
    assert SumFailed(p'.shown[|p.shown|..]) == |fails| by {
      if |p'.shown| != |p.shown| {
        assert p'.shown[|p.shown|..] == [p'.shown[|p.shown|]];
      }
    }
    assert p'.failureMsgs == p.failureMsgs + [(service, fails)] by {
      PutOrder(p.failureMsgs, service, fails);
    }
    assert (p.failureMsgs + [(service, fails)])[..|p.failureMsgs|] == p.failureMsgs;
  }

  lemma RunServicesUnfoldOk(o: Oracle, cat: Catalog, configs: Dict<string, string>, files: map<string, string>,
                            versions: Dict<string, string>, services: seq<string>, p: Progress)
    requires services != [] && RunServices(o, cat, configs, files, versions, services, p).Ok?
    ensures RunService(o, cat, configs, files, versions, services[0], p).Ok?
    ensures RunServices(o, cat, configs, files, versions, services, p) ==
      RunServices(o, cat, configs, files, versions, services[1..], RunService(o, cat, configs, files, versions, services[0], p).value)
  {
  }

  /** Over the services, the `show_percentage` calls are only appended to,
      each for a requested service, and `tests_passed` grows by their
      passes. */
  lemma {:induction false} RunServicesPassed(o: Oracle, cat: Catalog, configs: Dict<string, string>,
                                             files: map<string, string>, versions: Dict<string, string>,
                                             services: seq<string>, p: Progress)
    requires RunServices(o, cat, configs, files, versions, services, p).Ok?
    ensures var p' := RunServices(o, cat, configs, files, versions, services, p).value;
      && |p.shown| <= |p'.shown| && p'.shown[..|p.shown|] == p.shown
      && p'.testsPassed == p.testsPassed + SumPassed(p'.shown[|p.shown|..])
      && (forall k :: |p.shown| <= k < |p'.shown| ==> p'.shown[k].0 in services)
    decreases |services|
  {
    if services != [] {
      var service := services[0];
      RunServicesUnfoldOk(o, cat, configs, files, versions, services, p);
      var p1 := RunService(o, cat, configs, files, versions, service, p).value;
      ServiceShownStep(o, cat, configs, files, versions, service, p);
      RunServicesPassed(o, cat, configs, files, versions, services[1..], p1);
      var p' := RunServices(o, cat, configs, files, versions, services[1..], p1).value;
      PrefixChain(p.shown, p1.shown, p'.shown);
      SumsAppend(p1.shown[|p.shown|..], p'.shown[|p1.shown|..]);
      forall k | |p.shown| <= k < |p'.shown| ensures p'.shown[k].0 in services {
        if k < |p1.shown| {
          assert p'.shown[k] == p1.shown[k];
        } else {
          assert p'.shown[k].0 in services[1..];
        }
      }
    }
  }

  /** Every requested service ends up with a failure list. */
  lemma {:induction false} RunServicesKeys(o: Oracle, cat: Catalog, configs: Dict<string, string>,
                                           files: map<string, string>, versions: Dict<string, string>,
                                           services: seq<string>, p: Progress)
    requires RunServices(o, cat, configs, files, versions, services, p).Ok?
    ensures KeySet(RunServices(o, cat, configs, files, versions, services, p).value.failureMsgs)
         == KeySet(p.failureMsgs) + Utils.ServiceSet(services)
    decreases |services|
  {
    if services != [] {
      var p1 := RunService(o, cat, configs, files, versions, services[0], p).value;
      RunServiceEffect(o, cat, configs, files, versions, services[0], p);
      RunServicesKeys(o, cat, configs, files, versions, services[1..], p1);
      assert Utils.ServiceSet(services) == {services[0]} + Utils.ServiceSet(services[1..]);
    }
  }

  /** When no service is requested twice and none had a failure list before,
      the failure lists hold as many entries as the `show_percentage` calls
      report failures. */
  lemma {:induction false} RunServicesFailed(o: Oracle, cat: Catalog, configs: Dict<string, string>,
                                             files: map<string, string>, versions: Dict<string, string>,
                                             services: seq<string>, p: Progress)
    requires RunServices(o, cat, configs, files, versions, services, p).Ok?
    requires Distinct(services) && KeySet(p.failureMsgs) !! Utils.ServiceSet(services)
    ensures var p' := RunServices(o, cat, configs, files, versions, services, p).value;
      && |p.shown| <= |p'.shown| && p'.shown[..|p.shown|] == p.shown
      && TotalFailed(p'.failureMsgs) == TotalFailed(p.failureMsgs) + SumFailed(p'.shown[|p.shown|..])
    decreases |services|
  {
    if services != [] {
      var service := services[0];
      RunServicesUnfoldOk(o, cat, configs, files, versions, services, p);
      var p1 := RunService(o, cat, configs, files, versions, service, p).value;
      ServiceFailedStep(o, cat, configs, files, versions, service, p);
      assert Utils.ServiceSet(services) == {service} + Utils.ServiceSet(services[1..]);
      assert Distinct(services[1..]);
      assert service !in Utils.ServiceSet(services[1..]);
      RunServicesFailed(o, cat, configs, files, versions, services[1..], p1);
      var p' := RunServices(o, cat, configs, files, versions, services[1..], p1).value;
      PrefixChain(p.shown, p1.shown, p'.shown);
      SumsAppend(p1.shown[|p.shown|..], p'.shown[|p1.shown|..]);
    }
  }

  /** What `get_failures` returns adds up: `tests_passed` is the sum of the
      passes of the `show_percentage` calls, every requested service has a
      failure list and nothing else has, and when no service is requested
      twice the lists hold as many entries as the calls report failures. */
  lemma GetFailuresTotals(o: Oracle, cat: Catalog, configs: Dict<string, string>, files: map<string, string>,
                          versions: Dict<string, string>, services: seq<string>)
    requires GetFailuresSpec(o, cat, configs, files, versions, services).Ok?
    ensures var rep := GetFailuresSpec(o, cat, configs, files, versions, services).value;
      && rep.testsPassed == SumPassed(rep.shown)
      && KeySet(rep.failureMsgs) == Utils.ServiceSet(services)
      && (forall k :: 0 <= k < |rep.shown| ==> rep.shown[k].0 in services)
      && (Distinct(services) ==> TotalFailed(rep.failureMsgs) == SumFailed(rep.shown))
  {
    var p0 := Progress([], 0, None, []);
    RunServicesPassed(o, cat, configs, files, versions, services, p0);
    RunServicesKeys(o, cat, configs, files, versions, services, p0);
    var p' := RunServices(o, cat, configs, files, versions, services, p0).value;
    assert p'.shown[0..] == p'.shown;
    if Distinct(services) {
      RunServicesFailed(o, cat, configs, files, versions, services, p0);
    }
  }

  // SHOW_FAILURES

  /** `any([fails for fails in failure_msgs.values()])`. */
  predicate AnyFailures(msgs: Dict<string, seq<Failure>>)
    ensures AnyFailures(msgs) <==> NonEmptyLists(msgs) != []
  {
    assert NonEmptyLists(msgs) != [] ==> NonEmptyLists(msgs)[0] in NonEmptyLists(msgs);
    assert forall i :: 0 <= i < |msgs| && msgs[i].1 != [] ==> msgs[i] in NonEmptyLists(msgs);
    exists i :: 0 <= i < |msgs| && msgs[i].1 != []
  }

  /** Some failure list is non-empty exactly when the total is positive, so
      the `any` test and the `sum` agree. */
  lemma {:induction false} AnyFailuresIffTotal(msgs: Dict<string, seq<Failure>>)
    ensures AnyFailures(msgs) <==> TotalFailed(msgs) > 0
  {
    if msgs != [] {
      var init := msgs[..|msgs| - 1];
      AnyFailuresIffTotal(init);
      if AnyFailures(init) {
        var i :| 0 <= i < |init| && init[i].1 != [];
        assert msgs[i].1 != [];
      }
      if AnyFailures(msgs) && msgs[|msgs| - 1].1 == [] {
        var i :| 0 <= i < |msgs| && msgs[i].1 != [];
        assert init[i].1 != [];
      }
    }
  }

  /** The services listed under FAILURES: those with a non-empty list, in
      `failure_msgs` order. */
  function NonEmptyLists(msgs: Dict<string, seq<Failure>>): (r: Dict<string, seq<Failure>>)
    ensures forall p :: p in r <==> p in msgs && p.1 != []
    ensures |r| <= |msgs|
  {
    if msgs == [] then []
    else
      var rest := NonEmptyLists(msgs[1..]);
      if msgs[0].1 != [] then [msgs[0]] + rest else rest
  }

  /** The outcome `show_failures` reports. */
  datatype Summary =
    | NoTestsRan
    | SomeFailed(listed: Dict<string, seq<Failure>>, failed: nat, passed: nat)
    | AllPassed(passed: nat)

  /** The decision of `show_failures` on what `get_failures` returned:
      "no tests ran" exactly when there are no services with tests; else the
      failure listing with the total, when any list is non-empty; else the
      all-passed line. */
  function ShowFailures(msgs: Dict<string, seq<Failure>>, passed: nat, totalServices: int): (s: Summary)
    ensures s.NoTestsRan? <==> totalServices == 0
    ensures s.SomeFailed? <==> totalServices != 0 && TotalFailed(msgs) > 0
    ensures s.AllPassed? <==> totalServices != 0 && TotalFailed(msgs) == 0
    ensures s.SomeFailed? ==>
      && s.failed == TotalFailed(msgs) && s.passed == passed
      && forall p :: p in s.listed <==> p in msgs && p.1 != []
    ensures s.AllPassed? ==> s.passed == passed
  {
    if totalServices == 0 then NoTestsRan
    else
      var failed := TotalFailed(msgs);
      AnyFailuresIffTotal(msgs);
      if AnyFailures(msgs) then SomeFailed(NonEmptyLists(msgs), failed, passed)
      else AllPassed(passed)
  }

  /** The title and colour of the closing header line; `totalTime` is the
      rounded wall-clock time as printed. The colour is yellow, red or green
      by outcome; every title ends with the time; and the counts it starts
      with, or carries after the failures, read back as the totals. */
  function SummaryTitle(s: Summary, totalTime: string): (r: (string, string))
    ensures r.1 == if s.NoTestsRan? then "y" else if s.SomeFailed? then "r" else "g"
    ensures var tail := " in " + totalTime + " seconds";
      |tail| <= |r.0| && r.0[|r.0| - |tail|..] == tail
    ensures s.NoTestsRan? ==>
      |r.0| == 12 + |" in " + totalTime + " seconds"| && r.0[..12] == "no tests ran"
    ensures s.SomeFailed? ==>
      exists a, c :: 15 <= a && Numerals.CountAt(r.0, a, c, s.passed) &&
        Numerals.CountAt(r.0, 0, a - 15, s.failed) && r.0[a - 15..a] == " tests failed, " &&
        |r.0| == c + 7 + |" in " + totalTime + " seconds"| && r.0[c..c + 7] == " passed"
    ensures s.AllPassed? ==>
      exists b :: Numerals.CountAt(r.0, 0, b, s.passed) &&
        |r.0| == b + 13 + |" in " + totalTime + " seconds"| && r.0[b..b + 13] == " tests passed"
  {
    var tail := " in " + totalTime + " seconds";
    match s
    case NoTestsRan =>
      var t := "no tests ran" + tail;
      assert t[..12] == "no tests ran" && t[|t| - |tail|..] == tail;
      (t, "y")
    case SomeFailed(_, failed, passed) =>
      FailedTitleCounts(failed, passed, tail);
      FailedTitleWords(failed, passed, tail);
      FailedTitlePassedCount(failed, passed, tail);
      (FailedTitle(failed, passed, tail), "r")
    case AllPassed(passed) =>
      PassedTitleCount(passed, tail);
      (Numerals.NatToString(passed) + " tests passed" + tail, "g")
  }

  /** The title of a run with failures. */
  function FailedTitle(failed: nat, passed: nat, tail: string): string
  {
    Numerals.NatToString(failed) + " tests failed, " + Numerals.NatToString(passed) + " passed" + tail
  }

  /** The title with failures opens with the failure count. */
  lemma FailedTitleCounts(failed: nat, passed: nat, tail: string)
    ensures Numerals.CountAt(FailedTitle(failed, passed, tail), 0, |Numerals.NatToString(failed)|, failed)
  {
    var f, p := Numerals.NatToString(failed), Numerals.NatToString(passed);
    var rest := " tests failed, " + p + " passed" + tail;
    assert FailedTitle(failed, passed, tail) == [] + f + rest;
    Numerals.CountBetween([], failed, rest);
  }

  /** The words after the failure count, and the tail at the end. */
  lemma FailedTitleWords(failed: nat, passed: nat, tail: string)
    ensures var f, t := Numerals.NatToString(failed), FailedTitle(failed, passed, tail);
      && t[|f|..|f| + 15] == " tests failed, " && t[|t| - |tail|..] == tail
      && var p := Numerals.NatToString(passed);
         t[|f| + 15 + |p|..|f| + 15 + |p| + 7] == " passed"
  {
    var f, p := Numerals.NatToString(failed), Numerals.NatToString(passed);
    Parts(f, " tests failed, ", p, " passed", tail);
  }

  /** After the failure count comes the pass count. */
  lemma FailedTitlePassedCount(failed: nat, passed: nat, tail: string)
    ensures var f, p := Numerals.NatToString(failed), Numerals.NatToString(passed);
      Numerals.CountAt(FailedTitle(failed, passed, tail), |f| + 15, |f| + 15 + |p|, passed)
  {
    var f, p := Numerals.NatToString(failed), Numerals.NatToString(passed);
    var before, after := f + " tests failed, ", " passed" + tail;
    assert |before| == |f| + 15;
    Numerals.CountBetween(before, passed, after);
    assert FailedTitle(failed, passed, tail) == before + p + after by {
      assert f + " tests failed, " + p + " passed" + tail == before + p + after;
    }
  }

  /** Where the parts of a five-part concatenation sit. */
  lemma Parts(a: string, b: string, c: string, d: string, e: string)
    ensures var t := a + b + c + d + e;
      && t[..|a|] == a && t[|a|..|a| + |b|] == b && t[|a| + |b|..|a| + |b| + |c|] == c
      && t[|a| + |b| + |c|..|a| + |b| + |c| + |d|] == d && t[|t| - |e|..] == e
  {
  }

  lemma PassedTitleCount(passed: nat, tail: string)
    ensures var p := Numerals.NatToString(passed);
      var t := p + " tests passed" + tail;
      && Numerals.CountAt(t, 0, |p|, passed) && t[|p|..|p| + 13] == " tests passed"
      && |t| == |p| + 13 + |tail|
      && t[|t| - |tail|..] == tail
  {
    var p := Numerals.NatToString(passed);
    var t := p + " tests passed" + tail;
    assert t[..|p|] == p && t[|p|..|p| + 13] == " tests passed";
    Numerals.CountFound(t, 0, passed);
  }

  /** The closing header line of `show_failures`. */
  function SummaryHeader(s: Summary, totalTime: string, termWidth: int): (r: Result<string, Drawing.DrawError>)
    ensures var (title, clr) := SummaryTitle(s, totalTime);
      && (r.Ok? <==> termWidth >= |title|)
      && (r.Ok? ==> Drawing.Uncolor(r.value) == Some((clr, Drawing.HeaderLine(title, "=", termWidth).value)))
  {
    var (title, clr) := SummaryTitle(s, totalTime);
    Drawing.Header(title, clr, "=", termWidth)
  }

  /** After a run over distinct services, the closing summary agrees with
      the per-service counts reported along the way: failures are listed
      exactly when some service reported one, with their sum as the failure
      total, and the passed count is the sum of the reported passes. */
  lemma SummaryMatchesProgress(o: Oracle, cat: Catalog, configs: Dict<string, string>, files: map<string, string>,
                               versions: Dict<string, string>, services: seq<string>, totalServices: int)
    requires GetFailuresSpec(o, cat, configs, files, versions, services).Ok?
    requires Distinct(services) && totalServices != 0
    ensures var rep := GetFailuresSpec(o, cat, configs, files, versions, services).value;
      var s := ShowFailures(rep.failureMsgs, rep.testsPassed, totalServices);
      && (s.SomeFailed? <==> SumFailed(rep.shown) > 0)
      && (s.SomeFailed? ==> s.failed == SumFailed(rep.shown) && s.passed == SumPassed(rep.shown))
      && (s.AllPassed? ==> s.passed == SumPassed(rep.shown))
  {
    GetFailuresTotals(o, cat, configs, files, versions, services);
  }

  /** Every `default` rule of `rules` has a template with a word in it. */
  predicate DefaultsCovered(templates: Dict<string, Template>, rules: Dict<string, RuleConfig>)
  {
    forall i :: 0 <= i < |rules| && rules[i].1.kind == "default" ==>
      Get(templates, rules[i].0).Some? && FirstWord(StripEscapes(Get(templates, rules[i].0).value.vuln)).Some?
  }

  /** When the default rules are covered, walking the rules can only stop on
      an explicit rule without a match or on a rule of another kind failing
      before any evidence line exists. */
  lemma {:induction false} RunRulesErrors(o: Oracle, service: string, path: string, text: string,
                                          templates: Dict<string, Template>, rules: Dict<string, RuleConfig>, t: Tally)
    requires DefaultsCovered(templates, rules)
    ensures var r := RunRules(o, service, path, text, templates, rules, t);
      r.Err? ==> r.error.NoMatch? || r.error.UnboundEvidence?
    decreases |rules|
  {
    if rules != [] {
      var step := RuleStep(o, service, path, text, templates, rules[0], t);
      if step.Ok? {
        assert DefaultsCovered(templates, rules[1..]) by {
          forall i | 0 <= i < |rules| - 1 ensures rules[1..][i] == rules[i + 1] {}
        }
        RunRulesErrors(o, service, path, text, templates, rules[1..], step.value);
      }
    }
  }

  /** Once an evidence line exists, a failing rule of any other kind reuses
      it, and walking covered rules can only stop on an explicit rule without
      a match. */
  lemma {:induction false} RunRulesAfterEvidence(o: Oracle, service: string, path: string, text: string,
                                                 templates: Dict<string, Template>, rules: Dict<string, RuleConfig>, t: Tally)
    requires DefaultsCovered(templates, rules) && t.badLine.Some?
    ensures var r := RunRules(o, service, path, text, templates, rules, t);
      r.Err? ==> r.error.NoMatch?
    decreases |rules|
  {
    if rules != [] {
      var step := RuleStep(o, service, path, text, templates, rules[0], t);
      if step.Ok? {
        assert DefaultsCovered(templates, rules[1..]) by {
          forall i | 0 <= i < |rules| - 1 ensures rules[1..][i] == rules[i + 1] {}
        }
        RunRulesAfterEvidence(o, service, path, text, templates, rules[1..], step.value);
      }
    }
  }
}

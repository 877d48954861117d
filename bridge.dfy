/** The catalog as the engine reads it. The engine reads the fields
    `regex flags` and `vuln` and the table `services_templates`, which the
    catalog literals do not spell that way; this module states the reading
    the model takes: each rule's pattern text is its regex with no extra
    flags, and each service's templates are its vulnerable templates. */
module Bridge {
  import opened Results
  import opened Dicts
  import opened ServiceInfo
  import Sve
  import Words

  function RuleOf(e: Entry): Sve.RuleConfig
  {
    Sve.RuleConfig(e.description, e.kind, Text(e.regex), 0, e.prereq, e.prereqType)
  }

  /** A rule table read by the engine: the same names in the same order. */
  function RulesOf(es: Dict<string, Entry>): (r: Dict<string, Sve.RuleConfig>)
    ensures |r| == |es| && forall i :: 0 <= i < |es| ==> r[i] == (es[i].0, RuleOf(es[i].1))
  {
    seq(|es|, i requires 0 <= i < |es| => (es[i].0, RuleOf(es[i].1)))
  }

  /** A template table read by the engine. */
  function TemplatesOf(ts: Dict<string, Pattern>): (r: Dict<string, Sve.Template>)
    ensures |r| == |ts| && forall i :: 0 <= i < |ts| ==> r[i] == (ts[i].0, Sve.Template(Text(ts[i].1)))
  {
    seq(|ts|, i requires 0 <= i < |ts| => (ts[i].0, Sve.Template(Text(ts[i].1))))
  }

  const Catalog: Sve.Catalog := Sve.Catalog(
    [("ftp", RulesOf(FtpEntries)), ("ssh", RulesOf(SshEntries))],
    [("ftp", TemplatesOf(FtpVulnTemplates)), ("ssh", TemplatesOf(SshVulnTemplates))])

  /** Reading a table keeps the lookups: a name finds the read form of what
      it found before. */
  lemma {:induction false} TemplatesOfGet(ts: Dict<string, Pattern>, k: string)
    ensures Get(TemplatesOf(ts), k) == match Get(ts, k) case None => None case Some(p) => Some(Sve.Template(Text(p)))
  {
    if ts != [] {
      assert TemplatesOf(ts)[1..] == TemplatesOf(ts[1..]);
      TemplatesOfGet(ts[1..], k);
    }
  }

  /** Every template of the table has a word outside its escape sequences. */
  predicate WordyTemplates(ts: Dict<string, Pattern>)
  {
    forall i :: 0 <= i < |ts| ==> Words.FirstWord(Words.StripEscapes(Text(ts[i].1))).Some?
  }

  /** When every default rule has a template and every template has a word,
      the engine's reading of the tables covers the default rules. */
  lemma CoveredWhenWordy(es: Dict<string, Entry>, ts: Dict<string, Pattern>)
    requires DefaultsHaveTemplates(es, ts) && WordyTemplates(ts)
    ensures Sve.DefaultsCovered(TemplatesOf(ts), RulesOf(es))
  {
    var rules := RulesOf(es);
    forall i | 0 <= i < |rules| && rules[i].1.kind == "default"
      ensures Get(TemplatesOf(ts), rules[i].0).Some?
      ensures Words.FirstWord(Words.StripEscapes(Get(TemplatesOf(ts), rules[i].0).value.vuln)).Some?
    {
      var k := es[i].0;
      TemplatesOfGet(ts, k);
      var p := Get(ts, k).value;
      var j :| 0 <= j < |ts| && ts[j] == (k, p);
    }
  }

  /** A two-alternative pattern is written `(` first alternative `)|...`. */
  lemma TextPrefix(p: Pattern)
    requires |p.alternatives| >= 2
    ensures var a := p.alternatives[0];
      |Text(p)| > |a| + 1 && Text(p)[0] == '(' && Text(p)[1..|a| + 1] == a && Text(p)[|a| + 1] == ')'
  {
    var a := p.alternatives;
    assert Text(p) == "(" + a[0] + ")|" + Group(a[1..]);
  }

  /** The positions of a template's first alternative in its pattern text,
      shifted by the opening parenthesis. */
  lemma TextSlices(p: Pattern, i: nat, n: nat)
    requires |p.alternatives| >= 2 && i + n < |p.alternatives[0]|
    ensures var a, s := p.alternatives[0], Text(p);
      && i + n + 1 < |s|
      && s[..i + 1] == "(" + a[..i] && s[i + 1..i + 1 + n] == a[i..i + n] && s[i + 1 + n] == a[i + n]
      && (i + n + 2 < |a| ==> s[i + n + 3] == a[i + n + 2])
  {
    var a, s := p.alternatives[0], Text(p);
    TextPrefix(p);
    assert s[..i + 1] == [s[0]] + s[1..|a| + 1][..i];
    assert s[i + 1..i + 1 + n] == s[1..|a| + 1][i..i + n];
    assert s[i + 1 + n] == s[1..|a| + 1][i + n];
    if i + n + 2 < |a| {
      assert s[i + n + 3] == s[1..|a| + 1][i + n + 2];
    }
  }

  /** As written, the fallback of a template is the run of word characters
      at `i` in its first alternative when none comes before it. */
  lemma TemplateFirstWord(p: Pattern, i: nat, n: nat)
    requires |p.alternatives| >= 2 && i + n < |p.alternatives[0]|
    requires forall c :: c in p.alternatives[0][..i] ==> !Words.IsWordChar(c)
    requires Words.IsWord(p.alternatives[0][i..i + n]) && !Words.IsWordChar(p.alternatives[0][i + n])
    ensures Words.FirstWord(Text(p)) == Some(p.alternatives[0][i..i + n])
  {
    TextSlices(p, i, n);
    Words.FirstWordIs(Text(p), i + 1, n);
  }

  /** With escape sequences dropped, the fallback of a template is the run of
      word characters at `i` in its first alternative when only separators
      come before it. */
  lemma TemplateOptionName(p: Pattern, i: nat, n: nat)
    requires |p.alternatives| >= 2 && i + n < |p.alternatives[0]|
    requires Words.Separators(p.alternatives[0][..i]) && Words.IsWord(p.alternatives[0][i..i + n])
    requires Words.NameEndsAt(p.alternatives[0], i + n)
    ensures Words.FirstWord(Words.StripEscapes(Text(p))) == Some(p.alternatives[0][i..i + n])
  {
    var a, s := p.alternatives[0], Text(p);
    TextSlices(p, i, n);
    assert forall c :: c in s[..i + 1] ==> c == '(' || c in a[..i];
    Words.StrippedWordIs(s, i + 1, n);
  }

  /** As `TemplateOptionName`, with one escape sequence at `e` before the run. */
  lemma TemplateOptionNameAfterEscape(p: Pattern, e: nat, i: nat, n: nat)
    requires |p.alternatives| >= 2 && e + 2 <= i && i + n < |p.alternatives[0]| && p.alternatives[0][e] == '\\'
    requires Words.Separators(p.alternatives[0][..e]) && Words.Separators(p.alternatives[0][e + 2..i])
    requires Words.IsWord(p.alternatives[0][i..i + n]) && Words.NameEndsAt(p.alternatives[0], i + n)
    ensures Words.FirstWord(Words.StripEscapes(Text(p))) == Some(p.alternatives[0][i..i + n])
  {
    var a, s := p.alternatives[0], Text(p);
    assert s[i + 1..i + 1 + n] == a[i..i + n] && Words.NameEndsAt(s, i + 1 + n) by {
      TextSlices(p, i, n);
    }
    TextPrefix(p);
    assert Words.Separators(s[..e + 1]) by {
      assert s[..e + 1] == [s[0]] + s[1..|a| + 1][..e];
    }
    assert s[e + 1] == '\\' by {
      assert s[e + 1] == s[1..|a| + 1][e];
    }
    assert Words.Separators(s[e + 3..i + 1]) by {
      assert s[e + 3..i + 1] == s[1..|a| + 1][e + 2..i];
    }
    Words.StrippedWordAfterEscape(s, e + 1, i + 1, n);
  }

  /** The implicit evidence of each default ftp rule names its configuration
      option. */
  lemma FtpOptionNames()
    ensures Words.FirstWord(Words.StripEscapes(Text(FtpVulnTemplates[0].1))) == Some("anonymous_enable")
    ensures Words.FirstWord(Words.StripEscapes(Text(FtpVulnTemplates[1].1))) == Some("ftpd_banner")
  {
    AnonEnableName();
    BannerName();
  }

  lemma AnonEnableName()
    ensures Words.FirstWord(Words.StripEscapes(Text(FtpVulnTemplates[0].1))) == Some("anonymous_enable")
  {
    var p := FtpVulnTemplates[0].1;
    var pre, name, post := "^", "anonymous_enable", "=YES";
    assert p.alternatives[0] == pre + name + post;
    assert (pre + name + post)[1..17] == name;
    TemplateOptionName(p, 1, 16);
  }

  lemma BannerName()
    ensures Words.FirstWord(Words.StripEscapes(Text(FtpVulnTemplates[1].1))) == Some("ftpd_banner")
  {
    var p := FtpVulnTemplates[1].1;
    var pre, name, post := "^#+\\w*", "ftpd_banner", "=.*";
    assert p.alternatives[0] == pre + name + post;
    assert (pre + name + post)[6..17] == name;
    TemplateOptionNameAfterEscape(p, 3, 6, 11);
  }

  /** The implicit evidence of each default ssh rule names its configuration
      option. */
  lemma SshOptionNames()
    ensures Words.FirstWord(Words.StripEscapes(Text(SshVulnTemplates[0].1))) == Some("UseLogin")
    ensures Words.FirstWord(Words.StripEscapes(Text(SshVulnTemplates[1].1))) == Some("PermitRootLogin")
    ensures Words.FirstWord(Words.StripEscapes(Text(SshVulnTemplates[2].1))) == Some("PasswordAuthentication")
  {
    UseLoginName();
    RootLoginName();
    PasswordAuthName();
  }

  lemma UseLoginName()
    ensures Words.FirstWord(Words.StripEscapes(Text(SshVulnTemplates[0].1))) == Some("UseLogin")
  {
    var p := SshVulnTemplates[0].1;
    var pre, name, post := "^", "UseLogin", "\\w*no";
    assert p.alternatives[0] == pre + name + post;
    assert (pre + name + post)[1..9] == name;
    TemplateOptionName(p, 1, 8);
  }

  lemma RootLoginName()
    ensures Words.FirstWord(Words.StripEscapes(Text(SshVulnTemplates[1].1))) == Some("PermitRootLogin")
  {
    var p := SshVulnTemplates[1].1;
    var pre, name, post := "^", "PermitRootLogin", "\\w*yes";
    assert p.alternatives[0] == pre + name + post;
    assert (pre + name + post)[1..16] == name;
    TemplateOptionName(p, 1, 15);
  }

  lemma PasswordAuthName()
    ensures Words.FirstWord(Words.StripEscapes(Text(SshVulnTemplates[2].1))) == Some("PasswordAuthentication")
  {
    var p := SshVulnTemplates[2].1;
    var a := p.alternatives[0];
    assert a[1..23] == "PasswordAuthentication" by {
      var pre, name, post := "^", "PasswordAuthentication", "\\w*yes";
      assert a == pre + name + post;
      assert (pre + name + post)[1..23] == name;
    }
    assert Words.Separators(a[..1]) && Words.IsWord(a[1..23]) && Words.NameEndsAt(a, 23);
    TemplateOptionName(p, 1, 22);
  }

  /** As written, the fallback reads the `w` of the banner template's `\w`
      as the option name. */
  lemma BannerFallbackAsWritten()
    ensures Words.FirstWord(Text(FtpVulnTemplates[1].1)) == Some("w")
  {
    var p := FtpVulnTemplates[1].1;
    var pre, name, post := "^#+\\", "w", "*ftpd_banner=.*";
    assert p.alternatives[0] == pre + name + post;
    assert (pre + name + post)[4..5] == name;
    TemplateFirstWord(p, 4, 1);
  }

  /** Each vulnerable template of the catalog has a word outside its escape
      sequences. */
  lemma VulnTemplatesWordy()
    ensures WordyTemplates(FtpVulnTemplates) && WordyTemplates(SshVulnTemplates)
  {
    FtpOptionNames();
    SshOptionNames();
  }

  /** Every default ftp and ssh rule finds a template with a word in it. */
  lemma DefaultsAreCovered()
    ensures Sve.DefaultsCovered(TemplatesOf(FtpVulnTemplates), RulesOf(FtpEntries))
    ensures Sve.DefaultsCovered(TemplatesOf(SshVulnTemplates), RulesOf(SshEntries))
  {
    DefaultRulesHaveTemplates();
    VulnTemplatesWordy();
    CoveredWhenWordy(FtpEntries, FtpVulnTemplates);
    CoveredWhenWordy(SshEntries, SshVulnTemplates);
  }

  /** With the catalog, a run over the ftp or ssh rules stops only on an
      explicit rule without a match, or on the special-regex rule failing
      before any rule has produced an evidence line; it never stops for a
      missing template or option name. */
  lemma CatalogRunErrors(o: Sve.Oracle, path: string, text: string, t: Sve.Tally)
    ensures var r := Sve.RunRules(o, "ftp", path, text, TemplatesOf(FtpVulnTemplates), RulesOf(FtpEntries), t);
      r.Err? ==> r.error.NoMatch? || (r.error.UnboundEvidence? && t.badLine.None?)
    ensures var r := Sve.RunRules(o, "ssh", path, text, TemplatesOf(SshVulnTemplates), RulesOf(SshEntries), t);
      r.Err? ==> r.error.NoMatch? || (r.error.UnboundEvidence? && t.badLine.None?)
  {
    DefaultsAreCovered();
    Sve.RunRulesErrors(o, "ftp", path, text, TemplatesOf(FtpVulnTemplates), RulesOf(FtpEntries), t);
    Sve.RunRulesErrors(o, "ssh", path, text, TemplatesOf(SshVulnTemplates), RulesOf(SshEntries), t);
    if t.badLine.Some? {
      Sve.RunRulesAfterEvidence(o, "ftp", path, text, TemplatesOf(FtpVulnTemplates), RulesOf(FtpEntries), t);
      Sve.RunRulesAfterEvidence(o, "ssh", path, text, TemplatesOf(SshVulnTemplates), RulesOf(SshEntries), t);
    }
  }

  /** With the catalog, one service's iteration of `get_failures` over ftp or
      ssh never stops for missing rules or templates: only for its
      configuration path, its file, its version, an explicit rule without a
      match, or the special-regex rule failing before any evidence line. */
  lemma CatalogServiceErrors(o: Sve.Oracle, configs: Dict<string, string>, files: map<string, string>,
                             versions: Dict<string, string>, service: string, p: Sve.Progress)
    requires service == "ftp" || service == "ssh"
    ensures var r := Sve.RunService(o, Catalog, configs, files, versions, service, p);
      r.Err? ==>
        || r.error == Sve.NoConfigPath(service) || r.error.Unreadable?
        || r.error == Sve.NoVersion(service) || r.error.NoMatch?
        || (r.error.UnboundEvidence? && p.badLine.None?)
  {
    var ts := if service == "ftp" then TemplatesOf(FtpVulnTemplates) else TemplatesOf(SshVulnTemplates);
    var rules := if service == "ftp" then RulesOf(FtpEntries) else RulesOf(SshEntries);
    assert Get(Catalog.templates, service) == Some(ts);
    assert Get(Catalog.entries, service) == Some(rules);
    Sve.RunServiceStops(o, Catalog, configs, files, versions, service, p);
    var path := Get(configs, service);
    if path.Some? && path.value in files {
      CatalogRunErrors(o, path.value, files[path.value], Sve.Tally([], Sve.Stats(0, 0), p.testsPassed, p.badLine));
    }
  }

  /** The catalog's services are the audited services, in both tables. */
  lemma CatalogKeys()
    ensures Keys(Catalog.entries) == ServicesSve && Keys(Catalog.templates) == ServicesSve
  {
  }
}

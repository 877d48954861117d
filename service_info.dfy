/** The service catalog (sve/service_info.py): the audited services, their
    installed names and configuration files per distribution, the rule
    table of each service, and the vulnerable and normal template tables
    that prerequisites and default-rule evidence refer to. All of it is
    constant data; the lemmas below state the integrity the rest of the
    program relies on. */
module ServiceInfo {
  import opened Dicts
  import Words

  /** A regular expression written as its top-level alternatives. One
      alternative is the pattern itself; several are written as
      `(a1)|(a2)|...`, which is how the catalog spells them. */
  datatype Pattern = Pattern(alternatives: seq<string>)

  function Group(alts: seq<string>): string
  {
    if alts == [] then ""
    else if |alts| == 1 then "(" + alts[0] + ")"
    else "(" + alts[0] + ")|" + Group(alts[1..])
  }

  /** The pattern as the string handed to `re.compile`. */
  function Text(p: Pattern): string
  {
    if |p.alternatives| == 1 then p.alternatives[0] else Group(p.alternatives)
  }

  /** One rule: the value stored under the rule's name in
      `services_entries[service]`. */
  datatype Entry = Entry(
    description: string,
    kind: string,
    regex: Pattern,
    prereq: seq<string>,
    prereqType: seq<string>)

  // NAMES

  const ServicesSve: seq<string> := ["ftp", "ssh"]

  const ServicesActual: Dict<string, Dict<string, string>> :=
    [("Arch Linux", [("ftp", "vsftpd"), ("ssh", "sshd")])]

  // CONFIG FILES

  const ServicesConfigs: Dict<string, Dict<string, string>> :=
    [("Arch Linux", [("ftp", "/etc/vsftpd.conf"), ("ssh", "/etc/ssh/sshd_config")])]

  // ENTRIES

  const FtpEntries: Dict<string, Entry> := [
    ("anon ssl", Entry("anonymous users may connect using SSL connections",
      "explicit", Pattern(["^allow_anon_ssl=YES"]), ["anon enable"], ["vulnerable default"])),
    ("anon mkdir", Entry("anonymous users may create directories",
      "explicit", Pattern(["^anon_mkdir_write_enable=YES"]), ["anon enable"], ["vulnerable default"])),
    ("anon write", Entry("anonymous users may perform write operations (e.g., deletion, renaming, etc.)",
      "explicit", Pattern(["^anon_other_write_enable=YES"]), ["anon enable"], ["vulnerable default"])),
    ("anon upload", Entry("anonymous users may upload files",
      "explicit", Pattern(["^anon_upload_enable=YES"]), ["anon enable"], ["vulnerable default"])),
    ("anon world read", Entry("anonymous users may download files other than those that are world readable",
      "explicit", Pattern(["^anon_world_readable_only=NO"]), ["anon enable"], ["vulnerable default"])),
    ("anon enable", Entry("anonymous logins permitted",
      "default", Pattern(["^anonymous_enable=NO"]), [], [])),
    ("abor requests", Entry("async ABOR requests enabled",
      "explicit", Pattern(["^async_abor_enable=YES"]), [], [])),
    ("chroot local user", Entry("local users are chrooted in their home directory",
      "explicit", Pattern(["^chroot_local_user=YES"]), ["local enable"], ["normal default"])),
    ("local umask", Entry("insufficient umask for local user-created files",
      "special regex", Pattern(["^local_umask=0[0-6][0-6]"]), ["local enable"], ["normal default"])),
    ("ls recursive", Entry("recursive ls enabled (may consume a lot of resources)",
      "explicit", Pattern(["^ls_recurse_enable=YES"]), [], [])),
    ("log lock", Entry("vsftpd prevented from taking a file lock when writing to a file (this should generally not be enabled)",
      "explicit", Pattern(["^no_log_lock=YES"]), [], [])),
    ("one process model", Entry("using security model which only uses 1 process per connection",
      "explicit", Pattern(["^one_process_model=YES"]), [], [])),
    ("pasv promisc", Entry("disabled PASV security check (which ensures data connection originates from the same IP as the control connection)",
      "explicit", Pattern(["^pasv_promiscuous=YES"]), [], [])),
    ("port promisc", Entry("disabled PORT security check (ensures outgoing data connections can only connect to the client)",
      "explicit", Pattern(["^port_promiscuous=YES"]), [], [])),
    ("launching user", Entry("vsftpd runs as user which launched vsftpd (this should generally not be enabled)",
      "explicit", Pattern(["^run_as_launching_user=YES"]), [], [])),
    ("proctitle", Entry("vsftpd shows session status information in system process listing",
      "explicit", Pattern(["^setproctitle_enable=YES"]), [], [])),
    ("ssl enable", Entry("vsftpd can make no guarantees about the security of the OpenSSL libraries",
      "explicit", Pattern(["^ssl_enable=YES"]), [], [])),
    ("virtual privs", Entry("virtual users have local user privileges",
      "explicit", Pattern(["^virtual_use_local_privs=YES"]), [], [])),
    ("banner", Entry("banner shows version info",
      "default", Pattern(["^ftpd_banner=.*", "^banner_file=.*"]), [], []))
  ]

  const SshEntries: Dict<string, Entry> := [
    ("accept env", Entry("some environment variables copied into the session's environment can be used to bypass restricted user environments",
      "explicit", Pattern(["^AcceptEnv\\w*.*"]), [], [])),
    ("password auth", Entry("password authentication is allowed. Prefer key authentication",
      "default", Pattern(["^PasswordAuthentication\\w*no"]), [], [])),
    ("empty passwords", Entry("login to accounts with empty passwords allowed",
      "explicit", Pattern(["^PermitEmptyPasswords\\w*yes"]), ["password auth"], ["vulnerable default"])),
    ("root login", Entry("root login allowed",
      "default", Pattern(["^PermitRootLogin\\w*no"]), [], [])),
    ("root login no pass", Entry("password authentication disabled for root",
      "explicit", Pattern(["^PermitRootLogin\\w*without-password"]), ["root login"], ["vulnerable default"])),
    ("permit user env", Entry("environment processing may enable users to bypass access restrictions in some configurations using mechanisms like LD_PRELOAD",
      "explicit", Pattern(["^PermitUserEnvironment\\w*yes"]), [], [])),
    ("protocol 1", Entry("using protocol version 1",
      "explicit", Pattern(["^Protocol\\w*1"]), [], [])),
    ("pubkey auth", Entry("public key authentication disabled",
      "explicit", Pattern(["^PubkeyAuthentication\\w*no"]), ["protocol 2"], ["normal default"])),
    ("strict mode", Entry("checking file modes and ownership of users' files or home directory before accepting login disabled. This is desirable since novices sometimes leave their directory/files world-writable.",
      "explicit", Pattern(["^StrictModes\\w*no"]), [], [])),
    ("tcp keepalive", Entry("sessions may hang indefinitely, leaving \"ghost\" users and consuming server resources",
      "explicit", Pattern(["^TCPKeepAlive\\w*no"]), [], [])),
    ("use login", Entry("login(1) is used for interactive login sessions",
      "explicit", Pattern(["^UseLogin\\w*yes"]), [], [])),
    ("no privilege separation", Entry("privilege separation disabled",
      "explicit", Pattern(["^UsePrivilegeSeparation\\w*no"]), [], [])),
    ("x11 forwarding", Entry("the client's X11 display server may be exposed to attack when the SSH client requests forwarding",
      "explicit", Pattern(["^X11Forwarding\\w*yes"]), ["use login no"], ["vulnerable explicit"]))
  ]

  const ServicesEntries: Dict<string, Dict<string, Entry>> :=
    [("ftp", FtpEntries), ("ssh", SshEntries)]

  // TEMPLATES

  const FtpVulnTemplates: Dict<string, Pattern> := [
    ("anon enable", Pattern(["^anonymous_enable=YES", "^#+\\w*anonymous_enable=.*"])),
    ("banner", Pattern(["^#+\\w*ftpd_banner=.*", "^#+\\w*banner_file=.*"]))
  ]

  const SshVulnTemplates: Dict<string, Pattern> := [
    ("use login no", Pattern(["^UseLogin\\w*no", "^#+\\w*UseLogin\\w*no"])),
    ("root login", Pattern(["^PermitRootLogin\\w*yes", "^#*\\w*PermitRootLogin\\w*.*"])),
    ("password auth", Pattern(["^PasswordAuthentication\\w*yes", "^#*\\w*PasswordAuthentication\\w*.*"]))
  ]

  const ServicesVulnTemplates: Dict<string, Dict<string, Pattern>> :=
    [("ftp", FtpVulnTemplates), ("ssh", SshVulnTemplates)]

  const FtpNormTemplates: Dict<string, Pattern> := [
    ("local enable", Pattern(["^local_enable=YES", "^#+\\w*local_enable=.*"]))
  ]

  const SshNormTemplates: Dict<string, Pattern> := [
    ("protocol 2", Pattern(["^protocol\\w*(1,)?2(,1)?", "^#*\\w*protocol\\w*(1,)?2(,1)?"]))
  ]

  const ServicesNormTemplates: Dict<string, Dict<string, Pattern>> :=
    [("ftp", FtpNormTemplates), ("ssh", SshNormTemplates)]

  // INTEGRITY

  /** The three rule kinds the evaluator distinguishes. */
  const Kinds: set<string> := {"explicit", "default", "special regex"}

  /** A prerequisite type selects the vulnerable template table when it
      starts with "vulnerable", the normal table otherwise. */
  predicate IsVulnerableType(t: string)
  {
    Words.StartsWith(t, "vulnerable")
  }

  /** The table a prerequisite of the given type is looked up in. */
  function TableFor(t: string, vuln: Dict<string, Pattern>, norm: Dict<string, Pattern>): Dict<string, Pattern>
  {
    if IsVulnerableType(t) then vuln else norm
  }

  predicate KindsClosed(es: Dict<string, Entry>)
  {
    forall i :: 0 <= i < |es| ==> es[i].1.kind in Kinds
  }

  predicate PrereqListsParallel(es: Dict<string, Entry>)
  {
    forall i :: 0 <= i < |es| ==> |es[i].1.prereq| == |es[i].1.prereqType|
  }

  /** Every prerequisite of `e` names a template of the table its type selects. */
  predicate EntryPrereqsResolve(e: Entry, vuln: Dict<string, Pattern>, norm: Dict<string, Pattern>)
  {
    |e.prereq| == |e.prereqType| &&
    forall j :: 0 <= j < |e.prereq| ==> Get(TableFor(e.prereqType[j], vuln, norm), e.prereq[j]).Some?
  }

  predicate PrereqsResolve(es: Dict<string, Entry>, vuln: Dict<string, Pattern>, norm: Dict<string, Pattern>)
  {
    forall i :: 0 <= i < |es| ==> EntryPrereqsResolve(es[i].1, vuln, norm)
  }

  predicate DefaultsHaveTemplates(es: Dict<string, Entry>, vuln: Dict<string, Pattern>)
  {
    forall i :: 0 <= i < |es| && es[i].1.kind == "default" ==> Get(vuln, es[i].0).Some?
  }

  predicate AlternativesAnchored(p: Pattern)
  {
    forall a :: 0 <= a < |p.alternatives| ==>
      |p.alternatives[a]| > 0 && p.alternatives[a][0] == '^'
  }

  predicate RegexesAnchored(es: Dict<string, Entry>)
  {
    forall i :: 0 <= i < |es| ==> |es[i].1.regex.alternatives| > 0 && AlternativesAnchored(es[i].1.regex)
  }

  /** A prerequisite naming a rule of the same table names one that has no
      prerequisites of its own (with distinct names, the rule `Get` finds). */
  predicate EndsChain(es: Dict<string, Entry>, name: string)
  {
    forall k :: 0 <= k < |es| && es[k].0 == name ==> es[k].1.prereq == []
  }

  predicate PrereqDepthOne(es: Dict<string, Entry>)
  {
    forall i, j :: 0 <= i < |es| && 0 <= j < |es[i].1.prereq| ==> EndsChain(es, es[i].1.prereq[j])
  }

  // The facts below are stated separately so that each is checked on its own.

  lemma EntryNamesDistinct()
    ensures DistinctKeys(FtpEntries) && DistinctKeys(SshEntries)
    ensures DistinctKeys(FtpVulnTemplates) && DistinctKeys(SshVulnTemplates)
    ensures DistinctKeys(FtpNormTemplates) && DistinctKeys(SshNormTemplates)
  {
    FtpNamesDistinct();
    SshNamesDistinct();
  }

  lemma FtpNamesDistinct()
    ensures DistinctKeys(FtpEntries)
  {
  }

  lemma SshNamesDistinct()
    ensures DistinctKeys(SshEntries)
  {
  }

  lemma KindsAreClosed()
    ensures KindsClosed(FtpEntries) && KindsClosed(SshEntries)
  {
  }

  lemma PrereqListsAreParallel()
    ensures PrereqListsParallel(FtpEntries) && PrereqListsParallel(SshEntries)
  {
  }

  lemma FtpPrereqsResolve()
    ensures PrereqsResolve(FtpEntries, FtpVulnTemplates, FtpNormTemplates)
  {
    EntryNamesDistinct();
    var anon := Entry("", "", Pattern([]), ["anon enable"], ["vulnerable default"]);
    var local := Entry("", "", Pattern([]), ["local enable"], ["normal default"]);
    assert EntryPrereqsResolve(anon, FtpVulnTemplates, FtpNormTemplates) by {
      GetAt(FtpVulnTemplates, 0);
      assert IsVulnerableType("vulnerable default");
    }
    assert EntryPrereqsResolve(local, FtpVulnTemplates, FtpNormTemplates) by {
      GetAt(FtpNormTemplates, 0);
      assert "normal default"[0] != "vulnerable"[0];
    }
    forall i | 0 <= i < |FtpEntries| ensures EntryPrereqsResolve(FtpEntries[i].1, FtpVulnTemplates, FtpNormTemplates) {
      var e := FtpEntries[i].1;
      assert (e.prereq, e.prereqType) in [([], []), (anon.prereq, anon.prereqType), (local.prereq, local.prereqType)];
    }
  }

  lemma SshPrereqsResolve()
    ensures PrereqsResolve(SshEntries, SshVulnTemplates, SshNormTemplates)
  {
    EntryNamesDistinct();
    var password := Entry("", "", Pattern([]), ["password auth"], ["vulnerable default"]);
    var root := Entry("", "", Pattern([]), ["root login"], ["vulnerable default"]);
    var protocol := Entry("", "", Pattern([]), ["protocol 2"], ["normal default"]);
    var useLogin := Entry("", "", Pattern([]), ["use login no"], ["vulnerable explicit"]);
    assert IsVulnerableType("vulnerable default") && IsVulnerableType("vulnerable explicit");
    assert EntryPrereqsResolve(password, SshVulnTemplates, SshNormTemplates) by {
      GetAt(SshVulnTemplates, 2);
    }
    assert EntryPrereqsResolve(root, SshVulnTemplates, SshNormTemplates) by {
      GetAt(SshVulnTemplates, 1);
    }
    assert EntryPrereqsResolve(useLogin, SshVulnTemplates, SshNormTemplates) by {
      GetAt(SshVulnTemplates, 0);
    }
    assert EntryPrereqsResolve(protocol, SshVulnTemplates, SshNormTemplates) by {
      GetAt(SshNormTemplates, 0);
      assert "normal default"[0] != "vulnerable"[0];
    }
    forall i | 0 <= i < |SshEntries| ensures EntryPrereqsResolve(SshEntries[i].1, SshVulnTemplates, SshNormTemplates) {
      var e := SshEntries[i].1;
      assert (e.prereq, e.prereqType) in [([], []), (password.prereq, password.prereqType),
        (root.prereq, root.prereqType), (protocol.prereq, protocol.prereqType), (useLogin.prereq, useLogin.prereqType)];
    }
  }

  lemma DefaultRulesHaveTemplates()
    ensures DefaultsHaveTemplates(FtpEntries, FtpVulnTemplates)
    ensures DefaultsHaveTemplates(SshEntries, SshVulnTemplates)
  {
    EntryNamesDistinct();
    GetAt(FtpVulnTemplates, 0);
    GetAt(FtpVulnTemplates, 1);
    GetAt(SshVulnTemplates, 1);
    GetAt(SshVulnTemplates, 2);
    forall i | 0 <= i < |FtpEntries| && FtpEntries[i].1.kind == "default"
      ensures Get(FtpVulnTemplates, FtpEntries[i].0).Some?
    {
      assert i == 5 || i == 18;
    }
    forall i | 0 <= i < |SshEntries| && SshEntries[i].1.kind == "default"
      ensures Get(SshVulnTemplates, SshEntries[i].0).Some?
    {
      assert i == 1 || i == 3;
    }
  }

  lemma DetectionRegexesAnchored()
    ensures RegexesAnchored(FtpEntries) && RegexesAnchored(SshEntries)
  {
    FtpRegexesAnchored();
    SshRegexesAnchored();
  }

  lemma FtpRegexesAnchored()
    ensures RegexesAnchored(FtpEntries)
  {
  }

  lemma SshRegexesAnchored()
    ensures RegexesAnchored(SshEntries)
  {
  }

  lemma FtpPrereqChainsShallow()
    ensures PrereqDepthOne(FtpEntries)
  {
    assert EndsChain(FtpEntries, "anon enable") by {
      forall k | 0 <= k < |FtpEntries| && FtpEntries[k].0 == "anon enable"
        ensures FtpEntries[k].1.prereq == []
      {
        assert k == 5;
      }
    }
    assert EndsChain(FtpEntries, "local enable") by {
      forall k | 0 <= k < |FtpEntries| ensures FtpEntries[k].0 != "local enable" {}
    }
    forall i, j | 0 <= i < |FtpEntries| && 0 <= j < |FtpEntries[i].1.prereq|
      ensures EndsChain(FtpEntries, FtpEntries[i].1.prereq[j])
    {
      assert FtpEntries[i].1.prereq in [[], ["anon enable"], ["local enable"]];
    }
  }

  lemma SshPrereqChainsShallow()
    ensures PrereqDepthOne(SshEntries)
  {
    assert EndsChain(SshEntries, "password auth") by {
      forall k | 0 <= k < |SshEntries| && SshEntries[k].0 == "password auth"
        ensures SshEntries[k].1.prereq == []
      {
        assert k == 1;
      }
    }
    assert EndsChain(SshEntries, "root login") by {
      forall k | 0 <= k < |SshEntries| && SshEntries[k].0 == "root login"
        ensures SshEntries[k].1.prereq == []
      {
        assert k == 3;
      }
    }
    assert EndsChain(SshEntries, "protocol 2") && EndsChain(SshEntries, "use login no") by {
      forall k | 0 <= k < |SshEntries| ensures SshEntries[k].0 != "protocol 2" && SshEntries[k].0 != "use login no" {}
    }
    forall i, j | 0 <= i < |SshEntries| && 0 <= j < |SshEntries[i].1.prereq|
      ensures EndsChain(SshEntries, SshEntries[i].1.prereq[j])
    {
      assert SshEntries[i].1.prereq in [[], ["password auth"], ["root login"], ["protocol 2"], ["use login no"]];
    }
  }

  lemma ServiceKeysAgree()
    ensures Keys(ServicesEntries) == ServicesSve
    ensures Keys(ServicesVulnTemplates) == ServicesSve
    ensures Keys(ServicesNormTemplates) == ServicesSve
    ensures Get(ServicesActual, "Arch Linux").Some?
    ensures Keys(Get(ServicesActual, "Arch Linux").value) == ServicesSve
    ensures Get(ServicesConfigs, "Arch Linux").Some?
    ensures Keys(Get(ServicesConfigs, "Arch Linux").value) == ServicesSve
  {
  }
}

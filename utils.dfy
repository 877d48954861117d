/** Selection and filter helpers (sve/utils.py). The output of
    `systemctl list-unit-files` and of `systemctl status <service>` are
    parameters, and messages are returned instead of printed. */
module Utils {
  import opened Results
  import opened Dicts
  import Drawing
  import Numerals

  datatype UtilsError =
    | UnknownOs(distro: string)              // sys.exit('error: unknown OS: ...')
    | UnknownServices(names: set<string>)    // sys.exit('error: unknown service: ...')
    | MissingDistro(distro: string)          // KeyError from services_actual[distro]

  function ServiceSet(services: seq<string>): set<string>
  {
    set s | s in services
  }

  // CONFIGS AND VERSIONS

  /** `get_configs(distro, services)` over the table `services_configs`:
      an unknown distribution is an error; a request naming a service the
      distribution has no configuration for is an error naming every such
      service; otherwise the distribution's paths of the requested services,
      or all of them when nothing is requested. */
  function GetConfigs(table: Dict<string, Dict<string, string>>, distro: string, services: seq<string>)
    : (r: Result<Dict<string, string>, UtilsError>)
    ensures distro !in KeySet(table) ==> r == Err(UnknownOs(distro))
    ensures distro in KeySet(table) ==>
      var row := Get(table, distro).value;
      && (r.Err? <==> services != [] && !(ServiceSet(services) <= KeySet(row)))
      && (r.Err? ==> r.error == UnknownServices(ServiceSet(services) - KeySet(row)))
      && (r.Ok? ==> forall k :: Get(r.value, k) == if services == [] || k in services then Get(row, k) else None)
      && (r.Ok? && services != [] ==> KeySet(r.value) == ServiceSet(services))
      && (r.Ok? && services == [] ==> r.value == row)
      && (r.Ok? ==> Subsequence(r.value, row))
  {
    match Get(table, distro)
    case None => Err(UnknownOs(distro))
    case Some(row) =>
      if services != [] then
        var unknown := ServiceSet(services) - KeySet(row);
        if unknown != {} then Err(UnknownServices(unknown))
        else
          var r := Restrict(row, services);
          assert KeySet(r) == ServiceSet(services) by {
            forall k | k in ServiceSet(services) ensures k in KeySet(r) {
              assert k !in unknown;
              assert Get(r, k) == Get(row, k);
            }
            forall k | k in KeySet(r) ensures k in ServiceSet(services) {
              assert Get(r, k).Some?;
            }
          }
          Ok(r)
      else SubsequenceOfSelf(row); Ok(row)
  }

  /** The filter step of `get_versions`: only the requested services' versions
      are kept, in their order, or all of them when nothing is requested. */
  function FilterVersions(versions: Dict<string, string>, services: seq<string>): (r: Dict<string, string>)
    ensures forall k :: Get(r, k) == if services == [] || k in services then Get(versions, k) else None
    ensures forall p :: p in r ==> p in versions
    ensures services == [] ==> r == versions
    ensures Subsequence(r, versions)
  {
    if services != [] then Restrict(versions, services)
    else SubsequenceOfSelf(versions); versions
  }

  // EXISTING AND ACTIVE SERVICES

  /** `services and srv_e in services or not services`. */
  predicate Selected(name: string, services: seq<string>)
  {
    services == [] || name in services
  }

  predicate OccursAt(text: string, pattern: string, i: int)
  {
    0 <= i <= |text| - |pattern| && text[i..i + |pattern|] == pattern
  }

  /** Python's `pattern in text` on strings. */
  predicate Contains(text: string, pattern: string)
  {
    exists i | 0 <= i <= |text| - |pattern| :: OccursAt(text, pattern, i)
  }

  /** The installed names of the selected services whose unit file is listed,
      in table order. */
  function ExistingIn(row: Dict<string, string>, services: seq<string>, unitFiles: string): (r: seq<string>)
    ensures |r| <= |row|
    ensures forall x :: x in r <==>
      exists i :: 0 <= i < |row| && row[i].1 == x && Selected(row[i].0, services) && Contains(unitFiles, row[i].1 + ".service")
  {
    if row == [] then []
    else
      var rest := ExistingIn(row[1..], services, unitFiles);
      assert forall i :: 0 < i < |row| ==> row[i] == row[1..][i - 1];
      if Selected(row[0].0, services) && Contains(unitFiles, row[0].1 + ".service") then [row[0].1] + rest
      else rest
  }

  /** `get_existing(distro, services)`, with the output of
      `systemctl list-unit-files` as `unitFiles`. */
  method GetExisting(actual: Dict<string, Dict<string, string>>, distro: string, services: seq<string>, unitFiles: string)
    returns (r: Result<seq<string>, UtilsError>)
    ensures r.Err? <==> distro !in KeySet(actual)
    ensures r.Err? ==> r.error == MissingDistro(distro)
    ensures r.Ok? ==> r.value == ExistingIn(Get(actual, distro).value, services, unitFiles)
  {
    var row;
    match Get(actual, distro) {
      case None => return Err(MissingDistro(distro));
      case Some(rw) => row := rw;
    }
    var existing: seq<string> := [];
    var i := 0;
    while i < |row|
      invariant 0 <= i <= |row|
      invariant existing + ExistingIn(row[i..], services, unitFiles) == ExistingIn(row, services, unitFiles)
    {
      assert row[i..][0] == row[i] && row[i..][1..] == row[i + 1..];
      var (srvE, srvA) := row[i];
      if Selected(srvE, services) && Contains(unitFiles, srvA + ".service") {
        existing := existing + [srvA];
      }
      i := i + 1;
    }
    assert row[i..] == [];
    return Ok(existing);
  }

  /** `'g' if "Active: active" in status else 'r'`: green exactly when the
      status text mentions an active unit, red otherwise. */
  function StatusColor(status: string): (r: string)
    ensures r == "g" <==> exists i :: OccursAt(status, "Active: active", i)
    ensures r != "g" ==> r == "r"
  {
    if Contains(status, "Active: active") then "g" else "r"
  }

  /** The dictionary `get_active` builds, continued from `acc` over the rest
      of the table: each selected service's installed name is stored with the
      colour of its status text. */
  function ActiveFrom(row: Dict<string, string>, services: seq<string>, status: string -> string,
                      acc: Dict<string, string>): Dict<string, string>
    decreases |row|
  {
    if row == [] then acc
    else
      var acc' := if Selected(row[0].0, services) then Put(acc, row[0].1, StatusColor(status(row[0].1))) else acc;
      ActiveFrom(row[1..], services, status, acc')
  }

  /** Every selected service's installed name is green exactly when its
      status text contains "Active: active" and red otherwise; no other key
      is added or changed. */
  lemma {:induction false} ActiveColors(row: Dict<string, string>, services: seq<string>, status: string -> string,
                                        acc: Dict<string, string>, a: string)
    ensures Get(ActiveFrom(row, services, status, acc), a) ==
      if exists i :: 0 <= i < |row| && Selected(row[i].0, services) && row[i].1 == a
      then Some(StatusColor(status(a)))
      else Get(acc, a)
    decreases |row|
  {
    if row != [] {
      var acc' := if Selected(row[0].0, services) then Put(acc, row[0].1, StatusColor(status(row[0].1))) else acc;
      ActiveColors(row[1..], services, status, acc', a);
      if exists i :: 0 <= i < |row| && Selected(row[i].0, services) && row[i].1 == a {
        var i :| 0 <= i < |row| && Selected(row[i].0, services) && row[i].1 == a;
        if i > 0 {
          assert row[1..][i - 1] == row[i];
        }
      } else {
        forall i | 0 <= i < |row| - 1 ensures !(Selected(row[1..][i].0, services) && row[1..][i].1 == a) {
          assert row[1..][i] == row[i + 1];
        }
      }
    }
  }

  /** `get_active(distro, services)`, with `status(a)` the output of
      `systemctl status a`. */
  method GetActive(actual: Dict<string, Dict<string, string>>, distro: string, services: seq<string>,
                   status: string -> string) returns (r: Result<Dict<string, string>, UtilsError>)
    ensures r.Err? <==> distro !in KeySet(actual)
    ensures r.Err? ==> r.error == MissingDistro(distro)
    ensures r.Ok? ==> r.value == ActiveFrom(Get(actual, distro).value, services, status, [])
  {
    var row;
    match Get(actual, distro) {
      case None => return Err(MissingDistro(distro));
      case Some(rw) => row := rw;
    }
    var activeServices: Dict<string, string> := [];
    var i := 0;
    assert row[i..] == row;
    while i < |row|
      invariant 0 <= i <= |row|
      invariant ActiveFrom(row[i..], services, status, activeServices) == ActiveFrom(row, services, status, [])
    {
      assert row[i..][0] == row[i] && row[i..][1..] == row[i + 1..];
      var (srvE, srvA) := row[i];
      if Selected(srvE, services) {
        activeServices := Put(activeServices, srvA, StatusColor(status(srvA)));
      }
      i := i + 1;
    }
    return Ok(activeServices);
  }

  // LONGEST NAMES

  /** `get_longest_version(versions)`: the length of the longest service name
      and of the longest version string, 0 when there are none. */
  method GetLongestVersion(versions: Dict<string, string>) returns (srvLongest: nat, verLongest: nat)
    ensures forall i :: 0 <= i < |versions| ==> |versions[i].0| <= srvLongest && |versions[i].1| <= verLongest
    ensures srvLongest == 0 || exists i :: 0 <= i < |versions| && |versions[i].0| == srvLongest
    ensures verLongest == 0 || exists i :: 0 <= i < |versions| && |versions[i].1| == verLongest
  {
    srvLongest, verLongest := 0, 0;
    var i := 0;
    while i < |versions|
      invariant 0 <= i <= |versions|
      invariant forall j :: 0 <= j < i ==> |versions[j].0| <= srvLongest && |versions[j].1| <= verLongest
      invariant srvLongest == 0 || exists j :: 0 <= j < i && |versions[j].0| == srvLongest
      invariant verLongest == 0 || exists j :: 0 <= j < i && |versions[j].1| == verLongest
    {
      var (service, version) := versions[i];
      srvLongest := if |service| > srvLongest then |service| else srvLongest;
      verLongest := if |version| > verLongest then |version| else verLongest;
      i := i + 1;
    }
  }

  // COLLECTION COUNT

  /** The count line of `show_service_info`: "collected 0 items" followed by
      the yellow "no tests performed" header, "collected 1 item", or
      "collected N items" with the count in decimal. */
  function CollectedMessage(existing: seq<string>, termWidth: int): (r: Result<string, Drawing.DrawError>)
    ensures |existing| != 0 ==> r.Ok?
    ensures |existing| == 0 ==> (r.Ok? <==> termWidth >= |"no tests performed"|)
    ensures r.Ok? && |existing| == 0 ==>
      && 19 <= |r.value|
      && r.value[..19] == "collected 0 items\n\n"
      && Drawing.Uncolor(r.value[19..]) == Some(("y", Drawing.HeaderLine("no tests performed", "=", termWidth).value))
    ensures r.Ok? && |existing| >= 2 ==>
      && 17 <= |r.value|
      && r.value[..10] == "collected " && r.value[|r.value| - 7..] == " items\n"
      && (forall i :: 10 <= i < |r.value| - 7 ==> Numerals.IsDigit(r.value[i]))
      && Numerals.DigitsValue(r.value[10..|r.value| - 7]) == |existing|
      && r.value[10] != '0'
    ensures |existing| == 1 ==> r == Ok("collected 1 item\n")
  {
    if |existing| == 0 then
      var h :- Drawing.Header("no tests performed", "y", "=", termWidth);
      Ok("collected 0 items\n\n" + h)
    else if |existing| == 1 then Ok("collected 1 item\n")
    else
      var digits := Numerals.NatToString(|existing|);
      Numerals.NatToStringValue(|existing|);
      var s := "collected " + digits + " items\n";
      assert s[10..|s| - 7] == digits;
      assert s[10] == digits[0];
      Ok(s)
  }
}

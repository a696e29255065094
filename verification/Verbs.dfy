/** The verb table: the single declaration of what the console accepts. */
module Verbs {
  import opened Basics
  import opened ConsoleText

  datatype Privilege = Any | Administrator

  datatype FlagSpec = FlagSpec(name: string, takesValue: bool)

  datatype VerbSpec = VerbSpec(name: string, flags: seq<FlagSpec>, privilege: Privilege,
                               subverbs: seq<VerbSpec>)

  const START_MODE := FlagSpec("start-mode", true)
  const PURGE := FlagSpec("purge", false)
  const PURGE_AUDIT := FlagSpec("purge-audit", false)
  const CONFIRM := FlagSpec("confirm", false)
  const STOP_SERVICE := FlagSpec("stop-service", false)
  const TAIL := FlagSpec("tail", true)
  const ELEVATE := FlagSpec("elevate", false)

  const DOCTOR := VerbSpec("doctor", [], Any, [])
  const LOGS := VerbSpec("logs", [TAIL], Any, [])
  const EXPORT := VerbSpec("export", [], Any, [])

  const INSTALL := VerbSpec("install", [START_MODE, ELEVATE], Administrator, [])
  const UNINSTALL := VerbSpec("uninstall", [PURGE, PURGE_AUDIT, ELEVATE], Administrator, [])
  const START := VerbSpec("start", [ELEVATE], Administrator, [])
  const STOP := VerbSpec("stop", [ELEVATE], Administrator, [])
  const RESTART := VerbSpec("restart", [ELEVATE], Administrator, [])
  const REINSTALL := VerbSpec("reinstall", [ELEVATE], Administrator, [])
  const STATUS := VerbSpec("status", [], Any, [])
  const DIAG := VerbSpec("diag", [], Any, [DOCTOR, LOGS, EXPORT])
  const RESET_NETWORK := VerbSpec("reset-network", [CONFIRM, STOP_SERVICE, ELEVATE], Administrator, [])
  const VERSION := VerbSpec("version", [], Any, [])
  const HELP := VerbSpec("help", [], Any, [])

  const VERBS: seq<VerbSpec> :=
    [INSTALL, UNINSTALL, START, STOP, RESTART, REINSTALL, STATUS, DIAG, RESET_NETWORK, VERSION, HELP]

  /** The first spec of that name. */
  function FindIn(specs: seq<VerbSpec>, name: string): (r: Option<VerbSpec>)
    ensures r.Some? ==> r.value in specs && r.value.name == name
    ensures r.None? <==> forall i :: 0 <= i < |specs| ==> specs[i].name != name
  {
    if specs == [] then None
    else if specs[0].name == name then Some(specs[0])
    else FindIn(specs[1..], name)
  }

  function Find(name: string): Option<VerbSpec> { FindIn(VERBS, name) }

  function FindFlag(flags: seq<FlagSpec>, name: string): (r: Option<FlagSpec>)
    ensures r.Some? ==> r.value in flags && r.value.name == name
    ensures r.None? <==> forall i :: 0 <= i < |flags| ==> flags[i].name != name
  {
    if flags == [] then None
    else if flags[0].name == name then Some(flags[0])
    else FindFlag(flags[1..], name)
  }

  predicate UniqueNames(specs: seq<VerbSpec>) {
    forall i, j :: 0 <= i < j < |specs| ==> specs[i].name != specs[j].name
  }

  lemma FindUnique(specs: seq<VerbSpec>, k: nat)
    requires UniqueNames(specs) && k < |specs|
    ensures FindIn(specs, specs[k].name) == Some(specs[k])
  {
    var r := FindIn(specs, specs[k].name);
    assert specs[k].name == specs[k].name;
  }

  lemma VerbNamesAreUnique()
    ensures UniqueNames(VERBS) && UniqueNames(DIAG.subverbs)
  {
  }

  /** Exactly the verbs that need administrator rights take `--elevate`, groups take no flag,
      and subverbs do not nest. */
  lemma ElevationIsOfferedWhereNeeded(v: VerbSpec)
    requires v in VERBS || v in DIAG.subverbs
    ensures ELEVATE in v.flags <==> v.privilege == Administrator
    ensures v.subverbs != [] ==> v == DIAG && v.flags == []
  {
  }
}

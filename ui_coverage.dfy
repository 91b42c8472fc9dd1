/**
 * The UI-coverage pytest plugin (fixtures/ui_coverage.py): which runner role cleans the
 * local output, publishes the collection appliance, installs the coverage hook, collects
 * the reports and retrieves them, and what `CoverageManager` runs on the appliances to do
 * it. Remote commands, file copies and terminal messages are recorded as effects in a
 * trace; the outcomes of remote commands are inputs.
 */
module UiCoverage {
  import opened Wrappers
  import opened Seqs

  /** `store.parallelizer_role`: the master of a parallel run, one of its slaves, or a run
      without parallelizer. */
  datatype Role = Master | Slave | Standalone

  /** An appliance, known by its hostname. `predates58` is `version < '5.8'`; `upstream` is
      an appliance whose version `version.pick` reads as `LATEST`. */
  datatype Appliance = Appliance(hostname: string, predates58: bool, upstream: bool)

  /** What runs on an appliance over SSH, or is copied to or from it. */
  datatype Command =
    | PutGemfile          // the coverage gem file into bundler.d
    | GemInstall          // `gem install ... simplecov`
    | YumInstallGit       // `yum -y install git`
    | BundleInstall       // `bundle` in the rails root
    | RemoveCoverageRoot  // `rm -rf` of the appliance coverage directory
    | PutCoverageHook     // the coverage hook into config/
    | CheckPatchMarker    // `[ -e lib/code_coverage.rb ]`
    | PutPatch            // the manageiq-17302 patch into the rails root
    | QueryPatchRpm       // `rpm -q patch`
    | PutYumRepo          // the local yum repository file
    | YumInstallPatch     // `yum install -y patch`
    | RemoveYumRepo       // `rm` of the yum repository file
    | ApplyPatch          // `patch -p1 < manageiq-17302.patch`
    | RestartEvm          // `restart_evm_service()`
    | WaitForWebUi        // `wait_for_web_ui()`
    | StopEvm             // `systemctl stop evmserverd`
    | SendReports(to: string)  // `scp` of the coverage directory to another appliance
    | ArchiveReports      // `tar czf /tmp/ui-coverage-raw.tgz coverage/`
    | FetchArchive        // `get_file` of that archive into the local output directory

  /** One observable step of the plugin. */
  datatype Effect =
    | CleanOutputDir                     // `clean_coverage_dir()`
    | RemoveCoverageConf                 // removal of the local `.ui-coverage` conf file
    | SaveCollectionAppliance(address: string)  // the runtime conf entry, then `conf.save`
    | WriteYumRepoFile                   // the local `yum.local.repo` file
    | Message(text: string)              // `print_message`
    | Run(host: string, command: Command)

  /** What a hook raises. */
  datatype Raised = ApplianceVersionException | KeyError

  /** The outcomes of remote commands that the plugin looks at. */
  datatype Outcomes = Outcomes(
    patchToolInstalled: bool,  // `rpm -q patch` succeeds
    patchApplies: bool,        // `patch -p1` succeeds
    sendSucceeds: bool,        // the `scp` result is truthy
    retrievalRaises: bool)     // fetching the archive raises

  const Installing := "installing"
  const Collecting := "collecting reports"
  const Merging := "merging reports"
  const SendError := "There was an error sending reports"
  const MergeFailed := "merging reports failed, error has been logged"

  // ---------------------------------------------------------------------------------
  // What each step does, as a function of the state it starts from

  /** `collection_appliance`: a slave reads the address the master published (a missing
      entry is a KeyError); any other role collects on its own appliance. */
  function CollectionAppliance(role: Role, current: Appliance, entry: Option<string>): (r: Option<string>)
    ensures role == Slave ==> r == entry
    ensures role != Slave ==> r == Some(current.hostname)
  {
    if role == Slave then entry else Some(current.hostname)
  }

  /** `pytest_configure`. */
  function ConfigureEffects(role: Role, confFile: bool): seq<Effect>
  {
    (if role != Slave then [CleanOutputDir] else []) + (if confFile then [RemoveCoverageConf] else [])
  }

  /** `_install_simplecov`: the gem file, then the install `version.pick` chooses. */
  function SimplecovEffects(app: Appliance): seq<Effect>
  {
    var h := app.hostname;
    [Run(h, PutGemfile)] + if app.upstream then [Run(h, YumInstallGit), Run(h, BundleInstall)] else [Run(h, GemInstall)]
  }

  /** The steps of `_install_coverage_hook` before the marker check. */
  function HookPrefix(h: string): seq<Effect>
  {
    [Run(h, RemoveCoverageRoot), Run(h, PutCoverageHook), Run(h, CheckPatchMarker)]
  }

  /** `_install_coverage_hook` on an appliance that has the marker file (`marked`) or not. */
  function HookEffects(h: string, marked: bool, o: Outcomes): seq<Effect>
  {
    HookPrefix(h) + if marked then [] else PatchEffects(h, o)
  }

  /** Patching an appliance without the marker file: upload and query, install the patch
      tool from a yum repository when it is missing, then apply the patch. */
  function PatchEffects(h: string, o: Outcomes): seq<Effect>
  {
    [Run(h, PutPatch), Run(h, QueryPatchRpm)]
    + (if o.patchToolInstalled then [] else PatchToolEffects(h))
    + [Run(h, ApplyPatch)]
  }

  function PatchToolEffects(h: string): seq<Effect>
  {
    [WriteYumRepoFile, Run(h, PutYumRepo), Run(h, YumInstallPatch), Run(h, RemoveYumRepo)]
  }

  /** `install()`: message, simplecov, hook, restart, wait for the UI. */
  function InstallEffects(app: Appliance, marked: bool, o: Outcomes): seq<Effect>
  {
    [Message(Installing)] + SimplecovEffects(app) + HookEffects(app.hostname, marked, o)
    + [Run(app.hostname, RestartEvm), Run(app.hostname, WaitForWebUi)]
  }

  /** `_collect_reports`: stop the server, then ship the reports when the collection
      appliance is another one. */
  function CollectReportsEffects(current: Appliance, target: Option<string>, o: Outcomes): seq<Effect>
  {
    var h := current.hostname;
    [Run(h, StopEvm)] +
    match target
    case None => []
    case Some(t) =>
      if h == t then []
      else [Message("sending reports to " + t), Run(h, SendReports(t))] + if o.sendSucceeds then [] else [Message(SendError)]
  }

  /** `collect()`; with no collection appliance it stops at the KeyError. */
  function CollectEffects(current: Appliance, target: Option<string>, o: Outcomes): seq<Effect>
  {
    [Message(Collecting)] + CollectReportsEffects(current, target, o)
    + if target.Some? then [Run(current.hostname, RestartEvm)] else []
  }

  /** `merge()`: archive and fetch the raw reports from the collection appliance; any
      exception becomes a message. */
  function MergeEffects(target: Option<string>, o: Outcomes): seq<Effect>
  {
    [Message(Merging)] +
    match target
    case None => [Message(MergeFailed)]
    case Some(t) => [Run(t, ArchiveReports), Run(t, FetchArchive)] + if o.retrievalRaises then [Message(MergeFailed)] else []
  }

  // ---------------------------------------------------------------------------------
  // The process-wide state

  /** The session store, the conf and the file systems as the plugin sees them in one
      process. */
  class Store {
    /** `store.parallelizer_role`. */
    const role: Role
    /** `store.current_appliance`. */
    const current: Appliance
    /** `conf['.ui-coverage']['collection_appliance']` (in a slave, as the master
        published it). */
    var entry: Option<string>
    /** The local `.ui-coverage` conf file exists. */
    var confFile: bool
    /** The appliances that have `lib/code_coverage.rb`, the patch's marker file. */
    var marked: set<string>
    /** What the plugin has done so far. */
    var trace: seq<Effect>

    constructor(role: Role, current: Appliance, entry: Option<string>, confFile: bool, marked: set<string>)
      ensures this.role == role && this.current == current && this.entry == entry
      ensures this.confFile == confFile && this.marked == marked && trace == []
    {
      this.role := role;
      this.current := current;
      this.entry := entry;
      this.confFile := confFile;
      this.marked := marked;
      trace := [];
    }
  }

  class CoverageManager {
    const store: Store
    /** `self.ipapp`: the appliance the manager installs on and collects from. */
    const ipapp: Appliance

    /** `__init__` past its version guard; `Manager` raises before it for older
        appliances. */
    constructor(store: Store, ipapp: Appliance)
      requires !ipapp.predates58
      ensures this.store == store && this.ipapp == ipapp
    {
      this.store := store;
      this.ipapp := ipapp;
    }

    method PrintMessage(text: string)
      modifies store`trace
      ensures store.trace == old(store.trace) + [Message(text)]
    {
      store.trace := store.trace + [Message(text)];
    }

    method Run(command: Command)
      modifies store`trace
      ensures store.trace == old(store.trace) + [Effect.Run(ipapp.hostname, command)]
    {
      store.trace := store.trace + [Effect.Run(ipapp.hostname, command)];
    }

    method InstallSimplecov()
      modifies store`trace
      ensures store.trace == old(store.trace) + SimplecovEffects(ipapp)
    {
      Run(PutGemfile);
      if ipapp.upstream {
        Run(YumInstallGit);
        Run(BundleInstall);
      } else {
        Run(GemInstall);
      }
    }

    /** Installing the patch tool from a local yum repository. */
    method InstallPatchTool()
      modifies store`trace
      ensures store.trace == old(store.trace) + PatchToolEffects(ipapp.hostname)
    {
      store.trace := store.trace + [WriteYumRepoFile];
      Run(PutYumRepo);
      Run(YumInstallPatch);
      Run(RemoveYumRepo);
    }

    /** `_install_coverage_hook`: true without patching when the marker file is there,
        otherwise the patch command's success, which leaves the marker file behind. */
    method InstallCoverageHook(o: Outcomes) returns (ok: bool)
      modifies store`trace, store`marked
      ensures store.trace == old(store.trace) + HookEffects(ipapp.hostname, ipapp.hostname in old(store.marked), o)
      ensures ok <==> ipapp.hostname in old(store.marked) || o.patchApplies
      ensures store.marked == if ok then old(store.marked) + {ipapp.hostname} else old(store.marked)
    {
      var h := ipapp.hostname;
      ghost var t0 := store.trace;
      Run(RemoveCoverageRoot);
      Run(PutCoverageHook);
      Run(CheckPatchMarker);
      assert store.trace == t0 + HookPrefix(h);
      if h in store.marked {
        assert HookPrefix(h) + [] == HookPrefix(h);
        return true;
      }
      ok := PatchAppliance(o);
      AppendAssoc(t0, HookPrefix(h), PatchEffects(h, o));
    }

    /** The part of `_install_coverage_hook` after a missing marker file: the patch is
        uploaded and applied, and the marker file is left only when it applies. */
    method PatchAppliance(o: Outcomes) returns (ok: bool)
      modifies store`trace, store`marked
      ensures store.trace == old(store.trace) + PatchEffects(ipapp.hostname, o)
      ensures ok == o.patchApplies
      ensures store.marked == if ok then old(store.marked) + {ipapp.hostname} else old(store.marked)
    {
      var h := ipapp.hostname;
      ghost var t0 := store.trace;
      Run(PutPatch);
      Run(QueryPatchRpm);
      ghost var t1 := store.trace;
      assert t1 == t0 + [Effect.Run(h, PutPatch), Effect.Run(h, QueryPatchRpm)];
      ghost var tool := if o.patchToolInstalled then [] else PatchToolEffects(h);
      if !o.patchToolInstalled {
        InstallPatchTool();
      }
      assert store.trace == t1 + tool;
      Run(ApplyPatch);
      AppendChain(t0, [Effect.Run(h, PutPatch), Effect.Run(h, QueryPatchRpm)], tool, [Effect.Run(h, ApplyPatch)]);
      if o.patchApplies {
        store.marked := store.marked + {h};
      }
      return o.patchApplies;
    }

    /** `install()`; the hook's success is not looked at. */
    method Install(o: Outcomes)
      modifies store`trace, store`marked
      ensures store.trace == old(store.trace) + InstallEffects(ipapp, ipapp.hostname in old(store.marked), o)
      ensures store.marked == if ipapp.hostname in old(store.marked) || o.patchApplies
                              then old(store.marked) + {ipapp.hostname} else old(store.marked)
    {
      ghost var t0 := store.trace;
      PrintMessage(Installing);
      InstallSimplecov();
      ghost var t1 := store.trace;
      AppendAssoc(t0, [Message(Installing)], SimplecovEffects(ipapp));
      var _ := InstallCoverageHook(o);
      ghost var hook := HookEffects(ipapp.hostname, ipapp.hostname in old(store.marked), o);
      Run(RestartEvm);
      Run(WaitForWebUi);
      ghost var tail := [Effect.Run(ipapp.hostname, RestartEvm), Effect.Run(ipapp.hostname, WaitForWebUi)];
      assert store.trace == t1 + hook + tail;
      AppendChain(t0, [Message(Installing)] + SimplecovEffects(ipapp), hook, tail);
    }

    /** `_collect_reports`. */
    method CollectReports(o: Outcomes) returns (raised: Option<Raised>)
      requires ipapp == store.current
      modifies store`trace
      ensures var target := CollectionAppliance(store.role, store.current, store.entry);
              && store.trace == old(store.trace) + CollectReportsEffects(store.current, target, o)
              && (raised.Some? <==> target.None?)
              && (raised.Some? ==> raised.value == KeyError)
    {
      Run(StopEvm);
      var target := CollectionAppliance(store.role, store.current, store.entry);
      if target.None? {
        return Some(KeyError);
      }
      if store.current.hostname != target.value {
        PrintMessage("sending reports to " + target.value);
        Run(SendReports(target.value));
        if !o.sendSucceeds {
          PrintMessage(SendError);
        }
      }
      return None;
    }

    /** `collect()`. */
    method Collect(o: Outcomes) returns (raised: Option<Raised>)
      requires ipapp == store.current
      modifies store`trace
      ensures var target := CollectionAppliance(store.role, store.current, store.entry);
              && store.trace == old(store.trace) + CollectEffects(store.current, target, o)
              && (raised.Some? <==> target.None?)
              && (raised.Some? ==> raised.value == KeyError)
    {
      PrintMessage(Collecting);
      raised := CollectReports(o);
      if raised.None? {
        Run(RestartEvm);
      }
    }

    /** `merge()`: it raises nothing, whatever retrieving the reports raises. */
    method Merge(o: Outcomes)
      modifies store`trace
      ensures store.trace == old(store.trace) + MergeEffects(CollectionAppliance(store.role, store.current, store.entry), o)
    {
      PrintMessage(Merging);
      var target := CollectionAppliance(store.role, store.current, store.entry);
      if target.None? {
        PrintMessage(MergeFailed);
        return;
      }
      store.trace := store.trace + [Effect.Run(target.value, ArchiveReports), Effect.Run(target.value, FetchArchive)];
      if o.retrievalRaises {
        PrintMessage(MergeFailed);
      }
    }
  }

  /** `manager()`: the current appliance's coverage manager, or the version guard's
      exception. */
  method Manager(store: Store) returns (r: Result<CoverageManager, Raised>)
    ensures r.Failure? <==> store.current.predates58
    ensures r.Failure? ==> r.error == ApplianceVersionException
    ensures r.Success? ==> r.value.store == store && r.value.ipapp == store.current
  {
    if store.current.predates58 {
      return Failure(ApplianceVersionException);
    }
    var m := new CoverageManager(store, store.current);
    return Success(m);
  }

  // ---------------------------------------------------------------------------------
  // The hooks of UiCoveragePlugin

  /** `pytest_configure`. */
  method PytestConfigure(store: Store)
    modifies store`trace, store`confFile
    ensures store.trace == old(store.trace) + ConfigureEffects(store.role, old(store.confFile))
    ensures !store.confFile
  {
    if store.role != Slave {
      store.trace := store.trace + [CleanOutputDir];
    }
    if store.confFile {
      store.trace := store.trace + [RemoveCoverageConf];
      store.confFile := false;
    }
  }

  /** `pytest_sessionstart`: the master publishes its own appliance as the collection
      appliance. */
  method PytestSessionstart(store: Store) returns (raised: Option<Raised>)
    modifies store`trace, store`entry, store`confFile
    ensures store.role != Master ==>
              raised == None && store.trace == old(store.trace)
              && store.entry == old(store.entry) && store.confFile == old(store.confFile)
    ensures store.role == Master && store.current.predates58 ==>
              raised == Some(ApplianceVersionException) && store.trace == old(store.trace)
              && store.entry == old(store.entry) && store.confFile == old(store.confFile)
    ensures store.role == Master && !store.current.predates58 ==>
              raised == None && store.trace == old(store.trace) + [SaveCollectionAppliance(store.current.hostname)]
              && store.entry == Some(store.current.hostname) && store.confFile
  {
    if store.role != Master {
      return None;
    }
    var m := Manager(store);
    if m.Failure? {
      return Some(m.error);
    }
    var address := CollectionAppliance(store.role, store.current, store.entry);
    store.entry := address;
    store.confFile := true;
    store.trace := store.trace + [SaveCollectionAppliance(address.value)];
    return None;
  }

  /** `pytest_collection_finish`, after collection: every role but the master installs. */
  method PytestCollectionFinish(store: Store, o: Outcomes) returns (raised: Option<Raised>)
    modifies store`trace, store`marked
    ensures store.role == Master ==> raised == None && store.trace == old(store.trace) && store.marked == old(store.marked)
    ensures store.role != Master && store.current.predates58 ==>
              raised == Some(ApplianceVersionException) && store.trace == old(store.trace) && store.marked == old(store.marked)
    ensures store.role != Master && !store.current.predates58 ==>
              raised == None
              && store.trace == old(store.trace) + InstallEffects(store.current, store.current.hostname in old(store.marked), o)
              && store.marked == if store.current.hostname in old(store.marked) || o.patchApplies
                                 then old(store.marked) + {store.current.hostname} else old(store.marked)
  {
    if store.role == Master {
      return None;
    }
    var m := Manager(store);
    if m.Failure? {
      return Some(m.error);
    }
    m.value.Install(o);
    return None;
  }

  /** `pytest_sessionfinish`. */
  method PytestSessionfinish(store: Store, o: Outcomes) returns (raised: Option<Raised>)
    modifies store`trace
    ensures store.trace == old(store.trace) + SessionfinishEffects(store.role, store.current, store.entry, o)
    ensures raised == SessionfinishRaised(store.role, store.current, store.entry)
  {
    if store.role != Master {
      var m := Manager(store);
      if m.Failure? {
        return Some(m.error);
      }
      raised := m.value.Collect(o);
      if raised.Some? {
        return;
      }
    }
    if store.role == Slave {
      return None;
    }
    var m := Manager(store);
    if m.Failure? {
      return Some(m.error);
    }
    m.value.Merge(o);
    return None;
  }

  /** What `pytest_sessionfinish` does: collect unless master, then merge unless slave. */
  function SessionfinishEffects(role: Role, current: Appliance, entry: Option<string>, o: Outcomes): seq<Effect>
  {
    if current.predates58 then []
    else
      var target := CollectionAppliance(role, current, entry);
      if role == Master then MergeEffects(target, o)
      else if role == Slave then CollectEffects(current, target, o)
      else CollectEffects(current, target, o) + MergeEffects(target, o)
  }

  function SessionfinishRaised(role: Role, current: Appliance, entry: Option<string>): Option<Raised>
  {
    if current.predates58 then Some(ApplianceVersionException)
    else if role != Master && CollectionAppliance(role, current, entry).None? then Some(KeyError)
    else None
  }

  // ---------------------------------------------------------------------------------
  // What the roles do

  /** The phases of the protocol, as their opening messages announce them. */
  datatype Phase = Install | Collect | Merge

  function PhaseOf(e: Effect): Option<Phase>
  {
    if e == Message(Installing) then Some(Install)
    else if e == Message(Collecting) then Some(Collect)
    else if e == Message(Merging) then Some(Merge)
    else None
  }

  /** The phases a trace goes through, in order. */
  function Phases(t: seq<Effect>): seq<Phase>
  {
    if |t| == 0 then []
    else Phases(t[..|t| - 1]) + match PhaseOf(t[|t| - 1]) case None => [] case Some(p) => [p]
  }

  lemma {:induction false} PhasesAppend(a: seq<Effect>, b: seq<Effect>)
    ensures Phases(a + b) == Phases(a) + Phases(b)
    decreases |b|
  {
    if |b| == 0 {
      assert a + b == a;
    } else {
      var init := b[..|b| - 1];
      PhasesAppend(a, init);
      assert (a + b)[..|a + b| - 1] == a + init;
      assert (a + b)[|a + b| - 1] == b[|b| - 1];
    }
  }

  /** A trace without phase messages. */
  predicate NoPhase(t: seq<Effect>)
  {
    forall i :: 0 <= i < |t| ==> PhaseOf(t[i]).None?
  }

  lemma {:induction false} NoPhaseHasNoPhases(t: seq<Effect>)
    requires NoPhase(t)
    ensures Phases(t) == []
  {
    if |t| > 0 {
      NoPhaseHasNoPhases(t[..|t| - 1]);
    }
  }

  lemma OnePhase(e: Effect, p: Phase)
    requires PhaseOf(e) == Some(p)
    ensures Phases([e]) == [p]
  {
    assert [e][..0] == [];
  }

  /** A message naming the appliance reports go to is not a phase message. */
  lemma SendingIsNoPhase(t: string)
    ensures PhaseOf(Message("sending reports to " + t)).None?
  {
    var m := "sending reports to " + t;
    assert m[0] == 's';
    assert Installing[0] == 'i' && Collecting[0] == 'c' && Merging[0] == 'm';
  }

  lemma CollectReportsNoPhase(current: Appliance, target: Option<string>, o: Outcomes)
    ensures NoPhase(CollectReportsEffects(current, target, o))
  {
    if target.Some? && target.value != current.hostname {
      SendingIsNoPhase(target.value);
    }
  }

  /** `collect()` and `merge()` each announce exactly their own phase. */
  lemma CollectPhases(current: Appliance, target: Option<string>, o: Outcomes)
    ensures Phases(CollectEffects(current, target, o)) == [Collect]
  {
    var rest := CollectReportsEffects(current, target, o);
    var tail: seq<Effect> := if target.Some? then [Run(current.hostname, RestartEvm)] else [];
    CollectReportsNoPhase(current, target, o);
    NoPhaseHasNoPhases(rest);
    NoPhaseHasNoPhases(tail);
    OnePhase(Message(Collecting), Collect);
    PhasesAppend([Message(Collecting)], rest);
    PhasesAppend([Message(Collecting)] + rest, tail);
  }

  lemma MergePhases(target: Option<string>, o: Outcomes)
    ensures Phases(MergeEffects(target, o)) == [Merge]
  {
    var rest := MergeEffects(target, o)[1..];
    assert MergeEffects(target, o) == [Message(Merging)] + rest;
    assert NoPhase(rest);
    NoPhaseHasNoPhases(rest);
    OnePhase(Message(Merging), Merge);
    PhasesAppend([Message(Merging)], rest);
  }

  /** `pytest_sessionfinish` by role: a slave only collects, a master only merges, and a
      run without parallelizer collects and then merges. */
  lemma {:induction false} SessionfinishByRole(role: Role, current: Appliance, entry: Option<string>, o: Outcomes)
    requires !current.predates58
    ensures Phases(SessionfinishEffects(role, current, entry, o)) ==
            match role
            case Master => [Merge]
            case Slave => [Collect]
            case Standalone => [Collect, Merge]
  {
    var target := CollectionAppliance(role, current, entry);
    match role
    case Master => MergePhases(target, o);
    case Slave => CollectPhases(current, target, o);
    case Standalone =>
      CollectPhases(current, target, o);
      MergePhases(target, o);
      PhasesAppend(CollectEffects(current, target, o), MergeEffects(target, o));
  }

  /** `pytest_configure`: everyone but a slave cleans the output directory, and every role
      removes a leftover conf file. */
  lemma ConfigureByRole(role: Role, confFile: bool)
    ensures CleanOutputDir in ConfigureEffects(role, confFile) <==> role != Slave
    ensures RemoveCoverageConf in ConfigureEffects(role, confFile) <==> confFile
  {
  }

  /** `a` happens before `b` in the trace. */
  predicate Before(t: seq<Effect>, a: Effect, b: Effect)
  {
    exists i, j :: 0 <= i < j < |t| && t[i] == a && t[j] == b
  }

  /** `install()` copies the gem file, then the hook, then restarts the server and waits
      for the UI, in that order. */
  lemma InstallOrder(app: Appliance, marked: bool, o: Outcomes)
    ensures var t := InstallEffects(app, marked, o);
            var h := app.hostname;
            && t[0] == Message(Installing)
            && Before(t, Run(h, PutGemfile), Run(h, PutCoverageHook))
            && Before(t, Run(h, PutCoverageHook), Run(h, RestartEvm))
            && Before(t, Run(h, RestartEvm), Run(h, WaitForWebUi))
  {
    var t := InstallEffects(app, marked, o);
    var h := app.hostname;
    var s := |SimplecovEffects(app)|;
    var k := |HookEffects(h, marked, o)|;
    assert t[1] == Run(h, PutGemfile);
    assert t[1 + s + 1] == Run(h, PutCoverageHook);
    assert t[1 + s + k] == Run(h, RestartEvm);
    assert t[1 + s + k + 1] == Run(h, WaitForWebUi);
  }

  /** The marker file decides the patching: the patch is applied exactly when the marker is
      missing, and the patch tool is installed only when it is missing too. */
  lemma HookByMarker(h: string, marked: bool, o: Outcomes)
    ensures var t := HookEffects(h, marked, o);
            && t[..3] == HookPrefix(h)
            && (marked ==> t == HookPrefix(h))
            && (Run(h, ApplyPatch) in t <==> !marked)
            && (Run(h, YumInstallPatch) in t <==> !marked && !o.patchToolInstalled)
  {
    var t := HookEffects(h, marked, o);
    if !marked {
      assert t[|t| - 1] == Run(h, ApplyPatch);
    }
  }

  /** `_collect_reports` stops the server first, and ships the reports exactly when the
      collection appliance is another one, and to that appliance; a failed copy leaves a
      message. */
  lemma CollectReportsByTarget(current: Appliance, target: Option<string>, o: Outcomes, to: string)
    ensures var t := CollectReportsEffects(current, target, o);
            var h := current.hostname;
            && t[0] == Run(h, StopEvm)
            && (Run(h, SendReports(to)) in t <==> target == Some(to) && to != h)
            && (Message(SendError) in t <==> target.Some? && target.value != h && !o.sendSucceeds)
  {
    var t := CollectReportsEffects(current, target, o);
    if target.Some? && target.value != current.hostname {
      var m := "sending reports to " + target.value;
      assert m[0] == 's' && SendError[0] == 'T';
      assert t[2] == Run(current.hostname, SendReports(target.value));
      if !o.sendSucceeds {
        assert t[3] == Message(SendError);
      }
    }
  }

  /** `merge()` ends with the fetched archive, or with the failure message when retrieval
      raised or the collection appliance is unknown. */
  lemma MergeEnds(target: Option<string>, o: Outcomes)
    ensures var t := MergeEffects(target, o);
            t[|t| - 1] == if target.Some? && !o.retrievalRaises then Run(target.value, FetchArchive) else Message(MergeFailed)
  {
  }

  /** The address a master publishes is where its slaves ship their reports and where the
      master then archives them. */
  lemma PublishedAddressReachesSlaves(master: Appliance, slave: Appliance, o: Outcomes)
    requires !master.predates58 && !slave.predates58 && master.hostname != slave.hostname
    ensures Run(slave.hostname, SendReports(master.hostname)) in SessionfinishEffects(Slave, slave, Some(master.hostname), o)
    ensures Run(master.hostname, ArchiveReports) in SessionfinishEffects(Master, master, None, o)
  {
    var target := CollectionAppliance(Slave, slave, Some(master.hostname));
    CollectReportsByTarget(slave, target, o, master.hostname);
    var t := CollectEffects(slave, target, o);
    var c := CollectReportsEffects(slave, target, o);
    assert t == [Message(Collecting)] + c + [Run(slave.hostname, RestartEvm)];
    var m := MergeEffects(Some(master.hostname), o);
    assert m[1] == Run(master.hostname, ArchiveReports);
  }
}

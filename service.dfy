/** The Windows service handling of DefaultMainWindow: the startup settings
    read from serverConfig.json, the decision Create makes with them (install
    and run the service, remove it, or leave it), InstallService,
    RemoveService and the poll that waits for a stopping service. Every call
    into the service control manager is an oracle: its reply is a parameter,
    and the service control handles the window opens are tracked as a set. */
module ServiceLifecycle {
  import opened Optional

  /** The "serverConfig" object of serverConfig.json, each flag present or not. */
  datatype ServerConfig = ServerConfig(headless: Option<bool>, systemService: Option<bool>, autoConnect: Option<bool>)

  /** headless_, systemService_ and autoConnect_ once Create has read the file. */
  datatype Settings = Settings(headless: bool, systemService: bool, autoConnect: bool)

  function GetOr(o: Option<bool>, default: bool): bool {
    if o.Some? then o.value else default
  }

  /** The settings Create starts from (headless_ = has_no_UI_, the other two
      false) overridden by each flag the file sets. `config` is None when the
      file is missing, has no "serverConfig" member, or that member is null. */
  function ReadSettings(hasNoUi: bool, config: Option<ServerConfig>): (s: Settings)
    ensures config.None? ==> s == Settings(hasNoUi, false, false)
    ensures config.Some? && config.value.headless.Some? ==> s.headless == config.value.headless.value
    ensures config.Some? && config.value.headless.None? ==> s.headless == hasNoUi
    ensures s.systemService <==> config.Some? && config.value.systemService == Some(true)
    ensures s.autoConnect <==> config.Some? && config.value.autoConnect == Some(true)
  {
    match config
    case None => Settings(hasNoUi, false, false)
    case Some(c) => Settings(GetOr(c.headless, hasNoUi), GetOr(c.systemService, false), GetOr(c.autoConnect, false))
  }

  /** What Create does about the service once the manager is open. */
  datatype ServiceAction =
    | InstallAndRun  // a headless system service that is not installed yet
    | Run            // a headless system service that is installed
    | Remove         // not a system service, but installed
    | Leave          // nothing to do

  /** The decision Create takes, given has_no_UI_, the settings and whether
      OpenService found the service. */
  function Decide(hasNoUi: bool, s: Settings, found: bool): (a: ServiceAction)
    ensures a == InstallAndRun <==> hasNoUi && s.headless && s.systemService && !found
    ensures a == Run <==> hasNoUi && s.headless && s.systemService && found
    ensures a == Remove <==> !s.systemService && found
  {
    if hasNoUi && s.headless && s.systemService then
      (if found then Run else InstallAndRun)
    else if !s.systemService && found then Remove
    else Leave
  }

  /** Create never both installs and removes: installing needs systemService,
      removing needs it off; and it only installs what is missing and only
      removes what is there. */
  lemma InstallAndRemoveExclusive(hasNoUi: bool, config: Option<ServerConfig>, found: bool)
    ensures var a := Decide(hasNoUi, ReadSettings(hasNoUi, config), found);
      (a == InstallAndRun ==> !found && config.Some? && config.value.systemService == Some(true)) &&
      (a == Remove ==> found && !(config.Some? && config.value.systemService == Some(true)))
  {
  }

  /** Without a "serverConfig" in the file the installed service is removed
      and nothing is ever installed. */
  lemma NoConfigNeverInstalls(hasNoUi: bool, found: bool)
    ensures Decide(hasNoUi, ReadSettings(hasNoUi, None), found) == if found then Remove else Leave
  {
  }

  /** dwCurrentState of a SERVICE_STATUS. The status RemoveService declares
      starts zeroed, which is none of the named states. */
  datatype ServiceState = Stopped | StopPending | Running | OtherState(code: nat)

  /** The replies of the calls InstallService makes, in order. */
  datatype InstallReplies = InstallReplies(pathOk: bool, managerOk: bool, createOk: bool)

  /** The replies of the calls RemoveService makes: OpenSCManager, OpenService,
      ControlService(STOP) with the status it reports, each QueryServiceStatus
      (None when it fails), and DeleteService. */
  datatype RemoveReplies = RemoveReplies(
    managerOk: bool, openOk: bool,
    stopOk: bool, stopStatus: ServiceState, queries: seq<Option<ServiceState>>,
    deleteOk: bool)

  /** The replies Create gets: OpenSCManager, whether OpenService finds the
      service, and the replies of whichever of the two operations it calls. */
  datatype StartupReplies = StartupReplies(managerOk: bool, found: bool, install: InstallReplies, remove: RemoveReplies)

  /** The calls that change the service control manager's database or the
      service's state, in the order they are made. */
  datatype ScmCall = CreateServiceCall | ControlStopCall | QueryStatusCall | DeleteServiceCall | RunServiceCall

  /** Whether the poll after a stop request ends within the replies given. */
  predicate Settles(queries: seq<Option<ServiceState>>) {
    exists i :: 0 <= i < |queries| && queries[i] != Some(StopPending)
  }

  /** How many queries the poll after a stop request makes: up to and
      including the first that fails or reports a state other than
      STOP_PENDING. */
  function PollLength(queries: seq<Option<ServiceState>>): (n: nat)
    requires Settles(queries)
    ensures 1 <= n <= |queries|
    ensures forall j :: 0 <= j < n - 1 ==> queries[j] == Some(StopPending)
    ensures queries[n - 1] != Some(StopPending)
    decreases |queries|
  {
    if queries[0] != Some(StopPending) then 1
    else
      var w :| 0 <= w < |queries| && queries[w] != Some(StopPending);
      assert queries[1..][w - 1] == queries[w];
      1 + PollLength(queries[1..])
  }

  /** The poll RemoveService runs after a successful stop request: query the
      status while the query succeeds and reports STOP_PENDING. Returns how
      many queries it made and the state the status buffer holds after. */
  method WaitWhileStopPending(initial: ServiceState, queries: seq<Option<ServiceState>>) returns (count: nat, state: ServiceState)
    requires Settles(queries)
    ensures count == PollLength(queries)
    ensures 1 <= count <= |queries|
    ensures forall j :: 0 <= j < count - 1 ==> queries[j] == Some(StopPending)
    ensures queries[count - 1] != Some(StopPending)
    ensures state == match queries[count - 1]
                     case Some(s) => s
                     case None => if count == 1 then initial else StopPending
  {
    state := initial;
    count := 0;
    while true
      invariant count <= |queries|
      invariant forall j :: 0 <= j < count ==> queries[j] == Some(StopPending)
      invariant exists w :: count <= w < |queries| && queries[w] != Some(StopPending)
      invariant state == if count == 0 then initial else StopPending
      decreases |queries| - count
    {
      var reply := queries[count];
      count := count + 1;
      if reply.None? {
        return;
      }
      state := reply.value;
      if state != StopPending {
        return;
      }
    }
  }

  /** Whether InstallService succeeds: every call it makes succeeds. */
  predicate InstallSucceeds(r: InstallReplies) {
    r.pathOk && r.managerOk && r.createOk
  }

  /** Whether RemoveService succeeds: the stop request and the poll do not
      matter, DeleteService does. */
  predicate RemoveSucceeds(r: RemoveReplies) {
    r.managerOk && r.openOk && r.deleteOk
  }

  /** Whether the calls Create makes for `a` leave handles open: a successful
      InstallService or RemoveService returns without closing its two. */
  predicate Leaks(a: ServiceAction, r: StartupReplies) {
    (a == InstallAndRun && InstallSucceeds(r.install)) || (a == Remove && RemoveSucceeds(r.remove))
  }

  /** The calls InstallService makes into the database: CreateService, once
      the path is known and the manager open. */
  function InstallCalls(r: InstallReplies): seq<ScmCall> {
    if r.pathOk && r.managerOk then [CreateServiceCall] else []
  }

  /** Whether the replies let RemoveService's stop poll end. */
  predicate PollEnds(r: RemoveReplies) {
    r.managerOk && r.openOk && r.stopOk ==> Settles(r.queries)
  }

  /** The calls RemoveService makes once the manager and the service are
      open: the stop request, the status queries of the poll when the stop
      request succeeds, then DeleteService. */
  function RemoveCalls(r: RemoveReplies): seq<ScmCall>
    requires PollEnds(r)
  {
    if r.managerOk && r.openOk then
      [ControlStopCall]
      + (if r.stopOk then seq(PollLength(r.queries), _ => QueryStatusCall) else [])
      + [DeleteServiceCall]
    else []
  }

  /** The calls the service part of Create makes for the action it takes. */
  function StartupCalls(a: ServiceAction, r: StartupReplies): seq<ScmCall>
    requires a == Remove ==> PollEnds(r.remove)
  {
    match a
    case InstallAndRun => InstallCalls(r.install) + [RunServiceCall]
    case Run => [RunServiceCall]
    case Remove => RemoveCalls(r.remove)
    case Leave => []
  }

  class ServiceControl {
    /** The SC_HANDLEs opened and not yet closed. */
    var openHandles: set<nat>
    /** The value the next OpenSCManager, OpenService or CreateService returns. */
    var nextHandle: nat
    var log: seq<ScmCall>

    ghost predicate Valid()
      reads this
    {
      forall h :: h in openHandles ==> h < nextHandle
    }

    constructor ()
      ensures Valid() && openHandles == {} && log == []
    {
      openHandles := {};
      nextHandle := 0;
      log := [];
    }

    /** A successful OpenSCManager, OpenService or CreateService. */
    method Open() returns (h: nat)
      requires Valid()
      modifies this`openHandles, this`nextHandle
      ensures Valid()
      ensures h !in old(openHandles) && openHandles == old(openHandles) + {h}
      ensures |openHandles| == |old(openHandles)| + 1
    {
      h := nextHandle;
      openHandles := openHandles + {h};
      nextHandle := nextHandle + 1;
    }

    /** CloseServiceHandle on an open handle. */
    method Close(h: nat)
      requires Valid() && h in openHandles
      modifies this`openHandles
      ensures Valid()
      ensures openHandles == old(openHandles) - {h}
      ensures |openHandles| == |old(openHandles)| - 1
    {
      openHandles := openHandles - {h};
    }

    /** InstallService: find the executable's path, open the manager and
      create the service. A failure closes whatever it opened; success
      returns with both handles still open. */
    method InstallService(r: InstallReplies) returns (ok: bool)
      requires Valid()
      modifies this`openHandles, this`nextHandle, this`log
      ensures Valid()
      ensures ok <==> InstallSucceeds(r)
      ensures old(openHandles) <= openHandles
      ensures !ok ==> openHandles == old(openHandles)
      ensures |openHandles| == |old(openHandles)| + (if ok then 2 else 0)
      ensures log == old(log) + InstallCalls(r)
    {
      if !r.pathOk {
        return false;
      }
      if !r.managerOk {
        return false;
      }
      var manager := Open();
      log := log + [CreateServiceCall];
      if !r.createOk {
        Close(manager);
        return false;
      }
      var service := Open();
      ok := true;
    }

    /** RemoveService: open the manager and the service, ask the service to
      stop and wait while it is stopping, then delete it. A failure to open
      or to delete closes whatever is open; success returns with both
      handles still open. */
    method RemoveService(r: RemoveReplies) returns (ok: bool)
      requires Valid()
      requires PollEnds(r)
      modifies this`openHandles, this`nextHandle, this`log
      ensures Valid()
      ensures ok <==> RemoveSucceeds(r)
      ensures old(openHandles) <= openHandles
      ensures !ok ==> openHandles == old(openHandles)
      ensures |openHandles| == |old(openHandles)| + (if ok then 2 else 0)
      ensures log == old(log) + RemoveCalls(r)
    {
      if !r.managerOk {
        return false;
      }
      var manager := Open();
      if !r.openOk {
        Close(manager);
        return false;
      }
      var service := Open();
      log := log + [ControlStopCall];
      if r.stopOk {
        var count, state := WaitWhileStopPending(r.stopStatus, r.queries);
        log := log + seq(count, _ => QueryStatusCall);
      }
      log := log + [DeleteServiceCall];
      if !r.deleteOk {
        Close(manager);
        Close(service);
        return false;
      }
      ok := true;
    }

    /** The service part of Create: open the manager; as a headless system
      service, install the service when OpenService does not find it and run
      it; otherwise, when not a system service, remove the service if
      OpenService finds it; close the handles Create itself opened. */
    method ConfigureAtStartup(hasNoUi: bool, s: Settings, r: StartupReplies) returns (action: Option<ServiceAction>)
      requires Valid()
      requires r.managerOk && Decide(hasNoUi, s, r.found) == Remove ==> PollEnds(r.remove)
      modifies this`openHandles, this`nextHandle, this`log
      ensures Valid()
      ensures action == if r.managerOk then Some(Decide(hasNoUi, s, r.found)) else None
      ensures old(openHandles) <= openHandles
      ensures !(action.Some? && Leaks(action.value, r)) ==> openHandles == old(openHandles)
      ensures |openHandles| == |old(openHandles)| + (if action.Some? && Leaks(action.value, r) then 2 else 0)
      ensures log == old(log) + (if action.Some? then StartupCalls(action.value, r) else [])
    {
      if !r.managerOk {
        return None;
      }
      var manager := Open();
      action := Some(Decide(hasNoUi, s, r.found));
      if hasNoUi && s.headless && s.systemService {
        if r.found {
          var service := Open();
          Close(service);
        } else {
          var _ := InstallService(r.install);
        }
        log := log + [RunServiceCall];
      }
      if !s.systemService {
        if r.found {
          var service := Open();
          var _ := RemoveService(r.remove);
          Close(service);
        }
      }
      Close(manager);
    }
  }
}

/**
 Container lifecycle of one iteration: build, session, service, restarts, validation, and the deferred clean-up.
 Docker is a ledger of started containers; every call into it succeeds or fails as the script says.
 */
module Containers {
  import opened Wrappers

  datatype Kind = Service | Session

  /** Container ids are handed out in order; stops counts the stop calls each one received. */
  class Docker {
    var kinds: seq<Kind>
    var stops: seq<nat>
    /** The largest number of service containers that were ever alive together. */
    ghost var peak: nat

    constructor ()
      ensures Valid() && kinds == [] && peak == 0
    {
      kinds, stops, peak := [], [], 0;
    }

    ghost predicate Valid()
      reads this
    {
      |kinds| == |stops| && |LiveServices()| <= peak
    }

    ghost function LiveServices(): set<nat>
      requires |kinds| == |stops|
      reads this
    {
      set c | 0 <= c < |kinds| && kinds[c] == Service && stops[c] == 0
    }

    /** Starts a container, or fails leaving nothing alive. */
    method Run(kind: Kind, ok: bool) returns (id: Option<nat>)
      requires Valid()
      modifies this
      ensures Valid() && (id.Some? <==> ok)
      ensures kinds == (if ok then old(kinds) + [kind] else old(kinds))
      ensures stops == (if ok then old(stops) + [0] else old(stops))
      ensures ok ==> id.value == |old(kinds)|
      ensures ok && kind == Service ==> LiveServices() == old(LiveServices()) + {id.value}
      ensures !(ok && kind == Service) ==> LiveServices() == old(LiveServices())
      ensures peak == if |LiveServices()| > old(peak) then |LiveServices()| else old(peak)
    {
      if !ok {
        return None;
      }
      kinds, stops := kinds + [kind], stops + [0];
      if |LiveServices()| > peak {
        peak := |LiveServices()|;
      }
      return Some(|kinds| - 1);
    }

    /** Stops and removes a container. */
    method Stop(id: nat)
      requires Valid() && id < |kinds|
      modifies this`stops
      ensures Valid() && stops == old(stops)[id := old(stops)[id] + 1]
      ensures LiveServices() == old(LiveServices()) - {id}
    {
      ghost var before := LiveServices();
      stops := stops[id := stops[id] + 1];
      assert LiveServices() == before - {id};
      assert before == LiveServices() + (before * {id});
    }

    /** Every container from the given id on was stopped exactly once, except the running ones. */
    ghost predicate StoppedOnce(from: nat, running: set<nat>)
      reads this
    {
      forall c :: from <= c < |stops| ==> stops[c] == if c in running then 0 else 1
    }
  }

  ghost function AtLeastOne(peak: nat): nat {
    if peak > 1 then peak else 1
  }

  /**
   The stop and restart closures of a started service: both work on one shared variable, the container to stop.
   None is the closure that does nothing.
   */
  class ServiceHandle {
    const docker: Docker
    ghost const base: nat
    var currentStop: Option<nat>

    constructor (docker: Docker, started: nat)
      ensures this.docker == docker && base == started && currentStop == Some(started)
    {
      this.docker, base, currentStop := docker, started, Some(started);
    }

    ghost function Current(): set<nat>
      reads this
    {
      if currentStop.Some? then {currentStop.value} else {}
    }

    /** The shared variable is the whole truth: nothing but its container is alive, everything else was stopped once. */
    ghost predicate Valid()
      reads this, docker
    {
      && docker.Valid() && docker.LiveServices() == Current() && docker.StoppedOnce(base, Current())
      && (currentStop.Some? ==> base <= currentStop.value < |docker.kinds|)
      && base <= |docker.kinds|
    }

    /** Stops whatever is current; called once, when the caller is done with the service. */
    method Stop()
      requires Valid()
      modifies docker`stops
      ensures docker.Valid() && docker.LiveServices() == {} && docker.StoppedOnce(base, {})
      ensures |docker.stops| == |old(docker.stops)| && docker.stops[..base] == old(docker.stops[..base])
    {
      if currentStop.Some? {
        docker.Stop(currentStop.value);
      }
    }

    /** First half of a restart: the old container goes, and the shared variable forgets it. */
    method Release()
      requires Valid()
      modifies this`currentStop, docker`stops
      ensures Valid() && currentStop == None
      ensures docker.stops[..base] == old(docker.stops[..base])
    {
      if currentStop.Some? {
        docker.Stop(currentStop.value);
      }
      currentStop := None;
    }

    /** Second half: a fresh container, kept only when it becomes healthy. */
    method Launch(startOk: bool, healthOk: bool)
      requires Valid() && currentStop == None
      modifies this`currentStop, docker
      ensures Valid() && (startOk && healthOk <==> currentStop.Some?)
      ensures currentStop.Some? ==> currentStop.value == |old(docker.kinds)|
      ensures docker.kinds == old(docker.kinds) + Launched(startOk) && docker.stops[..base] == old(docker.stops[..base])
      ensures docker.peak <= AtLeastOne(old(docker.peak))
    {
      var started := docker.Run(Service, startOk);
      if started.None? {
        return;
      }
      currentStop := started;
      if !healthOk {
        docker.Stop(started.value);
        currentStop := None;
      }
    }

    /** Stops the current container, starts a fresh one and waits for it to become healthy. */
    method Restart(startOk: bool, healthOk: bool) returns (ok: bool)
      requires Valid()
      modifies this`currentStop, docker
      ensures Valid() && (ok <==> startOk && healthOk) && (ok <==> currentStop.Some?)
      ensures ok ==> currentStop.value == |old(docker.kinds)|
      ensures docker.kinds == old(docker.kinds) + Launched(startOk) && docker.stops[..base] == old(docker.stops[..base])
      ensures docker.peak <= AtLeastOne(old(docker.peak))
    {
      Release();
      Launch(startOk, healthOk);
      return currentStop.Some?;
    }
  }

  // ---- one iteration ----

  datatype Capabilities = Capabilities(needsHTTP: bool, needsExec: bool, needsBrowser: bool,
                                       needsGRPC: bool, needsTUI: bool)

  datatype Restart = Restart(startOk: bool, healthOk: bool)

  /** Every answer the outside world gives during one iteration. */
  datatype Script = Script(
    buildOk: bool, sessionOk: bool, startOk: bool, healthOk: bool,
    stallLimitReached: bool,  // what checkStalled says after a failed start
    grpcTarget: string,       // the mapped port, "" when the mapping is missing
    testOk: bool, restarts: seq<Restart>)

  /** The validator's exit tells what it saw: its restarts, whether a session was offered, and the gRPC target. */
  datatype Exit =
    | BuildFailed | SessionFailed | StalledAtStart | TestFailed
    | ValidatorRan(restarted: seq<bool>, session: bool, grpcTarget: string)

  /** What the command line captured for the executors. */
  class Providers {
    var session: Option<nat>
    var grpcTarget: string

    constructor ()
      ensures session == None && grpcTarget == ""
    {
      session, grpcTarget := None, "";
    }
  }

  datatype ServiceStart = ServiceStart(handle: Option<ServiceHandle>, canRestart: bool, isGRPC: bool, stalled: bool)

  // ---- what an iteration starts and how it ends ----

  datatype ServiceKind = HTTPService | GRPCService | NoService

  /** TUI-only and exec-only runs need none. */
  function Wanted(caps: Capabilities): ServiceKind {
    if caps.needsGRPC then GRPCService
    else if caps.needsTUI && !caps.needsHTTP then NoService
    else if caps.needsHTTP || caps.needsBrowser || !caps.needsExec then HTTPService
    else NoService
  }

  /** Without an HTTP need and without a mapped port there is nothing to wait for. */
  predicate GRPCHealthy(caps: Capabilities, s: Script) {
    s.healthOk || !(caps.needsHTTP || caps.needsBrowser || s.grpcTarget != "")
  }

  /** A service container is alive when the test command and the validator get their turn. */
  predicate Serving(caps: Capabilities, s: Script) {
    match Wanted(caps)
    case NoService => false
    case HTTPService => s.startOk && s.healthOk
    case GRPCService => s.startOk && (GRPCHealthy(caps, s) || !s.stallLimitReached)
  }

  function Launched(startOk: bool): seq<Kind> {
    if startOk then [Service] else []
  }

  function RestartResults(restarts: seq<Restart>): seq<bool> {
    seq(|restarts|, i requires 0 <= i < |restarts| => restarts[i].startOk && restarts[i].healthOk)
  }

  /** One container for every restart whose start succeeds, healthy or not. */
  function Relaunched(restarts: seq<Restart>): seq<Kind> {
    if restarts == [] then [] else Relaunched(restarts[..|restarts| - 1]) + Launched(restarts[|restarts| - 1].startOk)
  }

  /** The service containers one iteration starts, in order. */
  function ServiceLog(caps: Capabilities, s: Script): seq<Kind> {
    (if Wanted(caps) == NoService then [] else Launched(s.startOk))
    + (if Wanted(caps) == HTTPService && Serving(caps, s) && s.testOk then Relaunched(s.restarts) else [])
  }

  function ServeExit(caps: Capabilities, s: Script, session: bool): Exit {
    if Serving(caps, s) then
      if !s.testOk then TestFailed
      else if Wanted(caps) == HTTPService then ValidatorRan(RestartResults(s.restarts), session, "")
      else ValidatorRan([], session, s.grpcTarget)
    else if Wanted(caps) != NoService && s.stallLimitReached then StalledAtStart
    else ValidatorRan([], session, "")
  }

  // ---- the same, by what the scenarios need ----

  /** Some scenario talks to a service: over gRPC, over HTTP, or through a browser; or nothing is known of the needs. */
  ghost predicate ServiceNeeded(caps: Capabilities) {
    caps.needsGRPC || caps.needsHTTP || (!caps.needsTUI && (caps.needsBrowser || !caps.needsExec))
  }

  /** The service passed the check made on it: over HTTP where that is spoken, else on the gRPC port if it is mapped. */
  ghost predicate CameUp(caps: Capabilities, s: Script) {
    s.startOk && (s.healthOk || (caps.needsGRPC && !caps.needsHTTP && !caps.needsBrowser && s.grpcTarget == ""))
  }

  /** The validator gets a service: one that came up, or over gRPC any that started short of the stall limit. */
  ghost predicate ServiceOffered(caps: Capabilities, s: Script) {
    ServiceNeeded(caps) && (CameUp(caps, s) || (caps.needsGRPC && s.startOk && !s.stallLimitReached))
  }

  lemma OfferedIsServing(caps: Capabilities, s: Script)
    ensures ServiceNeeded(caps) <==> Wanted(caps) != NoService
    ensures ServiceOffered(caps, s) <==> Serving(caps, s)
    ensures ServiceNeeded(caps) && !caps.needsGRPC <==> Wanted(caps) == HTTPService
  {
  }

  /** Containers of one kind. */
  function Count(log: seq<Kind>, kind: Kind): nat {
    if log == [] then 0 else Count(log[..|log| - 1], kind) + if log[|log| - 1] == kind then 1 else 0
  }

  /** Restarts whose container starts. */
  function Starting(restarts: seq<Restart>): nat {
    if restarts == [] then 0
    else Starting(restarts[..|restarts| - 1]) + if restarts[|restarts| - 1].startOk then 1 else 0
  }

  lemma {:induction false} CountConcat(a: seq<Kind>, b: seq<Kind>, kind: Kind)
    ensures Count(a + b, kind) == Count(a, kind) + Count(b, kind)
  {
    if b == [] {
      assert a + b == a;
    } else {
      assert (a + b)[..|a + b| - 1] == a + b[..|b| - 1];
      CountConcat(a, b[..|b| - 1], kind);
    }
  }

  lemma CountOne(kind: Kind, other: Kind)
    ensures Count([kind], other) == if kind == other then 1 else 0
  {
    assert [kind][..0] == [];
  }

  lemma {:induction false} CountRelaunched(restarts: seq<Restart>)
    ensures Count(Relaunched(restarts), Service) == Starting(restarts) && Count(Relaunched(restarts), Session) == 0
  {
    if restarts != [] {
      var init, last := restarts[..|restarts| - 1], restarts[|restarts| - 1].startOk;
      CountRelaunched(init);
      forall kind ensures Count(Relaunched(restarts), kind)
                       == Count(Relaunched(init), kind) + if last && kind == Service then 1 else 0 {
        CountConcat(Relaunched(init), Launched(last), kind);
        CountOne(Service, kind);
      }
    }
  }

  lemma CountServiceLog(caps: Capabilities, s: Script)
    ensures Count(ServiceLog(caps, s), Session) == 0
    ensures Count(ServiceLog(caps, s), Service) ==
        (if ServiceNeeded(caps) && s.startOk then 1 else 0)
        + (if ServiceOffered(caps, s) && !caps.needsGRPC && s.testOk then Starting(s.restarts) else 0)
  {
    OfferedIsServing(caps, s);
    CountRelaunched(s.restarts);
    var first := if Wanted(caps) == NoService then [] else Launched(s.startOk);
    var more := if Wanted(caps) == HTTPService && Serving(caps, s) && s.testOk then Relaunched(s.restarts) else [];
    forall kind ensures Count(ServiceLog(caps, s), kind) == Count(first, kind) + Count(more, kind) {
      CountConcat(first, more, kind);
    }
    CountOne(Service, Service);
    CountOne(Service, Session);
  }

  /** The build and the session a scenario run may need are there. */
  ghost predicate Prepared(caps: Capabilities, s: Script) {
    s.buildOk && (caps.needsExec || caps.needsTUI ==> s.sessionOk)
  }

  /**
   The containers one iteration starts: a session first, exactly for exec and TUI steps, then a service exactly where
   one is needed, and one more for each restart the validator asks for, which it may only of an HTTP service.
   */
  ghost predicate StartsByNeed(caps: Capabilities, s: Script, log: seq<Kind>) {
    var sessions := if Prepared(caps, s) && (caps.needsExec || caps.needsTUI) then 1 else 0;
    && Count(log, Session) == sessions && (sessions == 1 ==> log != [] && log[0] == Session)
    && Count(log, Service) ==
         (if Prepared(caps, s) && ServiceNeeded(caps) && s.startOk then 1 else 0)
         + (if Prepared(caps, s) && ServiceOffered(caps, s) && !caps.needsGRPC && s.testOk then Starting(s.restarts)
            else 0)
  }

  /** How it ends: in which step, and with what the validator was given. */
  ghost predicate EndsByNeed(caps: Capabilities, s: Script, exit: Exit) {
    && (exit == BuildFailed <==> !s.buildOk)
    && (exit == SessionFailed <==> s.buildOk && !Prepared(caps, s))
    && (exit == StalledAtStart <==>
          Prepared(caps, s) && ServiceNeeded(caps) && !ServiceOffered(caps, s) && s.stallLimitReached)
    && (exit == TestFailed <==> Prepared(caps, s) && ServiceOffered(caps, s) && !s.testOk)
    && (exit.ValidatorRan? ==>
          && (exit.session <==> caps.needsExec || caps.needsTUI)
          && exit.grpcTarget == (if caps.needsGRPC && ServiceOffered(caps, s) then s.grpcTarget else "")
          && if ServiceOffered(caps, s) && !caps.needsGRPC
             then |exit.restarted| == |s.restarts|
                  && forall i :: 0 <= i < |s.restarts| ==>
                       (exit.restarted[i] <==> s.restarts[i].startOk && s.restarts[i].healthOk)
             else exit.restarted == [])
  }

  lemma IterationByNeed(caps: Capabilities, s: Script)
    ensures StartsByNeed(caps, s, IterationLog(caps, s)) && EndsByNeed(caps, s, IterationExit(caps, s))
  {
    OfferedIsServing(caps, s);
    CountServiceLog(caps, s);
    forall kind ensures Count([Session] + ServiceLog(caps, s), kind)
                     == (if kind == Session then 1 else 0) + Count(ServiceLog(caps, s), kind) {
      CountConcat([Session], ServiceLog(caps, s), kind);
      CountOne(Session, kind);
    }
  }

  /** Runs a service container and waits for it; no handle means nothing was left running. */
  method StartHTTP(docker: Docker, s: Script) returns (r: ServiceStart)
    requires docker.Valid() && docker.LiveServices() == {}
    modifies docker
    ensures docker.Valid() && docker.kinds == old(docker.kinds) + (Launched(s.startOk))
    ensures docker.stops[..|old(docker.stops)|] == old(docker.stops)
    ensures docker.peak <= AtLeastOne(old(docker.peak))
    ensures r.handle.Some? <==> s.startOk && s.healthOk
    ensures r.handle.Some? ==> fresh(r.handle.value) && r.handle.value.docker == docker
                               && r.handle.value.Valid() && r.handle.value.base == |old(docker.kinds)|
    ensures r.handle.None? ==> docker.LiveServices() == {} && docker.StoppedOnce(|old(docker.stops)|, {})
    ensures r.canRestart == r.handle.Some? && !r.isGRPC && r.stalled == (r.handle.None? && s.stallLimitReached)
  {
    var started := docker.Run(Service, s.startOk);
    if started.None? {
      return ServiceStart(None, false, false, s.stallLimitReached);
    }
    if !s.healthOk {
      docker.Stop(started.value);
      return ServiceStart(None, false, false, s.stallLimitReached);
    }
    var handle := new ServiceHandle(docker, started.value);
    return ServiceStart(Some(handle), true, false, false);
  }

  /**
   The gRPC variant. A failed health check stops the container only when it also ends the run; otherwise the
   unhealthy container is handed on.
   */
  method StartGRPC(docker: Docker, caps: Capabilities, s: Script) returns (r: ServiceStart)
    requires docker.Valid() && docker.LiveServices() == {}
    modifies docker
    ensures docker.Valid() && docker.kinds == old(docker.kinds) + (Launched(s.startOk))
    ensures docker.stops[..|old(docker.stops)|] == old(docker.stops)
    ensures docker.peak <= AtLeastOne(old(docker.peak))
    ensures r.handle.Some? <==> s.startOk && (GRPCHealthy(caps, s) || !s.stallLimitReached)
    ensures r.handle.Some? ==> fresh(r.handle.value) && r.handle.value.docker == docker
                               && r.handle.value.Valid() && r.handle.value.base == |old(docker.kinds)|
    ensures r.handle.None? ==> docker.LiveServices() == {} && docker.StoppedOnce(|old(docker.stops)|, {})
    ensures !r.canRestart && (r.isGRPC <==> r.handle.Some?) && r.stalled == (r.handle.None? && s.stallLimitReached)
  {
    var started := docker.Run(Service, s.startOk);
    if started.None? {
      return ServiceStart(None, false, false, s.stallLimitReached);
    }
    if !GRPCHealthy(caps, s) && s.stallLimitReached {
      docker.Stop(started.value);
      return ServiceStart(None, false, false, true);
    }
    var handle := new ServiceHandle(docker, started.value);
    return ServiceStart(Some(handle), false, true, false);
  }

  /** Picks the service the capabilities call for; TUI-only and exec-only runs start none. */
  method StartService(docker: Docker, caps: Capabilities, s: Script) returns (r: ServiceStart)
    requires docker.Valid() && docker.LiveServices() == {}
    modifies docker
    ensures docker.Valid()
    ensures docker.kinds == old(docker.kinds) + (if Wanted(caps) == NoService then [] else Launched(s.startOk))
    ensures docker.stops[..|old(docker.stops)|] == old(docker.stops)
    ensures r.handle.Some? <==> Serving(caps, s)
    ensures r.handle.Some? <==> ServiceOffered(caps, s)
    ensures r.canRestart <==> ServiceOffered(caps, s) && !caps.needsGRPC
    ensures r.isGRPC <==> ServiceOffered(caps, s) && caps.needsGRPC
    ensures r.stalled <==> ServiceNeeded(caps) && !ServiceOffered(caps, s) && s.stallLimitReached
    ensures docker.peak <= AtLeastOne(old(docker.peak))
    ensures r.handle.Some? ==> fresh(r.handle.value) && r.handle.value.docker == docker
                               && r.handle.value.Valid() && r.handle.value.base == |old(docker.kinds)|
    ensures r.handle.None? ==> docker.LiveServices() == {} && docker.StoppedOnce(|old(docker.stops)|, {})
  {
    OfferedIsServing(caps, s);
    if caps.needsGRPC {
      r := StartGRPC(docker, caps, s);
    } else if caps.needsTUI && !caps.needsHTTP {
      r := ServiceStart(None, false, false, false);
    } else if caps.needsHTTP || caps.needsBrowser || !caps.needsExec {
      r := StartHTTP(docker, s);
    } else {
      r := ServiceStart(None, false, false, false);
    }
  }

  /** The validator may ask for any number of restarts; without a restart function it gets none. */
  method Validate(handle: ServiceHandle, canRestart: bool, restarts: seq<Restart>) returns (restarted: seq<bool>)
    requires handle.Valid()
    modifies handle`currentStop, handle.docker
    ensures handle.Valid()
    ensures restarted == if canRestart then RestartResults(restarts) else []
    ensures handle.docker.kinds == old(handle.docker.kinds) + if canRestart then Relaunched(restarts) else []
    ensures handle.docker.stops[..handle.base] == old(handle.docker.stops[..handle.base])
    ensures handle.docker.peak <= AtLeastOne(old(handle.docker.peak))
  {
    restarted := [];
    if !canRestart {
      return;
    }
    for i := 0 to |restarts|
      invariant handle.Valid()
      invariant restarted == RestartResults(restarts[..i])
      invariant handle.docker.kinds == old(handle.docker.kinds) + Relaunched(restarts[..i])
      invariant handle.docker.stops[..handle.base] == old(handle.docker.stops[..handle.base])
      invariant handle.docker.peak <= AtLeastOne(old(handle.docker.peak))
    {
      assert restarts[..i + 1][..i] == restarts[..i];
      var ok := handle.Restart(restarts[i].startOk, restarts[i].healthOk);
      restarted := restarted + [ok];
    }
    assert restarts[..|restarts|] == restarts;
  }

  /** From starting the service to its deferred stop. */
  method ServeAndValidate(docker: Docker, providers: Providers, caps: Capabilities, s: Script) returns (exit: Exit)
    requires docker.Valid() && docker.LiveServices() == {} && providers.grpcTarget == ""
    modifies docker, providers`grpcTarget
    ensures docker.Valid() && docker.LiveServices() == {} && providers.grpcTarget == ""
    ensures docker.kinds == old(docker.kinds) + ServiceLog(caps, s)
    ensures docker.stops[..|old(docker.stops)|] == old(docker.stops)
    ensures docker.StoppedOnce(|old(docker.stops)|, {})
    ensures docker.peak <= AtLeastOne(old(docker.peak))
    ensures exit == ServeExit(caps, s, providers.session.Some?)
  {
    var svc := StartService(docker, caps, s);
    if svc.stalled {
      return StalledAtStart;
    }
    if svc.handle.None? {
      return ValidatorRan([], providers.session.Some?, providers.grpcTarget);
    }
    var handle := svc.handle.value;
    if svc.isGRPC {
      providers.grpcTarget := s.grpcTarget;
    }
    if !s.testOk {
      exit := TestFailed;
    } else {
      var restarted := Validate(handle, svc.canRestart, s.restarts);
      exit := ValidatorRan(restarted, providers.session.Some?, providers.grpcTarget);
    }
    handle.Stop();
    providers.grpcTarget := "";
  }

  predicate NeedsSession(caps: Capabilities) {
    caps.needsExec || caps.needsTUI
  }

  function IterationLog(caps: Capabilities, s: Script): seq<Kind> {
    if !s.buildOk || (NeedsSession(caps) && !s.sessionOk) then []
    else if NeedsSession(caps) then [Session] + ServiceLog(caps, s)
    else ServiceLog(caps, s)
  }

  function IterationExit(caps: Capabilities, s: Script): Exit {
    if !s.buildOk then BuildFailed
    else if NeedsSession(caps) && !s.sessionOk then SessionFailed
    else ServeExit(caps, s, NeedsSession(caps))
  }

  /**
   A service that is wanted but never became healthy does not keep the validator from running, unless the failed start
   reached the stall limit: over HTTP it then runs against nothing.
   */
  lemma ValidatorRunsRegardless(caps: Capabilities, s: Script)
    requires s.buildOk && (NeedsSession(caps) ==> s.sessionOk)
    requires ServiceNeeded(caps) && !caps.needsGRPC && !(s.startOk && s.healthOk)
    ensures !ServiceOffered(caps, s)
    ensures IterationExit(caps, s) ==
        if s.stallLimitReached then StalledAtStart else ValidatorRan([], NeedsSession(caps), "")
  {
  }

  lemma SessionFirst(before: seq<Kind>, log: seq<Kind>)
    ensures before + [Session] + log == before + ([Session] + log)
  {
  }

  /** Build, session, service, test command, validation; the deferred clean-up runs on every path out. */
  method BuildRunValidate(docker: Docker, providers: Providers, caps: Capabilities, s: Script) returns (exit: Exit)
    requires docker.Valid() && docker.LiveServices() == {}
    requires providers.session == None && providers.grpcTarget == ""
    modifies docker, providers
    ensures docker.Valid() && docker.LiveServices() == {}
    ensures providers.session == None && providers.grpcTarget == ""
    ensures docker.kinds == old(docker.kinds) + IterationLog(caps, s)
    ensures docker.stops[..|old(docker.stops)|] == old(docker.stops)
    ensures docker.StoppedOnce(|old(docker.stops)|, {})
    ensures docker.peak <= AtLeastOne(old(docker.peak))
    ensures exit == IterationExit(caps, s) && EndsByNeed(caps, s, exit)
    ensures StartsByNeed(caps, s, docker.kinds[|old(docker.kinds)|..])
  {
    IterationByNeed(caps, s);
    if !s.buildOk {
      return BuildFailed;
    }
    if !NeedsSession(caps) {
      exit := ServeAndValidate(docker, providers, caps, s);
      return;
    }
    var session := docker.Run(Session, s.sessionOk);
    if session.None? {
      return SessionFailed;
    }
    providers.session := session;
    exit := ServeAndValidate(docker, providers, caps, s);
    providers.session := None;
    docker.Stop(session.value);
    SessionFirst(old(docker.kinds), ServiceLog(caps, s));
  }

  /**
   The validate command's own container: the same shared variable, and a clean-up that also removes the image and
   closes the manager, once each on every path.
   */
  method ValidateCommand(docker: Docker, s: Script) returns (served: bool, imageRemovals: nat, closes: nat)
    requires docker.Valid() && docker.LiveServices() == {}
    modifies docker
    ensures docker.Valid() && docker.LiveServices() == {}
    ensures docker.kinds == old(docker.kinds)
                            + (if s.buildOk then Launched(s.startOk) else [])
                            + (if served then Relaunched(s.restarts) else [])
    ensures docker.stops[..|old(docker.stops)|] == old(docker.stops)
    ensures docker.StoppedOnce(|old(docker.stops)|, {})
    ensures docker.peak <= AtLeastOne(old(docker.peak))
    ensures served <==> s.buildOk && s.startOk && s.healthOk
    ensures closes == 1 && imageRemovals == if s.buildOk then 1 else 0
  {
    imageRemovals, closes := 0, 0;
    if !s.buildOk {
      closes := closes + 1;
      return false, imageRemovals, closes;
    }
    var svc := StartHTTP(docker, s);
    if svc.handle.Some? {
      var _ := Validate(svc.handle.value, svc.canRestart, s.restarts);
      svc.handle.value.Stop();
    }
    imageRemovals, closes := imageRemovals + 1, closes + 1;
    return svc.handle.Some?, imageRemovals, closes;
  }
}

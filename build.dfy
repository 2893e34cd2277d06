/** dcc_build_somewhere (src/compile.c): decide where to compile, try the
    chosen server, and fall back to compiling locally.

    The source is a network of forward gotos over the labels fallback,
    lock_local, run_local, unlock_and_clean_up and clean_up; here a Label
    variable names the block control jumps to, and the blocks run in
    source order. What the collaborators answer (argument scanning, host
    choice, locks, preprocessing, the remote and local compilers, the
    environment switches) is a Collaborators value. What the client does
    to the outside world is recorded as a trace of events, and the two
    lock handles (cpu_lock_fd and local_cpu_lock_fd) are followed through
    it. */
module Build {
  import opened Common
  import opened Hosts
  import Compile

  /** cpu_lock_fd guards the chosen host's slot (or a local slot);
      local_cpu_lock_fd the local slot for preprocessing. */
  datatype Handle = Cpu | LocalCpu

  datatype Event =
    | Lock(handle: Handle)
    | Unlock(handle: Handle)
    | CompileRemote(argv: seq<string>)
    | CompileLocal
    | Enjoyed
    | Disliked
    | Investigate

  /** How the client ends: it returns a code, or it exits there and then. */
  datatype Ending = Returns(ret: int) | Exits(code: int)

  /** What dcc_get_dotd_info reports. */
  datatype DotdInfo = DotdInfo(needsDotd: bool, setsTarget: bool, target: Option<string>)

  /** The answers of everything dcc_build_somewhere calls. */
  datatype Collaborators = Collaborators(
    expandRet: int,                 // dcc_expand_preprocessor_options
    discrepancyRet: int,            // dcc_discrepancy_filename
    sgLevel: int,                   // the recursion safeguard level
    scanRet: int,                   // dcc_scan_args
    argv: seq<string>,              // the argv dcc_scan_args produced
    outputFname: string,
    tmpnamRet: int,                 // dcc_make_tmpnam for the server stderr file
    picked: Result<HostDef>,        // dcc_pick_host_from_list_and_lock_it
    lockLocalCppRet: int,           // dcc_lock_local_cpp
    scanIncludes: bool,             // the dcc_scan_includes switch
    approximateRet: int,            // dcc_approximate_includes
    includeServerRet: int,          // dcc_talk_to_include_server
    testingIncludeServer: bool,     // DISTCC_TESTING_INCLUDE_SERVER
    cppRet: int,                    // dcc_cpp_maybe
    stripped: Result<seq<string>>,  // dcc_strip_local_args
    dotd: DotdInfo,                 // dcc_get_dotd_info
    copyArgvRet: int,               // dcc_copy_argv
    compileRemoteRet: int,          // dcc_compile_remote
    critique: int,                  // dcc_critique_status of the remote status
    copyStderrOk: bool,             // dcc_copy_file_to_fd of the server's stderr
    skipLocalRetry: bool,           // DISTCC_SKIP_LOCAL_RETRY is set
    fallbackEnabled: bool,          // DISTCC_FALLBACK (default true)
    lockLocalOk: bool,              // dcc_lock_local
    localRet: int                   // dcc_compile_local
  )

  /** Both set-up steps before the safeguard test succeeded; otherwise the
      client goes straight to clean_up. */
  predicate Entered(c: Collaborators)
  {
    c.expandRet == 0 && c.discrepancyRet == 0
  }

  /** The labels, in source order; every goto jumps forward. */
  datatype Label = Remote | Fallback | LockLocal | RunLocal | UnlockAndCleanUp | CleanUp

  /** One event applied to the set of held handles; none once a handle is
      locked while held or while the remote lock is not held (for the
      local one), or released while not held. */
  function Step(held: Option<set<Handle>>, e: Event): Option<set<Handle>>
  {
    match held
    case None => None
    case Some(h) =>
      match e
      case Lock(x) => if x in h || (x == LocalCpu && Cpu !in h) then None else Some(h + {x})
      case Unlock(x) => if x in h then Some(h - {x}) else None
      case _ => held
  }

  /** The handles held after a trace, or none when the trace breaks the
      lock discipline. */
  function Replay(trace: seq<Event>): Option<set<Handle>>
  {
    if |trace| == 0 then Some({}) else Step(Replay(trace[..|trace| - 1]), trace[|trace| - 1])
  }

  function Held(cpu: bool, localCpu: bool): set<Handle>
  {
    (if cpu then {Cpu} else {}) + (if localCpu then {LocalCpu} else {})
  }

  /** The number of occurrences of e in a trace. */
  function Count(trace: seq<Event>, e: Event): nat
  {
    if |trace| == 0 then 0
    else Count(trace[..|trace| - 1], e) + (if trace[|trace| - 1] == e then 1 else 0)
  }

  /** A trace that keeps the discipline locks each handle once more than it
      releases it exactly when the handle is still held: every release
      matches an earlier lock. */
  lemma {:induction false} ReplayBalanced(trace: seq<Event>, x: Handle)
    requires Replay(trace).Some?
    ensures Count(trace, Lock(x)) == Count(trace, Unlock(x)) + (if x in Replay(trace).value then 1 else 0)
    decreases |trace|
  {
    if |trace| > 0 {
      ReplayBalanced(trace[..|trace| - 1], x);
    }
  }

  /** A trace that ends with nothing held has as many releases as locks. */
  lemma AllReleased(trace: seq<Event>)
    requires Replay(trace) == Some({})
    ensures Count(trace, Lock(Cpu)) == Count(trace, Unlock(Cpu))
    ensures Count(trace, Lock(LocalCpu)) == Count(trace, Unlock(LocalCpu))
  {
    ReplayBalanced(trace, Cpu);
    ReplayBalanced(trace, LocalCpu);
  }

  /** A trace that keeps the discipline takes the local lock only while the
      host's lock is held: the remote lock always comes first. */
  lemma {:induction false} LocalLockUnderCpu(trace: seq<Event>, i: nat)
    requires Replay(trace).Some? && i < |trace| && trace[i] == Lock(LocalCpu)
    ensures Replay(trace[..i]).Some? && Cpu in Replay(trace[..i]).value
    decreases |trace|
  {
    var init := trace[..|trace| - 1];
    if i < |trace| - 1 {
      assert init[..i] == trace[..i];
      LocalLockUnderCpu(init, i);
    } else {
      assert init == trace[..i];
    }
  }

  /** Each event on the held handles, in terms of the two flags. */
  lemma StepHeld(cpu: bool, localCpu: bool)
    ensures Step(Some(Held(cpu, localCpu)), Lock(Cpu)) == if cpu then None else Some(Held(true, localCpu))
    ensures Step(Some(Held(cpu, localCpu)), Lock(LocalCpu)) ==
              if localCpu || !cpu then None else Some(Held(cpu, true))
    ensures Step(Some(Held(cpu, localCpu)), Unlock(Cpu)) == if cpu then Some(Held(false, localCpu)) else None
    ensures Step(Some(Held(cpu, localCpu)), Unlock(LocalCpu)) ==
              if localCpu then Some(Held(cpu, false)) else None
    ensures Held(false, false) == {}
  {
    assert Held(true, localCpu) == Held(false, localCpu) + {Cpu};
    assert Held(cpu, true) == Held(cpu, false) + {LocalCpu};
    assert cpu ==> Held(false, localCpu) == Held(cpu, localCpu) - {Cpu};
    assert localCpu ==> Held(cpu, false) == Held(cpu, localCpu) - {LocalCpu};
  }

  /** The number of remote compiles in a trace. */
  function Remotes(trace: seq<Event>): nat
  {
    if |trace| == 0 then 0
    else Remotes(trace[..|trace| - 1]) + (if trace[|trace| - 1].CompileRemote? then 1 else 0)
  }

  /** trace extends trace0 by the given numbers of remote compiles, local
      compiles, investigations, enjoyed hosts and disliked hosts. */
  predicate Tallied(trace0: seq<Event>, trace: seq<Event>, remotes: nat, locals: nat,
                    investigations: nat, enjoyed: nat, disliked: nat)
  {
    && Remotes(trace) == Remotes(trace0) + remotes
    && Count(trace, CompileLocal) == Count(trace0, CompileLocal) + locals
    && Count(trace, Investigate) == Count(trace0, Investigate) + investigations
    && Count(trace, Enjoyed) == Count(trace0, Enjoyed) + enjoyed
    && Count(trace, Disliked) == Count(trace0, Disliked) + disliked
  }

  method Emit(trace: seq<Event>, e: Event) returns (t: seq<Event>)
    ensures t == trace + [e] && Replay(t) == Step(Replay(trace), e)
    ensures Tallied(trace, t, if e.CompileRemote? then 1 else 0, if e == CompileLocal then 1 else 0,
                    if e == Investigate then 1 else 0, if e == Enjoyed then 1 else 0, if e == Disliked then 1 else 0)
  {
    t := trace + [e];
    assert t[..|trace|] == trace;
  }

  /** The server-side argv when the server preprocesses: a copy of argv,
      with "-MT" and the target (the .d file's target, or else the output
      name) appended when a .d file is wanted without a target. */
  function ServerSideArgv(argv: seq<string>, d: DotdInfo, outputFname: string): (r: seq<string>)
    ensures |r| >= |argv| && r[..|argv|] == argv
    ensures !(d.needsDotd && !d.setsTarget) <==> r == argv
    ensures d.needsDotd && !d.setsTarget ==>
              |r| == |argv| + 2 && r[|argv|] == "-MT"
              && r[|argv| + 1] == (if d.target.Some? then d.target.value else outputFname)
  {
    if d.needsDotd && !d.setsTarget then
      argv + ["-MT", if d.target.None? then outputFname else d.target.value]
    else argv
  }

  /** The events after the local compile: investigate a result that differs
      from a remote failure, and forgive the host when both failed alike. */
  function Verdict(remoteRet: int, localRet: int, hasHost: bool): (r: seq<Event>)
    ensures r == [Investigate] <==> remoteRet != 0 && remoteRet != localRet
    ensures r == [Enjoyed] <==> remoteRet != 0 && remoteRet == localRet && hasHost
    ensures r == [] <==> remoteRet == 0 || (remoteRet == localRet && !hasHost)
  {
    if remoteRet == 0 then []
    else if remoteRet != localRet then [Investigate]
    else if hasHost then [Enjoyed]
    else []
  }

  /** The investigation the verdict asks for: one when a remote failure
      and the local result differ. */
  function Investigations(remoteRet: int, localRet: int): nat
  {
    if remoteRet != 0 && remoteRet != localRet then 1 else 0
  }

  /** The host forgiven by the verdict: one when the local compile failed
      just as the remote one did. */
  function Forgiven(remoteRet: int, localRet: int, hasHost: bool): nat
  {
    if remoteRet != 0 && remoteRet == localRet && hasHost then 1 else 0
  }

  /** The events from lock_local to the end: a local slot when one can be
      locked, the local compile, the verdict and the release. */
  function LocalRun(c: Collaborators, remoteRet: int, hasHost: bool): seq<Event>
  {
    (if c.lockLocalOk then [Lock(Cpu)] else []) + [CompileLocal] + Verdict(remoteRet, c.localRet, hasHost)
    + Releases(c.lockLocalOk, false)
  }

  /** How the answer of dcc_compile_remote and the status critique decide
      the next label, the result and remote_ret (compile.c:704-779). */
  predicate RemoteOutcome(c: Collaborators, at: Label, ret: int, remoteRet: int)
  {
    && (at == Fallback || at == CleanUp)
    && (c.compileRemoteRet != 0 ==> at == Fallback && ret == c.compileRemoteRet && remoteRet == 0)
    && (c.compileRemoteRet == 0 ==> ret == c.critique)
    && (c.compileRemoteRet == 0 && (c.critique == 0 || (c.critique < 128 && c.skipLocalRetry)) ==>
          (at == CleanUp <==> c.copyStderrOk) && remoteRet == 0)
    && (c.compileRemoteRet == 0 && c.critique != 0 && c.critique < 128 && !c.skipLocalRetry ==>
          at == Fallback && remoteRet == c.critique)
    && (c.compileRemoteRet == 0 && c.critique >= 128 ==> at == Fallback && remoteRet == 0)
  }

  /** From lock_local_cpp to the point where dcc_compile_remote is called,
      with the host's lock held. */
  method Prepare(c: Collaborators, host: HostDef, inputFname: string, disc: Compile.Discrepancies,
                 discrepancyName: Option<string>, env: Env, remoteAssemble: bool, protoverOf: ProtoverOf,
                 trace0: seq<Event>)
    returns (next: Label, ret: int, localCpu: bool, serverArgv: seq<string>, exit: Option<int>, trace: seq<Event>)
    requires Replay(trace0) == Some(Held(true, false))
    modifies disc, host
    ensures Replay(trace) == Some(Held(true, localCpu)) && Tallied(trace0, trace, 0, 0, 0, 0, 0)
    ensures disc.sizes == old(disc.sizes)
    ensures exit.None? ==> next == Remote || next == Fallback || next == UnlockAndCleanUp
    ensures exit.Some? ==> c.lockLocalCppRet == 0 && old(host.cppWhere) == OnServer
                           && (exit.value == EXIT_BAD_ARGUMENTS
                               || (exit.value == c.includeServerRet && c.testingIncludeServer))
    ensures c.lockLocalCppRet != 0 ==>
              next == Fallback && ret == c.lockLocalCppRet && !localCpu && exit.None? && trace == trace0
    ensures c.lockLocalCppRet == 0 ==>
              trace == trace0 + [Lock(LocalCpu)] + (if localCpu then [] else [Unlock(LocalCpu)])
    ensures c.lockLocalCppRet == 0 && c.scanIncludes && exit.None? ==>
              next == UnlockAndCleanUp && ret == c.approximateRet && localCpu
    ensures exit.None? && next == Remote ==> ret == 0 && (localCpu <==> host.cppWhere == OnClient)
    ensures host.cppWhere == OnServer ==> old(host.cppWhere) == OnServer
    ensures old(host.cppWhere) == OnClient ==> host.cppWhere == OnClient && host.protover == old(host.protover)
    // preprocessing stays on the server only once the include server has
    // answered, and then the local lock is given back
    ensures c.lockLocalCppRet == 0 && !c.scanIncludes && exit.None? && host.cppWhere == OnServer ==>
              !localCpu && c.includeServerRet == 0
              && (next == Remote <==> c.copyArgvRet == 0) && (next != Remote ==> next == Fallback && ret == c.copyArgvRet)
              && (next == Remote ==> serverArgv == ServerSideArgv(c.argv, c.dotd, c.outputFname))
    ensures c.lockLocalCppRet == 0 && !c.scanIncludes && exit.None? && host.cppWhere == OnClient ==>
              localCpu && (next == Remote <==> c.cppRet == 0 && c.stripped.Ok?)
              && (c.cppRet != 0 ==> next == Fallback && ret == 1)
              && (c.cppRet == 0 && c.stripped.Err? ==> next == Fallback && ret == c.stripped.code)
              && (next == Remote ==> serverArgv == c.stripped.value)
    // the two demotions to preprocessing on the client
    ensures c.lockLocalCppRet == 0 && old(host.cppWhere) == OnServer && exit.None?
            && Compile.Demote(inputFname, Compile.ReadNumberDiscrepancies(discrepancyName, disc.sizes),
                              disc.cachedLimit, env, remoteAssemble) ==>
              host.cppWhere == OnClient && host.protover == protoverOf(host.compr, OnClient)
    ensures c.lockLocalCppRet == 0 && !c.scanIncludes && old(host.cppWhere) == OnServer
            && c.includeServerRet != 0 && exit.None? ==>
              host.cppWhere == OnClient && host.protover == protoverOf(host.compr, OnClient)
    ensures (c.lockLocalCppRet == 0 && !c.scanIncludes && old(host.cppWhere) == OnServer
             && c.includeServerRet != 0 && c.testingIncludeServer && host.cppWhere == OnServer) ==> exit.Some?
  {
    trace, exit, serverArgv := trace0, None, [];
    if c.lockLocalCppRet != 0 {
      return Fallback, c.lockLocalCppRet, false, serverArgv, exit, trace;
    }
    localCpu := true;
    StepHeld(true, false);
    trace := Emit(trace, Lock(LocalCpu));
    if host.cppWhere == OnServer {
      var adjusted := disc.PerhapsAdjust(inputFname, host, discrepancyName, env, remoteAssemble, protoverOf);
      if adjusted.Err? {
        return Fallback, 0, localCpu, serverArgv, Some(adjusted.code), trace;
      }
    }
    if c.scanIncludes {
      return UnlockAndCleanUp, c.approximateRet, localCpu, serverArgv, exit, trace;
    }
    if host.cppWhere == OnServer {
      if c.includeServerRet != 0 {
        if c.testingIncludeServer {
          return Fallback, c.includeServerRet, localCpu, serverArgv, Some(c.includeServerRet), trace;
        }
        host.cppWhere := OnClient;
        host.protover := protoverOf(host.compr, host.cppWhere);
      } else {
        StepHeld(true, true);
        trace := Emit(trace, Unlock(LocalCpu));
        localCpu := false;
      }
    }
    if host.cppWhere == OnClient {
      // ret receives the comparison, not the error code.
      if c.cppRet != 0 {
        return Fallback, 1, localCpu, serverArgv, exit, trace;
      }
      if c.stripped.Err? {
        return Fallback, c.stripped.code, localCpu, serverArgv, exit, trace;
      }
      serverArgv := c.stripped.value;
    } else {
      if c.copyArgvRet != 0 {
        return Fallback, c.copyArgvRet, localCpu, serverArgv, exit, trace;
      }
      serverArgv := ServerSideArgv(c.argv, c.dotd, c.outputFname);
    }
    return Remote, 0, localCpu, serverArgv, exit, trace;
  }

  /** dcc_compile_remote and what its answer leads to. The remote compile
      releases the local lock whatever it returns; a compile that ran
      marks the host enjoyed and releases the host lock, and the status
      decides: 0 with the server's messages shown ends here, a failure
      below 128 ends here when local retries are off (and the messages
      could be shown) and is otherwise retried locally, and anything else
      falls back. */
  method RunRemote(c: Collaborators, serverArgv: seq<string>, localCpu: bool, trace0: seq<Event>)
    returns (next: Label, ret: int, remoteRet: int, cpu: bool, trace: seq<Event>)
    requires Replay(trace0) == Some(Held(true, localCpu))
    ensures Replay(trace) == Some(Held(cpu, false))
    ensures cpu <==> c.compileRemoteRet != 0
    ensures RemoteOutcome(c, next, ret, remoteRet)
    ensures trace == trace0 + [CompileRemote(serverArgv)] + (if localCpu then [Unlock(LocalCpu)] else [])
                     + (if c.compileRemoteRet == 0 then [Enjoyed, Unlock(Cpu)] else [])
    ensures Tallied(trace0, trace, 1, 0, 0, if c.compileRemoteRet == 0 then 1 else 0, 0)
  {
    cpu, trace := RemoteEvents(serverArgv, localCpu, c.compileRemoteRet == 0, trace0);
    next, ret, remoteRet := Classify(c);
  }

  /** The lock traffic around dcc_compile_remote: the local lock goes back
      whatever happens, and a compile that ran is enjoyed and gives back
      the host lock. */
  method RemoteEvents(serverArgv: seq<string>, localCpu: bool, ran: bool, trace0: seq<Event>)
    returns (cpu: bool, trace: seq<Event>)
    requires Replay(trace0) == Some(Held(true, localCpu))
    ensures Replay(trace) == Some(Held(cpu, false)) && (cpu <==> !ran)
    ensures trace == trace0 + [CompileRemote(serverArgv)] + (if localCpu then [Unlock(LocalCpu)] else [])
                     + (if ran then [Enjoyed, Unlock(Cpu)] else [])
    ensures Tallied(trace0, trace, 1, 0, 0, if ran then 1 else 0, 0)
  {
    trace := Emit(trace0, CompileRemote(serverArgv));
    if localCpu {
      StepHeld(true, true);
      trace := Emit(trace, Unlock(LocalCpu));
    }
    cpu := true;
    if ran {
      trace := Emit(trace, Enjoyed);
      StepHeld(true, false);
      trace := Emit(trace, Unlock(Cpu));
      cpu := false;
    }
  }

  /** The classification after dcc_compile_remote. */
  method Classify(c: Collaborators) returns (next: Label, ret: int, remoteRet: int)
    ensures RemoteOutcome(c, next, ret, remoteRet)
  {
    remoteRet := 0;
    if c.compileRemoteRet != 0 {
      return Fallback, c.compileRemoteRet, remoteRet;
    }
    ret := c.critique;
    if ret == 0 {
      if !c.copyStderrOk {
        return Fallback, ret, remoteRet;
      }
      return CleanUp, ret, remoteRet;
    }
    if ret < 128 {
      if c.skipLocalRetry {
        if !c.copyStderrOk {
          return Fallback, ret, remoteRet;
        }
        return CleanUp, ret, remoteRet;
      }
      remoteRet := ret;
      return Fallback, ret, remoteRet;
    }
    return Fallback, ret, remoteRet;
  }

  /** The remote attempt on a chosen remote host whose lock is held:
      preparation, then dcc_compile_remote when preparation got that far.
      The trace gains at most one remote compile; when it does, its
      outcome is RemoteOutcome and both locks are settled by it. */
  method TryRemote(c: Collaborators, host: HostDef, inputFname: string, disc: Compile.Discrepancies,
                   discrepancyName: Option<string>, env: Env, remoteAssemble: bool, protoverOf: ProtoverOf,
                   trace0: seq<Event>)
    returns (at: Label, ret: int, remoteRet: int, cpu: bool, localCpu: bool, exit: Option<int>, trace: seq<Event>)
    requires Replay(trace0) == Some(Held(true, false))
    modifies disc, host
    ensures Replay(trace) == Some(Held(cpu, localCpu))
    ensures exit.None? ==> at == Fallback || at == UnlockAndCleanUp || at == CleanUp
    ensures exit.None? && at == CleanUp ==> !cpu && !localCpu
    ensures exit.Some? ==> exit.value == EXIT_BAD_ARGUMENTS
                           || (exit.value == c.includeServerRet && c.testingIncludeServer)
    ensures Remotes(trace) == Remotes(trace0) || Remotes(trace) == Remotes(trace0) + 1
    ensures Remotes(trace) == Remotes(trace0) ==>
              Tallied(trace0, trace, 0, 0, 0, 0, 0) && remoteRet == 0 && cpu
    ensures Remotes(trace) == Remotes(trace0) + 1 ==>
              && Tallied(trace0, trace, 1, 0, 0, if c.compileRemoteRet == 0 then 1 else 0, 0)
              && exit.None? && !localCpu && c.lockLocalCppRet == 0 && !c.scanIncludes
              && (cpu <==> c.compileRemoteRet != 0) && RemoteOutcome(c, at, ret, remoteRet)
    ensures c.lockLocalCppRet != 0 ==>
              at == Fallback && ret == c.lockLocalCppRet && !localCpu && exit.None? && trace == trace0
    ensures c.lockLocalCppRet == 0 && c.scanIncludes && exit.None? ==>
              at == UnlockAndCleanUp && ret == c.approximateRet && localCpu && trace == trace0 + [Lock(LocalCpu)]
    // the remote compile is reached on a client-preprocessing host once
    // preprocessing and argument stripping succeed, and on a host that
    // still preprocesses on the server once the argv copy succeeds
    ensures (c.lockLocalCppRet == 0 && !c.scanIncludes && old(host.cppWhere) == OnClient
             && c.cppRet == 0 && c.stripped.Ok?) ==> Remotes(trace) == Remotes(trace0) + 1
    ensures (c.lockLocalCppRet == 0 && !c.scanIncludes && exit.None? && host.cppWhere == OnServer
             && c.copyArgvRet == 0) ==> Remotes(trace) == Remotes(trace0) + 1
  {
    var serverArgv;
    at, ret, localCpu, serverArgv, exit, trace :=
      Prepare(c, host, inputFname, disc, discrepancyName, env, remoteAssemble, protoverOf, trace0);
    cpu, remoteRet := true, 0;
    if exit.None? && at == Remote {
      at, ret, remoteRet, cpu, trace := RunRemote(c, serverArgv, localCpu, trace);
      localCpu := false;
    }
  }

  /** The fallback block: blame the host, release both locks, and either
      stop (fallbacks disabled) or go on to lock a local slot. */
  method FallBack(c: Collaborators, hasHost: bool, cpu: bool, localCpu: bool, trace0: seq<Event>)
    returns (next: Label, trace: seq<Event>)
    requires Replay(trace0) == Some(Held(cpu, localCpu))
    ensures Replay(trace) == Some({})
    ensures next == (if c.fallbackEnabled then LockLocal else CleanUp)
    ensures trace == trace0 + (if hasHost then [Disliked] else []) + Releases(cpu, localCpu)
    ensures Tallied(trace0, trace, 0, 0, 0, 0, if hasHost then 1 else 0)
  {
    trace := trace0;
    if hasHost {
      trace := Emit(trace, Disliked);
    }
    trace := Release(cpu, localCpu, trace);
    next := if c.fallbackEnabled then LockLocal else CleanUp;
  }

  /** run_local: compile locally, then weigh the result against a remote
      failure. */
  method RunLocally(c: Collaborators, remoteRet: int, hasHost: bool, trace0: seq<Event>)
    returns (ret: int, trace: seq<Event>)
    ensures ret == c.localRet
    ensures trace == trace0 + [CompileLocal] + Verdict(remoteRet, c.localRet, hasHost)
    ensures Replay(trace) == Replay(trace0)
    ensures Tallied(trace0, trace, 0, 1, Investigations(remoteRet, c.localRet), Forgiven(remoteRet, c.localRet, hasHost), 0)
  {
    trace := Emit(trace0, CompileLocal);
    ret := c.localRet;
    if remoteRet != 0 {
      if remoteRet != ret {
        trace := Emit(trace, Investigate);
      } else if hasHost {
        trace := Emit(trace, Enjoyed);
      }
    }
  }

  /** The host a remote attempt uses: a remote host was chosen after every
      earlier step succeeded. */
  predicate GoesRemote(c: Collaborators)
  {
    Entered(c) && c.sgLevel == 0 && c.scanRet == 0 && c.tmpnamRet == 0 && c.picked.Ok?
    && c.picked.value.mode != LocalMode
  }

  /** From the entry to the host choice: the safeguard, argument scanning,
      the temporary file and the host choice. Remote as the label means the
      remote attempt comes next. */
  method Start(c: Collaborators) returns (at: Label, ret: int, hasHost: bool, cpu: bool, trace: seq<Event>)
    ensures Replay(trace) == Some(Held(cpu, false)) && Tallied([], trace, 0, 0, 0, 0, 0)
    ensures hasHost <==> Entered(c) && c.sgLevel == 0 && c.scanRet == 0 && c.tmpnamRet == 0 && c.picked.Ok?
    ensures at == Remote <==> GoesRemote(c)
    ensures at == Remote ==> ret == 0 && cpu && trace == [Lock(Cpu)]
    ensures at != Remote && at != RunLocal ==> !cpu
    ensures !Entered(c) ==>
              at == CleanUp && ret == (if c.expandRet != 0 then c.expandRet else c.discrepancyRet) && trace == []
    ensures Entered(c) && c.sgLevel != 0 ==> at == RunLocal && trace == [] && !cpu
    ensures Entered(c) && c.sgLevel == 0 && c.scanRet != 0 ==> at == LockLocal && ret == c.scanRet && trace == []
    ensures Entered(c) && c.sgLevel == 0 && c.scanRet == 0 && c.tmpnamRet != 0 ==>
              at == Fallback && ret == c.tmpnamRet && trace == []
    ensures Entered(c) && c.sgLevel == 0 && c.scanRet == 0 && c.tmpnamRet == 0 && c.picked.Err? ==>
              at == Fallback && ret == c.picked.code && trace == []
    ensures Entered(c) && c.sgLevel == 0 && c.scanRet == 0 && c.tmpnamRet == 0 && c.picked.Ok?
            && c.picked.value.mode == LocalMode ==>
              at == RunLocal && trace == [Lock(Cpu)] && cpu
  {
    cpu, hasHost, trace, ret := false, false, [], 0;
    StepHeld(false, false);
    if c.expandRet != 0 {
      return CleanUp, c.expandRet, hasHost, cpu, trace;
    } else if c.discrepancyRet != 0 {
      return CleanUp, c.discrepancyRet, hasHost, cpu, trace;
    } else if c.sgLevel != 0 {
      return RunLocal, ret, hasHost, cpu, trace;
    } else if c.scanRet != 0 {
      return LockLocal, c.scanRet, hasHost, cpu, trace;
    } else if c.tmpnamRet != 0 {
      return Fallback, c.tmpnamRet, hasHost, cpu, trace;
    } else if c.picked.Err? {
      return Fallback, c.picked.code, hasHost, cpu, trace;
    }
    hasHost, cpu := true, true;
    trace := Emit(trace, Lock(Cpu));
    at := if c.picked.value.mode == LocalMode then RunLocal else Remote;
  }

  /** The releases of unlock_and_clean_up. */
  function Releases(cpu: bool, localCpu: bool): seq<Event>
  {
    (if cpu then [Unlock(Cpu)] else []) + (if localCpu then [Unlock(LocalCpu)] else [])
  }

  /** lock_local: take a local slot for the local compile. */
  method LockLocalSlot(c: Collaborators, trace0: seq<Event>) returns (cpu: bool, trace: seq<Event>)
    requires Replay(trace0) == Some({})
    ensures cpu == c.lockLocalOk && Replay(trace) == Some(Held(cpu, false))
    ensures trace == trace0 + (if cpu then [Lock(Cpu)] else [])
    ensures Tallied(trace0, trace, 0, 0, 0, 0, 0)
  {
    StepHeld(false, false);
    trace, cpu := trace0, false;
    if c.lockLocalOk {
      trace := Emit(trace, Lock(Cpu));
      cpu := true;
    }
  }

  /** unlock_and_clean_up: release whatever is still held. */
  method Release(cpu: bool, localCpu: bool, trace0: seq<Event>) returns (trace: seq<Event>)
    requires Replay(trace0) == Some(Held(cpu, localCpu))
    ensures Replay(trace) == Some({})
    ensures trace == trace0 + Releases(cpu, localCpu)
    ensures Tallied(trace0, trace, 0, 0, 0, 0, 0)
  {
    StepHeld(false, false);
    trace := trace0;
    if cpu {
      StepHeld(true, localCpu);
      trace := Emit(trace, Unlock(Cpu));
    }
    if localCpu {
      StepHeld(false, true);
      trace := Emit(trace, Unlock(LocalCpu));
    }
  }

  /** From run_local to the end: the local compile, its verdict and the
      releases. */
  method LocalTail(c: Collaborators, remoteRet: int, hasHost: bool, cpu: bool, localCpu: bool, trace0: seq<Event>)
    returns (ret: int, trace: seq<Event>)
    requires Replay(trace0) == Some(Held(cpu, localCpu))
    ensures Replay(trace) == Some({}) && ret == c.localRet
    ensures trace == trace0 + [CompileLocal] + Verdict(remoteRet, c.localRet, hasHost) + Releases(cpu, localCpu)
    ensures Tallied(trace0, trace, 0, 1, Investigations(remoteRet, c.localRet), Forgiven(remoteRet, c.localRet, hasHost), 0)
  {
    ret, trace := RunLocally(c, remoteRet, hasHost, trace0);
    trace := Release(cpu, localCpu, trace);
  }

  /** From lock_local to the end, with nothing held. */
  method LockedLocalTail(c: Collaborators, remoteRet: int, hasHost: bool, trace0: seq<Event>)
    returns (ret: int, trace: seq<Event>)
    requires Replay(trace0) == Some({})
    ensures Replay(trace) == Some({}) && ret == c.localRet
    ensures trace == trace0 + LocalRun(c, remoteRet, hasHost)
    ensures Tallied(trace0, trace, 0, 1, Investigations(remoteRet, c.localRet), Forgiven(remoteRet, c.localRet, hasHost), 0)
  {
    var cpu, t1 := LockLocalSlot(c, trace0);
    ret, trace := LocalTail(c, remoteRet, hasHost, cpu, false, t1);
  }

  /** The shared tail from a label on: fallback, lock_local, run_local,
      unlock_and_clean_up and clean_up, in source order. */
  method Finish(c: Collaborators, at: Label, ret0: int, remoteRet: int, hasHost: bool,
                cpu: bool, localCpu: bool, trace0: seq<Event>)
    returns (ret: int, trace: seq<Event>)
    requires Replay(trace0) == Some(Held(cpu, localCpu)) && at != Remote
    requires at == LockLocal || at == CleanUp ==> !cpu && !localCpu
    ensures Replay(trace) == Some({})
    ensures at == Fallback ==>
              ret == (if c.fallbackEnabled then c.localRet else ret0)
              && trace == trace0 + (if hasHost then [Disliked] else []) + Releases(cpu, localCpu)
                          + (if c.fallbackEnabled then LocalRun(c, remoteRet, hasHost) else [])
              && Tallied(trace0, trace, 0, if c.fallbackEnabled then 1 else 0,
                         if c.fallbackEnabled then Investigations(remoteRet, c.localRet) else 0,
                         if c.fallbackEnabled then Forgiven(remoteRet, c.localRet, hasHost) else 0,
                         if hasHost then 1 else 0)
    ensures at == LockLocal ==> ret == c.localRet && trace == trace0 + LocalRun(c, remoteRet, hasHost)
    ensures at == RunLocal ==>
              ret == c.localRet
              && trace == trace0 + [CompileLocal] + Verdict(remoteRet, c.localRet, hasHost) + Releases(cpu, localCpu)
    ensures at == LockLocal || at == RunLocal ==>
              Tallied(trace0, trace, 0, 1, Investigations(remoteRet, c.localRet), Forgiven(remoteRet, c.localRet, hasHost), 0)
    ensures at == UnlockAndCleanUp ==>
              ret == ret0 && trace == trace0 + Releases(cpu, localCpu) && Tallied(trace0, trace, 0, 0, 0, 0, 0)
    ensures at == CleanUp ==> ret == ret0 && trace == trace0
  {
    match at
    case Fallback =>
      var next, t1;
      next, t1 := FallBack(c, hasHost, cpu, localCpu, trace0);
      StepHeld(false, false);
      if next == LockLocal {
        ret, trace := LockedLocalTail(c, remoteRet, hasHost, t1);
      } else {
        ret, trace := ret0, t1;
      }
    case LockLocal =>
      StepHeld(false, false);
      ret, trace := LockedLocalTail(c, remoteRet, hasHost, trace0);
    case RunLocal =>
      ret, trace := LocalTail(c, remoteRet, hasHost, cpu, localCpu, trace0);
    case UnlockAndCleanUp =>
      ret := ret0;
      trace := Release(cpu, localCpu, trace0);
    case CleanUp =>
      StepHeld(false, false);
      ret, trace := ret0, trace0;
  }

  /** A fallback after the remote attempt: the host is blamed once, and the
      result is the local compile's when fallbacks are enabled and ret0
      otherwise. */
  predicate FellBack(c: Collaborators, ending: Ending, trace: seq<Event>, ret0: int, remoteRet: int)
  {
    && Count(trace, Disliked) == 1
    && ending == Returns(if c.fallbackEnabled then c.localRet else ret0)
    && Count(trace, CompileLocal) == (if c.fallbackEnabled then 1 else 0)
    && Count(trace, Investigate) == (if c.fallbackEnabled then Investigations(remoteRet, c.localRet) else 0)
  }

  /** dcc_build_somewhere. */
  method BuildSomewhere(c: Collaborators, inputFname: string, disc: Compile.Discrepancies,
                        discrepancyName: Option<string>, env: Env, remoteAssemble: bool, protoverOf: ProtoverOf)
    returns (ending: Ending, trace: seq<Event>)
    modifies disc, if c.picked.Ok? then {c.picked.value} else {}
    ensures Replay(trace).Some? && (ending.Returns? ==> Replay(trace) == Some({}))
    ensures ending.Exits? ==> GoesRemote(c) && Remotes(trace) == 0
                              && (ending.code == EXIT_BAD_ARGUMENTS
                                  || (ending.code == c.includeServerRet && c.testingIncludeServer))
    // the paths that never reach a server
    ensures !Entered(c) ==>
              ending == Returns(if c.expandRet != 0 then c.expandRet else c.discrepancyRet) && trace == []
    ensures Entered(c) && c.sgLevel != 0 ==> ending == Returns(c.localRet) && trace == [CompileLocal]
    ensures Entered(c) && c.sgLevel == 0 && c.scanRet != 0 ==>
              ending == Returns(c.localRet) && trace == LocalRun(c, 0, false)
    ensures Entered(c) && c.sgLevel == 0 && c.scanRet == 0 && (c.tmpnamRet != 0 || c.picked.Err?) ==>
              ending == Returns(if c.fallbackEnabled then c.localRet
                                else if c.tmpnamRet != 0 then c.tmpnamRet else c.picked.code)
              && trace == (if c.fallbackEnabled then LocalRun(c, 0, false) else [])
    ensures Entered(c) && c.sgLevel == 0 && c.scanRet == 0 && c.tmpnamRet == 0 && c.picked.Ok?
            && c.picked.value.mode == LocalMode ==>
              ending == Returns(c.localRet) && trace == [Lock(Cpu), CompileLocal, Unlock(Cpu)]
    ensures GoesRemote(c) && c.lockLocalCppRet != 0 ==>
              ending == Returns(if c.fallbackEnabled then c.localRet else c.lockLocalCppRet)
              && trace == [Lock(Cpu), Disliked, Unlock(Cpu)] + (if c.fallbackEnabled then LocalRun(c, 0, true) else [])
    ensures GoesRemote(c) && c.lockLocalCppRet == 0 && c.scanIncludes && ending.Returns? ==>
              ending == Returns(c.approximateRet) && trace == [Lock(Cpu), Lock(LocalCpu), Unlock(Cpu), Unlock(LocalCpu)]
    // at most one remote compile, and when none ran there is nothing to weigh
    ensures Remotes(trace) <= 1
    ensures Remotes(trace) == 1 ==> GoesRemote(c) && c.lockLocalCppRet == 0 && !c.scanIncludes && ending.Returns?
    ensures Remotes(trace) == 0 ==> Count(trace, Investigate) == 0 && Count(trace, Enjoyed) == 0
    ensures (GoesRemote(c) && c.lockLocalCppRet == 0 && !c.scanIncludes && old(c.picked.value.cppWhere) == OnClient
             && c.cppRet == 0 && c.stripped.Ok?) ==> Remotes(trace) == 1
    ensures (GoesRemote(c) && c.lockLocalCppRet == 0 && !c.scanIncludes && ending.Returns?
             && c.picked.value.cppWhere == OnServer && c.copyArgvRet == 0) ==> Remotes(trace) == 1
    // what the remote compile's answer leads to
    ensures Remotes(trace) == 1 ==> WeighedAnswer(c, ending, trace)
  {
    var at, ret, hasHost, cpu;
    at, ret, hasHost, cpu, trace := Start(c);
    if at == Remote {
      ending, trace := RemotePath(c, inputFname, disc, discrepancyName, env, remoteAssemble, protoverOf, trace);
    } else {
      ret, trace := Finish(c, at, ret, 0, hasHost, cpu, false, trace);
      ending := Returns(ret);
    }
  }

  /** dcc_build_somewhere once a remote host is chosen and locked: the
      remote attempt and the shared tail after it. */
  method RemotePath(c: Collaborators, inputFname: string, disc: Compile.Discrepancies,
                    discrepancyName: Option<string>, env: Env, remoteAssemble: bool, protoverOf: ProtoverOf,
                    trace0: seq<Event>)
    returns (ending: Ending, trace: seq<Event>)
    requires GoesRemote(c) && trace0 == [Lock(Cpu)]
    modifies disc, c.picked.value
    ensures Replay(trace).Some? && (ending.Returns? ==> Replay(trace) == Some({}))
    ensures ending.Exits? ==> Remotes(trace) == 0
                              && (ending.code == EXIT_BAD_ARGUMENTS
                                  || (ending.code == c.includeServerRet && c.testingIncludeServer))
    ensures c.lockLocalCppRet != 0 ==>
              ending == Returns(if c.fallbackEnabled then c.localRet else c.lockLocalCppRet)
              && trace == [Lock(Cpu), Disliked, Unlock(Cpu)] + (if c.fallbackEnabled then LocalRun(c, 0, true) else [])
    ensures c.lockLocalCppRet == 0 && c.scanIncludes && ending.Returns? ==>
              ending == Returns(c.approximateRet) && trace == [Lock(Cpu), Lock(LocalCpu), Unlock(Cpu), Unlock(LocalCpu)]
    // at most one remote compile, and when none ran there is nothing to weigh
    ensures Remotes(trace) <= 1
    ensures Remotes(trace) == 1 ==> c.lockLocalCppRet == 0 && !c.scanIncludes && ending.Returns?
    ensures Remotes(trace) == 0 ==> Count(trace, Investigate) == 0 && Count(trace, Enjoyed) == 0
    ensures (c.lockLocalCppRet == 0 && !c.scanIncludes && old(c.picked.value.cppWhere) == OnClient
             && c.cppRet == 0 && c.stripped.Ok?) ==> Remotes(trace) == 1
    ensures (c.lockLocalCppRet == 0 && !c.scanIncludes && ending.Returns?
             && c.picked.value.cppWhere == OnServer && c.copyArgvRet == 0) ==> Remotes(trace) == 1
    ensures Remotes(trace) == 1 ==>
              WeighedAnswer(c, ending, trace)
  {
    StepHeld(false, false);
    StepHeld(true, false);
    // trace0 is the first event, so nothing has been counted yet
    var first := Emit([], Lock(Cpu));
    assert first == trace0;
    var at, ret, remoteRet, cpu, localCpu, exit;
    at, ret, remoteRet, cpu, localCpu, exit, trace :=
      TryRemote(c, c.picked.value, inputFname, disc, discrepancyName, env, remoteAssemble, protoverOf, trace0);
    if exit.Some? {
      return Exits(exit.value), trace;
    }
    if Remotes(trace) == 1 {
      ending, trace := Answered(c, at, ret, remoteRet, cpu, trace);
    } else {
      ending, trace := Unanswered(c, at, ret, cpu, localCpu, trace);
    }
  }

  /** The shared tail after a remote attempt that stopped before
      dcc_compile_remote, with the host lock still held. */
  method Unanswered(c: Collaborators, at: Label, ret0: int, cpu: bool, localCpu: bool, trace0: seq<Event>)
    returns (ending: Ending, trace: seq<Event>)
    requires Replay(trace0) == Some(Held(cpu, localCpu)) && cpu
    requires at == Fallback || at == UnlockAndCleanUp
    requires Remotes(trace0) == 0 && Count(trace0, CompileLocal) == 0 && Count(trace0, Investigate) == 0
             && Count(trace0, Disliked) == 0 && Count(trace0, Enjoyed) == 0
    requires c.lockLocalCppRet != 0 ==>
               at == Fallback && ret0 == c.lockLocalCppRet && !localCpu && trace0 == [Lock(Cpu)]
    requires c.lockLocalCppRet == 0 && c.scanIncludes ==>
               at == UnlockAndCleanUp && ret0 == c.approximateRet && localCpu && trace0 == [Lock(Cpu), Lock(LocalCpu)]
    ensures ending.Returns? && Replay(trace) == Some({}) && Remotes(trace) == 0
    ensures Count(trace, Investigate) == 0 && Count(trace, Enjoyed) == 0
    ensures c.lockLocalCppRet != 0 ==>
              ending == Returns(if c.fallbackEnabled then c.localRet else c.lockLocalCppRet)
              && trace == [Lock(Cpu), Disliked, Unlock(Cpu)] + (if c.fallbackEnabled then LocalRun(c, 0, true) else [])
    ensures c.lockLocalCppRet == 0 && c.scanIncludes ==>
              ending == Returns(c.approximateRet) && trace == [Lock(Cpu), Lock(LocalCpu), Unlock(Cpu), Unlock(LocalCpu)]
  {
    var ret;
    ret, trace := Finish(c, at, ret0, 0, true, cpu, localCpu, trace0);
    ending := Returns(ret);
  }

  /** What the remote compile's answer leads to: a failure to get an answer
      falls back; a shown success, or a failure with local retries off,
      ends with the server's status; a failure to show the server's
      messages falls back; a failure below 128 is retried locally and
      weighed against the local result; anything else falls back. */
  predicate WeighedAnswer(c: Collaborators, ending: Ending, trace: seq<Event>)
  {
    && (c.compileRemoteRet != 0 ==>
          FellBack(c, ending, trace, c.compileRemoteRet, 0) && Count(trace, Enjoyed) == 0)
    && (c.compileRemoteRet == 0 && (c.critique == 0 || (c.critique < 128 && c.skipLocalRetry))
        && c.copyStderrOk ==>
          ending == Returns(c.critique) && Count(trace, CompileLocal) == 0 && Count(trace, Disliked) == 0
          && Count(trace, Enjoyed) == 1 && Count(trace, Investigate) == 0)
    && (c.compileRemoteRet == 0 && (c.critique == 0 || (c.critique < 128 && c.skipLocalRetry))
        && !c.copyStderrOk ==>
          FellBack(c, ending, trace, c.critique, 0) && Count(trace, Enjoyed) == 1)
    && (c.compileRemoteRet == 0 && c.critique != 0 && c.critique < 128 && !c.skipLocalRetry ==>
          FellBack(c, ending, trace, c.critique, c.critique)
          && Count(trace, Enjoyed) == 1 + (if c.fallbackEnabled then Forgiven(c.critique, c.localRet, true) else 0))
    && (c.compileRemoteRet == 0 && c.critique >= 128 ==>
          FellBack(c, ending, trace, c.critique, 0) && Count(trace, Enjoyed) == 1)
  }

  /** The shared tail after the one remote compile of a trace. */
  method Answered(c: Collaborators, at: Label, ret0: int, remoteRet: int, cpu: bool, trace0: seq<Event>)
    returns (ending: Ending, trace: seq<Event>)
    requires Replay(trace0) == Some(Held(cpu, false)) && (cpu <==> c.compileRemoteRet != 0)
    requires RemoteOutcome(c, at, ret0, remoteRet)
    requires Remotes(trace0) == 1 && Count(trace0, CompileLocal) == 0 && Count(trace0, Investigate) == 0
             && Count(trace0, Disliked) == 0 && Count(trace0, Enjoyed) == (if cpu then 0 else 1)
    ensures ending.Returns? && Replay(trace) == Some({}) && Remotes(trace) == 1
    ensures WeighedAnswer(c, ending, trace)
  {
    var ret;
    ret, trace := Finish(c, at, ret0, remoteRet, true, cpu, false, trace0);
    ending := Returns(ret);
  }
}

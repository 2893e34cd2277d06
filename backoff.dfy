/** Host backoff (src/backoff.c): a host that failed is avoided for a while.
    The memory of the failure is a "backoff" timefile per host whose
    modification time records when the host was last disliked. */
module Backoff {
  import opened Common
  import opened Hosts

  const BACKOFF_PERIOD_VAR: string := "DISTCC_BACKOFF_PERIOD"

  /** The initial value of the static dcc_backoff_period, in seconds. */
  const DEFAULT_BACKOFF_PERIOD: int := 60

  /** A host's "backoff" timefile as dcc_check_timefile reports it
      (timefile.c is not part of this model): missing, present with a
      modification time, or unreadable with an error code. */
  datatype Timefile = Missing | Stamped(mtime: int) | Unreadable(err: int)

  /** The timefiles on disk, by host definition string. */
  type Timefiles = map<string, Timefile>

  function TimefileOf(files: Timefiles, h: HostDef): Timefile
  {
    if h.hostdefString in files then files[h.hostdefString] else Missing
  }

  /** DISTCC_BACKOFF_PERIOD is set and reads as 0: backoff files are not
      managed at all. */
  predicate BackoffDisabled(env: Env)
  {
    BACKOFF_PERIOD_VAR in env && Atoi(env[BACKOFF_PERIOD_VAR]) == 0
  }

  /** dcc_check_backoff: a read error passes through; otherwise the host is
      busy while fewer than period seconds have passed since the mark. A
      missing timefile reads as modification time 0. */
  function CheckBackoff(files: Timefiles, h: HostDef, now: int, period: int): int
  {
    match TimefileOf(files, h)
    case Unreadable(err) => err
    case Missing => if now < period then EXIT_BUSY else 0
    case Stamped(mtime) => if now - mtime < period then EXIT_BUSY else 0
  }

  /** The check reports EXIT_BUSY exactly inside the period after the mark,
      passes otherwise, and hands a read error back unchanged. */
  lemma CheckBackoffCases(files: Timefiles, h: HostDef, now: int, period: int)
    ensures var t := TimefileOf(files, h);
      var r := CheckBackoff(files, h, now, period);
      && (t.Unreadable? ==> r == t.err)
      && (t.Stamped? ==> (r == EXIT_BUSY <==> now - t.mtime < period) && (r == 0 <==> now - t.mtime >= period))
      && (t.Missing? ==> (r == EXIT_BUSY <==> now < period) && (r == 0 <==> now >= period))
  {
  }

  /** The hosts of a list that satisfy pass, in list order. */
  function Keep(hosts: seq<HostDef>, pass: HostDef -> bool): (r: seq<HostDef>)
    ensures |r| <= |hosts|
    decreases |hosts|
  {
    if |hosts| == 0 then []
    else
      var last := hosts[|hosts| - 1];
      Keep(hosts[..|hosts| - 1], pass) + (if pass(last) then [last] else [])
  }

  /** The hosts of a list whose backoff check passes. */
  function Survivors(hosts: seq<HostDef>, files: Timefiles, now: int, period: int): seq<HostDef>
  {
    Keep(hosts, Passes(files, now, period))
  }

  function Passes(files: Timefiles, now: int, period: int): HostDef -> bool
  {
    (h: HostDef) => CheckBackoff(files, h, now, period) == 0
  }

  /** The process-wide backoff state: the static period and the timefiles. */
  class BackoffState {
    var period: int
    var files: Timefiles

    constructor (files: Timefiles)
      ensures period == DEFAULT_BACKOFF_PERIOD && this.files == files
    {
      period := DEFAULT_BACKOFF_PERIOD;
      this.files := files;
    }

    /** dcc_enjoyed_host: forget the host's failure by removing its
        timefile, unless backoff is switched off. removeRet is what
        dcc_remove_timefile reports; on an error the file stays. */
    method EnjoyedHost(h: HostDef, env: Env, removeRet: int) returns (ret: int)
      modifies this
      ensures period == old(period)
      ensures BackoffDisabled(env) ==> ret == 0 && files == old(files)
      ensures !BackoffDisabled(env) ==> ret == removeRet
      ensures !BackoffDisabled(env) && removeRet == 0 ==> files == old(files) - {h.hostdefString}
      ensures !BackoffDisabled(env) && removeRet != 0 ==> files == old(files)
    {
      if BACKOFF_PERIOD_VAR in env && Atoi(env[BACKOFF_PERIOD_VAR]) == 0 {
        return 0;
      }
      if removeRet == 0 {
        files := files - {h.hostdefString};
      }
      return removeRet;
    }

    /** dcc_disliked_host: mark the host's timefile with the current time,
        unless backoff is switched off. markRet is what dcc_mark_timefile
        reports; on an error the file stays. */
    method DislikedHost(h: HostDef, env: Env, now: int, markRet: int) returns (ret: int)
      modifies this
      ensures period == old(period)
      ensures BackoffDisabled(env) ==> ret == 0 && files == old(files)
      ensures !BackoffDisabled(env) ==> ret == markRet
      ensures !BackoffDisabled(env) && markRet == 0 ==> files == old(files)[h.hostdefString := Stamped(now)]
      ensures !BackoffDisabled(env) && markRet != 0 ==> files == old(files)
    {
      if BACKOFF_PERIOD_VAR in env && Atoi(env[BACKOFF_PERIOD_VAR]) == 0 {
        return 0;
      }
      if markRet == 0 {
        files := files[h.hostdefString := Stamped(now)];
      }
      return markRet;
    }

    /** dcc_remove_disliked: take the period from the environment when it is
        set; with period 0 leave the list alone, otherwise unlink every
        host whose check fails. */
    method RemoveDisliked(hosts: seq<HostDef>, env: Env, now: int) returns (ret: int, kept: seq<HostDef>)
      modifies this
      ensures ret == 0 && files == old(files)
      ensures period == (if BACKOFF_PERIOD_VAR in env then Atoi(env[BACKOFF_PERIOD_VAR]) else old(period))
      ensures period == 0 ==> kept == hosts
      ensures period != 0 ==> kept == Survivors(hosts, files, now, period)
    {
      if BACKOFF_PERIOD_VAR in env {
        period := Atoi(env[BACKOFF_PERIOD_VAR]);
      }
      if period == 0 {
        return 0, hosts;
      }
      var fs, pd := files, period;
      ghost var pass := Passes(fs, now, pd);
      kept := [];
      var i := 0;
      while i < |hosts|
        invariant 0 <= i <= |hosts|
        invariant kept == Keep(hosts[..i], pass)
      {
        assert hosts[..i + 1][..i] == hosts[..i];
        if CheckBackoff(fs, hosts[i], now, pd) == 0 {
          kept := kept + [hosts[i]];
        }
        i := i + 1;
      }
      assert hosts[..i] == hosts;
      return 0, kept;
    }
  }

  /** Filtering keeps exactly the hosts that pass, taken in list order:
      nothing is added, reordered or duplicated. */
  lemma {:induction false} KeepSelect(hosts: seq<HostDef>, pass: HostDef -> bool) returns (idx: seq<nat>)
    ensures Selects(idx, Keep(hosts, pass), hosts)
    ensures forall i :: 0 <= i < |hosts| ==> (i in idx <==> pass(hosts[i]))
    decreases |hosts|
  {
    if |hosts| == 0 {
      idx := [];
    } else {
      var n := |hosts| - 1;
      var init := hosts[..n];
      var prev := KeepSelect(init, pass);
      assert Keep(hosts, pass) == Keep(init, pass) + (if pass(hosts[n]) then [hosts[n]] else []);
      idx := if pass(hosts[n]) then prev + [n] else prev;
      SelectsSnoc(prev, Keep(init, pass), hosts, pass(hosts[n]));
      forall i | 0 <= i < |hosts|
        ensures i in idx <==> pass(hosts[i])
      {
        if i < n {
          assert init[i] == hosts[i];
          assert i in idx <==> i in prev;
        } else {
          assert n !in prev;
        }
      }
    }
  }

  /** idx picks out, in increasing order, the positions of hosts that make
      up kept. */
  predicate Selects(idx: seq<nat>, kept: seq<HostDef>, hosts: seq<HostDef>)
  {
    && |idx| == |kept|
    && (forall j :: 0 <= j < |idx| ==> idx[j] < |hosts| && kept[j] == hosts[idx[j]])
    && (forall j, k :: 0 <= j < k < |idx| ==> idx[j] < idx[k])
  }

  lemma SelectsSnoc(idx: seq<nat>, kept: seq<HostDef>, hosts: seq<HostDef>, take: bool)
    requires |hosts| > 0 && Selects(idx, kept, hosts[..|hosts| - 1])
    ensures take ==> Selects(idx + [|hosts| - 1], kept + [hosts[|hosts| - 1]], hosts)
    ensures !take ==> Selects(idx, kept, hosts)
  {
  }

  /** A host just disliked stays out of every list for a whole period. */
  lemma DislikedHostIsSkipped(files: Timefiles, h: HostDef, marked: int, now: int, period: int)
    requires now - marked < period
    ensures CheckBackoff(files[h.hostdefString := Stamped(marked)], h, now, period) == EXIT_BUSY
  {
  }

  /** A host just enjoyed passes the check once a period has elapsed since
      the epoch. */
  lemma EnjoyedHostIsKept(files: Timefiles, h: HostDef, now: int, period: int)
    requires now >= period
    ensures CheckBackoff(files - {h.hostdefString}, h, now, period) == 0
  {
  }
}

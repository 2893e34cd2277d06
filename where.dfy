/** Choosing where to compile (src/where.c): take the host list, drop the
    hosts in backoff, and lock the first free (host, slot) pair, trying
    slot 0 on every host before slot 1 on any of them.

    dcc_lock_host (lock.c, not part of this model) is an oracle: for each
    pass over the pairs the caller supplies its answer for every pair,
    0 when the lock was taken, EXIT_BUSY when another process holds it,
    any other value an error. */
module Where {
  import opened Common
  import opened Hosts
  import Backoff
  import State

  /** No slot index at or above this is ever tried. */
  const SLOT_LIMIT: nat := 50

  const PAUSE_VAR: string := "DISTCC_PAUSE_TIME_MSEC"
  const DEFAULT_PAUSE_MS: nat := 1000
  /** The range of a C unsigned int. */
  const UINT_RANGE: nat := 0x1_0000_0000

  type LockOracle = (HostDef, nat) -> int

  /** A (host index, slot index) pair. */
  datatype Candidate = Candidate(hostIndex: nat, slot: nat)

  /** The pairs for one slot index, from host index from on, in list order. */
  function SlotRow(hosts: seq<HostDef>, slot: nat, from: nat): seq<Candidate>
    requires from <= |hosts|
    decreases |hosts| - from
  {
    if from == |hosts| then []
    else if slot < hosts[from].nSlots then [Candidate(from, slot)] + SlotRow(hosts, slot, from + 1)
    else SlotRow(hosts, slot, from + 1)
  }

  /** The pairs for slot indexes slot up to SLOT_LIMIT - 1. */
  function CandidatesFrom(hosts: seq<HostDef>, slot: nat): seq<Candidate>
    decreases SLOT_LIMIT - slot
  {
    if slot >= SLOT_LIMIT then []
    else SlotRow(hosts, slot, 0) + CandidatesFrom(hosts, slot + 1)
  }

  /** Every pair one pass of dcc_lock_one tries, in the order it tries them. */
  function Candidates(hosts: seq<HostDef>): seq<Candidate>
  {
    CandidatesFrom(hosts, 0)
  }

  /** The lock answer for a pair (pairs outside the list never occur in a
      pass; they read as busy). */
  function LockAt(hosts: seq<HostDef>, lock: LockOracle, c: Candidate): int
  {
    if c.hostIndex < |hosts| then lock(hosts[c.hostIndex], c.slot) else EXIT_BUSY
  }

  /** How one pass ends. */
  datatype PassResult = Locked(host: HostDef, hostIndex: nat, slot: nat) | AllBusy | LockError(code: int)

  function Decision(hosts: seq<HostDef>, lock: LockOracle, c: Candidate): PassResult
    requires LockAt(hosts, lock, c) != EXIT_BUSY
  {
    var r := LockAt(hosts, lock, c);
    if r == 0 then Locked(hosts[c.hostIndex], c.hostIndex, c.slot) else LockError(r)
  }

  /** The pass ends at the first pair whose lock is not busy: taken, or an
      error handed back unchanged. */
  function FirstDecisive(cands: seq<Candidate>, hosts: seq<HostDef>, lock: LockOracle): PassResult
  {
    if |cands| == 0 then AllBusy
    else if LockAt(hosts, lock, cands[0]) == EXIT_BUSY then FirstDecisive(cands[1..], hosts, lock)
    else Decision(hosts, lock, cands[0])
  }

  lemma FirstDecisiveCons(c: Candidate, rest: seq<Candidate>, hosts: seq<HostDef>, lock: LockOracle)
    ensures LockAt(hosts, lock, c) == EXIT_BUSY ==>
              FirstDecisive([c] + rest, hosts, lock) == FirstDecisive(rest, hosts, lock)
    ensures LockAt(hosts, lock, c) != EXIT_BUSY ==>
              FirstDecisive([c] + rest, hosts, lock) == Decision(hosts, lock, c)
  {
    assert ([c] + rest)[0] == c && ([c] + rest)[1..] == rest;
  }

  /** Every pair of r has slot index slot, a host from from on that has
      that many slots, and the hosts appear in increasing list position. */
  predicate RowShaped(hosts: seq<HostDef>, slot: nat, from: nat, r: seq<Candidate>)
  {
    && (forall k :: 0 <= k < |r| ==>
          r[k].slot == slot && from <= r[k].hostIndex < |hosts| && slot < hosts[r[k].hostIndex].nSlots)
    && (forall j, k :: 0 <= j < k < |r| ==> r[j].hostIndex < r[k].hostIndex)
  }

  lemma {:induction false} SlotRowShape(hosts: seq<HostDef>, slot: nat, from: nat)
    requires from <= |hosts|
    ensures RowShaped(hosts, slot, from, SlotRow(hosts, slot, from))
    decreases |hosts| - from
  {
    if from < |hosts| {
      SlotRowShape(hosts, slot, from + 1);
      var rest := SlotRow(hosts, slot, from + 1);
      assert RowShaped(hosts, slot, from + 1, rest);
      if slot < hosts[from].nSlots {
        var r := [Candidate(from, slot)] + rest;
        assert forall k :: 1 <= k < |r| ==> r[k] == rest[k - 1];
      }
    }
  }

  /** Slot index first, list position second. */
  predicate InPassOrder(c: seq<Candidate>)
  {
    forall j, k :: 0 <= j < k < |c| ==>
      c[j].slot < c[k].slot || (c[j].slot == c[k].slot && c[j].hostIndex < c[k].hostIndex)
  }

  /** The order of a pass: every host at slot index i, in list order, before
      any host at slot index i + 1. */
  lemma {:induction false} CandidatesOrder(hosts: seq<HostDef>, slot: nat)
    ensures InPassOrder(CandidatesFrom(hosts, slot))
    decreases SLOT_LIMIT - slot
  {
    if slot < SLOT_LIMIT {
      var row := SlotRow(hosts, slot, 0);
      var rest := CandidatesFrom(hosts, slot + 1);
      CandidatesOrder(hosts, slot + 1);
      SlotRowShape(hosts, slot, 0);
      assert RowShaped(hosts, slot, 0, row);
      CandidatesCoverAll(hosts, slot + 1);
      var c := CandidatesFrom(hosts, slot);
      assert c == row + rest;
      forall j, k | 0 <= j < k < |c|
        ensures c[j].slot < c[k].slot || (c[j].slot == c[k].slot && c[j].hostIndex < c[k].hostIndex)
      {
        if k < |row| {
          assert c[j] == row[j] && c[k] == row[k];
        } else if j < |row| {
          assert c[j] == row[j] && c[k] == rest[k - |row|];
          assert c[j].slot == slot && c[k].slot >= slot + 1;
        } else {
          assert c[j] == rest[j - |row|] && c[k] == rest[k - |row|];
        }
      }
    }
  }

  /** A pair is tried exactly when its slot index is below both the host's
      slot count and SLOT_LIMIT. */
  lemma {:induction false} SlotRowCovers(hosts: seq<HostDef>, slot: nat, from: nat, h: nat)
    requires from <= h < |hosts| && slot < hosts[h].nSlots
    ensures Candidate(h, slot) in SlotRow(hosts, slot, from)
    decreases |hosts| - from
  {
    if from < h {
      SlotRowCovers(hosts, slot, from + 1, h);
    }
  }

  /** The pairs of a row are exactly the hosts with that many slots. */
  lemma RowMembers(hosts: seq<HostDef>, slot: nat, c: Candidate)
    ensures c in SlotRow(hosts, slot, 0) <==>
              c.hostIndex < |hosts| && c.slot == slot && slot < hosts[c.hostIndex].nSlots
  {
    var row := SlotRow(hosts, slot, 0);
    SlotRowShape(hosts, slot, 0);
    assert RowShaped(hosts, slot, 0, row);
    if c in row {
      var k :| 0 <= k < |row| && row[k] == c;
    }
    if c.hostIndex < |hosts| && c.slot == slot && slot < hosts[c.hostIndex].nSlots {
      SlotRowCovers(hosts, slot, 0, c.hostIndex);
    }
  }

  lemma {:induction false} CandidatesCover(hosts: seq<HostDef>, slot: nat, c: Candidate)
    ensures c in CandidatesFrom(hosts, slot) <==>
              c.hostIndex < |hosts| && slot <= c.slot < SLOT_LIMIT && c.slot < hosts[c.hostIndex].nSlots
    decreases SLOT_LIMIT - slot
  {
    if slot < SLOT_LIMIT {
      var row := SlotRow(hosts, slot, 0);
      var rest := CandidatesFrom(hosts, slot + 1);
      assert CandidatesFrom(hosts, slot) == row + rest;
      CandidatesCover(hosts, slot + 1, c);
      RowMembers(hosts, slot, c);
      assert c in row + rest <==> c in row || c in rest;
    }
  }

  lemma CandidatesCoverAll(hosts: seq<HostDef>, slot: nat)
    ensures forall k :: 0 <= k < |CandidatesFrom(hosts, slot)| ==> CandidatesFrom(hosts, slot)[k].slot >= slot
  {
    forall k | 0 <= k < |CandidatesFrom(hosts, slot)|
      ensures CandidatesFrom(hosts, slot)[k].slot >= slot
    {
      CandidatesCover(hosts, slot, CandidatesFrom(hosts, slot)[k]);
    }
  }

  /** What a pass returns: all pairs busy, or the first pair that was not
      busy, every pair before it having been busy. */
  lemma {:induction false} FirstDecisiveSpec(cands: seq<Candidate>, hosts: seq<HostDef>, lock: LockOracle)
    ensures FirstDecisive(cands, hosts, lock) == AllBusy <==>
              forall k :: 0 <= k < |cands| ==> LockAt(hosts, lock, cands[k]) == EXIT_BUSY
    ensures FirstDecisive(cands, hosts, lock) != AllBusy ==>
              exists p :: 0 <= p < |cands| && LockAt(hosts, lock, cands[p]) != EXIT_BUSY
                && (forall k :: 0 <= k < p ==> LockAt(hosts, lock, cands[k]) == EXIT_BUSY)
                && FirstDecisive(cands, hosts, lock) == Decision(hosts, lock, cands[p])
    decreases |cands|
  {
    if |cands| > 0 && LockAt(hosts, lock, cands[0]) == EXIT_BUSY {
      var tail := cands[1..];
      FirstDecisiveSpec(tail, hosts, lock);
      if FirstDecisive(tail, hosts, lock) != AllBusy {
        var p :| 0 <= p < |tail| && LockAt(hosts, lock, tail[p]) != EXIT_BUSY
                 && (forall k :: 0 <= k < p ==> LockAt(hosts, lock, tail[k]) == EXIT_BUSY)
                 && FirstDecisive(tail, hosts, lock) == Decision(hosts, lock, tail[p]);
        assert cands[p + 1] == tail[p];
        assert forall k :: 1 <= k < p + 1 ==> cands[k] == tail[k - 1];
      } else {
        assert forall k :: 1 <= k < |cands| ==> cands[k] == tail[k - 1];
      }
    } else if |cands| > 0 {
      assert LockAt(hosts, lock, cands[0]) != EXIT_BUSY;
    }
  }

  /** The outcome of one pass over every pair. */
  function PassOutcome(hosts: seq<HostDef>, lock: LockOracle): PassResult
  {
    FirstDecisive(Candidates(hosts), hosts, lock)
  }

  /** One turn of the inner loop, at host h for slot index slot. */
  lemma RowStep(hosts: seq<HostDef>, slot: nat, h: nat, rest: seq<Candidate>, lock: LockOracle)
    requires h < |hosts|
    ensures slot >= hosts[h].nSlots ==> SlotRow(hosts, slot, h) == SlotRow(hosts, slot, h + 1)
    ensures slot < hosts[h].nSlots && lock(hosts[h], slot) == EXIT_BUSY ==>
              FirstDecisive(SlotRow(hosts, slot, h) + rest, hosts, lock)
              == FirstDecisive(SlotRow(hosts, slot, h + 1) + rest, hosts, lock)
    ensures slot < hosts[h].nSlots && lock(hosts[h], slot) != EXIT_BUSY ==>
              FirstDecisive(SlotRow(hosts, slot, h) + rest, hosts, lock)
              == (if lock(hosts[h], slot) == 0 then Locked(hosts[h], h, slot) else LockError(lock(hosts[h], slot)))
  {
    if slot < hosts[h].nSlots {
      var c := Candidate(h, slot);
      assert SlotRow(hosts, slot, h) + rest == [c] + (SlotRow(hosts, slot, h + 1) + rest);
      FirstDecisiveCons(c, SlotRow(hosts, slot, h + 1) + rest, hosts, lock);
    }
  }

  /** The inner loop of dcc_lock_one: the hosts in list order for one slot
      index. It stops at the first answer that is not busy; AllBusy means
      the pass goes on to the pairs in rest. */
  method TrySlot(hosts: seq<HostDef>, slot: nat, ghost rest: seq<Candidate>, lock: LockOracle)
    returns (r: PassResult)
    ensures r.AllBusy? ==>
              FirstDecisive(SlotRow(hosts, slot, 0) + rest, hosts, lock) == FirstDecisive(rest, hosts, lock)
    ensures !r.AllBusy? ==> r == FirstDecisive(SlotRow(hosts, slot, 0) + rest, hosts, lock)
  {
    ghost var goal := FirstDecisive(SlotRow(hosts, slot, 0) + rest, hosts, lock);
    var h := 0;
    while h < |hosts|
      invariant h <= |hosts|
      invariant goal == FirstDecisive(SlotRow(hosts, slot, h) + rest, hosts, lock)
    {
      RowStep(hosts, slot, h, rest, lock);
      if slot >= hosts[h].nSlots {
        h := h + 1;
        continue;
      }
      var ret := lock(hosts[h], slot);
      if ret == 0 {
        return Locked(hosts[h], h, slot);
      } else if ret != EXIT_BUSY {
        return LockError(ret);
      }
      h := h + 1;
    }
    assert SlotRow(hosts, slot, h) + rest == rest;
    return AllBusy;
  }

  /** One pass of the pairs, as the two nested loops of dcc_lock_one run it. */
  method LockOnePass(hosts: seq<HostDef>, lock: LockOracle) returns (r: PassResult)
    ensures r == PassOutcome(hosts, lock)
  {
    ghost var goal := PassOutcome(hosts, lock);
    var iCpu: nat := 0;
    while iCpu < SLOT_LIMIT
      invariant iCpu <= SLOT_LIMIT
      invariant goal == FirstDecisive(CandidatesFrom(hosts, iCpu), hosts, lock)
    {
      r := TrySlot(hosts, iCpu, CandidatesFrom(hosts, iCpu + 1), lock);
      if !r.AllBusy? {
        return;
      }
      iCpu := iCpu + 1;
    }
    return AllBusy;
  }

  /** dcc_lock_pause: the usleep argument in microseconds, or none when the
      pause is 0. The millisecond count is a C unsigned int and so is the
      product, so both wrap modulo 2^32. */
  function PauseMillis(env: Env): (ms: nat)
    ensures ms < UINT_RANGE
    ensures PAUSE_VAR !in env ==> ms == DEFAULT_PAUSE_MS
    ensures PAUSE_VAR in env && 0 <= Atoi(env[PAUSE_VAR]) < UINT_RANGE ==> ms == Atoi(env[PAUSE_VAR])
  {
    if PAUSE_VAR in env then Atoi(env[PAUSE_VAR]) % UINT_RANGE else DEFAULT_PAUSE_MS
  }

  function PauseMicros(env: Env): (us: Option<nat>)
    ensures us.None? <==> PauseMillis(env) == 0
    ensures us.Some? ==> us.value < UINT_RANGE
    ensures PAUSE_VAR !in env ==> us == Some(1_000_000)
  {
    var ms := PauseMillis(env);
    if ms > 0 then Some((ms * 1000) % UINT_RANGE) else None
  }

  /** The state record a slot is noted in: local for "localhost". */
  function SlotTarget(h: HostDef): State.Target
  {
    if h.hostname == "localhost" then State.Local else State.Remote
  }

  /** The retry loop of dcc_lock_one. The endless loop is bounded by the
      passes the caller supplies, one lock oracle per pass: a pass that
      finds every pair busy is followed by the same pause and a new pass
      from slot 0. AllBusy means the supplied passes ran out while still
      waiting. */
  method RetryPasses(hosts: seq<HostDef>, passes: seq<LockOracle>, env: Env)
    returns (r: PassResult, pauses: seq<Option<nat>>)
    ensures |pauses| <= |passes| && BusyPasses(hosts, passes, pauses, env)
    ensures r.AllBusy? <==> |pauses| == |passes|
    ensures !r.AllBusy? ==> r == PassOutcome(hosts, passes[|pauses|])
  {
    pauses := [];
    var pause := PauseMicros(env);
    var k := 0;
    while k < |passes|
      invariant k <= |passes| && |pauses| == k
      invariant BusyPasses(hosts, passes, pauses, env)
    {
      r := LockOnePass(hosts, passes[k]);
      if !r.AllBusy? {
        return;
      }
      BusyPassesSnoc(hosts, passes, pauses, env);
      pauses := pauses + [pause];
      k := k + 1;
    }
    r := AllBusy;
  }

  /** The first |pauses| passes each found every pair busy, and each was
      followed by the configured pause. */
  predicate BusyPasses(hosts: seq<HostDef>, passes: seq<LockOracle>, pauses: seq<Option<nat>>, env: Env)
  {
    && |pauses| <= |passes|
    && (forall k :: 0 <= k < |pauses| ==> pauses[k] == PauseMicros(env))
    && (forall k :: 0 <= k < |pauses| ==> PassOutcome(hosts, passes[k]) == AllBusy)
  }

  /** One more pass that found every pair busy, and its pause. */
  lemma BusyPassesSnoc(hosts: seq<HostDef>, passes: seq<LockOracle>, pauses: seq<Option<nat>>, env: Env)
    requires BusyPasses(hosts, passes, pauses, env) && |pauses| < |passes|
    requires PassOutcome(hosts, passes[|pauses|]) == AllBusy
    ensures BusyPasses(hosts, passes, pauses + [PauseMicros(env)], env)
  {
  }

  /** How a lock leaves the state records: once a pair is locked its slot
      is noted in the record chosen for its host, local for "localhost",
      and nothing else changes; otherwise nothing changes at all. */
  predicate SlotNoted(c: Choice, my0: Option<State.Which>, local0: State.TaskRecord, remote0: State.TaskRecord,
                      my: Option<State.Which>, local: State.TaskRecord, remote: State.TaskRecord)
  {
    if c.Chosen? then
      if SlotTarget(c.host) == State.Local then
        my == Some(State.LocalRecord) && local == local0.(slot := c.slot) && remote == remote0
      else
        my == Some(State.RemoteRecord) && remote == remote0.(slot := c.slot) && local == local0
    else
      my == my0 && local == local0 && remote == remote0
  }

  /** dcc_lock_one: retry until a pair is locked or an error occurs; the
      slot taken is noted in the state record for the host. */
  method LockOne(hosts: seq<HostDef>, passes: seq<LockOracle>, env: Env, records: State.StateRecords)
    returns (r: PassResult, pauses: seq<Option<nat>>)
    modifies records
    ensures |pauses| <= |passes| && BusyPasses(hosts, passes, pauses, env)
    ensures r.AllBusy? <==> |pauses| == |passes|
    ensures !r.AllBusy? ==> r == PassOutcome(hosts, passes[|pauses|])
    ensures r.Locked? ==> r.hostIndex < |hosts| && r.host == hosts[r.hostIndex]
    ensures r.Locked? ==> r.slot < SLOT_LIMIT && r.slot < r.host.nSlots
    ensures SlotNoted(ChoiceOf(r), old(records.my), old(records.local), old(records.remote),
                      records.my, records.local, records.remote)
    ensures records.published == old(records.published)
  {
    r, pauses := RetryPasses(hosts, passes, env);
    if r.Locked? {
      LockedPair(hosts, passes[|pauses|]);
      records.NoteStateSlot(r.slot, SlotTarget(r.host));
    }
  }

  /** A pass locks one of the pairs it was given, on the host at that
      pair's position. */
  lemma {:induction false} LockedIsCandidate(cands: seq<Candidate>, hosts: seq<HostDef>, lock: LockOracle)
    requires FirstDecisive(cands, hosts, lock).Locked?
    ensures var r := FirstDecisive(cands, hosts, lock);
      Candidate(r.hostIndex, r.slot) in cands && r.hostIndex < |hosts| && r.host == hosts[r.hostIndex]
    decreases |cands|
  {
    if LockAt(hosts, lock, cands[0]) == EXIT_BUSY {
      LockedIsCandidate(cands[1..], hosts, lock);
      assert cands == [cands[0]] + cands[1..];
    }
  }

  /** A pair a pass locks is one it was allowed to try. */
  lemma LockedPair(hosts: seq<HostDef>, lock: LockOracle)
    requires PassOutcome(hosts, lock).Locked?
    ensures var r := PassOutcome(hosts, lock);
      r.hostIndex < |hosts| && r.host == hosts[r.hostIndex] && r.slot < SLOT_LIMIT && r.slot < r.host.nSlots
  {
    var c := Candidates(hosts);
    LockedIsCandidate(c, hosts, lock);
    var r := FirstDecisive(c, hosts, lock);
    CandidatesCover(hosts, 0, Candidate(r.hostIndex, r.slot));
  }

  /** How choosing a host ends. */
  datatype Choice = Chosen(host: HostDef, slot: nat) | NotChosen(code: int) | StillWaiting

  function ChoiceOf(r: PassResult): Choice
  {
    match r
    case Locked(h, _, s) => Chosen(h, s)
    case LockError(e) => NotChosen(e)
    case AllBusy => StillWaiting
  }

  /** The list dcc_remove_disliked leaves, given the period it ends up with. */
  function AfterBackoff(hosts: seq<HostDef>, files: Backoff.Timefiles, now: int, period: int): seq<HostDef>
  {
    if period == 0 then hosts else Backoff.Survivors(hosts, files, now, period)
  }

  /** dcc_pick_host_from_list_and_lock_it. hostlist is what dcc_get_hostlist
      produced, or none when it failed. */
  method PickHostFromListAndLockIt(hostlist: Option<seq<HostDef>>, backoff: Backoff.BackoffState, env: Env,
                                   now: int, passes: seq<LockOracle>, records: State.StateRecords)
    returns (c: Choice, pauses: seq<Option<nat>>)
    modifies backoff, records
    ensures backoff.files == old(backoff.files)
    ensures hostlist.None? ==> c == NotChosen(EXIT_NO_HOSTS) && pauses == []
    ensures hostlist.Some? ==>
      backoff.period == (if Backoff.BACKOFF_PERIOD_VAR in env then Atoi(env[Backoff.BACKOFF_PERIOD_VAR])
                         else old(backoff.period))
    ensures hostlist.Some? && AfterBackoff(hostlist.value, backoff.files, now, backoff.period) == [] ==>
      c == NotChosen(EXIT_NO_HOSTS) && pauses == []
    ensures c.NotChosen? && c.code != EXIT_NO_HOSTS ==> c.code != 0 && c.code != EXIT_BUSY
    ensures c.Chosen? ==> hostlist.Some? && c.host in AfterBackoff(hostlist.value, backoff.files, now, backoff.period)
    ensures c.Chosen? ==> c.slot < SLOT_LIMIT && c.slot < c.host.nSlots
    ensures hostlist.Some? && AfterBackoff(hostlist.value, backoff.files, now, backoff.period) != [] ==>
      Waited(AfterBackoff(hostlist.value, backoff.files, now, backoff.period), passes, env, c, pauses)
    ensures SlotNoted(c, old(records.my), old(records.local), old(records.remote),
                      records.my, records.local, records.remote)
    ensures records.published == old(records.published)
  {
    if hostlist.None? {
      return NotChosen(EXIT_NO_HOSTS), [];
    }
    // dcc_remove_disliked always returns 0, so its error branch is not taken.
    var ret, kept := backoff.RemoveDisliked(hostlist.value, env, now);
    if kept == [] {
      return NotChosen(EXIT_NO_HOSTS), [];
    }
    var r;
    r, pauses := LockOne(kept, passes, env, records);
    if r.LockError? {
      DecisiveError(Candidates(kept), kept, passes[|pauses|]);
    }
    c := ChoiceOf(r);
  }

  /** Choosing from kept ended with c after the busy passes recorded in
      pauses: c is the outcome of the next pass, or still waiting when the
      passes ran out. */
  predicate Waited(kept: seq<HostDef>, passes: seq<LockOracle>, env: Env, c: Choice, pauses: seq<Option<nat>>)
  {
    && BusyPasses(kept, passes, pauses, env)
    && (|pauses| < |passes| ==> c == ChoiceOf(PassOutcome(kept, passes[|pauses|])))
    && (|pauses| == |passes| <==> c.StillWaiting?)
  }

  /** An error a pass reports is neither success nor busy. */
  lemma {:induction false} DecisiveError(cands: seq<Candidate>, hosts: seq<HostDef>, lock: LockOracle)
    ensures FirstDecisive(cands, hosts, lock).LockError? ==>
              FirstDecisive(cands, hosts, lock).code != 0 && FirstDecisive(cands, hosts, lock).code != EXIT_BUSY
    decreases |cands|
  {
    if |cands| > 0 && LockAt(hosts, lock, cands[0]) == EXIT_BUSY {
      DecisiveError(cands[1..], hosts, lock);
    }
  }

  /** dcc_lock_local: lock a slot on the local host definition. */
  method LockLocal(localHost: HostDef, passes: seq<LockOracle>, env: Env, records: State.StateRecords)
    returns (r: PassResult, pauses: seq<Option<nat>>)
    modifies records
    ensures BusyPasses([localHost], passes, pauses, env) && (r.AllBusy? <==> |pauses| == |passes|)
    ensures !r.AllBusy? ==> r == PassOutcome([localHost], passes[|pauses|])
    ensures r.Locked? ==> r.hostIndex == 0 && r.host == localHost && r.slot < SLOT_LIMIT && r.slot < localHost.nSlots
    ensures SlotNoted(ChoiceOf(r), old(records.my), old(records.local), old(records.remote),
                      records.my, records.local, records.remote)
    ensures records.published == old(records.published)
  {
    r, pauses := LockOne([localHost], passes, env, records);
  }

  /** The local record once dcc_lock_one has noted slot for host h. */
  function LocalAfterSlot(h: HostDef, slot: nat, local0: State.TaskRecord): State.TaskRecord
  {
    if SlotTarget(h) == State.Local then local0.(slot := slot) else local0
  }

  /** dcc_lock_local_cpp: lock a slot for local preprocessing and, when that
      worked, note the preprocessing phase in the local record. */
  method LockLocalCpp(localCpp: HostDef, passes: seq<LockOracle>, env: Env, records: State.StateRecords,
                      io: State.StateIo)
    returns (r: PassResult, pauses: seq<Option<nat>>)
    modifies records
    requires records.Valid()
    ensures BusyPasses([localCpp], passes, pauses, env) && (r.AllBusy? <==> |pauses| == |passes|)
    ensures !r.AllBusy? ==> r == PassOutcome([localCpp], passes[|pauses|])
    ensures r.Locked? ==> r.host == localCpp && r.slot < SLOT_LIMIT && r.slot < localCpp.nSlots
    ensures !r.Locked? ==>
      records.my == old(records.my) && records.local == old(records.local) && records.remote == old(records.remote)
      && records.published == old(records.published)
    // the slot goes to the record chosen by host name, the phase to the local record
    ensures r.Locked? ==>
      && records.my == Some(State.LocalRecord)
      && records.remote == (if SlotTarget(localCpp) == State.Remote then old(records.remote).(slot := r.slot)
                            else old(records.remote))
      && records.local.slot == LocalAfterSlot(localCpp, r.slot, old(records.local)).slot
    ensures r.Locked? && io.stateDir.Err? ==>
      records.local == LocalAfterSlot(localCpp, r.slot, old(records.local))
                         .(structSize := records.recordSize, magic := records.magic, cpid := io.pid)
      && records.published == old(records.published)
    ensures r.Locked? && io.stateDir.Ok? ==>
      records.local == records.Noted(LocalAfterSlot(localCpp, r.slot, old(records.local)),
                                     State.Cpp, None, Some(localCpp.hostname), io.pid, io.clockOk)
    ensures r.Locked? && io.stateDir.Ok? && io.clockOk && io.openOk && io.writeRet == 0 ==>
      records.published == old(records.published)[State.StateFilename(io.stateDir.value, io.pid) := records.local]
  {
    r, pauses := LockOne([localCpp], passes, env, records);
    if r.Locked? {
      records.NotedFields(LocalAfterSlot(localCpp, r.slot, old(records.local)),
                          State.Cpp, None, Some(localCpp.hostname), io.pid, io.clockOk);
      var ignored := records.NoteState(State.Cpp, None, Some(localCpp.hostname), State.Local, io);
    }
  }
}

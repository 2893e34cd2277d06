/** Process-state notes for the monitor (src/state.c). The client keeps two
    static records, one for work done locally and one for work sent to a
    server, and a selector that says which of them the next note goes to.
    A note rewrites this process's state file "<state dir>/binstate_<pid>". */
module State {
  import opened Common
  import Filename

  const STATE_PREFIX: string := "binstate_"

  /** enum dcc_phase; any other value of the enumeration's type is Other. */
  datatype Phase = Startup | Blocked | Connect | Cpp | Send | Compile | Receive | Done | Other(code: int)

  /** enum dcc_host: which record a note is about. */
  datatype Target = Local | Remote | UnknownTarget

  /** Which of the two static records the selector points at. */
  datatype Which = LocalRecord | RemoteRecord

  /** struct dcc_task_state: the fields the client fills in. */
  datatype TaskRecord = TaskRecord(structSize: int, magic: int, cpid: int, file: string,
                                   host: string, slot: int, currPhase: Phase)

  /** A zero-filled static record. */
  const EMPTY_RECORD: TaskRecord := TaskRecord(0, 0, 0, "", "", 0, Startup)

  /** dcc_get_phase_name. */
  function PhaseName(p: Phase): (r: string)
    ensures r == "Unknown" <==> p.Other?
  {
    match p
    case Startup => "Startup"
    case Blocked => "Blocked"
    case Compile => "Compile"
    case Cpp => "Preprocess"
    case Connect => "Connect"
    case Send => "Send"
    case Receive => "Receive"
    case Done => "Done"
    case Other(_) => "Unknown"
  }

  /** The monitor can tell the eight phases apart by name. */
  lemma PhaseNamesDistinct(p: Phase, q: Phase)
    requires !p.Other? && !q.Other? && p != q
    ensures PhaseName(p) != PhaseName(q)
  {
  }

  /** strlcpy into a buffer of size bytes (size >= 1): at most size - 1
      characters are kept, then the terminator. */
  function Strlcpy(s: string, size: nat): (r: string)
    requires size >= 1
    ensures |r| < size && r <= s
    ensures |s| < size ==> r == s
    ensures |s| >= size ==> |r| == size - 1
  {
    if |s| < size then s else s[..size - 1]
  }

  /** dcc_get_state_filename once the state directory is known. */
  function StateFilename(dir: string, pid: nat): (r: string)
    ensures |r| > |dir| + 1 + |STATE_PREFIX|
    ensures r[..|dir| + 1 + |STATE_PREFIX|] == dir + "/" + STATE_PREFIX
  {
    dir + "/" + STATE_PREFIX + DecimalString(pid)
  }

  /** The pid can be read back from the state file name, so two processes
      never share a state file. */
  lemma StateFilenamePid(dir: string, pid: nat)
    ensures Atoi(StateFilename(dir, pid)[|dir| + 1 + |STATE_PREFIX|..]) == pid
  {
    var n := StateFilename(dir, pid);
    assert n[|dir| + 1 + |STATE_PREFIX|..] == DecimalString(pid);
    AtoiDecimal(pid);
  }

  lemma StateFilenameInjective(dir: string, p: nat, q: nat)
    requires p != q
    ensures StateFilename(dir, p) != StateFilename(dir, q)
  {
    StateFilenamePid(dir, p);
    StateFilenamePid(dir, q);
  }

  /** direct_my_state: aim the selector at the record for target; for an
      unknown target keep the previous choice, which is none at first. */
  function Directed(prev: Option<Which>, target: Target): (r: Option<Which>)
    ensures target == Local ==> r == Some(LocalRecord)
    ensures target == Remote ==> r == Some(RemoteRecord)
    ensures target == UnknownTarget ==> r == prev
  {
    match target
    case Local => Some(LocalRecord)
    case Remote => Some(RemoteRecord)
    case UnknownTarget => prev
  }

  /** What the operating system answers while a note is written: the state
      directory (or the error finding it), the pid, whether the clock could
      be read, whether the file opened, what the write returned and whether
      an unlink failed for a reason other than a missing file. */
  datatype StateIo = StateIo(stateDir: Result<string>, pid: nat, clockOk: bool, openOk: bool,
                             writeRet: int, unlinkFails: bool)

  /** The two static records, the selector my_state, and the state files as
      a monitor would find them (a file holding a complete record). The
      record size, magic number and buffer capacities are the values of
      the header that declares the record. */
  class StateRecords {
    const recordSize: int
    const magic: int
    const fileCap: nat
    const hostCap: nat
    var local: TaskRecord
    var remote: TaskRecord
    var my: Option<Which>
    var published: map<string, TaskRecord>

    constructor (recordSize: int, magic: int, fileCap: nat, hostCap: nat)
      requires fileCap >= 1 && hostCap >= 1
      ensures this.recordSize == recordSize && this.magic == magic
      ensures this.fileCap == fileCap && this.hostCap == hostCap
      ensures local == EMPTY_RECORD && remote == EMPTY_RECORD && my == None && published == map[]
    {
      this.recordSize := recordSize;
      this.magic := magic;
      this.fileCap := fileCap;
      this.hostCap := hostCap;
      local := EMPTY_RECORD;
      remote := EMPTY_RECORD;
      my := None;
      published := map[];
    }

    predicate Valid()
      reads this
    {
      fileCap >= 1 && hostCap >= 1
    }

    function Selected(): TaskRecord
      reads this
      requires my.Some?
    {
      if my.value == LocalRecord then local else remote
    }

    /** The record after a note's field updates: struct size, magic and
        pid always; the file's basename and the host name only when given,
        each cut to its buffer; the phase only once the clock was read. */
    function Noted(r: TaskRecord, phase: Phase, sourceFile: Option<string>, host: Option<string>,
                   pid: nat, clockOk: bool): TaskRecord
      reads this
      requires Valid()
    {
      var r1 := r.(structSize := recordSize, magic := magic, cpid := pid);
      var r2 := if sourceFile.Some? then r1.(file := Strlcpy(Filename.FindBasename(sourceFile.value), fileCap)) else r1;
      var r3 := if host.Some? then r2.(host := Strlcpy(host.value, hostCap)) else r2;
      if clockOk then r3.(currPhase := phase) else r3
    }

    /** A note sets struct size, magic and pid; it replaces the file name by
        the source file's basename and the host name by the given host only
        when those are given, each cut to fit its buffer; the slot is left
        alone. */
    lemma NotedFields(r: TaskRecord, phase: Phase, sourceFile: Option<string>, host: Option<string>,
                      pid: nat, clockOk: bool)
      requires Valid()
      ensures var n := Noted(r, phase, sourceFile, host, pid, clockOk);
        && n.structSize == recordSize && n.magic == magic && n.cpid == pid && n.slot == r.slot
        && (sourceFile.None? ==> n.file == r.file)
        && (sourceFile.Some? ==> n.file <= Filename.FindBasename(sourceFile.value) && |n.file| < fileCap)
        && (host.None? ==> n.host == r.host)
        && (host.Some? ==> n.host <= host.value && |n.host| < hostCap)
        && (host.Some? && |host.value| < hostCap ==> n.host == host.value)
        && n.currPhase == (if clockOk then phase else r.currPhase)
    {
    }

    /** direct_my_state. */
    method DirectMyState(target: Target) returns (sel: Option<Which>)
      modifies this
      ensures my == Directed(old(my), target) && sel == my
      ensures local == old(local) && remote == old(remote) && published == old(published)
    {
      match target {
        case Local => my := Some(LocalRecord);
        case Remote => my := Some(RemoteRecord);
        case UnknownTarget =>
      }
      sel := my;
    }

    method SetSelected(r: TaskRecord)
      modifies this
      requires my.Some?
      ensures my == old(my) && published == old(published)
      ensures my.value == LocalRecord ==> local == r && remote == old(remote)
      ensures my.value == RemoteRecord ==> remote == r && local == old(local)
    {
      if my.value == LocalRecord {
        local := r;
      } else {
        remote := r;
      }
    }

    /** dcc_note_state_slot: only the slot of the selected record changes;
        the other record is never touched. */
    method NoteStateSlot(slot: int, target: Target)
      modifies this
      ensures my == Directed(old(my), target) && published == old(published)
      ensures my == Some(LocalRecord) ==> local == old(local).(slot := slot) && remote == old(remote)
      ensures my == Some(RemoteRecord) ==> remote == old(remote).(slot := slot) && local == old(local)
      ensures my == None ==> local == old(local) && remote == old(remote)
    {
      var sel := DirectMyState(target);
      if sel.Some? {
        SetSelected(Selected().(slot := slot));
      }
    }

    /** dcc_note_state: with no record selected, -1 and nothing changes.
        Otherwise the selected record is updated field by field up to the
        first failure, and on success the state file holds it. */
    method NoteState(phase: Phase, sourceFile: Option<string>, host: Option<string>, target: Target,
                     io: StateIo) returns (ret: int)
      modifies this
      requires Valid()
      ensures my == Directed(old(my), target)
      ensures my.None? ==> ret == -1 && local == old(local) && remote == old(remote)
      ensures my.None? ==> published == old(published)
      ensures my.Some? && io.stateDir.Err? ==>
        ret == io.stateDir.code && published == old(published)
        && Selected() == (if my.value == LocalRecord then old(local) else old(remote))
             .(structSize := recordSize, magic := magic, cpid := io.pid)
      ensures my.Some? && io.stateDir.Ok? ==>
        Selected() == Noted((if my.value == LocalRecord then old(local) else old(remote)),
                            phase, sourceFile, host, io.pid, io.clockOk)
      ensures my.Some? && io.stateDir.Ok? ==>
        var fname := StateFilename(io.stateDir.value, io.pid);
        && (!io.clockOk ==> ret == EXIT_DISTCC_FAILED && published == old(published))
        && (io.clockOk && !io.openOk ==> ret == EXIT_IO_ERROR && published == old(published))
        && (io.clockOk && io.openOk && io.writeRet != 0 ==>
              ret == io.writeRet && published == old(published) - {fname})
        && (io.clockOk && io.openOk && io.writeRet == 0 ==>
              ret == 0 && published == old(published)[fname := Selected()])
      ensures my.Some? && my.value == LocalRecord ==> remote == old(remote)
      ensures my.Some? && my.value == RemoteRecord ==> local == old(local)
    {
      var sel := DirectMyState(target);
      if sel.None? {
        return -1;
      }
      var r := Selected();
      SetSelected(r.(structSize := recordSize, magic := magic, cpid := io.pid));
      if io.stateDir.Err? {
        return io.stateDir.code;
      }
      ret := WriteNote(r, phase, sourceFile, host, io);
    }

    /** The part of dcc_note_state after the state file name is known. */
    method WriteNote(r: TaskRecord, phase: Phase, sourceFile: Option<string>, host: Option<string>,
                     io: StateIo) returns (ret: int)
      modifies this
      requires Valid() && my.Some? && io.stateDir.Ok?
      ensures my == old(my)
      ensures Selected() == Noted(r, phase, sourceFile, host, io.pid, io.clockOk)
      ensures my.value == LocalRecord ==> remote == old(remote)
      ensures my.value == RemoteRecord ==> local == old(local)
      ensures var fname := StateFilename(io.stateDir.value, io.pid);
        && (!io.clockOk ==> ret == EXIT_DISTCC_FAILED && published == old(published))
        && (io.clockOk && !io.openOk ==> ret == EXIT_IO_ERROR && published == old(published))
        && (io.clockOk && io.openOk && io.writeRet != 0 ==>
              ret == io.writeRet && published == old(published) - {fname})
        && (io.clockOk && io.openOk && io.writeRet == 0 ==>
              ret == 0 && published == old(published)[fname := Selected()])
    {
      var fname := StateFilename(io.stateDir.value, io.pid);
      SetSelected(Noted(r, phase, sourceFile, host, io.pid, io.clockOk));
      if !io.clockOk {
        return EXIT_DISTCC_FAILED;
      }
      if !io.openOk {
        return EXIT_IO_ERROR;
      }
      if io.writeRet != 0 {
        published := published - {fname};
        return io.writeRet;
      }
      published := published[fname := Selected()];
      return 0;
    }

    /** dcc_remove_state_file: unlink this process's state file; a file
        that was never created is fine, and no failure is reported. */
    method RemoveStateFile(io: StateIo)
      modifies this
      ensures local == old(local) && remote == old(remote) && my == old(my)
      ensures io.stateDir.Err? || io.unlinkFails ==> published == old(published)
      ensures io.stateDir.Ok? && !io.unlinkFails ==>
        published == old(published) - {StateFilename(io.stateDir.value, io.pid)}
      ensures io.stateDir.Ok? && !io.unlinkFails ==>
        StateFilename(io.stateDir.value, io.pid) !in published
    {
      if io.stateDir.Err? {
        return;
      }
      if !io.unlinkFails {
        published := published - {StateFilename(io.stateDir.value, io.pid)};
      }
    }
  }
}

/** The helpers of the compile driver (src/compile.c) that decide where
    preprocessing happens when the include server ("pump mode") is in use:
    the discrepancy counter, the demotion rule, and the scan of a .d file
    for a dependency that changed during the build.

    A process exit is written Err(code): it ends the client there and
    then, unlike an ordinary return of an error code. The filesystem is a
    parameter: the sizes of the counter files that exist, the .d file, and
    the change times of the files that stat can see. */
module Compile {
  import opened Common
  import opened Hosts
  import Filename

  const INCLUDE_SERVER_PORT_VAR: string := "INCLUDE_SERVER_PORT"
  const MAX_DISCREPANCY_VAR: string := "DISTCC_MAX_DISCREPANCY"
  const SOCKET_SUFFIX: string := "/socket"
  const DISCREPANCY_SUFFIX: string := "/discrepancy_counter"

  /** The limit used when DISTCC_MAX_DISCREPANCY is unset. */
  const DEFAULT_MAX_DISCREPANCY: int := 1

  /** The variables that pass include directories behind the compiler's
      back. */
  const CPATH_VARS: seq<string> := ["CPATH", "C_INCLUDE_PATH", "CPLUS_INCLUDE_PATH"]

  /** The limit the environment asks for: a positive DISTCC_MAX_DISCREPANCY,
      the default when unset, and an exit with EXIT_BAD_ARGUMENTS for any
      other value. */
  function LimitFromEnv(env: Env): (r: Result<int>)
    ensures r.Ok? ==> r.value >= 1
    ensures r.Err? <==> MAX_DISCREPANCY_VAR in env && Atoi(env[MAX_DISCREPANCY_VAR]) <= 0
    ensures r.Err? ==> r.code == EXIT_BAD_ARGUMENTS
    ensures MAX_DISCREPANCY_VAR !in env ==> r == Ok(DEFAULT_MAX_DISCREPANCY)
  {
    if MAX_DISCREPANCY_VAR in env then
      var n := Atoi(env[MAX_DISCREPANCY_VAR]);
      if n <= 0 then Err(EXIT_BAD_ARGUMENTS) else Ok(n)
    else Ok(DEFAULT_MAX_DISCREPANCY)
  }

  /** dcc_discrepancy_filename: INCLUDE_SERVER_PORT with its "/socket"
      suffix replaced by "/discrepancy_counter", or none when the variable
      is unset or lacks the suffix. */
  function DiscrepancyFilename(env: Env): (r: Option<string>)
  {
    if INCLUDE_SERVER_PORT_VAR !in env then None
    else
      var port := env[INCLUDE_SERVER_PORT_VAR];
      if EndsWith(SOCKET_SUFFIX, port) then Some(port[..|port| - |SOCKET_SUFFIX|] + DISCREPANCY_SUFFIX)
      else None
  }

  /** A counter name exists exactly for a socket path, and it lives in the
      socket's directory. */
  lemma DiscrepancyFilenameSpec(env: Env)
    ensures DiscrepancyFilename(env).Some? <==>
              INCLUDE_SERVER_PORT_VAR in env && EndsWith(SOCKET_SUFFIX, env[INCLUDE_SERVER_PORT_VAR])
    ensures DiscrepancyFilename(env).Some? ==>
      var port := env[INCLUDE_SERVER_PORT_VAR];
      var name := DiscrepancyFilename(env).value;
      && EndsWith(DISCREPANCY_SUFFIX, name)
      && name[..|name| - |DISCREPANCY_SUFFIX|] == port[..|port| - |SOCKET_SUFFIX|]
      && |name| == |port| + |DISCREPANCY_SUFFIX| - |SOCKET_SUFFIX|
  {
    if DiscrepancyFilename(env).Some? {
      var port := env[INCLUDE_SERVER_PORT_VAR];
      var dir := port[..|port| - |SOCKET_SUFFIX|];
      var name := dir + DISCREPANCY_SUFFIX;
      assert name[..|name| - |DISCREPANCY_SUFFIX|] == dir;
      assert name[|name| - |DISCREPANCY_SUFFIX|..] == DISCREPANCY_SUFFIX;
    }
  }

  /** dcc_read_number_discrepancies: the counter's size in bytes, 0 when
      there is no name or stat fails, and INT_MAX for a size that is 0 or
      does not fit in an int. */
  function ReadNumberDiscrepancies(name: Option<string>, sizes: map<string, nat>): (r: int)
    ensures 0 <= r <= INT_MAX
    ensures r == 0 <==> name.None? || name.value !in sizes
    ensures name.Some? && name.value in sizes && 0 < sizes[name.value] <= INT_MAX ==> r == sizes[name.value]
    ensures name.Some? && name.value in sizes && (sizes[name.value] == 0 || sizes[name.value] > INT_MAX) ==>
              r == INT_MAX
  {
    if name.None? || name.value !in sizes then 0
    else
      var size := sizes[name.value];
      if 0 < size <= INT_MAX then size else INT_MAX
  }

  /** The counter size after one more note: a missing file is created,
      and the '@' makes it one byte longer. */
  function SizeAfterNote(name: string, sizes: map<string, nat>): nat
  {
    (if name in sizes then sizes[name] else 0) + 1
  }

  /** fopen in append mode creates a missing file, empty. */
  function Created(name: string, sizes: map<string, nat>): map<string, nat>
  {
    if name in sizes then sizes else sizes[name := 0]
  }

  /** The pump-mode bookkeeping of one client process: the cached limit
      (the static current_setting, 0 until first computed) and the counter
      files on disk. */
  class Discrepancies {
    var cachedLimit: int
    var sizes: map<string, nat>

    constructor (sizes: map<string, nat>)
      ensures cachedLimit == 0 && this.sizes == sizes
    {
      cachedLimit := 0;
      this.sizes := sizes;
    }

    /** dcc_get_max_discrepancies_before_demotion: a positive cached value
        is returned as is; otherwise the limit is read from the environment
        and cached, or the process exits. */
    method MaxDiscrepancies(env: Env) returns (r: Result<int>)
      modifies this
      ensures sizes == old(sizes)
      ensures old(cachedLimit) > 0 ==> r == Ok(old(cachedLimit)) && cachedLimit == old(cachedLimit)
      ensures old(cachedLimit) <= 0 ==> r == LimitFromEnv(env)
      ensures r.Ok? ==> r.value >= 1 && cachedLimit == r.value
      ensures r.Err? ==> r.code == EXIT_BAD_ARGUMENTS && cachedLimit == old(cachedLimit)
    {
      if cachedLimit > 0 {
        return Ok(cachedLimit);
      }
      if MAX_DISCREPANCY_VAR in env {
        var parsed := Atoi(env[MAX_DISCREPANCY_VAR]);
        if parsed <= 0 {
          return Err(EXIT_BAD_ARGUMENTS);
        }
        cachedLimit := parsed;
      } else {
        cachedLimit := DEFAULT_MAX_DISCREPANCY;
      }
      return Ok(cachedLimit);
    }

    /** dcc_note_discrepancy: append one '@' to the counter. openOk and
        putOk are the outcomes of fopen and fputc. After a write the limit
        is fetched (for a log message), which can exit. */
    method NoteDiscrepancy(name: Option<string>, openOk: bool, putOk: bool, env: Env) returns (r: Result<int>)
      modifies this
      ensures name.None? ==> r == Ok(0) && sizes == old(sizes) && cachedLimit == old(cachedLimit)
      ensures name.Some? && !(openOk && putOk) ==> r == Ok(EXIT_IO_ERROR) && cachedLimit == old(cachedLimit)
      ensures name.Some? && !openOk ==> sizes == old(sizes)
      ensures name.Some? && openOk && !putOk ==> sizes == Created(name.value, old(sizes))
      ensures name.Some? && openOk && putOk ==>
                sizes == old(sizes)[name.value := SizeAfterNote(name.value, old(sizes))]
      ensures name.Some? && openOk && putOk && old(cachedLimit) > 0 ==> r == Ok(0)
      ensures name.Some? && openOk && putOk && old(cachedLimit) <= 0 ==>
                (r.Ok? <==> LimitFromEnv(env).Ok?) && (r.Ok? ==> r.value == 0) && (r.Err? ==> r == LimitFromEnv(env))
    {
      if name.None? {
        return Ok(0);
      }
      if !openOk {
        return Ok(EXIT_IO_ERROR);
      }
      sizes := Created(name.value, sizes);
      if !putOk {
        return Ok(EXIT_IO_ERROR);
      }
      sizes := sizes[name.value := sizes[name.value] + 1];
      var limit := MaxDiscrepancies(env);
      if limit.Err? {
        return limit;
      }
      return Ok(0);
    }

    /** dcc_perhaps_adjust_cpp_where_and_protover: three independent
        checks, each of which moves preprocessing to the client and
        recomputes the protocol version from the host's compression and
        the new place. The first check reads the counter against the limit,
        which can exit before anything changes. */
    method PerhapsAdjust(inputFname: string, host: HostDef, name: Option<string>, env: Env,
                         remoteAssemble: bool, protoverOf: ProtoverOf)
      returns (r: Result<()>)
      modifies this, host
      ensures sizes == old(sizes)
      ensures r.Err? ==> r.code == EXIT_BAD_ARGUMENTS
                         && host.cppWhere == old(host.cppWhere) && host.protover == old(host.protover)
      ensures r.Ok? && Demote(inputFname, ReadNumberDiscrepancies(name, sizes), cachedLimit, env, remoteAssemble) ==>
                host.cppWhere == OnClient && host.protover == protoverOf(host.compr, OnClient)
      ensures r.Ok? && !Demote(inputFname, ReadNumberDiscrepancies(name, sizes), cachedLimit, env, remoteAssemble) ==>
                host.cppWhere == old(host.cppWhere) && host.protover == old(host.protover)
      ensures r.Ok? ==> cachedLimit >= 1 && (old(cachedLimit) > 0 ==> cachedLimit == old(cachedLimit))
    {
      var count := ReadNumberDiscrepancies(name, sizes);
      var limit := MaxDiscrepancies(env);
      if limit.Err? {
        return Err(limit.code);
      }
      if count >= limit.value {
        host.cppWhere := OnClient;
        host.protover := protoverOf(host.compr, host.cppWhere);
      }
      if Filename.IsPreprocessed(inputFname, remoteAssemble) {
        host.cppWhere := OnClient;
        host.protover := protoverOf(host.compr, host.cppWhere);
      }
      if "CPATH" in env || "C_INCLUDE_PATH" in env || "CPLUS_INCLUDE_PATH" in env {
        host.cppWhere := OnClient;
        host.protover := protoverOf(host.compr, host.cppWhere);
      }
      return Ok(());
    }
  }

  /** Preprocessing is demoted to the client exactly when the counter has
      reached the limit, the input is already preprocessed, or an include
      path variable is set. */
  predicate Demote(inputFname: string, count: int, limit: int, env: Env, remoteAssemble: bool)
  {
    count >= limit || Filename.IsPreprocessed(inputFname, remoteAssemble)
    || exists v :: v in CPATH_VARS && v in env
  }

  /** Noting a discrepancy raises the count read back by one, up to
      INT_MAX; a file that did not exist reads as one discrepancy. */
  lemma NoteThenRead(name: string, sizes: map<string, nat>)
    ensures var after := sizes[name := SizeAfterNote(name, sizes)];
      var before := ReadNumberDiscrepancies(Some(name), sizes);
      var now := ReadNumberDiscrepancies(Some(name), after);
      && (name !in sizes ==> now == 1)
      && (name in sizes && 0 < sizes[name] < INT_MAX ==> now == before + 1)
      && (now == INT_MAX <==> SizeAfterNote(name, sizes) >= INT_MAX)
  {
  }

  /** With the default limit a single noted discrepancy demotes every later
      compilation that shares the counter. */
  lemma OneNoteDemotes(inputFname: string, name: string, sizes: map<string, nat>, env: Env, remoteAssemble: bool)
    requires MAX_DISCREPANCY_VAR !in env
    ensures var after := sizes[name := SizeAfterNote(name, sizes)];
      var limit := LimitFromEnv(env);
      limit.Ok? && Demote(inputFname, ReadNumberDiscrepancies(Some(name), after), limit.value, env, remoteAssemble)
  {
  }

  /** The dependency file the compiler wrote: modification time and text. */
  datatype DotdFile = DotdFile(mtime: int, content: string)

  /** What reading one name from position j yields: the name, the position
      after it (past the white space that ended it), and whether it ended
      at end of file. */
  datatype NameRead = NameRead(name: string, next: nat, eof: bool)

  /** Skip white space and backslashes. */
  function SkipFrom(s: string, j: nat): (k: nat)
    requires j <= |s|
    ensures j <= k <= |s|
    ensures k < |s| ==> !IsSpace(s[k]) && s[k] != '\\'
    decreases |s| - j
  {
    if j < |s| && (IsSpace(s[j]) || s[j] == '\\') then SkipFrom(s, j + 1) else j
  }

  /** Read a name from position j onto acc: characters up to white space
      or end of file; a backslash is dropped, together with a newline
      right after it. */
  function ReadName(s: string, j: nat, acc: string): (r: NameRead)
    requires j <= |s|
    ensures j <= r.next <= |s|
    ensures r.eof ==> r.next == |s|
    ensures !r.eof ==> r.next > j
    decreases |s| - j
  {
    if j == |s| then NameRead(acc, j, true)
    else if IsSpace(s[j]) then NameRead(acc, j + 1, false)
    else if s[j] == '\\' then ReadName(s, if j + 1 < |s| && s[j + 1] == '\n' then j + 2 else j + 1, acc)
    else ReadName(s, j + 1, acc + [s[j]])
  }

  /** A name holds no white space and no backslash. */
  predicate PlainName(name: string)
  {
    forall k :: 0 <= k < |name| ==> !IsSpace(name[k]) && name[k] != '\\'
  }

  lemma {:induction false} ReadNamePlain(s: string, j: nat, acc: string)
    requires j <= |s| && PlainName(acc)
    ensures PlainName(ReadName(s, j, acc).name)
    decreases |s| - j
  {
    if j < |s| && !IsSpace(s[j]) {
      if s[j] == '\\' {
        ReadNamePlain(s, if j + 1 < |s| && s[j + 1] == '\n' then j + 2 else j + 1, acc);
      } else {
        var acc' := acc + [s[j]];
        assert forall k :: 0 <= k < |acc| ==> acc'[k] == acc[k];
        ReadNamePlain(s, j + 1, acc');
      }
    }
  }

  /** The dependencies from position j on: each name that is not excluded
      is stat'ed; one that cannot be stat'ed ends the scan with nothing,
      one changed at or after ref is the answer. */
  function ScanFrom(s: string, j: nat, excluded: string -> bool, ctimes: map<string, int>, ref: int): Option<string>
    requires j <= |s|
    decreases |s| - j
  {
    var read := ReadName(s, SkipFrom(s, j), "");
    if read.name != "" && !excluded(read.name) && read.name !in ctimes then None
    else if read.name != "" && !excluded(read.name) && ctimes[read.name] >= ref then Some(read.name)
    else if read.eof then None
    else ScanFrom(s, read.next, excluded, ctimes, ref)
  }

  /** dcc_fresh_dependency_exists as a function: nothing unless the .d file
      can be stat'ed and opened and is no older than ref; then the scan of
      what follows its first ':'. */
  function FreshDependency(dotd: Option<DotdFile>, openOk: bool, excluded: string -> bool,
                           ctimes: map<string, int>, ref: int): Option<string>
  {
    if dotd.None? || dotd.value.mtime < ref || !openOk then None
    else
      match IndexOf(dotd.value.content, ':')
      case None => None
      case Some(c) => ScanFrom(dotd.value.content, c + 1, excluded, ctimes, ref)
  }

  /** A dependency the scan reports is a nonempty plain name that is not
      excluded and changed at or after ref. */
  lemma {:induction false} ScanFromFound(s: string, j: nat, excluded: string -> bool, ctimes: map<string, int>, ref: int)
    requires j <= |s|
    ensures var r := ScanFrom(s, j, excluded, ctimes, ref);
      r.Some? ==> r.value != "" && PlainName(r.value) && !excluded(r.value)
                  && r.value in ctimes && ctimes[r.value] >= ref
    decreases |s| - j
  {
    var read := ReadName(s, SkipFrom(s, j), "");
    ReadNamePlain(s, SkipFrom(s, j), "");
    if !read.eof {
      ScanFromFound(s, read.next, excluded, ctimes, ref);
    }
  }

  lemma FreshDependencyFound(dotd: Option<DotdFile>, openOk: bool, excluded: string -> bool,
                             ctimes: map<string, int>, ref: int)
    ensures var r := FreshDependency(dotd, openOk, excluded, ctimes, ref);
      r.Some? ==> dotd.Some? && openOk && dotd.value.mtime >= ref && ':' in dotd.value.content
                  && r.value != "" && PlainName(r.value) && !excluded(r.value)
                  && r.value in ctimes && ctimes[r.value] >= ref
  {
    if dotd.Some? && dotd.value.mtime >= ref && openOk {
      var c := IndexOf(dotd.value.content, ':');
      if c.Some? {
        ScanFromFound(dotd.value.content, c.value + 1, excluded, ctimes, ref);
      }
    }
  }

  /** The nonempty names the scan reads from position j on, in file order. */
  function DepNames(s: string, j: nat): seq<string>
    requires j <= |s|
    decreases |s| - j
  {
    var read := ReadName(s, SkipFrom(s, j), "");
    var here := if read.name != "" then [read.name] else [];
    if read.eof then here else here + DepNames(s, read.next)
  }

  /** The dependency names of a .d file: those after its first ':'. */
  function DotdDeps(content: string): seq<string>
  {
    match IndexOf(content, ':')
    case None => []
    case Some(c) => DepNames(content, c + 1)
  }

  /** A name that ends the scan: not excluded, and either impossible to
      stat or changed at or after ref. */
  predicate Stops(excluded: string -> bool, ctimes: map<string, int>, ref: int, name: string)
  {
    !excluded(name) && (name !in ctimes || ctimes[name] >= ref)
  }

  /** The scan stops at the first name that Stops, at index i: it reports
      that name when it can be stat'ed and nothing when it cannot; with no
      such name (i == |names|) it reports nothing. */
  predicate FirstStop(names: seq<string>, excluded: string -> bool, ctimes: map<string, int>, ref: int,
                      i: nat, r: Option<string>)
  {
    && i <= |names|
    && (forall k :: 0 <= k < i ==> !Stops(excluded, ctimes, ref, names[k]))
    && (i < |names| ==> Stops(excluded, ctimes, ref, names[i]))
    && r == (if i == |names| || names[i] !in ctimes then None else Some(names[i]))
  }

  /** The scan from j is the first-stop search over the names it reads. */
  lemma {:induction false} ScanFromFirst(s: string, j: nat, excluded: string -> bool, ctimes: map<string, int>, ref: int)
    returns (i: nat)
    requires j <= |s|
    ensures FirstStop(DepNames(s, j), excluded, ctimes, ref, i, ScanFrom(s, j, excluded, ctimes, ref))
    decreases |s| - j
  {
    var read := ReadName(s, SkipFrom(s, j), "");
    var names := DepNames(s, j);
    if read.name != "" && Stops(excluded, ctimes, ref, read.name) {
      i := 0;
    } else if read.eof {
      i := |names|;
    } else {
      var i' := ScanFromFirst(s, read.next, excluded, ctimes, ref);
      var rest := DepNames(s, read.next);
      if read.name != "" {
        assert names == [read.name] + rest;
        i := i' + 1;
        forall k | 0 <= k < i
          ensures !Stops(excluded, ctimes, ref, names[k])
        {
          if k > 0 {
            assert names[k] == rest[k - 1];
          }
        }
      } else {
        assert names == rest;
        i := i';
      }
    }
  }

  /** dcc_fresh_dependency_exists reports the first dependency, in file
      order, that is not excluded and changed at or after ref, provided no
      earlier non-excluded dependency is missing; a missing one ends the
      search with nothing. A .d file that cannot be stat'ed or opened, or
      is older than ref, gives nothing. */
  lemma FreshDependencyFirst(dotd: Option<DotdFile>, openOk: bool, excluded: string -> bool,
                             ctimes: map<string, int>, ref: int)
    returns (i: nat)
    ensures var r := FreshDependency(dotd, openOk, excluded, ctimes, ref);
      && (dotd.None? || dotd.value.mtime < ref || !openOk ==> r.None?)
      && (dotd.Some? && dotd.value.mtime >= ref && openOk ==>
            FirstStop(DotdDeps(dotd.value.content), excluded, ctimes, ref, i, r))
  {
    i := 0;
    if dotd.Some? && dotd.value.mtime >= ref && openOk {
      var c := IndexOf(dotd.value.content, ':');
      if c.Some? {
        i := ScanFromFirst(dotd.value.content, c.value + 1, excluded, ctimes, ref);
      }
    }
  }

  /** The getc loop that looks for the first ':'. */
  method FindColon(s: string) returns (r: Option<nat>)
    ensures r == IndexOf(s, ':')
  {
    var pos := 0;
    while pos < |s| && s[pos] != ':'
      invariant pos <= |s| && ':' !in s[..pos]
    {
      assert s[..pos + 1] == s[..pos] + [s[pos]];
      pos := pos + 1;
    }
    if pos == |s| {
      assert s[..pos] == s;
      return None;
    }
    return Some(pos);
  }

  /** The getc loop that skips white space and backslashes. */
  method SkipBlanks(s: string, start: nat) returns (pos: nat)
    requires start <= |s|
    ensures pos == SkipFrom(s, start)
  {
    pos := start;
    while pos < |s| && (IsSpace(s[pos]) || s[pos] == '\\')
      invariant start <= pos <= |s| && SkipFrom(s, start) == SkipFrom(s, pos)
    {
      pos := pos + 1;
    }
  }

  /** The getc loop that copies one name into dep_name. */
  method ReadDependencyName(s: string, start: nat) returns (name: string, pos: nat, eof: bool)
    requires start <= |s|
    ensures NameRead(name, pos, eof) == ReadName(s, start, "")
  {
    pos := start;
    name := "";
    while pos < |s| && !IsSpace(s[pos])
      invariant pos <= |s| && ReadName(s, pos, name) == ReadName(s, start, "")
    {
      if s[pos] == '\\' {
        if pos + 1 < |s| && s[pos + 1] == '\n' {
          pos := pos + 2;
        } else {
          pos := pos + 1;
        }
      } else {
        name := name + [s[pos]];
        pos := pos + 1;
      }
    }
    if pos == |s| {
      eof := true;
    } else {
      eof := false;
      pos := pos + 1;
    }
  }

  /** dcc_fresh_dependency_exists, reading the .d file one character at a
      time. excluded is the fnmatch test against the exclude pattern
      (never true when there is no pattern). */
  method FreshDependencyExists(dotd: Option<DotdFile>, openOk: bool, excluded: string -> bool,
                               ctimes: map<string, int>, ref: int)
    returns (result: Option<string>)
    ensures result == FreshDependency(dotd, openOk, excluded, ctimes, ref)
  {
    if dotd.None? || dotd.value.mtime < ref || !openOk {
      return None;
    }
    var s := dotd.value.content;
    var colon := FindColon(s);
    if colon.None? {
      return None;
    }
    ghost var goal := FreshDependency(dotd, openOk, excluded, ctimes, ref);
    var pos := colon.value + 1;
    var eof := false;
    while !eof
      invariant pos <= |s|
      invariant !eof ==> ScanFrom(s, pos, excluded, ctimes, ref) == goal
      invariant eof ==> goal == None
      decreases |s| - pos + (if eof then 0 else 1)
    {
      var k := SkipBlanks(s, pos);
      var name;
      name, pos, eof := ReadDependencyName(s, k);
      if name != "" && !excluded(name) {
        if name !in ctimes {
          return None;
        }
        if ctimes[name] >= ref {
          return Some(name);
        }
      }
    }
    return None;
  }
}

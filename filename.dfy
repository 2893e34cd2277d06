/** Everything the client knows about C file names (src/filename.c):
    extensions, basenames, the suffix tables for source, preprocessed and
    object files, output-name synthesis and the autoconf-probe heuristic.
    `remoteAssemble` stands for the build-time switch ENABLE_REMOTE_ASSEMBLE. */
module Filename {
  import opened Common

  /** dcc_find_extension: the suffix starting at the last '.', or nothing when
      there is no '.' or the '.' is the last character. */
  function FindExtension(s: string): (r: Option<string>)
    ensures r.Some? ==> 2 <= |r.value| <= |s| && r.value[0] == '.' && s[|s| - |r.value|..] == r.value
  {
    match LastIndexOf(s, '.')
    case None => None
    case Some(dot) => if dot + 1 == |s| then None else Some(s[dot..])
  }

  /** There is an extension exactly when s holds a '.' that is not its last
      character, and the extension holds no further '.'. */
  lemma FindExtensionSpec(s: string)
    ensures FindExtension(s).None? <==> ('.' !in s || s[|s| - 1] == '.')
    ensures FindExtension(s).Some? ==> '.' !in FindExtension(s).value[1..]
  {
    LastIndexOfSpec(s, '.');
    match LastIndexOf(s, '.')
    case None =>
    case Some(dot) =>
      if dot + 1 < |s| {
        assert s[dot..][1..] == s[dot + 1..];
      }
  }

  /** dcc_find_basename: the text after the last '/', or the whole string when
      there is no '/' or the '/' is the last character. */
  function FindBasename(s: string): (r: string)
    ensures |r| <= |s| && s[|s| - |r|..] == r
  {
    match LastIndexOf(s, '/')
    case None => s
    case Some(slash) => if slash + 1 == |s| then s else s[slash + 1..]
  }

  /** The basename is the whole name when it has no '/' or ends in one, and
      otherwise the non-empty '/'-free text after its last '/'. */
  lemma FindBasenameSpec(s: string)
    ensures ('/' !in s || s[|s| - 1] == '/') ==> FindBasename(s) == s
    ensures '/' in s && s[|s| - 1] != '/' ==>
      var r := FindBasename(s);
      '/' !in r && 1 <= |r| < |s| && s[|s| - |r| - 1] == '/'
  {
    LastIndexOfSpec(s, '/');
  }

  /** The dirname of s: everything before the last '/', or "" without one. */
  function Dirname(s: string): (r: string)
    ensures '/' !in s ==> r == ""
    ensures '/' in s ==> |r| < |s| && s[|r|] == '/' && r == s[..|r|] && '/' !in s[|r| + 1..]
  {
    LastIndexOfSpec(s, '/');
    match LastIndexOf(s, '/')
    case None => ""
    case Some(slash) => s[..slash]
  }

  /** The C string held in a buffer: the characters before the first NUL. */
  function CString(buf: array<char>): (r: string)
    reads buf
    ensures |r| <= buf.Length && r == buf[..|r|] && '\0' !in r
    ensures |r| < buf.Length ==> buf[|r|] == '\0'
  {
    match IndexOf(buf[..], '\0')
    case None => buf[..]
    case Some(k) => buf[..k]
  }

  /** dcc_truncate_to_dirname: writes a NUL over the last '/' of the string in
      `buf`, or over its first character when there is no '/'. */
  method TruncateToDirname(buf: array<char>)
    requires '\0' in buf[..]
    modifies buf
    ensures CString(buf) == Dirname(old(CString(buf)))
  {
    var s := CString(buf);
    var slash := LastIndexOf(s, '/');
    if slash.None? {
      buf[0] := '\0';
    } else {
      buf[slash.value] := '\0';
    }
    var r := Dirname(s);
    assert buf[..][..|r|] == r;
    assert IndexOf(buf[..], '\0') == Some(|r|) by {
      assert '\0' !in buf[..][..|r|];
    }
  }

  /** dcc_set_file_extension: replace the extension (with its dot) of sfile by
      newExt, failing when there is none or when the old one is shorter. */
  function SetFileExtension(sfile: string, newExt: string): (r: Result<string>)
    ensures r.Err? ==> r.code == EXIT_DISTCC_FAILED
    ensures r.Err? <==> (FindExtension(sfile).None? || |FindExtension(sfile).value| < |newExt|)
    ensures r.Ok? ==> var ext := FindExtension(sfile).value;
                      r.value == sfile[..|sfile| - |ext|] + newExt
  {
    match FindExtension(sfile)
    case None => Err(EXIT_DISTCC_FAILED)
    case Some(ext) =>
      if |ext| < |newExt| then Err(EXIT_DISTCC_FAILED)
      else Ok(sfile[..|sfile| - |ext|] + newExt)
  }

  /** dcc_preproc_exten: the extension a file gets once preprocessed. */
  function PreprocExten(e: string): (r: Option<string>)
  {
    if |e| == 0 || e[0] != '.' then None
    else
      var x := e[1..];
      if x == "i" || x == "c" then Some(".i")
      else if x == "c" || x == "cc" || x == "cpp" || x == "cxx" || x == "cp" || x == "c++"
              || x == "C" || x == "ii" then Some(".ii")
      else if x == "mi" || x == "m" then Some(".mi")
      else if x == "mii" || x == "mm" || x == "M" then Some(".mii")
      else if x == "s" || x == "S" then Some(".s")
      else None
  }

  /** The extension of a name, without the dot, when it has one. */
  function ExtensionWord(s: string): Option<string>
  {
    match FindExtension(s)
    case None => None
    case Some(e) => Some(e[1..])
  }

  /** The suffix tables, stated once as sets (extension without its dot). */
  function SourceWords(remoteAssemble: bool): set<string>
  {
    {"i", "ii", "c", "cc", "cpp", "cxx", "cp", "c++", "C", "m", "mm", "mi", "mii", "M"}
    + (if remoteAssemble then {"s", "S"} else {})
  }

  function PreprocessedWords(remoteAssemble: bool): set<string>
  {
    {"i", "ii", "mi", "mii"} + (if remoteAssemble then {"s"} else {})
  }

  /** dcc_is_preprocessed, written as the switch on the first character of the
      extension; the contract states the table it amounts to. */
  predicate IsPreprocessed(sfile: string, remoteAssemble: bool)
  {
    match ExtensionWord(sfile)
    case None => false
    case Some(ext) =>
      if remoteAssemble && ext[0] == 's' then ext == "s"
      else if ext[0] == 'i' then ext == "i" || ext == "ii"
      else if ext[0] == 'm' then ext == "mi" || ext == "mii"
      else false
  }

  /** dcc_is_source, written as the switch on the first character of the
      extension; the contract states the table it amounts to. */
  predicate IsSource(sfile: string, remoteAssemble: bool)
  {
    match ExtensionWord(sfile)
    case None => false
    case Some(ext) =>
      if ext[0] == 'i' then ext == "i" || ext == "ii"
      else if ext[0] == 'c' then
        ext == "c" || ext == "cc" || ext == "cpp" || ext == "cxx" || ext == "cp" || ext == "c++"
      else if ext[0] == 'C' then ext == "C"
      else if ext[0] == 'm' then ext == "m" || ext == "mm" || ext == "mi" || ext == "mii"
      else if ext[0] == 'M' then ext == "M"
      else if remoteAssemble && ext[0] == 's' then ext == "s"
      else if remoteAssemble && ext[0] == 'S' then ext == "S"
      else false
  }

  /** dcc_is_preprocessed accepts exactly the preprocessed suffix table. */
  lemma IsPreprocessedTable(sfile: string, remoteAssemble: bool)
    ensures IsPreprocessed(sfile, remoteAssemble) <==>
      (ExtensionWord(sfile).Some? && ExtensionWord(sfile).value in PreprocessedWords(remoteAssemble))
  {
  }

  /** dcc_is_source accepts exactly the source suffix table. */
  lemma IsSourceTable(sfile: string, remoteAssemble: bool)
    ensures IsSource(sfile, remoteAssemble) <==>
      (ExtensionWord(sfile).Some? && ExtensionWord(sfile).value in SourceWords(remoteAssemble))
  {
  }

  /** dcc_is_object. */
  function IsObject(filename: string): (r: bool)
    ensures r <==> ExtensionWord(filename) == Some("o")
  {
    match FindExtension(filename)
    case None => false
    case Some(dot) => dot == ".o"
  }

  /** dcc_source_needs_local: autoconf probes are built locally. */
  function SourceNeedsLocal(filename: string): (r: int)
    ensures r == 0 || r == EXIT_DISTCC_FAILED
  {
    var p := FindBasename(filename);
    if "conftest." <= p || "tmp.conftest." <= p then EXIT_DISTCC_FAILED else 0
  }

  /** dcc_output_from_source: strip every leading directory, reject a name
      shorter than three characters, then swap the extension for outExt. */
  function OutputFromSource(sfile: string, outExt: string): (r: Result<string>)
    ensures r.Err? ==> r.code == EXIT_DISTCC_FAILED
  {
    var base := StrippedName(sfile);
    if |base| < 3 then Err(EXIT_DISTCC_FAILED)
    else SetFileExtension(base, outExt)
  }

  /** The stripped name dcc_output_from_source works on. */
  function StrippedName(sfile: string): (r: string)
    ensures |r| <= |sfile| && sfile[|sfile| - |r|..] == r
  {
    match LastIndexOf(sfile, '/')
    case None => sfile
    case Some(slash) => sfile[slash + 1..]
  }

  /** The stripped name holds no '/', and is the whole name when that has none. */
  lemma StrippedNameSpec(sfile: string)
    ensures '/' !in StrippedName(sfile)
    ensures '/' !in sfile ==> StrippedName(sfile) == sfile
  {
    LastIndexOfSpec(sfile, '/');
  }

  // ---------------------------------------------------------------------
  // Properties of the tables

  /** Every preprocessed name is also a source name, in both configurations. */
  lemma PreprocessedIsSource(sfile: string, remoteAssemble: bool)
    ensures IsPreprocessed(sfile, remoteAssemble) ==> IsSource(sfile, remoteAssemble)
  {
    IsPreprocessedTable(sfile, remoteAssemble);
    IsSourceTable(sfile, remoteAssemble);
  }

  /** dcc_preproc_exten sends each source suffix to its preprocessed suffix,
      and what it produces is a preprocessed suffix that maps to itself. */
  lemma {:induction false} PreprocExtenTable(x: string)
    ensures PreprocExten("." + x) ==
      if x in {"c", "i"} then Some(".i")
      else if x in {"cc", "cpp", "cxx", "cp", "c++", "C", "ii"} then Some(".ii")
      else if x in {"m", "mi"} then Some(".mi")
      else if x in {"mm", "M", "mii"} then Some(".mii")
      else if x in {"s", "S"} then Some(".s")
      else None
    ensures PreprocExten("." + x).Some? ==>
      var p := PreprocExten("." + x).value;
      PreprocExten(p) == Some(p) && (p == ".s" || p[1..] in PreprocessedWords(false))
  {
    assert ("." + x)[1..] == x;
    var r := PreprocExten("." + x);
    if r.Some? {
      var p := r.value;
      assert p in {".i", ".ii", ".mi", ".mii", ".s"};
      assert p[1..] in {"i", "ii", "mi", "mii", "s"};
    }
  }

  /** A string that does not start with '.' has no preprocessed extension. */
  lemma PreprocExtenNeedsDot(e: string)
    requires |e| == 0 || e[0] != '.'
    ensures PreprocExten(e).None?
  {
  }

  /** For a recognised (non-assembly) source file, the preprocessed name
      dcc_preproc_exten gives is itself recognised as preprocessed. */
  lemma {:induction false} SourcePreprocessesToPreprocessed(sfile: string, stem: string)
    requires IsSource(sfile, false)
    requires FindExtension(sfile).Some? && stem == sfile[..|sfile| - |FindExtension(sfile).value|]
    ensures PreprocExten(FindExtension(sfile).value).Some?
    ensures IsPreprocessed(stem + PreprocExten(FindExtension(sfile).value).value, false)
  {
    IsSourceTable(sfile, false);
    var e := FindExtension(sfile).value;
    assert e == "." + e[1..];
    PreprocExtenTable(e[1..]);
    var p := PreprocExten(e).value;
    var t := stem + p;
    assert p in {".i", ".ii", ".mi", ".mii"};
    assert '.' !in p[1..];
    assert t[|t| - |p|..] == p;
    LastDotOf(t, |stem|);
    assert ExtensionWord(t) == Some(p[1..]);
    IsPreprocessedTable(t, false);
  }

  /** When s has a '.' at k and none after it, and k is not the last index,
      that '.' starts the extension. */
  lemma {:induction false} LastDotOf(s: string, k: nat)
    requires k + 1 < |s| && s[k] == '.' && '.' !in s[k + 1..]
    ensures FindExtension(s) == Some(s[k..])
  {
    LastIndexOfSpec(s, '.');
  }

  /** Every name ending in ".o" is an object file. */
  lemma IsObjectSuffix(stem: string)
    ensures IsObject(stem + ".o")
  {
    var s := stem + ".o";
    LastDotOf(s, |stem|);
  }

  /** dcc_source_needs_local fails exactly for autoconf probe names. */
  lemma NeedsLocalExactly(filename: string)
    ensures SourceNeedsLocal(filename) != 0 <==>
      ("conftest." <= FindBasename(filename) || "tmp.conftest." <= FindBasename(filename))
  {
  }

  /** dcc_output_from_source on a recognised source file: it succeeds exactly
      when the stripped name has at least three characters, and then yields the
      stripped name with its extension replaced by the new one (".o" or ".s"). */
  lemma {:induction false} OutputFromSourceOfSource(sfile: string, outExt: string, remoteAssemble: bool)
    requires IsSource(sfile, remoteAssemble)
    requires |outExt| == 2 && outExt[0] == '.'
    ensures FindExtension(sfile).Some?
    ensures var base := StrippedName(sfile);
            var ext := FindExtension(sfile).value;
            OutputFromSource(sfile, outExt) ==
              if |base| < 3 then Err(EXIT_DISTCC_FAILED)
              else Ok(base[..|base| - |ext|] + outExt)
  {
    SourceExtensionHasNoSlash(sfile, remoteAssemble);
    OutputFromSourceSlashFree(sfile, outExt);
  }

  /** The same for any name whose extension holds no '/'. */
  lemma OutputFromSourceSlashFree(sfile: string, outExt: string)
    requires FindExtension(sfile).Some? && '/' !in FindExtension(sfile).value
    requires |outExt| == 2
    ensures var base := StrippedName(sfile);
            var ext := FindExtension(sfile).value;
            OutputFromSource(sfile, outExt) ==
              if |base| < 3 then Err(EXIT_DISTCC_FAILED)
              else Ok(base[..|base| - |ext|] + outExt)
  {
    var base := StrippedName(sfile);
    if |base| >= 3 {
      // The extension holds no '/', so it lies inside the stripped name.
      ExtensionOfSuffix(sfile, base);
    }
  }

  /** dcc_output_from_source on a name without directories whose last '.' is
      at k: the text before the '.' followed by the new extension. */
  lemma OutputFromPlainName(sfile: string, k: nat, outExt: string)
    requires '/' !in sfile && 3 <= |sfile|
    requires k + 1 < |sfile| && sfile[k] == '.' && '.' !in sfile[k + 1..]
    requires |outExt| == 2
    ensures OutputFromSource(sfile, outExt) == Ok(sfile[..k] + outExt)
  {
    StrippedNameSpec(sfile);
    LastDotOf(sfile, k);
  }

  /** NAME.c, for a directory-free NAME that is no autoconf probe, stays
      remote and compiles to NAME.o. */
  lemma ObjectOfPlainSource(stem: string)
    requires |stem| >= 1 && '/' !in stem
    requires !("conftest." <= stem + ".c") && !("tmp.conftest." <= stem + ".c")
    ensures SourceNeedsLocal(stem + ".c") == 0
    ensures OutputFromSource(stem + ".c", ".o") == Ok(stem + ".o")
  {
    var src := stem + ".c";
    FindBasenameSpec(src);
    assert src[..|stem|] == stem;
    OutputFromPlainName(src, |stem|, ".o");
  }

  /** A recognised source name has an extension, and its extension holds no '/'. */
  lemma SourceExtensionHasNoSlash(sfile: string, remoteAssemble: bool)
    requires IsSource(sfile, remoteAssemble)
    ensures FindExtension(sfile).Some? && '/' !in FindExtension(sfile).value
  {
    var ext := FindExtension(sfile).value;
    var w := ext[1..];
    assert ext == [ext[0]] + w;
    // Each recognised word is spelled from letters and '+' only.
    assert forall k :: 0 <= k < |w| ==> w[k] != '/' by {
      if w[0] == 'c' {
        assert w in {"c", "cc", "cpp", "cxx", "cp", "c++"};
      } else if w[0] == 'm' {
        assert w in {"m", "mm", "mi", "mii"};
      } else if w[0] == 'i' {
        assert w in {"i", "ii"};
      } else {
        assert |w| == 1;
      }
    }
  }

  /** The extension of a name that ends in a '/'-free suffix `base` (which
      contains the extension) is the extension of `base`. */
  lemma {:induction false} ExtensionOfSuffix(s: string, base: string)
    requires FindExtension(s).Some? && '/' !in FindExtension(s).value
    requires |base| <= |s| && s[|s| - |base|..] == base
    requires base == StrippedName(s)
    ensures FindExtension(base) == FindExtension(s)
  {
    FindExtensionSpec(s);
    var ext := FindExtension(s).value;
    var k := |s| - |ext|;
    var j := |base| - |ext|;
    assert base[j..] == ext;
    assert base[j] == '.';
    assert base[j + 1..] == ext[1..];
    LastDotOf(base, j);
  }
}

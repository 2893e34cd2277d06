/** Understanding and rewriting compiler argument vectors (src/arg.c).

    `dcc_scan_args` walks argv left to right and decides whether the
    invocation can be distributed; it is modelled by `ScanArgs`, an index loop
    proved equal to the recursive specification `ScanSpec`, about which the
    lemmas below state the classification rules.  argv is a sequence of
    strings: the NULL terminator of the C vector is the end of the sequence. */
module Args {
  import opened Common
  import opened Filename

  predicate IsOption(a: string)
  {
    |a| > 0 && a[0] == '-'
  }

  /** What an option (a token starting with '-') does to the scan. */
  datatype Action =
    | GoLocal       // returns EXIT_DISTCC_FAILED
    | NoEffect
    | SkipOperand   // bare -MF/-MT/-MQ: the next token is skipped too
    | SeeS          // -S
    | SeeC          // -c
    | OutputIsNext  // bare -o: the next token is the output
    | OutputIsRest  // -oNAME: NAME is the output

  /** The test a rule applies to an option. */
  datatype Test =
    | Is(s: string)                                    // strcmp(a, s) == 0
    | StartsWith(p: string)                            // str_startswith(p, a) / strncmp(a, p, |p|) == 0
    | SecondIs(c: char)                                // a[1] == c
    | StartsWithHolding(p: string, subs: seq<string>)  // str_startswith(p, a) and strstr(a, sub) for some sub

  datatype Rule = Rule(test: Test, action: Action)

  /** A list of rules, tried in order. */
  datatype Rules = Nil | Cons(head: Rule, tail: Rules)

  predicate Matches(t: Test, a: string)
  {
    match t
    case Is(s) => a == s
    case StartsWith(p) => p <= a
    case SecondIs(c) => |a| > 1 && a[1] == c
    case StartsWithHolding(p, subs) => p <= a && exists k :: 0 <= k < |subs| && Contains(a, subs[k])
  }

  /** The option tests of dcc_scan_args (src/arg.c:176-256), grouped by the
      second character of the options they accept.  Within a group the rules
      keep the order of the source's if/else chain, the first match deciding;
      `GroupedBySecondChar` shows that a rule never accepts an option of
      another group, so dispatching on a[1] first keeps the chain's meaning.
      The "-Wa," branch is two rules: with ",-a" or "--MD" inside, the option
      must be local, otherwise it has no effect. */
  function RulesFor(c: char): Rules
  {
    match c
    case 'E' => Cons(Rule(Is("-E"), GoLocal), Nil)
    case 'M' => Cons(Rule(Is("-MD"), NoEffect), Cons(Rule(Is("-MMD"), NoEffect),
                Cons(Rule(Is("-MG"), NoEffect), Cons(Rule(Is("-MP"), NoEffect),
                Cons(Rule(Is("-MF"), SkipOperand), Cons(Rule(Is("-MT"), SkipOperand), Cons(Rule(Is("-MQ"), SkipOperand),
                Cons(Rule(StartsWith("-MF"), NoEffect), Cons(Rule(StartsWith("-MT"), NoEffect), Cons(Rule(StartsWith("-MQ"), NoEffect),
                Cons(Rule(SecondIs('M'), GoLocal), Nil)))))))))))
    case 'm' => Cons(Rule(Is("-march=native"), GoLocal), Cons(Rule(Is("-mtune=native"), GoLocal), Nil))
    case 'W' => Cons(Rule(StartsWithHolding("-Wa,", [",-a", "--MD"]), GoLocal), Cons(Rule(StartsWith("-Wa,"), NoEffect), Nil))
    case 's' => Cons(Rule(StartsWith("-specs="), GoLocal), Nil)
    case 'S' => Cons(Rule(Is("-S"), SeeS), Nil)
    case 'f' => Cons(Rule(Is("-fprofile-arcs"), GoLocal), Cons(Rule(Is("-ftest-coverage"), GoLocal), Cons(Rule(Is("-frepo"), GoLocal), Nil)))
    case '-' => Cons(Rule(Is("--coverage"), GoLocal), Nil)
    case 'x' => Cons(Rule(StartsWith("-x"), GoLocal), Nil)
    case 'd' => Cons(Rule(StartsWith("-dr"), GoLocal), Nil)
    case 'c' => Cons(Rule(Is("-c"), SeeC), Nil)
    case 'o' => Cons(Rule(Is("-o"), OutputIsNext), Cons(Rule(StartsWith("-o"), OutputIsRest), Nil))
    case _ => Nil
  }

  /** First match over a rule list; an option no rule matches has no effect. */
  function First(rules: Rules, a: string): Action
  {
    match rules
    case Nil => NoEffect
    case Cons(r, rest) => if Matches(r.test, a) then r.action else First(rest, a)
  }

  /** What dcc_scan_args does with the option a. */
  function Classify(a: string): Action
  {
    if |a| < 2 then NoEffect else First(RulesFor(a[1]), a)
  }

  // ---------------------------------------------------------------------
  // Reading the rule table

  /** The second character every option accepted by t has. */
  function SecondChar(t: Test): Option<char>
  {
    match t
    case Is(s) => if |s| >= 2 then Some(s[1]) else None
    case StartsWith(p) => if |p| >= 2 then Some(p[1]) else None
    case SecondIs(c) => Some(c)
    case StartsWithHolding(p, _) => if |p| >= 2 then Some(p[1]) else None
  }

  lemma SecondCharMatches(t: Test, a: string)
    requires Matches(t, a) && SecondChar(t).Some?
    ensures |a| >= 2 && a[1] == SecondChar(t).value
  {
    match t
    case Is(s) =>
    case StartsWith(p) => assert a[..|p|] == p;
    case SecondIs(c) =>
    case StartsWithHolding(p, _) => assert a[..|p|] == p;
  }

  /** Every rule of the list fixes the second character c. */
  predicate AllFix(rules: Rules, c: char)
  {
    rules.Cons? ==> SecondChar(rules.head.test) == Some(c) && AllFix(rules.tail, c)
  }

  /** Some rule of the list accepts a. */
  predicate AnyMatches(rules: Rules, a: string)
  {
    rules.Cons? && (Matches(rules.head.test, a) || AnyMatches(rules.tail, a))
  }

  lemma GroupsFixSecondChar(c: char)
    ensures AllFix(RulesFor(c), c)
  {
  }

  lemma {:induction false} FixedRulesMatch(rules: Rules, c: char, a: string)
    requires AllFix(rules, c) && AnyMatches(rules, a)
    ensures |a| >= 2 && a[1] == c
  {
    if Matches(rules.head.test, a) {
      SecondCharMatches(rules.head.test, a);
    } else {
      FixedRulesMatch(rules.tail, c, a);
    }
  }

  /** The rules of group c accept only options whose second character is c:
      the groups partition the chain. */
  lemma GroupedBySecondChar(c: char, a: string)
    requires AnyMatches(RulesFor(c), a)
    ensures |a| >= 2 && a[1] == c
  {
    GroupsFixSecondChar(c);
    FixedRulesMatch(RulesFor(c), c, a);
  }

  /** The tests that lead to the scan's bookkeeping actions. */
  predicate Bookkeeping(r: Rule)
  {
    && (r.action == SeeS ==> r.test == Is("-S"))
    && (r.action == SeeC ==> r.test == Is("-c"))
    && (r.action == SkipOperand ==> r.test == Is("-MF") || r.test == Is("-MT") || r.test == Is("-MQ"))
    && (r.action == OutputIsNext ==> r.test == Is("-o"))
    && (r.action == OutputIsRest ==> r.test == StartsWith("-o"))
  }

  predicate AllBookkeeping(rules: Rules)
  {
    rules.Cons? ==> Bookkeeping(rules.head) && AllBookkeeping(rules.tail)
  }

  lemma TableBookkeeping(c: char)
    ensures AllBookkeeping(RulesFor(c))
  {
  }

  lemma {:induction false} FirstBookkeeping(rules: Rules, a: string)
    requires AllBookkeeping(rules)
    ensures var act := First(rules, a);
      && (act == SeeS ==> a == "-S") && (act == SeeC ==> a == "-c")
      && (act == SkipOperand ==> a == "-MF" || a == "-MT" || a == "-MQ")
      && (act == OutputIsNext ==> a == "-o") && (act == OutputIsRest ==> "-o" <= a)
  {
    match rules
    case Nil =>
    case Cons(r, rest) => FirstBookkeeping(rest, a);
  }

  /** What the scan's bookkeeping actions can only come from. */
  lemma ClassifyActions(a: string)
    ensures Classify(a) == SeeS ==> a == "-S"
    ensures Classify(a) == SeeC ==> a == "-c"
    ensures Classify(a) == SkipOperand ==> a == "-MF" || a == "-MT" || a == "-MQ"
    ensures Classify(a) == OutputIsNext ==> a == "-o"
    ensures Classify(a) == OutputIsRest ==> "-o" <= a
  {
    if |a| >= 2 {
      TableBookkeeping(a[1]);
      FirstBookkeeping(RulesFor(a[1]), a);
    }
  }

  /** An option starting with "-o": "-o" itself takes the next token as the
      output, anything longer names the output itself (src/arg.c:249-256). */
  lemma ClassifyDashO(a: string)
    requires "-o" <= a
    ensures Classify(a) == if a == "-o" then OutputIsNext else OutputIsRest
  {
    assert a[1] == 'o';
    var r := RulesFor('o');
    assert Classify(a) == First(r, a);
    if a != "-o" {
      assert !Matches(r.head.test, a);
      assert First(r, a) == First(r.tail, a);
      assert Matches(r.tail.head.test, a);
    }
  }

  /** A bare -MF, -MT or -MQ skips its operand (src/arg.c:184-190). */
  lemma ClassifySkipOperand(a: string)
    requires a == "-MF" || a == "-MT" || a == "-MQ"
    ensures Classify(a) == SkipOperand
  {
  }

  /** The tokens after which the loop skips one index: their operand. */
  lemma ClassifyOperandTakers(a: string)
    ensures a == "-MF" || a == "-MT" || a == "-MQ" ==> Classify(a) == SkipOperand
    ensures a == "-o" ==> Classify(a) == OutputIsNext
  {
    if a == "-o" {
      ClassifyDashO(a);
    } else if a == "-MF" || a == "-MT" || a == "-MQ" {
      ClassifySkipOperand(a);
    }
  }

  /** The exact tokens the scan counts, and -E. */
  lemma ClassifyExact()
    ensures Classify("-S") == SeeS
    ensures Classify("-c") == SeeC
    ensures Classify("-E") == GoLocal
  {
  }

  /** -march=native and -mtune=native (src/arg.c:205-210). */
  lemma ClassifyLocalNative(a: string)
    requires a == "-march=native" || a == "-mtune=native"
    ensures Classify(a) == GoLocal
  {
  }

  /** -M followed by anything but D, MD, G, P, or the F/T/Q forms
      (src/arg.c:176-203). */
  lemma ClassifyLocalM(a: string)
    requires "-M" <= a && a != "-MD" && a != "-MMD" && a != "-MG" && a != "-MP"
    requires !("-MF" <= a || "-MT" <= a || "-MQ" <= a)
    ensures Classify(a) == GoLocal
  {
    assert a[1] == 'M';
    // the first ten rules of the group do not accept a
    var r0 := RulesFor('M');
    var r1 := r0.tail;
    assert First(r0, a) == First(r1, a);
    var r2 := r1.tail;
    assert First(r1, a) == First(r2, a);
    var r3 := r2.tail;
    assert First(r2, a) == First(r3, a);
    var r4 := r3.tail;
    assert First(r3, a) == First(r4, a);
    var r5 := r4.tail;
    assert First(r4, a) == First(r5, a);
    var r6 := r5.tail;
    assert First(r5, a) == First(r6, a);
    var r7 := r6.tail;
    assert First(r6, a) == First(r7, a);
    var r8 := r7.tail;
    assert First(r7, a) == First(r8, a);
    var r9 := r8.tail;
    assert First(r8, a) == First(r9, a);
    var r10 := r9.tail;
    assert First(r9, a) == First(r10, a);
  }

  /** Assembler options asking for listings or dependency output
      (src/arg.c:212-222). */
  lemma ClassifyLocalWa(a: string)
    requires "-Wa," <= a && (Contains(a, ",-a") || Contains(a, "--MD"))
    ensures Classify(a) == GoLocal
  {
    var subs := [",-a", "--MD"];
    assert a[1] == 'W';
    assert Contains(a, subs[0]) || Contains(a, subs[1]);
  }

  /** -specs= (src/arg.c:224-227). */
  lemma ClassifyLocalSpecs(a: string)
    requires "-specs=" <= a
    ensures Classify(a) == GoLocal
  {
    assert a[1] == 's';
  }

  /** Profiling and coverage options and -frepo (src/arg.c:231-238). */
  lemma ClassifyLocalProfiling(a: string)
    requires a == "-fprofile-arcs" || a == "-ftest-coverage" || a == "--coverage" || a == "-frepo"
    ensures Classify(a) == GoLocal
  {
  }

  /** -x, an explicit language (src/arg.c:239-241). */
  lemma ClassifyLocalLanguage(a: string)
    requires "-x" <= a
    ensures Classify(a) == GoLocal
  {
    assert a[1] == 'x';
  }

  /** -dr, RTL dumps (src/arg.c:242-245). */
  lemma ClassifyLocalDump(a: string)
    requires "-dr" <= a
    ensures Classify(a) == GoLocal
  {
    assert a[1] == 'd';
  }

  /** What the scan has learnt so far. */
  datatype ScanState = ScanState(seenC: bool, seenS: bool, input: Option<string>, output: Option<string>)

  const InitState := ScanState(false, false, None, None)

  /** How the scanning loop ends. */
  datatype LoopEnd =
    | Finished(st: ScanState)   // argv[i] == NULL
    | Bail                      // returned EXIT_DISTCC_FAILED from inside the loop
    | PastEnd                   // the C code reads beyond the terminating NULL

  /** One iteration of the loop at index i < |argv|. */
  datatype StepOutcome = Continue(next: nat, st: ScanState) | Stop(end: LoopEnd)

  /** The label GOT_OUTPUT: a second output gives up. */
  function GotOutput(next: nat, st: ScanState, name: string): StepOutcome
  {
    if st.output.Some? then Stop(Bail) else Continue(next, st.(output := Some(name)))
  }

  /** The tokens after which the loop skips one index. */
  predicate TakesOperand(a: string)
  {
    a == "-MF" || a == "-MT" || a == "-MQ" || a == "-o"
  }

  /** Where the loop goes after index i, when it goes on. */
  function NextPos(argv: seq<string>, i: nat): nat
  {
    if i < |argv| && TakesOperand(argv[i]) then i + 2 else i + 1
  }

  function Step(argv: seq<string>, i: nat, st: ScanState, ra: bool): StepOutcome
    requires i < |argv|
  {
    var a := argv[i];
    if IsOption(a) then
      ClassifyActions(a);
      match Classify(a)
      case GoLocal => Stop(Bail)
      case NoEffect => Continue(i + 1, st)
      case SkipOperand => Continue(i + 2, st)
      case SeeS => Continue(i + 1, st.(seenS := true))
      case SeeC => Continue(i + 1, st.(seenC := true))
      case OutputIsNext =>
        if i + 1 < |argv| then GotOutput(i + 2, st, argv[i + 1])
        // a = argv[++i] is the NULL terminator: a second output still gives up
        // first; otherwise the loop goes on reading past the end.
        else if st.output.Some? then Stop(Bail) else Stop(PastEnd)
      case OutputIsRest => GotOutput(i + 1, st, a[2..])
    else if IsSource(a, ra) then
      if st.input.Some? then Stop(Bail) else Continue(i + 1, st.(input := Some(a)))
    else if EndsWith(".o", a) then GotOutput(i + 1, st, a)
    else Continue(i + 1, st)
  }

  /** A step that goes on moves to the next index, or past the operand of a
      bare -MF, -MT, -MQ or -o. */
  lemma StepNext(argv: seq<string>, i: nat, st: ScanState, ra: bool)
    requires i < |argv|
    ensures Step(argv, i, st, ra).Continue? ==> Step(argv, i, st, ra).next == NextPos(argv, i)
  {
    ClassifyActions(argv[i]);
    ClassifyOperandTakers(argv[i]);
  }

  /** The loop `for (i = 0; (a = argv[i]); i++)` from index i onwards. */
  function ScanLoop(argv: seq<string>, i: nat, st: ScanState, ra: bool): LoopEnd
    decreases |argv| - i
  {
    if i == |argv| then Finished(st)
    else if i > |argv| then PastEnd
    else match Step(argv, i, st, ra)
      case Stop(e) => e
      case Continue(n, st') => ScanLoop(argv, n, st', ra)
  }

  /** The verdict of dcc_scan_args. */
  datatype ScanResult =
    | Distributable(input: string, output: string, newArgv: seq<string>)  // returns 0
    | Local                // returns EXIT_DISTCC_FAILED: must run locally
    | BadArguments         // exit(EXIT_BAD_ARGUMENTS): argv[0] is an option
    | ReadsPastEnd         // a trailing bare -o, -MF, -MT or -MQ: undefined in C

  /** The checks after the loop, and the synthesis of a missing "-o FILE". */
  function Finish(argv: seq<string>, st: ScanState, ra: bool): ScanResult
  {
    if !st.seenC && !st.seenS then Local
    else if st.input.None? then Local
    else if SourceNeedsLocal(st.input.value) != 0 then Local
    else if st.output.None? then
      match OutputFromSource(st.input.value, if st.seenS then ".s" else ".o")
      case Err(_) => Local
      case Ok(ofile) =>
        if ofile == "-" then Local
        else Distributable(st.input.value, ofile, ArgvAppend(ArgvAppend(argv, "-o"), ofile))
    else if st.output.value == "-" then Local
    else Distributable(st.input.value, st.output.value, argv)
  }

  /** dcc_argv_append: the vector with one more argument at its end. */
  function ArgvAppend(argv: seq<string>, toadd: string): (r: seq<string>)
    ensures |r| == |argv| + 1 && r[..|argv|] == argv && r[|argv|] == toadd
  {
    argv + [toadd]
  }

  /** The specification of dcc_scan_args. */
  function ScanSpec(argv: seq<string>, ra: bool): ScanResult
    requires |argv| >= 1
  {
    if IsOption(argv[0]) then BadArguments
    else match ScanLoop(argv, 0, InitState, ra)
      case Bail => Local
      case PastEnd => ReadsPastEnd
      case Finished(st) => Finish(argv, st, ra)
  }

  /** dcc_scan_args: the index loop of the source; each iteration classifies
      argv[i] as `Step` does, bumping i once more after a bare -MF/-MT/-MQ/-o. */
  method ScanArgs(argv: seq<string>, ra: bool) returns (r: ScanResult)
    requires |argv| >= 1
    ensures r == ScanSpec(argv, ra)
  {
    if IsOption(argv[0]) {
      return BadArguments;
    }
    var st := InitState;
    var i := 0;
    while i < |argv|
      invariant i <= |argv|
      invariant ScanLoop(argv, 0, InitState, ra) == ScanLoop(argv, i, st, ra)
      decreases |argv| - i
    {
      ScanLoopUnfold(argv, i, st, ra);
      match Step(argv, i, st, ra)
      case Stop(e) =>
        return if e == Bail then Local else ReadsPastEnd;
      case Continue(next, st') =>
        if next > |argv| {
          return ReadsPastEnd;
        }
        i, st := next, st';
    }
    r := Finish(argv, st, ra);
  }

  /** One turn of the loop; a single step never finishes the loop. */
  lemma ScanLoopUnfold(argv: seq<string>, i: nat, st: ScanState, ra: bool)
    requires i < |argv|
    ensures ScanLoop(argv, i, st, ra) == match Step(argv, i, st, ra)
      case Stop(e) => e
      case Continue(n, st') => ScanLoop(argv, n, st', ra)
    ensures Step(argv, i, st, ra).Stop? ==> !Step(argv, i, st, ra).end.Finished?
    ensures Step(argv, i, st, ra).Continue? ==> Step(argv, i, st, ra).next > i
  {
  }

  // ---------------------------------------------------------------------
  // Which indices the loop looks at

  /** The loop, started at index i, looks at index k. */
  predicate Reaches(argv: seq<string>, i: nat, k: nat)
    decreases k - i
  {
    i == k || (i < k && i < |argv| && Reaches(argv, NextPos(argv, i), k))
  }

  /** The indices visited form one increasing chain. */
  lemma {:induction false} ReachesBetween(argv: seq<string>, i: nat, a: nat, b: nat)
    requires Reaches(argv, i, a) && Reaches(argv, i, b) && a <= b
    ensures Reaches(argv, a, b)
    decreases b - i
  {
    if i != a {
      ReachesBetween(argv, NextPos(argv, i), a, b);
    }
  }

  /** The token after a bare -MF, -MT, -MQ or -o is never classified. */
  lemma {:induction false} OperandNeverClassified(argv: seq<string>, j: nat)
    requires j < |argv| && TakesOperand(argv[j]) && Reaches(argv, 0, j)
    ensures !Reaches(argv, 0, j + 1)
  {
    if Reaches(argv, 0, j + 1) {
      ReachesBetween(argv, 0, j, j + 1);
    }
  }

  /** An option classified GoLocal ends the loop with a bail-out if the
      loop gets to it, whatever was seen before. */
  lemma {:induction false} LocalOptionBails(argv: seq<string>, i: nat, k: nat, st: ScanState, ra: bool)
    requires k < |argv| && IsOption(argv[k]) && Classify(argv[k]) == GoLocal
    requires Reaches(argv, i, k)
    ensures ScanLoop(argv, i, st, ra) == Bail
    decreases k - i
  {
    if i < k {
      StepNext(argv, i, st, ra);
      StepEffect(argv, i, st, ra);
      match Step(argv, i, st, ra)
      case Stop(e) =>
        StopBeforeEnd(argv, i, st, ra, k);
      case Continue(n, st') =>
        LocalOptionBails(argv, n, k, st', ra);
    }
  }

  /** Before the last index, a step stops only by bailing out. */
  lemma StopBeforeEnd(argv: seq<string>, i: nat, st: ScanState, ra: bool, k: nat)
    requires i < k < |argv|
    requires Step(argv, i, st, ra).Stop?
    ensures Step(argv, i, st, ra).end == Bail
  {
  }

  /** The options that force local compilation (src/arg.c:176-245). */
  predicate ForcesLocal(a: string)
  {
    || a == "-E" || a == "-march=native" || a == "-mtune=native"
    || ("-Wa," <= a && (Contains(a, ",-a") || Contains(a, "--MD")))
    || "-specs=" <= a
    || a == "-fprofile-arcs" || a == "-ftest-coverage" || a == "--coverage" || a == "-frepo"
    || "-x" <= a || "-dr" <= a
    || ("-M" <= a && a != "-MD" && a != "-MMD" && a != "-MG" && a != "-MP"
        && !("-MF" <= a || "-MT" <= a || "-MQ" <= a))
  }

  lemma ForcesLocalClassified(a: string)
    requires ForcesLocal(a)
    ensures Classify(a) == GoLocal
  {
    if a == "-E" {
      ClassifyExact();
    } else if a == "-march=native" || a == "-mtune=native" {
      ClassifyLocalNative(a);
    } else if "-Wa," <= a && (Contains(a, ",-a") || Contains(a, "--MD")) {
      ClassifyLocalWa(a);
    } else if "-M" <= a && a != "-MD" && a != "-MMD" && a != "-MG" && a != "-MP"
              && !("-MF" <= a || "-MT" <= a || "-MQ" <= a) {
      ClassifyLocalM(a);
    } else if "-specs=" <= a {
      ClassifyLocalSpecs(a);
    } else if "-x" <= a {
      ClassifyLocalLanguage(a);
    } else if "-dr" <= a {
      ClassifyLocalDump(a);
    } else {
      ClassifyLocalProfiling(a);
    }
  }

  /** Any of them, at an index the scan looks at, makes dcc_scan_args answer
      EXIT_DISTCC_FAILED (or exit, when argv[0] itself is an option). */
  lemma LocalOptionsForceLocal(argv: seq<string>, k: nat, ra: bool)
    requires 1 <= |argv| && k < |argv| && Reaches(argv, 0, k) && ForcesLocal(argv[k])
    ensures ScanSpec(argv, ra) == Local || ScanSpec(argv, ra) == BadArguments
  {
    ForcesLocalClassified(argv[k]);
    LocalOptionBails(argv, 0, k, InitState, ra);
  }

  /** What one step does to the scan state: -S and -c set their flags, a
      source token sets the input and an output name the output, and a
      second input or output stops the loop with a bail-out. */
  lemma StepEffect(argv: seq<string>, i: nat, st: ScanState, ra: bool)
    requires i < |argv|
    ensures var a := argv[i];
      var src := !IsOption(a) && IsSource(a, ra);
      match Step(argv, i, st, ra)
      case Stop(e) =>
        e == PastEnd ==> a == "-o" && i + 1 == |argv| && st.output.None?
      case Continue(_, st') =>
        && st'.seenS == (st.seenS || a == "-S")
        && st'.seenC == (st.seenC || a == "-c")
        && st'.input == (if src then Some(a) else st.input)
        && st'.output == (if NamesOutput(argv, i, ra) then Some(OutputName(argv, i)) else st.output)
    ensures !IsOption(argv[i]) && IsSource(argv[i], ra) && st.input.Some? ==> Step(argv, i, st, ra) == Stop(Bail)
    ensures NamesOutput(argv, i, ra) && st.output.Some? ==> Step(argv, i, st, ra) == Stop(Bail)
  {
    var a := argv[i];
    ClassifyActions(a);
    ClassifyOperandTakers(a);
    ClassifyExact();
    if "-o" <= a {
      ClassifyDashO(a);
    }
  }

  /** The input is set at most once and never cleared; same for the output. */
  lemma {:induction false} StepKeeps(argv: seq<string>, i: nat, st: ScanState, ra: bool)
    requires i < |argv|
    ensures Step(argv, i, st, ra).Continue? ==>
      var st' := Step(argv, i, st, ra).st;
      (st.input.Some? ==> st'.input == st.input) && (st.output.Some? ==> st'.output == st.output)
      && (st.seenC ==> st'.seenC) && (st.seenS ==> st'.seenS)
  {
  }

  /** A source token that the loop reaches once an input is known gives up. */
  lemma {:induction false} SecondInputBails(argv: seq<string>, i: nat, k: nat, st: ScanState, ra: bool)
    requires k < |argv| && !IsOption(argv[k]) && IsSource(argv[k], ra)
    requires Reaches(argv, i, k) && st.input.Some?
    ensures ScanLoop(argv, i, st, ra) == Bail
    decreases k - i
  {
    if i < k {
      StepKeeps(argv, i, st, ra);
      StepNext(argv, i, st, ra);
      StepEffect(argv, i, st, ra);
      match Step(argv, i, st, ra)
      case Stop(e) => StopBeforeEnd(argv, i, st, ra, k);
      case Continue(n, st') => SecondInputBails(argv, n, k, st', ra);
    }
  }

  /** Two recognised source files among the scanned tokens: "do we have two
      inputs?", the scan answers EXIT_DISTCC_FAILED (src/arg.c:259-265). */
  lemma {:induction false} TwoInputsBail(argv: seq<string>, i: nat, j1: nat, j2: nat, st: ScanState, ra: bool)
    requires j1 < j2 < |argv| && Reaches(argv, i, j1) && Reaches(argv, i, j2)
    requires !IsOption(argv[j1]) && IsSource(argv[j1], ra)
    requires !IsOption(argv[j2]) && IsSource(argv[j2], ra)
    ensures ScanLoop(argv, i, st, ra) == Bail
    decreases j1 - i
  {
    if i < j1 {
      StepNext(argv, i, st, ra);
      StepEffect(argv, i, st, ra);
      match Step(argv, i, st, ra)
      case Stop(e) => StopBeforeEnd(argv, i, st, ra, j1);
      case Continue(n, st') =>
        ReachesBetween(argv, i, j1, j2);
        assert Reaches(argv, n, j1);
        ReachesBetween(argv, n, j1, j2);
        assert Reaches(argv, n, j2) by { ReachesTrans(argv, n, j1, j2); }
        TwoInputsBail(argv, n, j1, j2, st', ra);
    } else {
      StepNext(argv, i, st, ra);
      StepEffect(argv, i, st, ra);
      match Step(argv, i, st, ra)
      case Stop(e) =>
      case Continue(n, st') =>
        ReachesBetween(argv, i, j1, j2);
        SecondInputBails(argv, n, j2, st', ra);
    }
  }

  lemma {:induction false} ReachesTrans(argv: seq<string>, a: nat, b: nat, c: nat)
    requires Reaches(argv, a, b) && Reaches(argv, b, c)
    ensures Reaches(argv, a, c)
    decreases b - a
  {
    if a != b {
      ReachesTrans(argv, NextPos(argv, a), b, c);
    }
  }

  /** The tokens that name an output file: -o NAME (the NAME), -oNAME and a
      bare token ending in ".o" that is not a source file. */
  predicate NamesOutput(argv: seq<string>, k: nat, ra: bool)
    requires k < |argv|
  {
    var a := argv[k];
    if IsOption(a) then "-o" <= a && (a != "-o" || k + 1 < |argv|)
    else !IsSource(a, ra) && EndsWith(".o", a)
  }

  /** The output file a token names. */
  function OutputName(argv: seq<string>, k: nat): string
    requires k < |argv|
  {
    var a := argv[k];
    if a == "-o" && k + 1 < |argv| then argv[k + 1]
    else if IsOption(a) && "-o" <= a then a[2..]
    else a
  }

  /** A token naming an output, reached once an output is known, gives up. */
  lemma {:induction false} SecondOutputBails(argv: seq<string>, i: nat, k: nat, st: ScanState, ra: bool)
    requires k < |argv| && NamesOutput(argv, k, ra)
    requires Reaches(argv, i, k) && st.output.Some?
    ensures ScanLoop(argv, i, st, ra) == Bail
    decreases k - i
  {
    StepEffect(argv, i, st, ra);
    if i < k {
      StepKeeps(argv, i, st, ra);
      StepNext(argv, i, st, ra);
      match Step(argv, i, st, ra)
      case Stop(e) => StopBeforeEnd(argv, i, st, ra, k);
      case Continue(n, st') => SecondOutputBails(argv, n, k, st', ra);
    }
  }

  /** Two output names among the scanned tokens: "called for link?", the scan
      answers EXIT_DISTCC_FAILED (src/arg.c:267-274). */
  lemma {:induction false} TwoOutputsBail(argv: seq<string>, i: nat, j1: nat, j2: nat, st: ScanState, ra: bool)
    requires j1 < j2 < |argv| && Reaches(argv, i, j1) && Reaches(argv, i, j2)
    requires NamesOutput(argv, j1, ra) && NamesOutput(argv, j2, ra)
    ensures ScanLoop(argv, i, st, ra) == Bail
    decreases j1 - i
  {
    if i < j1 {
      StepNext(argv, i, st, ra);
      StepEffect(argv, i, st, ra);
      match Step(argv, i, st, ra)
      case Stop(e) => StopBeforeEnd(argv, i, st, ra, j1);
      case Continue(n, st') =>
        ReachesBetween(argv, i, j1, j2);
        ReachesTrans(argv, n, j1, j2);
        TwoOutputsBail(argv, n, j1, j2, st', ra);
    } else {
      StepNext(argv, i, st, ra);
      StepEffect(argv, i, st, ra);
      match Step(argv, i, st, ra)
      case Stop(e) =>
      case Continue(n, st') =>
        ReachesBetween(argv, i, j1, j2);
        SecondOutputBails(argv, n, j2, st', ra);
    }
  }

  /** What a finished loop has seen is made of reached tokens. */
  lemma {:induction false} FinishedFacts(argv: seq<string>, i: nat, st: ScanState, ra: bool, fin: ScanState)
    requires ScanLoop(argv, i, st, ra) == Finished(fin)
    ensures fin.seenC ==> st.seenC || exists k :: i <= k < |argv| && Reaches(argv, i, k) && argv[k] == "-c"
    ensures fin.seenS ==> st.seenS || exists k :: i <= k < |argv| && Reaches(argv, i, k) && argv[k] == "-S"
    ensures fin.input.Some? ==>
      (st.input == fin.input ||
       exists k :: i <= k < |argv| && Reaches(argv, i, k) && argv[k] == fin.input.value
                   && !IsOption(argv[k]) && IsSource(argv[k], ra))
    ensures fin.output.None? ==>
      (st.output.None? &&
       forall k :: i <= k < |argv| && Reaches(argv, i, k) ==> !NamesOutput(argv, k, ra))
    decreases |argv| - i
  {
    if i < |argv| {
      StepNext(argv, i, st, ra);
      StepEffect(argv, i, st, ra);
      match Step(argv, i, st, ra)
      case Stop(e) =>
      case Continue(n, st') =>
        FinishedFacts(argv, n, st', ra, fin);
        forall k | i <= k < |argv| && Reaches(argv, n, k)
          ensures Reaches(argv, i, k)
        {
        }
        if fin.output.None? {
          forall k | i <= k < |argv| && Reaches(argv, i, k)
            ensures !NamesOutput(argv, k, ra)
          {
            if k != i {
              assert Reaches(argv, n, k);
            }
          }
        }
    }
  }

  /** Success needs -c or -S, a recognised input that is not an autoconf probe,
      and an output other than "-" (src/arg.c:285-298, 336-344). */
  lemma {:induction false} DistributableRequires(argv: seq<string>, ra: bool)
    requires |argv| >= 1 && ScanSpec(argv, ra).Distributable?
    ensures var r := ScanSpec(argv, ra);
      && (exists k :: 0 <= k < |argv| && Reaches(argv, 0, k) && argv[k] in {"-c", "-S"})
      && (exists k :: 0 <= k < |argv| && Reaches(argv, 0, k) && argv[k] == r.input)
      && IsSource(r.input, ra)
      && SourceNeedsLocal(r.input) == 0
      && r.output != "-"
  {
    var fin := ScanLoop(argv, 0, InitState, ra).st;
    FinishedFacts(argv, 0, InitState, ra, fin);
  }

  /** The name the compiler would pick without -o: the input's stripped name
      with its extension replaced by ".s" under -S and by ".o" otherwise. */
  function ImpliedOutput(input: string, seenS: bool): Result<string>
  {
    OutputFromSource(input, if seenS then ".s" else ".o")
  }

  /** Output synthesis (src/arg.c:149, 300-331): when no scanned token names an
      output, the new argv is the old one followed by "-o" and the implied name;
      otherwise the new argv is the old one unchanged. */
  lemma {:induction false} NewArgvShape(argv: seq<string>, ra: bool)
    requires |argv| >= 1 && ScanSpec(argv, ra).Distributable?
    ensures var r := ScanSpec(argv, ra);
      var seenS := exists k :: 0 <= k < |argv| && Reaches(argv, 0, k) && argv[k] == "-S";
      if forall k :: 0 <= k < |argv| && Reaches(argv, 0, k) ==> !NamesOutput(argv, k, ra) then
        ImpliedOutput(r.input, seenS) == Ok(r.output) && r.newArgv == argv + ["-o", r.output]
      else r.newArgv == argv
  {
    var fin := ScanLoop(argv, 0, InitState, ra).st;
    FinishShape(argv, fin, ra);
    SeenSExact(argv, 0, InitState, ra, fin);
    if fin.output.Some? {
      OutputSeen(argv, 0, InitState, ra, fin);
    } else {
      FinishedFacts(argv, 0, InitState, ra, fin);
    }
  }

  /** With -c or -S, a usable input and no output, Finish appends "-o" and
      the implied name. */
  lemma FinishImplied(argv: seq<string>, fin: ScanState, ra: bool, ofile: string)
    requires (fin.seenC || fin.seenS) && fin.input.Some? && fin.output.None?
    requires SourceNeedsLocal(fin.input.value) == 0
    requires ImpliedOutput(fin.input.value, fin.seenS) == Ok(ofile) && ofile != "-"
    ensures Finish(argv, fin, ra) == Distributable(fin.input.value, ofile, argv + ["-o", ofile])
  {
    assert ArgvAppend(ArgvAppend(argv, "-o"), ofile) == argv + ["-o", ofile];
  }

  /** The vector Finish hands back: the old one, with "-o" and the implied
      name appended when the loop saw no output. */
  lemma FinishShape(argv: seq<string>, fin: ScanState, ra: bool)
    requires Finish(argv, fin, ra).Distributable?
    ensures var r := Finish(argv, fin, ra);
      && fin.input == Some(r.input)
      && (fin.output.None? ==>
            ImpliedOutput(r.input, fin.seenS) == Ok(r.output) && r.newArgv == argv + ["-o", r.output])
      && (fin.output.Some? ==> r.output == fin.output.value && r.newArgv == argv)
  {
    var input := fin.input.value;
    if fin.output.None? {
      var ofile := ImpliedOutput(input, fin.seenS).value;
      assert Finish(argv, fin, ra) == Distributable(input, ofile, ArgvAppend(ArgvAppend(argv, "-o"), ofile));
      assert ArgvAppend(ArgvAppend(argv, "-o"), ofile) == argv + ["-o", ofile];
    } else {
      assert Finish(argv, fin, ra) == Distributable(input, fin.output.value, argv);
    }
  }

  /** The -S flag at the end is set exactly when a reached token is "-S". */
  lemma {:induction false} SeenSExact(argv: seq<string>, i: nat, st: ScanState, ra: bool, fin: ScanState)
    requires ScanLoop(argv, i, st, ra) == Finished(fin)
    ensures fin.seenS == (st.seenS || exists k :: i <= k < |argv| && Reaches(argv, i, k) && argv[k] == "-S")
    decreases |argv| - i
  {
    if i < |argv| {
      StepNext(argv, i, st, ra);
      StepEffect(argv, i, st, ra);
      match Step(argv, i, st, ra)
      case Stop(e) =>
      case Continue(n, st') =>
        SeenSExact(argv, n, st', ra, fin);
        if exists k :: i <= k < |argv| && Reaches(argv, i, k) && argv[k] == "-S" {
          var k :| i <= k < |argv| && Reaches(argv, i, k) && argv[k] == "-S";
          if k != i {
            assert Reaches(argv, n, k);
          }
        }
        if exists k :: n <= k < |argv| && Reaches(argv, n, k) && argv[k] == "-S" {
          var k :| n <= k < |argv| && Reaches(argv, n, k) && argv[k] == "-S";
          assert Reaches(argv, i, k);
        }
    }
  }

  /** An output known at the end was set by a reached token. */
  lemma {:induction false} OutputSeen(argv: seq<string>, i: nat, st: ScanState, ra: bool, fin: ScanState)
    requires ScanLoop(argv, i, st, ra) == Finished(fin) && fin.output.Some? && st.output.None?
    ensures exists k :: i <= k < |argv| && Reaches(argv, i, k) && NamesOutput(argv, k, ra)
    decreases |argv| - i
  {
    if i < |argv| {
      StepNext(argv, i, st, ra);
      StepEffect(argv, i, st, ra);
      match Step(argv, i, st, ra)
      case Stop(e) =>
      case Continue(n, st') =>
        if st'.output.None? {
          OutputSeen(argv, n, st', ra, fin);
          var k :| n <= k < |argv| && Reaches(argv, n, k) && NamesOutput(argv, k, ra);
          assert Reaches(argv, i, k);
        } else {
          assert NamesOutput(argv, i, ra);
        }
    }
  }

  /** "gcc -c NAME.c": distributable, with "-o NAME.o" appended, for any
      directory-free NAME that is not an autoconf probe. */
  lemma ScenarioImpliedObject(stem: string)
    requires |stem| >= 1 && stem[0] != '-' && '/' !in stem
    requires !("conftest." <= stem + ".c") && !("tmp.conftest." <= stem + ".c")
    ensures ScanSpec(["gcc", "-c", stem + ".c"], false)
      == Distributable(stem + ".c", stem + ".o", ["gcc", "-c", stem + ".c"] + ["-o", stem + ".o"])
  {
    var argv := ["gcc", "-c", stem + ".c"];
    var src := stem + ".c";
    var st := InitState.(seenC := true, input := Some(src));
    ScanImpliedObject(stem);
    ObjectOfPlainSource(stem);
    FinishImplied(argv, st, false, stem + ".o");
  }

  /** The loop over "gcc -c NAME.c" sees -c and the input NAME.c. */
  lemma ScanImpliedObject(stem: string)
    requires |stem| >= 1 && stem[0] != '-'
    ensures ScanLoop(["gcc", "-c", stem + ".c"], 0, InitState, false)
      == Finished(InitState.(seenC := true, input := Some(stem + ".c")))
  {
    var argv := ["gcc", "-c", stem + ".c"];
    var src := stem + ".c";
    var st1 := InitState.(seenC := true);
    var st2 := st1.(input := Some(src));
    assert LastIndexOf("gcc", '.') == None;
    assert Step(argv, 0, InitState, false) == Continue(1, InitState);
    ClassifyExact();
    assert Step(argv, 1, InitState, false) == Continue(2, st1);
    assert IsSource(src, false) by {
      LastDotOf(src, |stem|);
      assert src[|stem|..][1..] == "c";
    }
    assert Step(argv, 2, st1, false) == Continue(3, st2);
    assert ScanLoop(argv, 2, st1, false) == Finished(st2);
    assert ScanLoop(argv, 1, InitState, false) == Finished(st2);
  }

  /** "gcc -E -c hello.c": -E forces local compilation whatever follows. */
  lemma ScenarioPreprocessOnly()
    ensures ScanSpec(["gcc", "-E", "-c", "hello.c"], false) == Local
  {
    var argv := ["gcc", "-E", "-c", "hello.c"];
    assert LastIndexOf("gcc", '.') == None;
    assert Step(argv, 0, InitState, false) == Continue(1, InitState);
    ClassifyExact();
  }

  /** "gcc -o - -c NAME.c": output to stdout runs locally. */
  lemma ScenarioStdout(stem: string)
    requires |stem| >= 1 && stem[0] != '-'
    ensures ScanSpec(["gcc", "-o", "-", "-c", stem + ".c"], false) == Local
  {
    ScanStdout(stem);
  }

  /** The loop over "gcc -o - -c NAME.c" records the output "-", the -c and
      the input. */
  lemma ScanStdout(stem: string)
    requires |stem| >= 1 && stem[0] != '-'
    ensures ScanLoop(["gcc", "-o", "-", "-c", stem + ".c"], 0, InitState, false)
      == Finished(ScanState(true, false, Some(stem + ".c"), Some("-")))
  {
    var argv := ["gcc", "-o", "-", "-c", stem + ".c"];
    var src := stem + ".c";
    var st1 := InitState.(output := Some("-"));
    var st2 := st1.(seenC := true);
    var st3 := st2.(input := Some(src));
    assert LastIndexOf("gcc", '.') == None;
    assert Step(argv, 0, InitState, false) == Continue(1, InitState);
    ClassifyDashO("-o");
    ClassifyExact();
    assert Step(argv, 1, InitState, false) == Continue(3, st1);
    assert Step(argv, 3, st1, false) == Continue(4, st2);
    assert IsSource(src, false) by {
      LastDotOf(src, |stem|);
      assert src[|stem|..][1..] == "c";
    }
    assert Step(argv, 4, st2, false) == Continue(5, st3);
    assert ScanLoop(argv, 4, st2, false) == Finished(st3);
    assert ScanLoop(argv, 3, st1, false) == Finished(st3);
    assert ScanLoop(argv, 1, InitState, false) == Finished(st3);
  }

  // ---------------------------------------------------------------------
  // dcc_expand_preprocessor_options: "-Wp,a,b,..." becomes a, b, ...

  /** strchr(s, c) as the suffix of s the returned pointer points at. */
  function Strchr(s: string, c: char): (r: Option<string>)
    ensures r.None? <==> c !in s
    ensures r.Some? ==> 1 <= |r.value| <= |s| && r.value == s[|s| - |r.value|..]
                        && r.value[0] == c && c !in s[..|s| - |r.value|]
  {
    match IndexOf(s, c)
    case None => None
    case Some(k) => Some(s[k..])
  }

  /** The comma-separated pieces of s (a string without ',' is one piece). */
  function SplitCommas(s: string): (r: seq<string>)
    ensures |r| >= 1
    decreases |s|
  {
    match Strchr(s, ',')
    case None => [s]
    case Some(t) => [s[..|s| - |t|]] + SplitCommas(t[1..])
  }

  /** The tokens the pieces of a -Wp option turn into: each piece as itself,
      and "-MD"/"-MMD" followed by a piece also get "-MF" and that piece. */
  function ExpandPieces(ps: seq<string>): (r: seq<string>)
    decreases |ps|
  {
    if |ps| == 0 then []
    else if (ps[0] == "-MD" || ps[0] == "-MMD") && |ps| >= 2 then
      [ps[0], "-MF", ps[1]] + ExpandPieces(ps[2..])
    else [ps[0]] + ExpandPieces(ps[1..])
  }

  predicate IsWp(a: string)
  {
    "-Wp," <= a
  }

  /** What one "-Wp,..." argument is replaced by. */
  function WpExpansion(w: string): seq<string>
    requires IsWp(w)
  {
    ExpandPieces(SplitCommas(w[4..]))
  }

  /** The whole vector after expansion, argument by argument. */
  function ExpandAll(argv: seq<string>): seq<string>
    decreases |argv|
  {
    if |argv| == 0 then []
    else (if IsWp(argv[0]) then WpExpansion(argv[0]) else [argv[0]]) + ExpandAll(argv[1..])
  }

  /** One unfolding of SplitCommas, for the loops that walk the commas. */
  lemma SplitCommasStep(text: string)
    ensures Strchr(text, ',').None? ==> SplitCommas(text) == [text]
    ensures Strchr(text, ',').Some? ==>
      SplitCommas(text) == [text[..|text| - |Strchr(text, ',').value|]] + SplitCommas(Strchr(text, ',').value[1..])
  {
  }

  /** The suffix at the first comma of "-Wp,...", where both walks start. */
  lemma WpStart(w: string)
    requires IsWp(w)
    ensures Strchr(w[3..], ',') == Some(w[3..]) && w[3..][1..] == w[4..]
  {
    assert IndexOf(w[3..], ',') == Some(0);
  }

  /** str_startswith("-MD,", opt) holds exactly when the first piece of opt is
      "-MD" and another piece follows; likewise for "-MMD,". */
  lemma {:induction false} MDPrefix(opt: string, md: string)
    requires md == "-MD" || md == "-MMD"
    ensures (md + ",") <= opt <==>
      (Strchr(opt, ',').Some? && opt[..|opt| - |Strchr(opt, ',').value|] == md)
  {
    if (md + ",") <= opt {
      assert opt[|md|] == ',' && ',' !in opt[..|md|] by {
        assert opt[..|md|] == md;
      }
      assert IndexOf(opt, ',') == Some(|md|);
    }
    if Strchr(opt, ',').Some? && opt[..|opt| - |Strchr(opt, ',').value|] == md {
      var k := |opt| - |Strchr(opt, ',').value|;
      assert k == |md|;
      assert opt[..k + 1] == md + ",";
    }
  }

  /** The pieces still to be read when the walk's pointer is `comma`. */
  function Remaining(comma: Option<string>): seq<string>
  {
    match comma
    case None => []
    case Some(t) => if |t| == 0 then [] else SplitCommas(t[1..])
  }

  /** The piece that starts `text`, once the comma after it is overwritten. */
  function FirstPiece(text: string): string
  {
    match Strchr(text, ',')
    case None => text
    case Some(c) => text[..|text| - |c|]
  }

  /** The pieces of t are its first piece followed by what remains after the
      comma that ends it. */
  lemma SplitHead(t: string)
    ensures SplitCommas(t) == [FirstPiece(t)] + Remaining(Strchr(t, ','))
  {
    SplitCommasStep(t);
  }

  lemma ExpandMDHead(a: string, b: string, rest: seq<string>)
    requires a == "-MD" || a == "-MMD"
    ensures ExpandPieces([a] + ([b] + rest)) == [a] + ["-MF", b] + ExpandPieces(rest)
  {
    var ps := [a] + ([b] + rest);
    assert ps[0] == a && ps[1] == b && ps[2..] == rest;
  }

  /** A walk round at a piece "-MD"/"-MMD" followed by a comma: the piece,
      "-MF" and the next piece are emitted, and the walk resumes after it. */
  lemma {:induction false} WalkStepMD(before: seq<string>, text: string)
    requires Strchr(text, ',').Some?
    requires FirstPiece(text) == "-MD" || FirstPiece(text) == "-MMD"
    ensures var f := Strchr(text, ',').value[1..];
      before + ExpandPieces(SplitCommas(text))
      == before + [FirstPiece(text)] + ["-MF", FirstPiece(f)] + ExpandPieces(Remaining(Strchr(f, ',')))
  {
    var f := Strchr(text, ',').value[1..];
    var a, b, rest := FirstPiece(text), FirstPiece(f), Remaining(Strchr(f, ','));
    SplitHead(text);
    SplitHead(f);
    assert SplitCommas(text) == [a] + ([b] + rest);
    ExpandMDHead(a, b, rest);
    ConcatAssoc(before, [a], ["-MF", b], ExpandPieces(rest));
  }

  lemma ConcatAssoc<T>(w: seq<T>, x: seq<T>, y: seq<T>, z: seq<T>)
    ensures w + (x + y + z) == w + x + y + z
  {
  }

  /** Any other walk round: the piece is emitted and the walk resumes at the
      next comma. */
  lemma {:induction false} WalkStepPlain(before: seq<string>, text: string)
    requires Strchr(text, ',').None? || (FirstPiece(text) != "-MD" && FirstPiece(text) != "-MMD")
    ensures before + ExpandPieces(SplitCommas(text))
            == before + [FirstPiece(text)] + ExpandPieces(Remaining(Strchr(text, ',')))
  {
    SplitHead(text);
    var ps := SplitCommas(text);
    assert ps[0] == FirstPiece(text) && ps[1..] == Remaining(Strchr(text, ','));
  }

  /** The lengths of the two walk steps. */
  lemma WalkLength(text: string)
    ensures "-MD," <= text || "-MMD," <= text ==>
      Strchr(text, ',').Some? &&
      |ExpandPieces(SplitCommas(text))| == 3 + |ExpandPieces(Remaining(Strchr(Strchr(text, ',').value[1..], ',')))|
    ensures !("-MD," <= text || "-MMD," <= text) ==>
      |ExpandPieces(SplitCommas(text))| == 1 + |ExpandPieces(Remaining(Strchr(text, ',')))|
  {
    MDPrefix(text, "-MD");
    MDPrefix(text, "-MMD");
    if "-MD," <= text || "-MMD," <= text {
      WalkStepMD([], text);
    } else {
      WalkStepPlain([], text);
    }
  }

  /** count_extra_args: walk the commas of the option counting output tokens;
      `comma` is the text the C pointer points at, None for NULL. */
  method CountExtraArgs(w: string) returns (extra: int)
    requires IsWp(w)
    ensures extra == |WpExpansion(w)|
  {
    extra := 0;
    WpStart(w);
    var comma: Option<string> := Strchr(w[3..], ',');
    while comma.Some?
      invariant comma.Some? ==> |comma.value| >= 1
      invariant extra + |ExpandPieces(Remaining(comma))| == |WpExpansion(w)|
      decreases if comma.Some? then |comma.value| else 0
    {
      var opt := comma.value[1..];
      WalkLength(opt);
      comma := Strchr(opt, ',');
      if "-MD," <= opt || "-MMD," <= opt {
        var filename := comma.value[1..];
        comma := Strchr(filename, ',');
        extra := extra + 3;
      } else {
        extra := extra + 1;
      }
    }
  }

  /** copy_extra_args: the same walk, emitting each piece, and after a piece
      "-MD"/"-MMD" also "-MF" and the following piece; a trailing "-MD"/"-MMD"
      without a file name ends the walk. */
  method CopyExtraArgs(w: string) returns (dest: seq<string>)
    requires IsWp(w)
    ensures dest == WpExpansion(w)
  {
    dest := [];
    WpStart(w);
    var comma: Option<string> := Strchr(w[3..], ',');
    while comma.Some?
      invariant comma.Some? ==> |comma.value| >= 1
      invariant dest + ExpandPieces(Remaining(comma)) == WpExpansion(w)
      decreases if comma.Some? then |comma.value| else 0
    {
      var text := comma.value[1..];
      comma := Strchr(text, ',');
      // *comma = '\0': the piece ends where the next comma starts
      var opt := if comma.Some? then text[..|text| - |comma.value|] else text;
      ghost var before := dest;
      dest := dest + [opt];
      if (opt == "-MD" || opt == "-MMD") && comma.Some? {
        WalkStepMD(before, text);
        var filename := comma.value[1..];
        comma := Strchr(filename, ',');
        var name := if comma.Some? then filename[..|filename| - |comma.value|] else filename;
        dest := dest + ["-MF", name];
      } else {
        WalkStepPlain(before, text);
        if opt == "-MD" || opt == "-MMD" {
          // '-Wp,-MD' or '-Wp,-MMD' is missing its file name
          break;
        }
      }
    }
  }

  /** dcc_expand_preprocessor_options: splice the expansion of every "-Wp,"
      argument in place and resume scanning after the inserted tokens. */
  method ExpandPreprocessorOptions(argv: seq<string>) returns (r: seq<string>)
    ensures r == ExpandAll(argv)
  {
    r := argv;
    var i := 0;
    ghost var k := 0;
    while i < |r|
      invariant 0 <= i <= |r| && k <= |argv| && |r| - i == |argv| - k
      invariant r[..i] == ExpandAll(argv[..k]) && r[i..] == argv[k..]
      decreases |r| - i
    {
      assert r[i] == argv[k];
      ExpandAllSnoc(argv[..k], argv[k]);
      assert argv[..k + 1] == argv[..k] + [argv[k]];
      if IsWp(r[i]) {
        var extraArgs := CountExtraArgs(r[i]);
        var pieces := CopyExtraArgs(r[i]);
        ExpansionNonEmpty(r[i]);
        ghost var old_r := r;
        r := r[..i] + pieces + r[i + 1..];
        assert r[..i + extraArgs] == old_r[..i] + pieces;
        assert r[i + extraArgs..] == old_r[i + 1..];
        i := i + extraArgs - 1;
      } else {
        assert r[..i + 1] == r[..i] + [r[i]];
      }
      i := i + 1;
      k := k + 1;
    }
    assert argv[..k] == argv;
  }

  /** assert(extra_args >= 1): an expansion is never empty. */
  lemma ExpansionNonEmpty(w: string)
    requires IsWp(w)
    ensures |WpExpansion(w)| >= 1
  {
  }

  lemma ExpandAllSnoc(a: seq<string>, x: string)
    ensures ExpandAll(a + [x]) == ExpandAll(a) + (if IsWp(x) then WpExpansion(x) else [x])
  {
    ExpandAllAppend(a, [x]);
    assert [x][1..] == [];
  }

  /** Expansion works argument by argument: the arguments around a -Wp
      option keep their order. */
  lemma {:induction false} ExpandAllAppend(a: seq<string>, b: seq<string>)
    ensures ExpandAll(a + b) == ExpandAll(a) + ExpandAll(b)
    decreases |a|
  {
    if |a| > 0 {
      assert (a + b)[1..] == a[1..] + b;
      ExpandAllAppend(a[1..], b);
    } else {
      assert a + b == b;
    }
  }

  /** Without "-Wp," arguments the vector is left as it is. */
  lemma {:induction false} ExpandAllIdentity(argv: seq<string>)
    requires forall k :: 0 <= k < |argv| ==> !IsWp(argv[k])
    ensures ExpandAll(argv) == argv
    decreases |argv|
  {
    if |argv| > 0 {
      ExpandAllIdentity(argv[1..]);
    }
  }

  lemma {:induction false} ExpandPiecesCommaFree(ps: seq<string>)
    requires forall k :: 0 <= k < |ps| ==> ',' !in ps[k]
    ensures forall k :: 0 <= k < |ExpandPieces(ps)| ==> ',' !in ExpandPieces(ps)[k]
    decreases |ps|
  {
    if |ps| >= 2 && (ps[0] == "-MD" || ps[0] == "-MMD") {
      ExpandPiecesCommaFree(ps[2..]);
    } else if |ps| > 0 {
      ExpandPiecesCommaFree(ps[1..]);
    }
  }

  lemma {:induction false} SplitCommasCommaFree(s: string)
    ensures forall k :: 0 <= k < |SplitCommas(s)| ==> ',' !in SplitCommas(s)[k]
    decreases |s|
  {
    match Strchr(s, ',')
    case None =>
    case Some(t) =>
      SplitCommasCommaFree(t[1..]);
      assert ',' !in s[..|s| - |t|];
  }

  /** A -Wp option has a comma, at index 3. */
  lemma WpHasComma(x: string)
    ensures IsWp(x) ==> ',' in x
  {
    if IsWp(x) {
      assert x[3] == ',';
    }
  }

  /** No token of an expansion is itself a "-Wp," option: the pieces carry no
      comma, and the other tokens were not -Wp options to begin with. */
  lemma {:induction false} ExpandAllNoWp(argv: seq<string>)
    ensures forall k :: 0 <= k < |ExpandAll(argv)| ==> !IsWp(ExpandAll(argv)[k])
    decreases |argv|
  {
    if |argv| > 0 {
      ExpandAllNoWp(argv[1..]);
      var rest := ExpandAll(argv[1..]);
      var head := if IsWp(argv[0]) then WpExpansion(argv[0]) else [argv[0]];
      if IsWp(argv[0]) {
        SplitCommasCommaFree(argv[0][4..]);
        ExpandPiecesCommaFree(SplitCommas(argv[0][4..]));
        forall k | 0 <= k < |head|
          ensures !IsWp(head[k])
        {
          WpHasComma(head[k]);
        }
      }
      assert ExpandAll(argv) == head + rest;
      forall k | 0 <= k < |head + rest|
        ensures !IsWp((head + rest)[k])
      {
        if k >= |head| {
          assert (head + rest)[k] == rest[k - |head|];
        }
      }
    }
  }

  /** Expanding twice is expanding once: nothing "-Wp,"-like is produced. */
  lemma ExpandAllIdempotent(argv: seq<string>)
    ensures ExpandAll(ExpandAll(argv)) == ExpandAll(argv)
  {
    ExpandAllNoWp(argv);
    ExpandAllIdentity(ExpandAll(argv));
  }

  /** Splitting at the first comma. */
  lemma SplitAtComma(x: string, y: string)
    requires ',' !in x
    ensures SplitCommas(x + [','] + y) == [x] + SplitCommas(y)
  {
    var s := x + [','] + y;
    assert s[|x|] == ',';
    var t := Strchr(s, ',').value;
    var cut := |s| - |t|;
    assert s[cut] == t[0];
    assert s[..cut] == x;
    assert t[1..] == y;
  }

  /** "-Wp,-MD,FILE" (or -MMD) becomes -MD -MF FILE, for a FILE without a comma. */
  lemma WpDependencyFile(md: string, file: string)
    requires md == "-MD" || md == "-MMD"
    requires ',' !in file
    ensures IsWp("-Wp," + md + [','] + file)
    ensures WpExpansion("-Wp," + md + [','] + file) == [md, "-MF", file]
  {
    var w := "-Wp," + md + [','] + file;
    assert w[..4] == "-Wp,";
    assert w[4..] == md + [','] + file;
    ExpandDependencyPieces(md, file);
  }

  /** The pieces "-MD,FILE" (or "-MMD,FILE") expand to -MD -MF FILE. */
  lemma ExpandDependencyPieces(md: string, file: string)
    requires md == "-MD" || md == "-MMD"
    requires ',' !in file
    ensures ExpandPieces(SplitCommas(md + [','] + file)) == [md, "-MF", file]
  {
    assert ',' !in md;
    SplitAtComma(md, file);
    SplitCommasStep(file);
    ExpandMDHead(md, file, []);
    assert [md] + [file] == [md] + ([file] + []);
  }

  // ---------------------------------------------------------------------
  // In-place editors of an argument vector (the NULL terminator is the end
  // of the array)

  /** dcc_set_action_opt: every "-c" and "-S" becomes newC; it fails only
      when there was none. */
  method SetActionOpt(a: array<string>, newC: string) returns (ret: int)
    modifies a
    ensures forall k :: 0 <= k < a.Length ==>
      a[k] == (if old(a[k]) == "-c" || old(a[k]) == "-S" then newC else old(a[k]))
    ensures ret == 0 <==> exists k :: 0 <= k < a.Length && (old(a[k]) == "-c" || old(a[k]) == "-S")
    ensures ret == 0 || ret == EXIT_DISTCC_FAILED
  {
    var gotone := false;
    var i := 0;
    while i < a.Length
      invariant 0 <= i <= a.Length
      invariant forall k :: 0 <= k < i ==>
        a[k] == (if old(a[k]) == "-c" || old(a[k]) == "-S" then newC else old(a[k]))
      invariant forall k :: i <= k < a.Length ==> a[k] == old(a[k])
      invariant gotone <==> exists k :: 0 <= k < i && (old(a[k]) == "-c" || old(a[k]) == "-S")
    {
      if a[i] == "-c" || a[i] == "-S" {
        a[i] := newC;
        gotone := true;
      }
      i := i + 1;
    }
    ret := if gotone then 0 else EXIT_DISTCC_FAILED;
  }

  /** The first index holding "-o" or "-oNAME" (the slot dcc_set_output edits). */
  function FirstOutputOption(s: seq<string>): (r: Option<nat>)
    ensures r.None? <==> forall k :: 0 <= k < |s| ==> !("-o" <= s[k])
    ensures r.Some? ==> r.value < |s| && "-o" <= s[r.value]
                        && forall k :: 0 <= k < r.value ==> !("-o" <= s[k])
    decreases |s|
  {
    if |s| == 0 then None
    else if "-o" <= s[0] then Some(0)
    else match FirstOutputOption(s[1..])
      case None => None
      case Some(k) => Some(k + 1)
  }

  lemma FirstOutputOptionAt(s: seq<string>, i: nat)
    requires i < |s| && "-o" <= s[i] && forall k :: 0 <= k < i ==> !("-o" <= s[k])
    ensures FirstOutputOption(s) == Some(i)
  {
  }

  /** The output an -o option at index i names: the next argument for a bare
      "-o" that has one, otherwise the text after "-o". */
  function OutputNamedAt(s: seq<string>, i: nat): string
    requires i < |s| && "-o" <= s[i]
  {
    if s[i] == "-o" && i + 1 < |s| then s[i + 1] else s[i][2..]
  }

  /** The vector with the -o option at index i made to name ofname: the
      argument after a bare "-o" is replaced, any other "-o..." is rewritten
      as "-o" + ofname (a trailing bare "-o" included). */
  function OutputEdit(s: seq<string>, i: nat, ofname: string): (r: seq<string>)
    requires i < |s|
    ensures |r| == |s|
  {
    if s[i] == "-o" && i + 1 < |s| then s[i + 1 := ofname] else s[i := "-o" + ofname]
  }

  /** After the edit, the first -o option is still at i and names ofname.
      (An empty ofname would turn "-oX" into a bare "-o" naming the next
      argument instead.) */
  lemma OutputEditNames(s: seq<string>, i: nat, ofname: string)
    requires FirstOutputOption(s) == Some(i) && ofname != ""
    ensures FirstOutputOption(OutputEdit(s, i, ofname)) == Some(i)
    ensures OutputNamedAt(OutputEdit(s, i, ofname), i) == ofname
  {
    var r := OutputEdit(s, i, ofname);
    assert ("-o" + ofname)[..2] == "-o" && ("-o" + ofname)[2..] == ofname;
    assert forall k :: 0 <= k < i ==> r[k] == s[k];
    FirstOutputOptionAt(r, i);
  }

  /** dcc_set_output: rewrite the first -o option so that it names ofname. */
  method SetOutput(a: array<string>, ofname: string) returns (ret: int)
    modifies a
    ensures ret == 0 <==> FirstOutputOption(old(a[..])).Some?
    ensures ret != 0 ==> ret == EXIT_DISTCC_FAILED && a[..] == old(a[..])
    ensures ret == 0 ==> a[..] == OutputEdit(old(a[..]), FirstOutputOption(old(a[..])).value, ofname)
  {
    var i := 0;
    while i < a.Length
      invariant 0 <= i <= a.Length
      invariant forall k :: 0 <= k < i ==> !("-o" <= a[k])
    {
      if a[i] == "-o" && i + 1 < a.Length {
        FirstOutputOptionAt(a[..], i);
        a[i + 1] := ofname;
        return 0;
      } else if "-o" <= a[i] {
        FirstOutputOptionAt(a[..], i);
        a[i] := "-o" + ofname;
        return 0;
      }
      i := i + 1;
    }
    return EXIT_DISTCC_FAILED;
  }

  /** The first index holding a recognised source file name. */
  function FirstSource(s: seq<string>, ra: bool): (r: Option<nat>)
    ensures r.None? <==> forall k :: 0 <= k < |s| ==> !IsSource(s[k], ra)
    ensures r.Some? ==> r.value < |s| && IsSource(s[r.value], ra)
                        && forall k :: 0 <= k < r.value ==> !IsSource(s[k], ra)
    decreases |s|
  {
    if |s| == 0 then None
    else if IsSource(s[0], ra) then Some(0)
    else match FirstSource(s[1..], ra)
      case None => None
      case Some(k) => Some(k + 1)
  }

  /** dcc_set_input: the first source file argument becomes ifname. */
  method SetInput(a: array<string>, ifname: string, ra: bool) returns (ret: int)
    modifies a
    ensures ret == 0 <==> FirstSource(old(a[..]), ra).Some?
    ensures ret != 0 ==> ret == EXIT_DISTCC_FAILED && a[..] == old(a[..])
    ensures ret == 0 ==>
      var i := FirstSource(old(a[..]), ra).value;
      a[..] == old(a[..])[i := ifname]
  {
    var i := 0;
    while i < a.Length
      invariant 0 <= i <= a.Length
      invariant forall k :: 0 <= k < i ==> !IsSource(a[k], ra)
    {
      if IsSource(a[i], ra) {
        a[i] := ifname;
        return 0;
      }
      i := i + 1;
    }
    return EXIT_DISTCC_FAILED;
  }
}

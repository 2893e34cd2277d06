/** The recursion safeguard (src/safeguard.c). A distcc process exports
    _DISTCC_SAFEGUARD before it runs the real compiler; a distcc that finds
    the variable set knows it was started by another distcc (for instance
    through a masquerade directory left on the PATH) and compiles locally
    instead of distributing again. */
module Safeguard {
  import opened Common

  const SAFEGUARD_NAME: string := "_DISTCC_SAFEGUARD"

  /** The initial contents of the static setting buffer handed to putenv. */
  const INITIAL_SETTING: string := "_DISTCC_SAFEGUARD=1"

  /** The level a process started under env computes: 0 when the variable
      is unset, otherwise its numeric value, with a value that reads as 0
      counting as 1. */
  function LevelOf(env: Env): (level: int)
    ensures level == 0 <==> SAFEGUARD_NAME !in env
    ensures SAFEGUARD_NAME in env && Atoi(env[SAFEGUARD_NAME]) != 0 ==> level == Atoi(env[SAFEGUARD_NAME])
    ensures SAFEGUARD_NAME in env && Atoi(env[SAFEGUARD_NAME]) == 0 ==> level == 1
  {
    if SAFEGUARD_NAME in env then
      var n := Atoi(env[SAFEGUARD_NAME]);
      if n == 0 then 1 else n
    else 0
  }

  /** The character written for a level: the C expression level + '1'
      stored in a char, so the digit of level + 1 for levels 0 to 8 and
      the low eight bits of that sum beyond. */
  function LevelChar(level: int): (c: char)
    ensures 0 <= level <= 8 ==> IsDigit(c) && c as int - '0' as int == level + 1
  {
    ((level + '1' as int) % 256) as char
  }

  /** The value a setting exports: what follows the '='. */
  function ExportedValue(setting: string): string
    requires |setting| == |INITIAL_SETTING|
  {
    setting[|SAFEGUARD_NAME| + 1..]
  }

  /** The process-wide safeguard: the static level and setting buffer. */
  class Guard {
    var level: int
    var setting: string

    constructor ()
      ensures level == 0 && setting == INITIAL_SETTING && Valid()
    {
      level := 0;
      setting := INITIAL_SETTING;
    }

    /** The setting buffer is the variable name, '=' and one character. */
    predicate Valid()
      reads this
    {
      |setting| == |INITIAL_SETTING| && setting[..|SAFEGUARD_NAME| + 1] == SAFEGUARD_NAME + "="
    }

    /** dcc_recursion_safeguard: read the level from the environment. */
    method RecursionSafeguard(env: Env) returns (ret: int)
      modifies this
      ensures level == LevelOf(env) && ret == level && setting == old(setting)
    {
      if SAFEGUARD_NAME in env {
        level := Atoi(env[SAFEGUARD_NAME]);
        if level == 0 {
          level := 1;
        }
      } else {
        level := 0;
      }
      return level;
    }

    /** dcc_increment_safeguard: when the level is positive, overwrite the
        setting's last character with the next level, then export the
        setting. A failed putenv is logged and ignored. */
    method IncrementSafeguard(env: Env, putenvOk: bool) returns (ret: int, newEnv: Env)
      modifies this
      requires Valid()
      ensures Valid() && level == old(level) && ret == 0
      ensures old(level) > 0 ==> setting == old(setting)[|setting| - 1 := LevelChar(level)]
      ensures old(level) <= 0 ==> setting == old(setting)
      ensures putenvOk ==> newEnv == env[SAFEGUARD_NAME := ExportedValue(setting)]
      ensures !putenvOk ==> newEnv == env
    {
      if level > 0 {
        setting := setting[|setting| - 1 := LevelChar(level)];
      }
      if putenvOk {
        newEnv := env[SAFEGUARD_NAME := ExportedValue(setting)];
      } else {
        newEnv := env;
      }
      return 0, newEnv;
    }
  }

  /** atoi of a single character. */
  lemma AtoiOneChar(c: char)
    ensures Atoi([c]) == if IsDigit(c) then c as int - '0' as int else 0
  {
    assert [c][1..] == [];
    assert Atoi([]) == 0;
    if IsDigit(c) {
      assert DigitsValue([c], 0) == DigitsValue([], c as int - '0' as int);
    }
  }

  /** Whatever character the setting ends in, a process started under the
      exported environment sees a positive level, so it never distributes
      again. */
  lemma ChildIsGuarded(env: Env, c: char)
    ensures LevelOf(env[SAFEGUARD_NAME := [c]]) >= 1
  {
    AtoiOneChar(c);
  }

  /** Up to level 8 the exported level is one more than the exporter's:
      a level-0 process exports the initial "1", a level-n process n + 1. */
  lemma ChildLevelIncrements(env: Env, level: int)
    requires 0 <= level <= 8
    ensures LevelOf(env[SAFEGUARD_NAME := [LevelChar(level)]]) == level + 1
  {
    AtoiOneChar(LevelChar(level));
  }

  /** The value exported by a valid setting is its last character alone. */
  lemma ExportedIsLastChar(setting: string)
    requires |setting| == |INITIAL_SETTING|
    ensures ExportedValue(setting) == [setting[|setting| - 1]]
  {
  }
}

/** Shared vocabulary of the distcc client model: optional values, the exit
    codes the client uses, the process environment, and the handful of C
    string routines (strrchr, strstr, str_startswith, str_endswith, atoi)
    whose exact behaviour the rest of the model depends on. */
module Common {

  datatype Option<+T> = None | Some(value: T)

  /** An operation that either yields a value or fails with an exit code. */
  datatype Result<+T> = Ok(value: T) | Err(code: int)

  // Exit codes of the client (numeric values as distcc's exitcode.h defines them;
  // that header is not part of this model).
  const EXIT_DISTCC_FAILED: int := 100
  const EXIT_BAD_ARGUMENTS: int := 101
  const EXIT_OUT_OF_MEMORY: int := 105
  const EXIT_IO_ERROR: int := 107
  const EXIT_BUSY: int := 114
  const EXIT_NO_HOSTS: int := 116

  const INT_MAX: int := 0x7fff_ffff

  /** The process environment: getenv(name) is non-NULL exactly when name is a key. */
  type Env = map<string, string>

  function GetEnv(env: Env, name: string): (r: Option<string>)
    ensures r.Some? <==> name in env
    ensures r.Some? ==> r.value == env[name]
  {
    if name in env then Some(env[name]) else None
  }

  /** str_endswith(tail, s): s ends with tail. */
  predicate EndsWith(tail: string, s: string)
  {
    |tail| <= |s| && s[|s| - |tail|..] == tail
  }

  /** strstr(s, sub) != NULL. */
  predicate Contains(s: string, sub: string)
    decreases |s|
  {
    sub <= s || (|s| > 0 && Contains(s[1..], sub))
  }

  lemma {:induction false} ContainsAt(s: string, sub: string, k: nat)
    requires k + |sub| <= |s| && s[k..k + |sub|] == sub
    ensures Contains(s, sub)
    decreases k
  {
    if k == 0 {
      assert s[..|sub|] == sub;
    } else {
      assert s[1..][k - 1..k - 1 + |sub|] == s[k..k + |sub|];
      ContainsAt(s[1..], sub, k - 1);
    }
  }

  /** strrchr(s, c): the index of the last occurrence of c, if any. */
  function LastIndexOf(s: string, c: char): (r: Option<nat>)
    ensures r.Some? ==> r.value < |s| && s[r.value] == c
  {
    if |s| == 0 then None
    else if s[|s| - 1] == c then Some(|s| - 1)
    else LastIndexOf(s[..|s| - 1], c)
  }

  /** strrchr finds c exactly when s holds it, and no c follows what it finds. */
  lemma {:induction false} LastIndexOfSpec(s: string, c: char)
    ensures LastIndexOf(s, c).None? <==> c !in s
    ensures LastIndexOf(s, c).Some? ==> c !in s[LastIndexOf(s, c).value + 1..]
    decreases |s|
  {
    if |s| > 0 && s[|s| - 1] != c {
      var init := s[..|s| - 1];
      LastIndexOfSpec(init, c);
      assert s == init + [s[|s| - 1]];
      var r := LastIndexOf(init, c);
      assert r.Some? ==> s[r.value + 1..] == init[r.value + 1..] + [s[|s| - 1]];
    }
  }

  /** strchr(s, c): the index of the first occurrence of c, if any. */
  function IndexOf(s: string, c: char): (r: Option<nat>)
    ensures r.None? <==> c !in s
    ensures r.Some? ==> r.value < |s| && s[r.value] == c && c !in s[..r.value]
  {
    if |s| == 0 then None
    else if s[0] == c then Some(0)
    else
      var r := IndexOf(s[1..], c);
      assert r.Some? ==> s[..r.value + 1] == [s[0]] + s[1..][..r.value];
      if r.None? then None else Some(r.value + 1)
  }

  /** isspace() in the C locale. */
  predicate IsSpace(c: char)
  {
    c == ' ' || c == '\t' || c == '\n' || c == '\U{000B}' || c == '\U{000C}' || c == '\r'
  }

  predicate IsDigit(c: char)
  {
    '0' <= c <= '9'
  }

  /** The value of the longest run of leading decimal digits of s. */
  function DigitsValue(s: string, acc: int): (r: int)
    decreases |s|
  {
    if |s| == 0 || !IsDigit(s[0]) then acc
    else DigitsValue(s[1..], acc * 10 + (s[0] as int - '0' as int))
  }

  /** atoi(s): skip white space, an optional sign, then decimal digits up to the
      first non-digit.  The C overflow behaviour (undefined) is not modelled:
      the result is the unbounded mathematical value. */
  function Atoi(s: string): int
    decreases |s|
  {
    if |s| > 0 && IsSpace(s[0]) then Atoi(s[1..])
    else if |s| > 0 && s[0] == '-' then -DigitsValue(s[1..], 0)
    else if |s| > 0 && s[0] == '+' then DigitsValue(s[1..], 0)
    else DigitsValue(s, 0)
  }

  /** The decimal spelling of a natural number, as printf's "%ld" writes it. */
  function DecimalString(n: nat): (r: string)
    ensures |r| >= 1
    ensures forall k :: 0 <= k < |r| ==> IsDigit(r[k])
    ensures n < 10 <==> |r| == 1
  {
    if n < 10 then ['0' + n as char]
    else DecimalString(n / 10) + ['0' + (n % 10) as char]
  }

  lemma {:induction false} DigitsValueAppend(s: string, acc: int)
    requires forall k :: 0 <= k < |s| ==> IsDigit(s[k])
    ensures forall t :: (|t| == 0 || !IsDigit(t[0])) ==> DigitsValue(s + t, acc) == DigitsValue(s, acc)
    decreases |s|
  {
    if |s| > 0 {
      forall t | |t| == 0 || !IsDigit(t[0])
        ensures DigitsValue(s + t, acc) == DigitsValue(s, acc)
      {
        assert (s + t)[1..] == s[1..] + t;
        DigitsValueAppend(s[1..], acc * 10 + (s[0] as int - '0' as int));
      }
    } else {
      forall t | |t| == 0 || !IsDigit(t[0])
        ensures DigitsValue(s + t, acc) == DigitsValue(s, acc)
      {
        assert s + t == t;
      }
    }
  }

  lemma {:induction false} DigitsValueAcc(s: string, acc: int)
    requires forall k :: 0 <= k < |s| ==> IsDigit(s[k])
    ensures DigitsValue(s, acc) == acc * Pow10(|s|) + DigitsValue(s, 0)
    decreases |s|
  {
    if |s| > 0 {
      var d := s[0] as int - '0' as int;
      DigitsValueAcc(s[1..], acc * 10 + d);
      DigitsValueAcc(s[1..], d);
      assert Pow10(|s|) == 10 * Pow10(|s| - 1);
    }
  }

  function Pow10(k: nat): nat
  {
    if k == 0 then 1 else 10 * Pow10(k - 1)
  }

  /** atoi reads back what "%ld" wrote: the decimal spelling round-trips. */
  lemma {:induction false} AtoiDecimal(n: nat)
    ensures Atoi(DecimalString(n)) == n
  {
    var s := DecimalString(n);
    assert !IsSpace(s[0]) && s[0] != '-' && s[0] != '+';
    DigitsOfDecimal(n);
  }

  lemma {:induction false} DigitsOfDecimal(n: nat)
    ensures DigitsValue(DecimalString(n), 0) == n
  {
    if n >= 10 {
      var hi := DecimalString(n / 10);
      var lo: string := ['0' + (n % 10) as char];
      DigitsOfDecimal(n / 10);
      DigitsValueAppend(hi, 0);
      DigitsValueAcc(hi + lo, 0);
      DigitsValueSnoc(hi, lo[0], 0);
    }
  }

  lemma {:induction false} DigitsValueSnoc(s: string, c: char, acc: int)
    requires forall k :: 0 <= k < |s| ==> IsDigit(s[k])
    requires IsDigit(c)
    ensures DigitsValue(s + [c], acc) == DigitsValue(s, acc) * 10 + (c as int - '0' as int)
    decreases |s|
  {
    if |s| == 0 {
      assert (s + [c])[1..] == [];
    } else {
      assert (s + [c])[1..] == s[1..] + [c];
      DigitsValueSnoc(s[1..], c, acc * 10 + (s[0] as int - '0' as int));
    }
  }
}

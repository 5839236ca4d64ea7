/**
 The server's username policy: generated names `Player<N>` drawn from a
 process-wide counter, and the 16-character limit on names a client sets.
 */
module Usernames {

  /** Longest username a client may set; longer names are cut. */
  const MaxUsernameLength: nat := 16

  const GeneratedPrefix: string := "Player"

  function DigitChar(d: nat): (c: char)
    requires d < 10
    ensures '0' <= c <= '9'
  {
    ['0', '1', '2', '3', '4', '5', '6', '7', '8', '9'][d]
  }

  /** The decimal spelling of `n`, as a JS template literal writes a number. */
  function Decimal(n: nat): (s: string)
    ensures |s| >= 1
    ensures forall i :: 0 <= i < |s| ==> '0' <= s[i] <= '9'
    ensures n >= 10 ==> |s| >= 2
    ensures s[0] == '0' ==> n == 0
  {
    if n < 10 then [DigitChar(n)] else Decimal(n / 10) + [DigitChar(n % 10)]
  }

  /** The number a string of decimal digits spells, most significant digit first. */
  function DigitsValue(s: string): nat
    requires forall i :: 0 <= i < |s| ==> '0' <= s[i] <= '9'
    decreases |s|
  {
    if s == [] then 0 else DigitsValue(s[..|s| - 1]) * 10 + (s[|s| - 1] as int - '0' as int)
  }

  /** `Decimal(n)` spells `n`. */
  lemma {:induction false} DecimalValue(n: nat)
    ensures DigitsValue(Decimal(n)) == n
    decreases n
  {
    if n >= 10 {
      DecimalValue(n / 10);
      var s := Decimal(n);
      assert s[..|s| - 1] == Decimal(n / 10);
    }
  }

  /** Distinct numbers have distinct decimal spellings. */
  lemma {:induction false} DecimalInjective(a: nat, b: nat)
    requires Decimal(a) == Decimal(b)
    ensures a == b
  {
    DecimalValue(a);
    DecimalValue(b);
  }

  /** The name `randomUsername` builds from counter value `n`. */
  function Generated(n: nat): (r: string)
    ensures |r| > |GeneratedPrefix| && r[..|GeneratedPrefix|] == GeneratedPrefix
    ensures forall i :: |GeneratedPrefix| <= i < |r| ==> '0' <= r[i] <= '9'
    ensures DigitsValue(r[|GeneratedPrefix|..]) == n
  {
    var digits := Decimal(n);
    DecimalValue(n);
    assert (GeneratedPrefix + digits)[|GeneratedPrefix|..] == digits;
    GeneratedPrefix + digits
  }

  /**
   Names generated from different counter values differ, so, since the
   counter only grows, no generated name is ever handed out twice.
   */
  lemma GeneratedDistinct(a: nat, b: nat)
    requires a != b
    ensures Generated(a) != Generated(b)
    ensures |Generated(a)| > |GeneratedPrefix|
  {
  }

  /** `String(name).slice(0, 16)`: the first 16 characters, or all of a shorter name. */
  function Truncated(name: string): (r: string)
    ensures |r| <= MaxUsernameLength
    ensures |r| == MaxUsernameLength || r == name
    ensures r <= name
  {
    if |name| <= MaxUsernameLength then name else name[..MaxUsernameLength]
  }

  /**
   The name `setUsername` stores: the truncated name, or a generated name
   from counter value `counter` when the truncation is empty.
   */
  function ChosenName(name: string, counter: nat): (r: string)
    ensures r != []
    ensures name != [] ==> r == Truncated(name)
    ensures name == [] ==> r == Generated(counter)
  {
    var t := Truncated(name);
    if t != [] then t else Generated(counter)
  }
}

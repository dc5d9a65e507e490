/** Decimal rendering of counters inside identifiers, as `format!` does it.

  Two identifiers of the system are built by gluing a number to a string: the
  Activity ID of a recycled card (`<id>-cycle-<n>`) and the key of a reported
  attempt (`<question>:<attempt>`). Both rest on the one fact proved here: a
  number glued on behind a non-digit can be read back.
*/
module Decimal {

  predicate IsDigit(c: char) {
    '0' <= c <= '9'
  }

  function DigitValue(c: char): (d: nat)
    requires IsDigit(c)
  {
    (c as int) - ('0' as int)
  }

  function Render(n: nat): (s: string)
    ensures |s| > 0
    ensures forall i :: 0 <= i < |s| ==> IsDigit(s[i])
  {
    var last := (('0' as int) + n % 10) as char;
    if n < 10 then [last] else Render(n / 10) + [last]
  }

  function Parse(s: string): (n: nat)
    requires forall i :: 0 <= i < |s| ==> IsDigit(s[i])
  {
    if s == [] then 0 else 10 * Parse(s[..|s| - 1]) + DigitValue(s[|s| - 1])
  }

  lemma {:induction false} ParseRender(n: nat)
    ensures Parse(Render(n)) == n
  {
    var s := Render(n);
    if n < 10 {
      assert s[..|s| - 1] == [];
    } else {
      ParseRender(n / 10);
      assert s[..|s| - 1] == Render(n / 10);
    }
  }

  /** How many digits a string ends in. */
  function TrailingDigits(s: string): (n: nat)
    ensures n <= |s|
  {
    if s == [] || !IsDigit(s[|s| - 1]) then 0 else 1 + TrailingDigits(s[..|s| - 1])
  }

  lemma {:induction false} TrailingNumeral(head: string, numeral: string)
    requires head != [] && !IsDigit(head[|head| - 1])
    requires forall i :: 0 <= i < |numeral| ==> IsDigit(numeral[i])
    ensures TrailingDigits(head + numeral) == |numeral|
  {
    if numeral == [] {
      assert head + numeral == head;
    } else {
      var short := numeral[..|numeral| - 1];
      assert (head + numeral)[..|head + numeral| - 1] == head + short;
      TrailingNumeral(head, short);
    }
  }

  /** A string and a number glued together around a separator that does not
    end in a digit determine each other.
  */
  lemma GlueInjective(a: string, m: nat, b: string, n: nat, separator: string)
    requires separator != [] && !IsDigit(separator[|separator| - 1])
    requires a + separator + Render(m) == b + separator + Render(n)
    ensures a == b && m == n
  {
    var head, head' := a + separator, b + separator;
    TrailingNumeral(head, Render(m));
    TrailingNumeral(head', Render(n));
    var whole := head + Render(m);
    assert whole[..|head|] == head;
    assert whole[..|head'|] == head';
    assert whole[|head|..] == Render(m);
    assert whole[|head'|..] == Render(n);
    ParseRender(m);
    ParseRender(n);
    assert a == head[..|a|];
    assert b == head'[..|b|];
  }
}

/** Numbered identifiers, as the lowering passes invent them: a prefix, an underscore and a decimal serial. */
module FreshNames {

  function Digit(d: nat): char
    requires d < 10
  {
    "0123456789"[d]
  }

  /** Decimal rendering of a serial number, without leading zeros. */
  function Decimal(n: nat): string
  {
    if n < 10 then [Digit(n)] else Decimal(n / 10) + [Digit(n % 10)]
  }

  function DigitValue(c: char): nat
  {
    if '0' <= c <= '9' then (c as int) - ('0' as int) else 0
  }

  function Value(s: string): nat
  {
    if s == "" then 0 else 10 * Value(s[..|s| - 1]) + DigitValue(s[|s| - 1])
  }

  lemma {:induction false} DecimalReadsBack(n: nat)
    ensures Value(Decimal(n)) == n
  {
    if n < 10 {
      assert Decimal(n)[..0] == "";
    } else {
      DecimalReadsBack(n / 10);
      var s := Decimal(n);
      assert s[..|s| - 1] == Decimal(n / 10);
    }
  }

  function Numbered(prefix: string, n: nat): string
  {
    prefix + "_" + Decimal(n)
  }

  lemma NumberedInjective(prefix: string, m: nat, n: nat)
    requires Numbered(prefix, m) == Numbered(prefix, n)
    ensures m == n
  {
    assert Numbered(prefix, m)[|prefix| + 1..] == Decimal(m);
    assert Numbered(prefix, n)[|prefix| + 1..] == Decimal(n);
    DecimalReadsBack(m);
    DecimalReadsBack(n);
  }

  ghost predicate IsNumbered(s: string, prefix: string, from: nat)
  {
    exists m: nat :: from <= m && s == Numbered(prefix, m)
  }

  /** The reserved names that a counter starting at `from` can still run into. */
  ghost function Ahead(prefix: string, from: nat, reserved: set<string>): set<string>
  {
    set s | s in reserved && IsNumbered(s, prefix, from)
  }

  /** Stepping past a reserved name leaves strictly fewer reserved names ahead. */
  lemma AheadShrinks(prefix: string, from: nat, reserved: set<string>)
    requires Numbered(prefix, from) in reserved
    ensures Ahead(prefix, from + 1, reserved) < Ahead(prefix, from, reserved)
  {
    var name := Numbered(prefix, from);
    assert IsNumbered(name, prefix, from);
    assert name in Ahead(prefix, from, reserved);
    if name in Ahead(prefix, from + 1, reserved) {
      var m: nat :| from + 1 <= m && name == Numbered(prefix, m);
      NumberedInjective(prefix, m, from);
    }
    forall s | s in Ahead(prefix, from + 1, reserved)
      ensures s in Ahead(prefix, from, reserved)
    {
      var m: nat :| from + 1 <= m && s == Numbered(prefix, m);
      assert IsNumbered(s, prefix, from);
    }
  }

  /** The serial the search settles on: the first one, from `from` on, whose name is free. */
  ghost function FirstFree(prefix: string, from: nat, reserved: set<string>): (n: nat)
    ensures from <= n
    ensures Numbered(prefix, n) !in reserved
    ensures forall m: nat | from <= m < n :: Numbered(prefix, m) in reserved
    decreases Ahead(prefix, from, reserved)
  {
    if Numbered(prefix, from) in reserved then
      AheadShrinks(prefix, from, reserved);
      FirstFree(prefix, from + 1, reserved)
    else from
  }
}

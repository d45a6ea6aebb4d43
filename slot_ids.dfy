/** Identifiers shared by a trigger and its panel: `tab-{baseId}-{n}`, where `baseId` is the
    group's namespace (handed in from outside) and `n` the 1-based slot rendered in decimal. */
module SlotIds {

  /** The decimal digit character for `d`. */
  function DigitChar(d: nat): (c: char)
    requires d < 10
    ensures '0' <= c <= '9'
  {
    ('0' as int + d) as char
  }

  /** The number a string of decimal digits denotes, most significant digit first. */
  function DigitsValue(s: string): nat
    requires forall i :: 0 <= i < |s| ==> '0' <= s[i] <= '9'
  {
    if s == [] then 0
    else DigitsValue(s[..|s| - 1]) * 10 + (s[|s| - 1] as int - '0' as int)
  }

  /** `n` written in decimal without leading zeros, as a template literal renders a
      non-negative integer. */
  function Decimal(n: nat): (s: string)
    ensures |s| >= 1
    ensures |s| == 1 <==> n < 10
    ensures forall i :: 0 <= i < |s| ==> '0' <= s[i] <= '9'
    ensures DigitsValue(s) == n
    ensures n > 0 ==> s[0] != '0'
  {
    if n < 10 then [DigitChar(n)]
    else
      var s := Decimal(n / 10) + [DigitChar(n % 10)];
      assert s[..|s| - 1] == Decimal(n / 10);
      s
  }

  /** The id of slot `slot` in the group whose namespace is `baseId`. */
  function SlotId(baseId: string, slot: nat): string {
    "tab-" + baseId + "-" + Decimal(slot)
  }

  /** Within one group, ids of different slots differ (and equal slots give equal ids). */
  lemma SlotIdInjective(baseId: string, m: nat, n: nat)
    ensures SlotId(baseId, m) == SlotId(baseId, n) <==> m == n
  {
    var prefix := "tab-" + baseId + "-";
    if SlotId(baseId, m) == SlotId(baseId, n) {
      assert SlotId(baseId, m)[|prefix|..] == Decimal(m);
      assert SlotId(baseId, n)[|prefix|..] == Decimal(n);
      assert m == DigitsValue(Decimal(m)) == DigitsValue(Decimal(n)) == n;
    }
  }
}

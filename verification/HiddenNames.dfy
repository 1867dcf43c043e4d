/** Names for hidden variables, made from a counter that is reset before it can overflow. */
module HiddenNames {

  const START: nat := 31415
  const THRESHOLD: nat := 2141234567
  const RESET: nat := 271828

  /** How many consecutive names are certain to differ. */
  const PERIOD: nat := 2140962740

  const PREFIX := "$_internalName_"

  function Digit(n: nat): char
    requires n < 10
  {
    (('0' as int) + n) as char
  }

  function Decimal(n: nat): (r: string)
    ensures r != []
  {
    if n < 10 then [Digit(n)] else Decimal(n / 10) + [Digit(n % 10)]
  }

  function NameOf(count: nat): string {
    PREFIX + Decimal(count)
  }

  /** The counter after one call. */
  function Next(n: nat): nat {
    if n + 1 > THRESHOLD then RESET else n + 1
  }

  /** The counter after k calls. */
  function After(n: nat, k: nat): nat {
    if k == 0 then n else Next(After(n, k - 1))
  }

  /** The names handed out so far, and the counter behind them. */
  class VXMLDocumentModel {
    var internalCount: nat
    ghost var issued: seq<string>

    ghost predicate Valid()
      reads this
    {
      && internalCount == After(START, |issued|)
      && forall k :: 0 <= k < |issued| ==> issued[k] == NameOf(After(START, k) + 1)
    }

    constructor ()
      ensures Valid() && issued == []
    {
      internalCount, issued := START, [];
    }

    method CreateHiddenVariable() returns (v: string)
      requires Valid()
      modifies this
      ensures Valid() && issued == old(issued) + [v]
      ensures forall k :: |old(issued)| - PERIOD < k < |old(issued)| && 0 <= k ==> old(issued)[k] != v
    {
      hide After, Decimal;
      AfterOne(START, |issued|);
      internalCount := internalCount + 1;
      var count := internalCount;
      if internalCount > THRESHOLD { internalCount := RESET; }
      v := PREFIX + Decimal(count);
      forall k | |issued| - PERIOD < k < |issued| && 0 <= k ensures issued[k] != v {
        NamesDiffer(k, |issued|);
      }
      issued := issued + [v];
    }
  }

  // ----- The counter -----

  lemma AfterOne(n: nat, k: nat)
    ensures After(n, k + 1) == Next(After(n, k))
  {
  }

  lemma {:induction false} Shape(n: nat, k: nat)
    requires n <= THRESHOLD && k <= PERIOD
    ensures After(n, k) == if n + k <= THRESHOLD then n + k else RESET + (n + k - THRESHOLD - 1)
    decreases k
  {
    if k > 0 { Shape(n, k - 1); }
  }

  lemma {:induction false} StaysBelow(n: nat, k: nat)
    requires n <= THRESHOLD
    ensures After(n, k) <= THRESHOLD
    decreases k
  {
    if k > 0 { StaysBelow(n, k - 1); }
  }

  lemma {:induction false} Onward(n: nat, i: nat, k: nat)
    ensures After(n, i + k) == After(After(n, i), k)
    decreases k
  {
    if k > 0 { Onward(n, i, k - 1); }
  }

  /** Within one period the counter does not repeat, wherever the period begins and whether or not
      the reset falls inside it. */
  lemma CountsDiffer(n: nat, i: nat, j: nat)
    requires n <= THRESHOLD && i < j < i + PERIOD
    ensures After(n, i) != After(n, j)
  {
    var m := After(n, i);
    StaysBelow(n, i);
    Onward(n, i, j - i);
    Shape(m, j - i);
  }

  /** The period is exact: once past the first reset value, the counter returns after it. */
  lemma PeriodIsExact(n: nat)
    requires RESET <= n <= THRESHOLD
    ensures After(n, PERIOD) == n
  {
    Shape(n, PERIOD);
  }

  // ----- The names -----

  lemma {:induction false} DecimalInjective(a: nat, b: nat)
    requires Decimal(a) == Decimal(b)
    ensures a == b
  {
    var s := Decimal(a);
    assert s[|s| - 1] == Digit(a % 10) == Digit(b % 10);
    if a >= 10 && b >= 10 {
      assert Decimal(a)[..|s| - 1] == Decimal(a / 10) && Decimal(b)[..|s| - 1] == Decimal(b / 10);
      DecimalInjective(a / 10, b / 10);
    }
  }

  /** The number that decimal digits stand for. */
  function Number(s: string): int {
    if s == "" then 0 else Number(s[..|s| - 1]) * 10 + (s[|s| - 1] as int - '0' as int)
  }

  /** A name is the prefix and the count in digits, without leading zeros. */
  lemma {:induction false} DecimalReads(n: nat)
    ensures Number(Decimal(n)) == n
    ensures forall c :: c in Decimal(n) ==> '0' <= c <= '9'
    ensures Decimal(n)[0] == '0' ==> n == 0
  {
    var s := Decimal(n);
    if n < 10 {
      assert s[..0] == "" && Number("") == 0;
    } else {
      DecimalReads(n / 10);
      assert s[..|s| - 1] == Decimal(n / 10);
    }
  }

  /** The first name of all. */
  lemma FirstName()
    ensures NameOf(After(START, 0) + 1) == "$_internalName_31416"
  {
    assert Decimal(31) == "31" && Decimal(314) == "314" && Decimal(3141) == "3141" && Decimal(31416) == "31416";
  }

  /** Any PERIOD consecutive names are pairwise distinct. */
  lemma NamesDiffer(i: nat, j: nat)
    requires i < j < i + PERIOD
    ensures NameOf(After(START, i) + 1) != NameOf(After(START, j) + 1)
  {
    var a, b := After(START, i) + 1, After(START, j) + 1;
    CountsDiffer(START, i, j);
    if NameOf(a) == NameOf(b) {
      assert NameOf(a)[|PREFIX|..] == Decimal(a) && NameOf(b)[|PREFIX|..] == Decimal(b);
      DecimalInjective(a, b);
    }
  }
}

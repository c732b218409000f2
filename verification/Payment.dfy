/** Conversion of order totals to Wei and the acceptance test for an on-chain payment. */
module Payment {
  import opened Model

  const WEI_PER_ETHER: int := 1_000_000_000_000_000_000
  const MIN_CONFIRMATIONS: int := 1
  const TWO_64: int := 0x1_0000_0000_0000_0000

  // ---------- rationals kept in lowest terms ----------

  datatype Rat = Rat(num: int, den: int)

  predicate Valid(r: Rat) { r.num > 0 && r.den > 0 }

  function Value(r: Rat): real
    requires r.den > 0
  {
    r.num as real / r.den as real
  }

  function Gcd(a: nat, b: nat): (g: nat)
    requires a > 0 || b > 0
    ensures g > 0 && Divides(g, a) && Divides(g, b)
    decreases b
  {
    if b == 0 then
      DividesSelf(a);
      a
    else
      var g := Gcd(b, a % b);
      DividesSum(g, a, b);
      g
  }

  ghost predicate Divides(g: int, n: int) {
    exists k :: n == k * g
  }

  lemma DividesSelf(a: nat)
    ensures Divides(a, a) && Divides(a, 0)
  {
    assert a == 1 * a && 0 == 0 * a;
  }

  lemma DividesSum(g: nat, a: nat, b: nat)
    requires b > 0 && Divides(g, b) && Divides(g, a % b)
    ensures Divides(g, a)
  {
    var x :| b == x * g;
    var y :| a % b == y * g;
    var q := a / b;
    assert a == b * q + a % b;
    assert b * q == x * q * g;
    assert a == (x * q + y) * g;
  }

  lemma DividesExactly(g: int, n: int)
    requires g > 0 && Divides(g, n)
    ensures n == (n / g) * g
    ensures n > 0 ==> n / g > 0
  {
    var k :| n == k * g;
    IntScale(k, n / g, g);
    IntScale(n / g, k, g);
    IntScale(0, n / g, g);
    assert n == (n / g) * g + n % g;
    assert (k - n / g) * g == n % g;
    IntScale(k - n / g, 1, g);
    IntScale(0, k - n / g, g);
  }

  lemma IntScale(x: int, y: int, k: int)
    requires k > 0
    ensures x < y <==> x * k < y * k
  {
    var d := y - x;
    assert y * k - x * k == d * k;
    if d > 0 { assert d * k > 0; } else { assert d * k <= 0; }
  }

  lemma RealScale(x: real, y: real, k: real)
    requires k > 0.0
    ensures x < y <==> x * k < y * k
  {
    var d := y - x;
    assert y * k - x * k == d * k;
    if d > 0.0 { assert d * k > 0.0; } else { assert d * k <= 0.0; }
  }

  function Reduce(r: Rat): (s: Rat)
    requires Valid(r)
    ensures Valid(s) && Value(s) == Value(r)
  {
    var g := Gcd(r.num, r.den);
    var s := Rat(r.num / g, r.den / g);
    DividesExactly(g, r.num);
    DividesExactly(g, r.den);
    SameRatio(s.num, s.den, g);
    s
  }

  lemma SameRatio(n: int, d: int, g: int)
    requires d > 0 && g > 0
    ensures d * g > 0
    ensures (n * g) as real / (d * g) as real == n as real / d as real
  {
    var a, b, c := n as real, d as real, g as real;
    assert (n * g) as real == a * c && (d * g) as real == b * c;
    var q := a / b;
    assert q * b == a;
    assert q * (b * c) == a * c;
  }

  function Mul(x: Rat, y: Rat): (z: Rat)
    requires Valid(x) && Valid(y)
    ensures Valid(z) && Value(z) == Value(x) * Value(y)
  {
    assert x.num * y.num > 0 && x.den * y.den > 0;
    ProductRatio(x.num, x.den, y.num, y.den);
    Reduce(Rat(x.num * y.num, x.den * y.den))
  }

  lemma ProductRatio(a: int, b: int, c: int, d: int)
    requires b > 0 && d > 0
    ensures b * d > 0
    ensures (a * c) as real / (b * d) as real == (a as real / b as real) * (c as real / d as real)
  {
    var p, q := a as real / b as real, c as real / d as real;
    assert p * b as real == a as real && q * d as real == c as real;
    assert (p * q) * (b as real * d as real) == (p * b as real) * (q * d as real);
    assert (b * d) as real == b as real * d as real && (a * c) as real == a as real * c as real;
  }

  function Quo(x: Rat, y: Rat): (z: Rat)
    requires Valid(x) && Valid(y)
    ensures Valid(z) && Value(z) * Value(y) == Value(x)
  {
    var inverse := Rat(y.den, y.num);
    InverseValue(y);
    var z := Mul(x, inverse);
    assert Value(z) * Value(y) == Value(x) * (Value(inverse) * Value(y));
    z
  }

  lemma InverseValue(y: Rat)
    requires Valid(y)
    ensures Value(Rat(y.den, y.num)) * Value(y) == 1.0
  {
    var n, d := y.num as real, y.den as real;
    var v, w := n / d, d / n;
    assert v * d == n && w * n == d;
    Associate(w, v, d);
    RealScale(w * v, 1.0, d);
    RealScale(1.0, w * v, d);
  }

  lemma Associate(x: real, y: real, z: real)
    ensures x * (y * z) == (x * y) * z
  {
  }

  /** The conversion as the code computes it, on exact fractions. */
  function USDtoWei(usd: Rat, rate: Rat): int
    requires usd.den > 0 && rate.den > 0
  {
    if usd.num <= 0 || rate.num <= 0 then 0
    else
      var num := Mul(usd, Rat(WEI_PER_ETHER, 1));
      var res := Quo(num, rate);
      res.num / res.den
  }

  /** The amount of Wei by its meaning on exact values. */
  function Wei(usd: real, rate: real): int {
    if usd <= 0.0 || rate <= 0.0 then 0 else (usd * WEI_PER_ETHER as real / rate).Floor
  }

  ghost predicate IsFloorOf(q: int, usd: real, rate: real) {
    q as real * rate <= usd * WEI_PER_ETHER as real < (q + 1) as real * rate
  }

  /** The bracket pins the amount down: it holds of `Wei` and of no other integer. */
  lemma WeiIsExactFloor(usd: real, rate: real, q: int)
    requires usd > 0.0 && rate > 0.0
    ensures IsFloorOf(q, usd, rate) <==> q == Wei(usd, rate)
  {
    var e := usd * WEI_PER_ETHER as real;
    var x := e / rate;
    assert x * rate == e;
    Compare(x, q as real, rate, e);
    Compare(x, (q + 1) as real, rate, e);
    assert q as real <= x < (q + 1) as real <==> q == x.Floor;
  }

  lemma Compare(x: real, y: real, rate: real, e: real)
    requires rate > 0.0 && x * rate == e
    ensures x < y <==> e < y * rate
  {
    RealScale(x, y, rate);
  }

  lemma FloorOfFraction(n: int, d: int)
    requires d > 0
    ensures (n as real / d as real).Floor == n / d
  {
    var q, k := n / d, d as real;
    var x := n as real / k;
    assert x * k == n as real;
    assert q * d <= n < q * d + d;
    assert (q * d) as real == q as real * k && (q * d + d) as real == (q + 1) as real * k;
    RealScale(x, q as real, k);
    RealScale(x, (q + 1) as real, k);
    FloorBetween(x, q);
  }

  lemma FloorBetween(x: real, q: int)
    requires q as real <= x < (q + 1) as real
    ensures x.Floor == q
  {
  }

  /** Reduction to lowest terms is invisible: the fraction code computes the exact floor of the values. */
  lemma FractionsAreExact(usd: Rat, rate: Rat)
    requires usd.den > 0 && rate.den > 0
    ensures USDtoWei(usd, rate) == Wei(Value(usd), Value(rate))
  {
    SignOfValue(usd);
    SignOfValue(rate);
    if usd.num > 0 && rate.num > 0 {
      var num := Mul(usd, Rat(WEI_PER_ETHER, 1));
      var res := Quo(num, rate);
      assert Value(num) == Value(usd) * WEI_PER_ETHER as real;
      assert Value(res) == Value(num) / Value(rate);
      FloorOfFraction(res.num, res.den);
    }
  }

  lemma SignOfValue(r: Rat)
    requires r.den > 0
    ensures Value(r) > 0.0 <==> r.num > 0
  {
    RealScale(0.0, Value(r), r.den as real);
  }

  /** Two ways to write the same price or rate give the same amount. */
  lemma IndependentOfFraction(usd: Rat, usd': Rat, rate: Rat, rate': Rat)
    requires usd.den > 0 && usd'.den > 0 && rate.den > 0 && rate'.den > 0
    requires Value(usd) == Value(usd') && Value(rate) == Value(rate')
    ensures USDtoWei(usd, rate) == USDtoWei(usd', rate')
  {
    FractionsAreExact(usd, rate);
    FractionsAreExact(usd', rate');
  }

  /** An order priced like one ether costs 10^18 Wei. */
  lemma OneEther(rate: real)
    requires rate > 0.0
    ensures Wei(rate, rate) == 1_000_000_000_000_000_000
  {
    WeiIsExactFloor(rate, rate, WEI_PER_ETHER);
    assert (WEI_PER_ETHER + 1) as real * rate == WEI_PER_ETHER as real * rate + rate;
  }

  /** Dearer orders never cost less, a dearer ether never costs more. */
  lemma WeiMonotone(usd: real, usd': real, rate: real, rate': real)
    requires usd <= usd' && 0.0 < rate' <= rate
    ensures Wei(usd, rate) <= Wei(usd', rate')
  {
    if usd > 0.0 {
      ExactMonotone(usd * WEI_PER_ETHER as real, usd' * WEI_PER_ETHER as real, rate, rate');
    } else if usd' > 0.0 {
      RealScale(usd' * WEI_PER_ETHER as real / rate', 0.0, rate');
      assert usd' * WEI_PER_ETHER as real / rate' * rate' == usd' * WEI_PER_ETHER as real;
    }
  }

  lemma ExactMonotone(e: real, e': real, rate: real, rate': real)
    requires 0.0 < e <= e' && 0.0 < rate' <= rate
    ensures e / rate <= e' / rate'
  {
    var x, x' := e / rate, e' / rate';
    assert x * rate == e && x' * rate' == e';
    Compare(x, 0.0, rate, e);
    Compare(x', x, rate', e');
    assert x * rate' <= x * rate;
  }

  /** Paying two orders separately never costs more than paying their sum, and at most one Wei less. */
  lemma WeiSuperadditive(a: real, b: real, rate: real)
    requires a >= 0.0 && b >= 0.0 && rate > 0.0
    ensures Wei(a, rate) + Wei(b, rate) <= Wei(a + b, rate) <= Wei(a, rate) + Wei(b, rate) + 1
  {
    var e := WEI_PER_ETHER as real;
    assert (a + b) * e / rate == a * e / rate + b * e / rate;
  }

  // ---------- acceptance of a transaction ----------

  datatype ChainTx = ChainTx(pending: bool, success: bool, block: nat, to: Option<string>, value: nat)

  datatype Verdict =
    | Accepted | Unknown | StillPending | FailedOnChain | Unconfirmed | NoRecipient | WrongRecipient | TooLittle

  function LowerChar(c: char): char {
    if 'A' <= c <= 'Z' then c - 'A' + 'a' else c
  }

  predicate EqualFold(a: string, b: string) {
    |a| == |b| && forall i | 0 <= i < |a| :: LowerChar(a[i]) == LowerChar(b[i])
  }

  // ---------- addresses ----------

  /** The character is a hexadecimal digit of value v, in either case. */
  predicate IsDigit(c: char, v: int) {
    || (0 <= v < 10 && c == '0' + v as char)
    || (10 <= v < 16 && (c == 'a' + (v - 10) as char || c == 'A' + (v - 10) as char))
  }

  /** The text is 0x followed by these digit values: an address, however its letters are written. */
  predicate Spells(s: string, digits: seq<int>) {
    && |s| == |digits| + 2 && s[0] == '0' && (s[1] == 'x' || s[1] == 'X')
    && forall i | 0 <= i < |digits| :: IsDigit(s[i + 2], digits[i])
  }

  lemma DigitsFoldAlike(c: char, d: char, v: int, w: int)
    requires IsDigit(c, v) && IsDigit(d, w)
    ensures LowerChar(c) == LowerChar(d) <==> v == w
  {
  }

  /** Two address texts are equal up to case exactly when they spell the same address. */
  lemma SameAddressIff(a: string, b: string, p: seq<int>, q: seq<int>)
    requires Spells(a, p) && Spells(b, q)
    ensures EqualFold(a, b) <==> p == q
  {
    forall i | 0 <= i < |p| && i < |q| ensures LowerChar(a[i + 2]) == LowerChar(b[i + 2]) <==> p[i] == q[i] {
      DigitsFoldAlike(a[i + 2], b[i + 2], p[i], q[i]);
    }
    if EqualFold(a, b) {
      forall i | 0 <= i < |p| ensures p[i] == q[i] { assert LowerChar(a[i + 2]) == LowerChar(b[i + 2]); }
    }
    if p == q {
      forall i | 0 <= i < |a| ensures LowerChar(a[i]) == LowerChar(b[i]) {
        if i >= 2 { assert p[i - 2] == q[i - 2]; }
      }
    }
  }

  /** Any text equal to an address up to case spells that address. */
  lemma FoldedSpells(a: string, b: string, digits: seq<int>)
    requires EqualFold(a, b) && Spells(b, digits)
    ensures Spells(a, digits)
  {
    assert LowerChar(a[0]) == LowerChar(b[0]) && LowerChar(a[1]) == LowerChar(b[1]);
    forall i | 0 <= i < |digits| ensures IsDigit(a[i + 2], digits[i]) {
      assert LowerChar(a[i + 2]) == LowerChar(b[i + 2]);
    }
  }

  predicate IsLetter(c: char) {
    'a' <= c <= 'z' || 'A' <= c <= 'Z'
  }

  /** Equality up to case is an equivalence, finer than equal length and plain equality on texts without letters. */
  lemma EqualFoldIsEquivalence(a: string, b: string, c: string)
    ensures EqualFold(a, a)
    ensures EqualFold(a, b) ==> EqualFold(b, a) && |a| == |b|
    ensures EqualFold(a, b) && EqualFold(b, c) ==> EqualFold(a, c)
    ensures (forall i | 0 <= i < |a| :: !IsLetter(a[i])) ==> (EqualFold(a, b) <==> a == b)
  {
    if (forall i | 0 <= i < |a| :: !IsLetter(a[i])) && EqualFold(a, b) {
      forall i | 0 <= i < |a| ensures a[i] == b[i] { assert LowerChar(a[i]) == LowerChar(b[i]); }
    }
  }

  /** Subtraction of 64-bit unsigned block numbers, with its wrap-around. */
  function Confirmations(latest: nat, block: nat): nat {
    (latest - block) % TWO_64
  }

  function VerifyPayment(tx: Option<ChainTx>, latest: nat, recipient: string, expectedWei: int,
      minConfirmations: nat): Verdict {
    if tx.None? then Unknown
    else if tx.value.pending then StillPending
    else if !tx.value.success then FailedOnChain
    else if Confirmations(latest, tx.value.block) < minConfirmations then Unconfirmed
    else if tx.value.to.None? then NoRecipient
    else if !EqualFold(tx.value.to.value, recipient) then WrongRecipient
    else if tx.value.value < expectedWei then TooLittle
    else Accepted
  }

  /** The verdict tells a fault the transaction has; it is accepted exactly when it has none. */
  lemma VerdictIsTrue(tx: Option<ChainTx>, latest: nat, recipient: string, expectedWei: int, least: nat)
    ensures match VerifyPayment(tx, latest, recipient, expectedWei, least)
      case Unknown => tx.None?
      case StillPending => tx.Some? && tx.value.pending
      case FailedOnChain => tx.Some? && !tx.value.success
      case Unconfirmed => tx.Some? && Confirmations(latest, tx.value.block) < least
      case NoRecipient => tx.Some? && tx.value.to.None?
      case WrongRecipient => tx.Some? && tx.value.to.Some? && !EqualFold(tx.value.to.value, recipient)
      case TooLittle => tx.Some? && tx.value.value < expectedWei
      case Accepted =>
        && tx.Some? && !tx.value.pending && tx.value.success && Confirmations(latest, tx.value.block) >= least
        && tx.value.to.Some? && EqualFold(tx.value.to.value, recipient) && tx.value.value >= expectedWei
  {
  }

  /** Money sent to another address never settles an order: a transaction that is accepted for the shop's address is
      refused for every other address, and the other way round. */
  lemma StrangersAreRefused(tx: ChainTx, latest: nat, mine: string, other: string, expectedWei: int, least: nat,
      p: seq<int>, q: seq<int>)
    requires Spells(mine, p) && Spells(other, q)
    requires VerifyPayment(Some(tx.(to := Some(mine))), latest, mine, expectedWei, least).Accepted?
    ensures VerifyPayment(Some(tx.(to := Some(other))), latest, mine, expectedWei, least) ==
      if p == q then Accepted else WrongRecipient
  {
    SameAddressIff(other, mine, q, p);
  }

  /** The amount shown at checkout is the least value that verification accepts for the order:
      an accepted payment falls short of the exact price by less than one Wei. */
  lemma OfferIsLeastAccepted(tx: ChainTx, latest: nat, recipient: string, usd: real, rate: real)
    requires VerifyPayment(Some(tx), latest, recipient, 0, MIN_CONFIRMATIONS).Accepted?
    requires usd > 0.0 && rate > 0.0
    ensures forall v: nat :: v >= Wei(usd, rate) <==>
      VerifyPayment(Some(tx.(value := v)), latest, recipient, Wei(usd, rate), MIN_CONFIRMATIONS).Accepted?
    ensures var paid := tx.value as real * rate; var price := usd * WEI_PER_ETHER as real;
      VerifyPayment(Some(tx), latest, recipient, Wei(usd, rate), MIN_CONFIRMATIONS).Accepted? <==> price < paid + rate
  {
    var x := usd * WEI_PER_ETHER as real / rate;
    assert x * rate == usd * WEI_PER_ETHER as real;
    RealScale(x, (tx.value + 1) as real, rate);
    assert (tx.value + 1) as real * rate == tx.value as real * rate + rate;
  }

  /** The wrapped subtraction counts confirmations exactly when the tip is not behind the receipt. */
  lemma ConfirmationsAreReal(latest: nat, block: nat)
    requires latest < 0x1_0000_0000_0000_0000 && block < 0x1_0000_0000_0000_0000
    ensures Confirmations(latest, block) == latest - block <==> latest >= block
    ensures Confirmations(latest, block) >= MIN_CONFIRMATIONS <==> latest != block
  {
    WrappedDifference(latest - block);
  }

  /** A transaction good in every other respect is accepted without the confirmations promised exactly when the tip
      read lies behind its block. */
  lemma AcceptedUnconfirmedIff(tx: ChainTx, latest: nat, recipient: string, expectedWei: int)
    requires latest < 0x1_0000_0000_0000_0000 && tx.block < 0x1_0000_0000_0000_0000
    requires VerifyPayment(Some(tx), tx.block + MIN_CONFIRMATIONS, recipient, expectedWei, MIN_CONFIRMATIONS).Accepted?
    ensures
      (VerifyPayment(Some(tx), latest, recipient, expectedWei, MIN_CONFIRMATIONS).Accepted? &&
       !(tx.block + 1 <= latest))
      <==> latest < tx.block
  {
    ConfirmationsAreReal(latest, tx.block);
  }

  lemma WrappedDifference(d: int)
    requires -TWO_64 < d < TWO_64
    ensures d % TWO_64 == if d >= 0 then d else d + TWO_64
  {
  }
}

/** Approval thresholds and witness thresholds, with the machine widths the
    source computes them in, and when two quorums must share a member. */
module Quorum {
  import opened Common

  const U16 := 0x1_0000
  const U32 := 0x1_0000_0000

  type u8 = x: nat | x < 0x100
  type u16 = x: nat | x < 0x1_0000
  type u32 = x: nat | x < 0x1_0000_0000

  datatype ApprovalThreshold = Any | Unanimous | Threshold(required: u32) | Percentage(percent: u8)

  /** `n` modulo `width`, by casting out whole widths. */
  function Wrapped(n: nat, width: nat): (r: nat)
    requires width > 0
    ensures r < width && r <= n
    ensures n < width ==> r == n
    ensures n >= width ==> r + width <= n
  {
    if n < width then n else Wrapped(n - width, width)
  }

  function AsU32(n: nat): u32 { Wrapped(n, U32) }

  function AsU16(n: nat): u16 { Wrapped(n, U16) }

  lemma {:induction false} AsU32IsModulo(n: nat)
    ensures AsU32(n) == n % U32
  {
    if n >= U32 {
      AsU32IsModulo(n - U32);
    }
  }

  /** A 32-bit counter incremented from a narrowed count stays the narrowed count. */
  lemma {:induction false} CounterNarrows(n: nat)
    ensures AsU32(AsU32(n) + 1) == AsU32(n + 1)
  {
    if n >= U32 {
      CounterNarrows(n - U32);
      assert Wrapped(n + 1, U32) == Wrapped(n + 1 - U32, U32);
    }
  }

  lemma {:induction false} AsU16IsModulo(n: nat)
    ensures AsU16(n) == n % U16
  {
    if n >= U16 {
      AsU16IsModulo(n - U16);
    }
  }

  function DivCeil(n: nat, d: nat): nat
    requires d > 0
  {
    n / d + if n % d == 0 then 0 else 1
  }

  predicate IsMet(t: ApprovalThreshold, approvals: u32, total: u32) {
    if total == 0 then false
    else
      match t
      case Any => approvals >= 1
      case Unanimous => approvals >= total
      case Threshold(required) => approvals >= required
      case Percentage(percent) => approvals >= DivCeil(AsU32(total * percent), 100)
  }

  lemma DivCeilLeast(n: nat, k: nat)
    ensures k >= DivCeil(n, 100) <==> 100 * k >= n
  {
  }

  lemma PercentageMeans(percent: u8, approvals: u32, total: u32)
    requires total > 0 && percent * total < U32
    ensures IsMet(Percentage(percent), approvals, total) <==> 100 * approvals >= percent * total
  {
    assert total * percent == percent * total;
    DivCeilLeast(total * percent, approvals);
  }

  /** A percentage threshold asks for `percent` hundredths of the electorate, for
      every approval count, exactly when the product fits in 32 bits. */
  lemma PercentageExact(percent: u8, total: u32)
    requires total > 0
    ensures (forall approvals: u32 :: IsMet(Percentage(percent), approvals, total) <==>
      100 * approvals >= percent * total)
            <==> percent * total < U32
  {
    var product := total * percent;
    assert product == percent * total;
    if product < U32 {
      forall approvals: u32
        ensures IsMet(Percentage(percent), approvals, total) <==> 100 * approvals >= percent * total
      {
        PercentageMeans(percent, approvals, total);
      }
    } else {
      var wrapped := AsU32(product);
      var needed: u32 := DivCeil(wrapped, 100);
      assert IsMet(Percentage(percent), needed, total);
      assert 100 * needed < wrapped + 100 <= product;
    }
  }

  /** An electorate large enough to wrap the product: one approval out of
      42,949,673 passes a 100% threshold. */
  lemma PercentageWraps()
    ensures IsMet(Percentage(100), 1, 42_949_673)
    ensures !IsMet(Unanimous, 1, 42_949_673)
  {
  }

  /** 100% means unanimity, at every count, exactly while the product fits. */
  lemma FullPercentageIsUnanimous(total: u32)
    requires total > 0
    ensures (forall approvals: u32 :: IsMet(Percentage(100), approvals, total) <==> IsMet(Unanimous, approvals, total))
            <==> 100 * total < U32
  {
    PercentageExact(100, total);
    assert forall approvals: u32 :: IsMet(Unanimous, approvals, total) <==> 100 * approvals >= 100 * total;
    if 100 * total < U32 {
    } else {
      var approvals: u32 :| IsMet(Percentage(100), approvals, total) != (100 * approvals >= 100 * total);
      assert IsMet(Percentage(100), approvals, total) != IsMet(Unanimous, approvals, total);
    }
  }

  // ------------------------------------------------------------- intersection

  predicate AllIntersect<T(!new)>(all: set<T>, k: nat) {
    forall a, b :: a <= all && b <= all && |a| >= k && |b| >= k ==> a * b != {}
  }

  lemma {:induction false} SubsetOfSize<T>(all: set<T>, k: nat) returns (part: set<T>)
    requires k <= |all|
    ensures part <= all && |part| == k
    decreases k
  {
    if k == 0 {
      part := {};
    } else {
      var x :| x in all;
      var rest := SubsetOfSize(all - {x}, k - 1);
      part := rest + {x};
    }
  }

  /** Quorums of `k` members always meet exactly when two of them outnumber the
      whole: the condition is not only enough, it is needed. */
  lemma IntersectIff<T(!new)>(all: set<T>, k: nat)
    ensures AllIntersect(all, k) <==> 2 * k > |all|
  {
    if 2 * k > |all| {
      forall a, b | a <= all && b <= all && |a| >= k && |b| >= k
        ensures a * b != {}
      {
        OverlapByCount(a, b, all);
      }
    } else {
      var a := SubsetOfSize(all, k);
      assert |all - a| == |all| - k;
      var b := SubsetOfSize(all - a, k);
      assert a * b == {};
    }
  }

  /** The least number of approvals that meets the threshold, as the source computes
      it for a non-empty electorate. */
  function Needed(t: ApprovalThreshold, total: u32): nat {
    match t
    case Any => 1
    case Unanimous => total
    case Threshold(required) => required
    case Percentage(percent) => DivCeil(AsU32(total * percent), 100)
  }

  lemma NeededFits(t: ApprovalThreshold, total: u32)
    ensures total > 0 ==> Needed(t, total) < U32
  {
  }

  predicate Passes<T>(t: ApprovalThreshold, a: set<T>, all: set<T>)
    requires |all| < U32
  {
    |a| < U32 && IsMet(t, |a|, |all|)
  }

  predicate DecisionsIntersect<T(!new)>(t: ApprovalThreshold, all: set<T>)
    requires |all| < U32
  {
    forall a, b :: a <= all && b <= all && Passes(t, a, all) && Passes(t, b, all) ==> a * b != {}
  }

  lemma PassesIff<T>(t: ApprovalThreshold, a: set<T>, all: set<T>)
    requires 0 < |all| < U32 && a <= all
    ensures Passes(t, a, all) <==> |a| >= Needed(t, |all|)
  {
    SubsetCount(a, all);
  }

  /** Any two groups that each meet a threshold share a member exactly when twice the
      number the source asks for exceeds the electorate, wrapped products included. */
  lemma DecisionsIntersectIff<T(!new)>(t: ApprovalThreshold, all: set<T>)
    requires 0 < |all| < U32
    ensures DecisionsIntersect(t, all) <==> 2 * Needed(t, |all|) > |all|
  {
    var k := Needed(t, |all|);
    IntersectIff(all, k);
    forall a | a <= all ensures Passes(t, a, all) <==> |a| >= k {
      PassesIff(t, a, all);
    }
    if !AllIntersect(all, k) {
      var a, b :| a <= all && b <= all && |a| >= k && |b| >= k && a * b == {};
      assert Passes(t, a, all) && Passes(t, b, all);
    }
  }

  lemma ScaledUp(least: nat, percent: nat, total: nat)
    requires least <= percent
    ensures least * total <= percent * total
  {
  }

  /** While the product fits, that is a plain comparison: the percentage of the
      electorate exceeds its lower half. */
  lemma FittingPercentageIntersectsIff<T(!new)>(percent: u8, all: set<T>)
    requires 0 < |all| < U32 && percent * |all| < U32
    ensures DecisionsIntersect(Percentage(percent), all) <==> percent * |all| > 100 * (|all| / 2)
  {
    var n, product := |all|, percent * |all|;
    DecisionsIntersectIff(Percentage(percent), all);
    assert n * percent == product;
    HalfExceeded(product, n);
  }

  lemma HalfExceeded(product: nat, n: nat)
    ensures 2 * DivCeil(product, 100) > n <==> product > 100 * (n / 2)
  {
    DivCeilLeast(product, n / 2);
  }

  /** So two groups meeting 51% or more share a member while the product fits, for
      electorates of any parity. */
  lemma MajorityPercentageIntersects<T(!new)>(percent: u8, all: set<T>)
    requires 0 < |all| < U32
    requires percent >= 51 && percent * |all| < U32
    ensures DecisionsIntersect(Percentage(percent), all)
  {
    FittingPercentageIntersectsIff(percent, all);
    ScaledUp(51, percent, |all|);
  }

  /** At 50% or below two groups may be disjoint: always in an even electorate, and in
      an odd one exactly when the product wraps or reaches no further than the lower
      half. */
  lemma HalfPercentageSplits<T(!new)>(percent: u8, all: set<T>)
    requires 0 < |all| < U32 && percent <= 50
    ensures |all| % 2 == 0 ==> !DecisionsIntersect(Percentage(percent), all)
    ensures |all| % 2 == 1 ==>
      (DecisionsIntersect(Percentage(percent), all) <==>
       percent * |all| < U32 && percent * |all| > 50 * (|all| - 1))
  {
    var n, product := |all|, |all| * percent;
    DecisionsIntersectIff(Percentage(percent), all);
    assert product <= 50 * n by { ScaledUp(percent, 50, n); }
    if n % 2 == 0 {
      HalfExceeded(AsU32(product), n);
    } else if percent * n < U32 {
      FittingPercentageIntersectsIff(percent, all);
    } else {
      assert AsU32(product) + U32 <= product;
      HalfExceeded(AsU32(product), n);
    }
  }

  /** Wrapping breaks the majority: at 51% of 84,215,046 one voter is enough, so two
      decisions need not share anybody. */
  lemma MajorityWraps<T(!new)>(all: set<T>)
    requires |all| == 84_215_046
    ensures IsMet(Percentage(51), 1, 84_215_046)
    ensures !DecisionsIntersect(Percentage(51), all)
  {
    assert Needed(Percentage(51), 84_215_046) == 1;
    DecisionsIntersectIff(Percentage(51), all);
  }

  // ----------------------------------------------------- default witness policy

  function SaturatingAdd(a: u16, b: u16): u16 { if a + b < U16 then a + b else U16 - 1 }

  function WitnessThreshold(witnesses: nat): (t: u16) {
    var sum := SaturatingAdd(AsU16(witnesses) / 2, 1);
    if sum < 1 then 1 else sum
  }

  /** The default policy asks for a majority of the witnesses, and for the least
      number that is one, exactly while their count fits in 16 bits: above that
      two witness sets of the required size can be disjoint. */
  lemma WitnessMajority<T(!new)>(witnesses: set<T>)
    ensures AllIntersect(witnesses, WitnessThreshold(|witnesses|)) <==> |witnesses| < U16
    ensures WitnessThreshold(|witnesses|) <= |witnesses| <==> witnesses != {}
    ensures !AllIntersect(witnesses, WitnessThreshold(|witnesses|) - 1)
  {
    var n := |witnesses|;
    IntersectIff(witnesses, WitnessThreshold(n));
    IntersectIff(witnesses, WitnessThreshold(n) - 1);
    assert n < U16 ==> AsU16(n) == n;
    assert n >= U16 ==> AsU16(n) + 2 < n;
  }

  lemma WitnessesWrap()
    ensures WitnessThreshold(65_536) == 1
  {
  }
}

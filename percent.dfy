/** The pass percentage both reports print: the ceiling of 100 * passed / total,
    and the summary a report returns. */
module Percent {

  datatype Option<T> = None | Some(value: T)

  /** Summary of a report: what passed, what was counted, and the percentage,
      which is undefined (None) when nothing was counted. */
  datatype Summary = Summary(passed: nat, total: nat, percentage: Option<int>)

  /** `std::ceil((passed / total) * 100)` in exact integer arithmetic. */
  function CeilPercent(passed: nat, total: nat): (p: int)
    requires total > 0
    ensures p * total >= 100 * passed
    ensures (p - 1) * total < 100 * passed
    ensures p >= 0
    ensures passed <= total ==> p <= 100
  {
    CeilFacts(passed, total);
    (100 * passed + total - 1) / total
  }

  /** The percentage a report shows, with no value for the 0/0 case. */
  function PercentageOf(passed: nat, total: nat): Option<int> {
    if total == 0 then None else Some(CeilPercent(passed, total))
  }

  lemma CeilFacts(passed: nat, total: nat)
    requires total > 0
    ensures var q := (100 * passed + total - 1) / total;
      q * total >= 100 * passed && (q - 1) * total < 100 * passed && q >= 0 &&
      (passed <= total ==> q <= 100)
  {
    var num := 100 * passed + total - 1;
    var q := num / total;
    var r := num % total;
    DivMod(num, total);
    MulSub(q, total);
    if passed <= total && q > 100 {
      MulMono(101, q, total);
    }
  }

  lemma DivMod(num: int, t: int)
    requires t > 0
    ensures num == (num / t) * t + num % t && 0 <= num % t < t
  {
  }

  lemma MulSub(q: int, t: int)
    ensures (q - 1) * t == q * t - t
  {
  }

  lemma MulMono(a: int, b: int, t: int)
    requires a <= b && t >= 0
    ensures a * t <= b * t
  {
  }

  /** The ceiling is the least value whose multiple of `total` reaches 100 * passed:
      a corollary of `CeilPercent`'s second postcondition, spelled out for readers. */
  lemma CeilPercentIsLeast(passed: nat, total: nat, p: int)
    requires total > 0
    requires p * total >= 100 * passed
    ensures CeilPercent(passed, total) <= p
  {
    var c := CeilPercent(passed, total);
    if p < c {
      MulMono(p, c - 1, total);
    }
  }
}

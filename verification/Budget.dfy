/** Emits as many items as fit a token budget: the longest affordable prefix, and the bound it used up. */
module Budget {
  import opened Text

  ghost function Total<T>(items: seq<T>, cost: T -> nat): nat {
    if items == [] then 0 else Total(items[..|items| - 1], cost) + cost(items[|items| - 1])
  }

  lemma {:induction false} TotalMonotone<T>(items: seq<T>, cost: T -> nat, j: nat, k: nat)
    requires j <= k <= |items|
    ensures Total(items[..j], cost) <= Total(items[..k], cost)
  {
    if j < k {
      TotalMonotone(items, cost, j, k - 1);
      assert items[..k][..k - 1] == items[..k - 1];
    }
  }

  /** `emitted` is the longest prefix whose total cost is within the budget. */
  ghost predicate LongestAffordable<T>(items: seq<T>, cost: T -> nat, budget: nat, emitted: seq<T>, bound: nat) {
    && emitted <= items
    && bound == Total(emitted, cost) <= budget
    && (|emitted| < |items| ==> bound + cost(items[|emitted|]) > budget)
  }

  /** No longer prefix is affordable. */
  lemma NothingLongerFits<T>(items: seq<T>, cost: T -> nat, budget: nat, emitted: seq<T>, bound: nat, longer: seq<T>)
    requires LongestAffordable(items, cost, budget, emitted, bound) && emitted < longer <= items
    ensures Total(longer, cost) > budget
  {
    var n := |emitted|;
    TotalMonotone(items, cost, n + 1, |longer|);
    assert items[..n + 1][..n] == emitted && items[..|longer|] == longer;
  }

  /** The emission is determined by its budget, and a larger budget only ever extends it. */
  lemma LargerBudgetExtends<T>(items: seq<T>, cost: T -> nat, small: nat, large: nat, a: seq<T>, x: nat, b: seq<T>,
                               y: nat)
    requires small <= large
    requires LongestAffordable(items, cost, small, a, x) && LongestAffordable(items, cost, large, b, y)
    ensures a <= b && (small == large ==> a == b && x == y)
  {
    if |b| < |a| {
      NothingLongerFits(items, cost, large, b, y, a);
    }
    if small == large && |a| < |b| {
      NothingLongerFits(items, cost, small, a, x, b);
    }
  }

  /**
   Emits items until the first that would exceed the budget. A sum beyond the machine's range is beyond
   any budget, so the overflow check of the running sum stops at the same item.
   */
  method EmitWithinBudget<T>(items: seq<T>, budget: nat, cost: T -> nat) returns (emitted: seq<T>, bound: nat)
    ensures LongestAffordable(items, cost, budget, emitted, bound)
  {
    emitted := [];
    bound := 0;
    for k := 0 to |items|
      invariant emitted == items[..k]
      invariant bound == Total(emitted, cost) <= budget
    {
      var total := bound + cost(items[k]);
      if total > budget {
        return;
      }
      assert items[..k + 1] == emitted + [items[k]] && items[..k + 1][..k] == emitted;
      bound := total;
      emitted := emitted + [items[k]];
    }
  }

  /** The emission as a function: what is affordable of the items. */
  ghost function Affordable<T>(items: seq<T>, cost: T -> nat, budget: nat): (r: seq<T>)
    ensures LongestAffordable(items, cost, budget, r, Total(r, cost))
  {
    if Total(items, cost) <= budget then items
    else
      assert items == items[..|items| - 1] + [items[|items| - 1]];
      Affordable(items[..|items| - 1], cost, budget)
  }

  lemma AffordableIsEmitted<T>(items: seq<T>, cost: T -> nat, budget: nat, emitted: seq<T>, bound: nat)
    requires LongestAffordable(items, cost, budget, emitted, bound)
    ensures emitted == Affordable(items, cost, budget) && bound == Total(emitted, cost)
  {
    var r := Affordable(items, cost, budget);
    LargerBudgetExtends(items, cost, budget, budget, emitted, bound, r, Total(r, cost));
  }

  // ----- the byte ratio estimator

  function ByteLength(text: string): nat {
    if text == "" then 0 else ByteLength(text[..|text| - 1]) + Utf8Length(text[|text| - 1])
  }

  /** One token per 3.6 bytes, rounded up. */
  function ByteRatio(text: string): nat {
    (5 * ByteLength(text) + 17) / 18
  }

  /** It is the least number of tokens that 3.6 bytes each are enough for. */
  lemma RatioIsLeast(text: string)
    ensures 18 * ByteRatio(text) >= 5 * ByteLength(text)
    ensures forall n: nat | 18 * n >= 5 * ByteLength(text) :: ByteRatio(text) <= n
  {
  }

  function Concatenation(texts: seq<string>): string {
    if texts == [] then "" else Concatenation(texts[..|texts| - 1]) + texts[|texts| - 1]
  }

  lemma {:induction false} ByteLengthAdds(a: string, b: string)
    ensures ByteLength(a + b) == ByteLength(a) + ByteLength(b)
  {
    if b == "" {
      assert a + b == a;
    } else {
      ByteLengthAdds(a, b[..|b| - 1]);
      assert (a + b)[..|a + b| - 1] == a + b[..|b| - 1];
    }
  }

  /** The sum of the estimates is never below the estimate of the concatenation, so the bound errs on the safe side. */
  lemma {:induction false} BoundCoversConcatenation(texts: seq<string>)
    ensures ByteRatio(Concatenation(texts)) <= Total(texts, ByteRatio)
  {
    if texts != [] {
      BoundCoversConcatenation(texts[..|texts| - 1]);
      ByteLengthAdds(Concatenation(texts[..|texts| - 1]), texts[|texts| - 1]);
    }
  }
}

/**
 * The loyalty-points calculator: one left fold over the cart that skips
 * malformed lines, earns points per line and sums the prices, then a flat
 * bonus above a threshold.
 */
module Loyalty {
  import opened Wrappers
  import opened Js

  /** Minimum total (exclusive) for the bonus. */
  const BonusThreshold: real := 200.0
  /** Points added when the total is above the threshold. */
  const BonusPoints: int := 10
  /** One point (two for premium) per this many euros of a line's price. */
  const PointsDivisor: real := 10.0

  /**
   * A cart line. `Missing` is a falsy entry (null, undefined, ...). `kind` is
   * the line's `type` when it is a string and `None` otherwise (absent, null,
   * or of another type: none of these equals 'premium').
   */
  datatype CartItem = Missing | Item(price: Value, kind: Option<string>)

  /** The cart argument: a JavaScript array of lines, or anything else. */
  datatype Cart = NotArray | Array(items: seq<CartItem>)

  /** The fold's accumulator. */
  datatype Tally = Tally(points: int, total: real)

  /** The result of `analyzeLoyalty`. */
  datatype Analysis = Analysis(totalPoints: int, bonusApplied: bool)

  /**
   * A line takes part in the fold: present, with a non-negative number price.
   * Each of the three guards alone rejects a line; a zero price passes.
   */
  predicate IsCounted(item: CartItem)
    ensures item.Missing? ==> !IsCounted(item)
    ensures item.Item? && item.price.NotNumber? ==> !IsCounted(item)
    ensures item.Item? && item.price.Number? && item.price.x < 0.0 ==> !IsCounted(item)
    ensures item.Item? && item.price == Number(0.0) ==> IsCounted(item)
  {
    item.Item? && item.price.Number? && item.price.x >= 0.0
  }

  /** Points per started ten euros: 2 for type 'premium', 1 for anything else. */
  function Rate(kind: Option<string>): (r: int)
    ensures r == 2 <==> kind == Some("premium")
    ensures r == 1 <==> kind != Some("premium")
  {
    if kind.GetOr("") == "premium" then 2 else 1
  }

  /** The price of a counted line. */
  function Amount(item: CartItem): (a: real)
    requires IsCounted(item)
    ensures a >= 0.0
  {
    item.price.x
  }

  /** The points one counted line earns: its rate times the whole tens in its price. */
  function ItemPoints(item: CartItem): (p: int)
    requires IsCounted(item)
    ensures p >= 0
  {
    Rate(item.kind) * (item.price.x / PointsDivisor).Floor
  }

  /**
   * A counted line earns its rate times the number of whole tens in its price:
   * the points divide by the rate, and the quotient is the largest whole
   * number of tens not above the price.
   */
  lemma ItemPointsAreWholeTens(item: CartItem)
    requires IsCounted(item)
    ensures ItemPoints(item) % Rate(item.kind) == 0
    ensures var tens := ItemPoints(item) / Rate(item.kind);
      tens as real * PointsDivisor <= item.price.x < (tens + 1) as real * PointsDivisor
  {
  }

  /** The reducer's callback: skip an uncounted line, otherwise add its points and price. */
  function Step(acc: Tally, item: CartItem): (r: Tally)
    ensures r.points >= acc.points && r.total >= acc.total
    ensures r != acc ==> IsCounted(item)
  {
    if !IsCounted(item) then acc
    else Tally(acc.points + ItemPoints(item), acc.total + Amount(item))
  }

  /** `cart.reduce(step, { points: 0, total: 0 })`: the fold runs from the first line to the last. */
  function Accumulate(items: seq<CartItem>): (t: Tally)
    decreases |items|
  {
    if items == [] then Tally(0, 0.0)
    else Step(Accumulate(items[..|items| - 1]), items[|items| - 1])
  }

  /** `getPointsAndTotal`: rejects a non-array cart, otherwise folds it. */
  function GetPointsAndTotal(cart: Cart): (r: Result<Tally, Exception>)
    ensures r.Failure? <==> cart.NotArray?
    ensures r.Failure? ==> r.error == TypeError("Cart must be an array")
    ensures r.Success? ==> r.value == Accumulate(cart.items)
    ensures r.Success? ==> r.value.points >= 0 && r.value.total >= 0.0
  {
    if !cart.Array? then Failure(TypeError("Cart must be an array"))
    else AccumulateNonNegative(cart.items); Success(Accumulate(cart.items))
  }

  /** `calculateLoyaltyPoints`: the fold's points, plus the bonus when the total is above the threshold. */
  function CalculateLoyaltyPoints(cart: Cart): (r: Result<int, Exception>)
    ensures r.Failure? <==> cart.NotArray?
    ensures r.Failure? ==> r.error == TypeError("Cart must be an array")
    ensures r.Success? ==> var t := Accumulate(cart.items);
      (r.value == t.points + BonusPoints <==> t.total > BonusThreshold) &&
      (r.value == t.points <==> t.total <= BonusThreshold)
  {
    match GetPointsAndTotal(cart)
    case Failure(e) => Failure(e)
    case Success(t) => Success(if t.total > BonusThreshold then t.points + BonusPoints else t.points)
  }

  /** `analyzeLoyalty`: the same points as `calculateLoyaltyPoints`, and whether the bonus was added. */
  function AnalyzeLoyalty(cart: Cart): (r: Result<Analysis, Exception>)
    ensures r.Failure? <==> cart.NotArray?
    ensures r.Failure? ==> r.error == TypeError("Cart must be an array")
    ensures r.Success? ==> CalculateLoyaltyPoints(cart) == Success(r.value.totalPoints)
    ensures r.Success? ==> (r.value.bonusApplied <==> Accumulate(cart.items).total > BonusThreshold)
  {
    match GetPointsAndTotal(cart)
    case Failure(e) => Failure(e)
    case Success(t) =>
      var bonusApplied := t.total > BonusThreshold;
      Success(Analysis(if bonusApplied then t.points + BonusPoints else t.points, bonusApplied))
  }

  // ---------------------------------------------------------------------------
  // A reference definition: the counted lines, their points and their prices,
  // summed from the head of the list.

  /** The counted lines of `items`, in their order. */
  function Counted(items: seq<CartItem>): (c: seq<CartItem>)
    ensures forall i :: 0 <= i < |c| ==> IsCounted(c[i])
    ensures forall x :: x in c <==> x in items && IsCounted(x)
  {
    if items == [] then []
    else (if IsCounted(items[0]) then [items[0]] else []) + Counted(items[1..])
  }

  /** The filter keeps every counted line as many times as it occurs, and nothing else. */
  lemma {:induction false} CountedKeepsMultiplicity(items: seq<CartItem>)
    ensures forall x :: multiset(Counted(items))[x] == if IsCounted(x) then multiset(items)[x] else 0
  {
    if items != [] {
      CountedKeepsMultiplicity(items[1..]);
      assert items == [items[0]] + items[1..];
    }
  }

  function SumPoints(c: seq<CartItem>): int
    requires forall i :: 0 <= i < |c| ==> IsCounted(c[i])
  {
    if c == [] then 0 else ItemPoints(c[0]) + SumPoints(c[1..])
  }

  function SumPrices(c: seq<CartItem>): real
    requires forall i :: 0 <= i < |c| ==> IsCounted(c[i])
  {
    if c == [] then 0.0 else Amount(c[0]) + SumPrices(c[1..])
  }

  /** Componentwise sum of two tallies. */
  function Plus(a: Tally, b: Tally): Tally {
    Tally(a.points + b.points, a.total + b.total)
  }

  // ---------------------------------------------------------------------------
  // Properties of the fold.

  /** A cart with no counted line folds to the initial accumulator. */
  lemma {:induction false} NothingCountedFoldsToZero(items: seq<CartItem>)
    requires forall i :: 0 <= i < |items| ==> !IsCounted(items[i])
    ensures Accumulate(items) == Tally(0, 0.0)
  {
    if items != [] {
      NothingCountedFoldsToZero(items[..|items| - 1]);
    }
  }

  /** Points and total never go below zero: every counted line adds non-negative amounts. */
  lemma {:induction false} AccumulateNonNegative(items: seq<CartItem>)
    ensures Accumulate(items).points >= 0 && Accumulate(items).total >= 0.0
    decreases |items|
  {
    if items != [] {
      AccumulateNonNegative(items[..|items| - 1]);
    }
  }

  /** Adding a line after a sum of tallies adds it to the second one. */
  lemma StepAfterPlus(a: Tally, b: Tally, item: CartItem)
    ensures Step(Plus(a, b), item) == Plus(a, Step(b, item))
  {
  }

  /** Folding a concatenation adds the tallies of the two parts. */
  lemma {:induction false} AccumulateAppend(s: seq<CartItem>, t: seq<CartItem>)
    ensures Accumulate(s + t) == Plus(Accumulate(s), Accumulate(t))
    decreases |t|
  {
    if t == [] {
      assert s + t == s;
    } else {
      var t', u := t[..|t| - 1], t[|t| - 1];
      assert (s + t)[..|s + t| - 1] == s + t';
      assert (s + t)[|s + t| - 1] == u;
      AccumulateAppend(s, t');
      StepAfterPlus(Accumulate(s), Accumulate(t'), u);
    }
  }

  /** The fold equals the reference: points and prices of the counted lines only. */
  lemma {:induction false} AccumulateIsReference(items: seq<CartItem>)
    ensures Accumulate(items) == Tally(SumPoints(Counted(items)), SumPrices(Counted(items)))
    decreases |items|
  {
    if items != [] {
      var x, rest := items[0], items[1..];
      assert items == [x] + rest;
      AccumulateAppend([x], rest);
      AccumulateIsReference(rest);
      assert [x][..0] == [];
      var c := Counted(items);
      if IsCounted(x) {
        assert c == [x] + Counted(rest);
        assert c[1..] == Counted(rest);
      } else {
        assert c == Counted(rest);
      }
    }
  }

  /** A line that is not counted changes neither the points nor the total, wherever it stands. */
  lemma InvalidItemIgnored(before: seq<CartItem>, item: CartItem, after: seq<CartItem>)
    requires !IsCounted(item)
    ensures Accumulate(before + [item] + after) == Accumulate(before + after)
  {
    AccumulateAppend(before + [item], after);
    AccumulateAppend(before, after);
    assert (before + [item])[..|before|] == before;
  }

  /** A counted line adds exactly its own points and its own price, wherever it stands. */
  lemma CountedItemAdds(before: seq<CartItem>, item: CartItem, after: seq<CartItem>)
    requires IsCounted(item)
    ensures Accumulate(before + [item] + after).points
         == Accumulate(before + after).points + Rate(item.kind) * (item.price.x / PointsDivisor).Floor
    ensures Accumulate(before + [item] + after).total == Accumulate(before + after).total + item.price.x
  {
    AccumulateAppend(before + [item], after);
    AccumulateAppend(before, after);
    assert (before + [item])[..|before|] == before;
  }

  /** The fold does not depend on the order of the lines. */
  lemma {:induction false} AccumulatePermutation(a: seq<CartItem>, b: seq<CartItem>)
    requires multiset(a) == multiset(b)
    ensures Accumulate(a) == Accumulate(b)
    decreases |a|
  {
    if a == [] {
      assert |b| == |multiset(b)| == 0;
    } else {
      var x := a[|a| - 1];
      var a' := a[..|a| - 1];
      assert a == a' + [x];
      assert x in multiset(b);
      var k :| 0 <= k < |b| && b[k] == x;
      var b' := b[..k] + b[k + 1..];
      assert b == b[..k] + [x] + b[k + 1..];
      assert multiset(b') == multiset(b) - multiset{x};
      assert multiset(a') == multiset(a) - multiset{x};
      AccumulatePermutation(a', b');
      InvalidOrCounted(b[..k], x, b[k + 1..]);
    }
  }

  /** Helper for the permutation proof: taking one line out removes exactly its own contribution. */
  lemma InvalidOrCounted(before: seq<CartItem>, item: CartItem, after: seq<CartItem>)
    ensures Accumulate(before + [item] + after) == Step(Accumulate(before + after), item)
  {
    AccumulateAppend(before + [item], after);
    AccumulateAppend(before, after);
    assert (before + [item])[..|before|] == before;
  }

  /** The bonus is decided on the total, strictly: exactly 200 earns none, above 200 earns 10. */
  lemma BonusBoundary()
    ensures CalculateLoyaltyPoints(Array([Item(Number(200.0), Some("standard"))])) == Success(20)
    ensures CalculateLoyaltyPoints(Array([Item(Number(201.0), Some("standard"))])) == Success(30)
    ensures AnalyzeLoyalty(Array([Item(Number(200.0), Some("standard"))])) == Success(Analysis(20, false))
    ensures AnalyzeLoyalty(Array([Item(Number(201.0), Some("standard"))])) == Success(Analysis(30, true))
  {
  }

  /** Flooring is per line: two 5 euro lines earn nothing, 20 and 10 euro lines earn 3. */
  lemma FlooringPerItem()
    ensures CalculateLoyaltyPoints(Array([Item(Number(5.0), Some("standard")), Item(Number(5.0), Some("standard"))])) == Success(0)
    ensures CalculateLoyaltyPoints(Array([Item(Number(20.0), Some("standard")), Item(Number(10.0), Some("standard"))])) == Success(3)
    ensures CalculateLoyaltyPoints(Array([Item(Number(9.99), Some("premium"))])) == Success(0)
    ensures CalculateLoyaltyPoints(Array([Item(Number(30.0), Some("premium"))])) == Success(6)
  {
    WholeTens(5.0, 0);
    WholeTens(9.99, 0);
    WholeTens(10.0, 1);
    WholeTens(20.0, 2);
    WholeTens(30.0, 3);
    TwoLineCart(5.0, 5.0);
    TwoLineCart(20.0, 10.0);
    OnePremiumLine(9.99);
    OnePremiumLine(30.0);
  }

  /** The number of whole tens in a price, read off the bracket it lies in. */
  lemma WholeTens(x: real, k: int)
    requires k as real * PointsDivisor <= x < (k + 1) as real * PointsDivisor
    ensures (x / PointsDivisor).Floor == k
  {
  }

  /** A cart of two standard lines earns each line's whole tens, and no bonus at or below 200. */
  lemma TwoLineCart(x: real, y: real)
    requires 0.0 <= x && 0.0 <= y && x + y <= BonusThreshold
    ensures CalculateLoyaltyPoints(Array([Item(Number(x), Some("standard")), Item(Number(y), Some("standard"))]))
      == Success((x / PointsDivisor).Floor + (y / PointsDivisor).Floor)
  {
    var a, b := Item(Number(x), Some("standard")), Item(Number(y), Some("standard"));
    FoldOfTwo(a, b, ItemPoints(a), ItemPoints(b));
  }

  /** A cart of one premium line earns twice its whole tens, and no bonus at or below 200. */
  lemma OnePremiumLine(x: real)
    requires 0.0 <= x <= BonusThreshold
    ensures CalculateLoyaltyPoints(Array([Item(Number(x), Some("premium"))])) == Success(2 * (x / PointsDivisor).Floor)
  {
    var a := Item(Number(x), Some("premium"));
    assert [a][..0] == [];
    assert Rate(a.kind) == 2;
    assert Accumulate([a]) == Tally(ItemPoints(a), x);
  }

  /** The fold of a two-line cart of counted lines adds up the two lines' points and prices. */
  lemma FoldOfTwo(a: CartItem, b: CartItem, pa: int, pb: int)
    requires IsCounted(a) && IsCounted(b)
    requires ItemPoints(a) == pa && ItemPoints(b) == pb
    ensures Accumulate([a, b]) == Tally(pa + pb, Amount(a) + Amount(b))
  {
    assert [a, b][..1] == [a] && [a][..0] == [];
    assert Accumulate([a]) == Tally(pa, Amount(a));
  }
}

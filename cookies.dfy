/** The day-7 cookie endpoints: how many cookies a recipe allows from a
    pantry, and the pantry left after baking them. Ingredient amounts are
    `i64`; maps are keyed by ingredient name. */
module Cookies {
  import opened Wrappers
  import opened Ints

  // ------------------------------------------------------------ secret

  const PREFIX: string := "recipe="

  /** The first step of `decode_secret`: the cookie value must start with
      "recipe=", and the `unwrap` of `strip_prefix` panics otherwise. */
  function StripRecipe(input: string): (r: Outcome<string>)
    ensures r.Done? <==> |input| >= |PREFIX| && input[..|PREFIX|] == PREFIX
    ensures r.Done? ==> input == PREFIX + r.value
  {
    if |input| >= |PREFIX| && input[..|PREFIX|] == PREFIX then Done(input[|PREFIX|..]) else Panic
  }

  /** Stripping the prefix recovers exactly what followed it. */
  lemma StripRecipeInverse(encoded: string)
    ensures StripRecipe(PREFIX + encoded) == Done(encoded)
  {
    assert (PREFIX + encoded)[..|PREFIX|] == PREFIX;
    assert (PREFIX + encoded)[|PREFIX|..] == encoded;
  }

  // ------------------------------------------------------------ max cookies

  /** `pantry.get(ingredient).unwrap_or(&0)`. */
  function Stock(pantry: map<string, i64>, ingredient: string): i64 {
    if ingredient in pantry then pantry[ingredient] else 0
  }

  /** The ingredients that limit the count: those with a positive amount. */
  function Limits(recipe: map<string, i64>): (s: set<string>)
    ensures forall k :: k in s <==> k in recipe && recipe[k] > 0
  {
    set k | k in recipe && recipe[k] > 0
  }

  /** How many cookies one ingredient allows: Rust's `/`, truncating toward
      zero, of the stock by the amount. */
  function Quotient(pantry: map<string, i64>, recipe: map<string, i64>, k: string): (q: i64)
    requires k in Limits(recipe)
  {
    var a := Stock(pantry, k);
    var q := TruncDiv(a, recipe[k]);
    assert a >= 0 ==> q <= a by {
      if a >= 0 {
        MulAtLeast(q, recipe[k]);
      }
    }
    assert a < 0 ==> a <= q by {
      if a < 0 {
        MulAtLeast(-q, recipe[k]);
      }
    }
    q
  }

  lemma MulAtLeast(q: int, b: int)
    requires q >= 0 && b >= 1
    ensures q * b >= q
  {
  }

  /** `m` is the handler's `max_cookies`: the least quotient over the
      limiting ingredients, or 0 when there is none. */
  predicate IsMaxCookies(recipe: map<string, i64>, pantry: map<string, i64>, m: int) {
    if Limits(recipe) == {} then m == 0
    else
      (exists k :: k in Limits(recipe) && m == Quotient(pantry, recipe, k))
      && (forall k :: k in Limits(recipe) ==> m <= Quotient(pantry, recipe, k))
  }

  /** `.iter().min()` over the collected quotients. */
  function Min(s: seq<i64>): (r: Option<i64>)
    ensures r.None? <==> s == []
    ensures r.Some? ==> r.value in s && forall i :: 0 <= i < |s| ==> r.value <= s[i]
  {
    if s == [] then None
    else
      var last := s[|s| - 1];
      match Min(s[..|s| - 1])
      case None => Some(last)
      case Some(v) => Some(if last < v then last else v)
  }

  /** The handler's first loop, over the recipe in the map's own order
      (any order: each ingredient is visited once), then the minimum. */
  method MaxCookies(recipe: map<string, i64>, pantry: map<string, i64>) returns (m: i64)
    ensures IsMaxCookies(recipe, pantry, m)
  {
    var quotients: seq<i64> := [];
    var todo := recipe.Keys;
    ghost var seen: set<string> := {};
    while todo != {}
      invariant todo + seen == recipe.Keys && todo !! seen
      invariant forall i :: 0 <= i < |quotients| ==>
        exists k :: k in seen && k in Limits(recipe) && quotients[i] == Quotient(pantry, recipe, k)
      invariant forall k :: k in seen && k in Limits(recipe) ==> Quotient(pantry, recipe, k) in quotients
      decreases todo
    {
      var k :| k in todo;
      ghost var before := quotients;
      if recipe[k] > 0 {
        quotients := quotients + [Quotient(pantry, recipe, k)];
      }
      todo := todo - {k};
      seen := seen + {k};
      forall i | 0 <= i < |quotients|
        ensures exists j :: j in seen && j in Limits(recipe) && quotients[i] == Quotient(pantry, recipe, j)
      {
        if i < |before| {
          assert quotients[i] == before[i];
          var j :| j in seen - {k} && j in Limits(recipe) && before[i] == Quotient(pantry, recipe, j);
        } else {
          assert k in seen && k in Limits(recipe) && quotients[i] == Quotient(pantry, recipe, k);
        }
      }
    }
    var least := Min(quotients);
    if least.None? {
      m := 0;
      assert seen == recipe.Keys;
      assert Limits(recipe) == {};
    } else {
      m := least.value;
      var i :| 0 <= i < |quotients| && quotients[i] == m;
      assert Limits(recipe) != {};
    }
  }

  /** The count is well defined: at most one value is the least quotient. */
  lemma MaxCookiesUnique(recipe: map<string, i64>, pantry: map<string, i64>, m1: int, m2: int)
    requires IsMaxCookies(recipe, pantry, m1) && IsMaxCookies(recipe, pantry, m2)
    ensures m1 == m2
  {
    if Limits(recipe) != {} {
      var k1 :| k1 in Limits(recipe) && m1 == Quotient(pantry, recipe, k1);
      var k2 :| k2 in Limits(recipe) && m2 == Quotient(pantry, recipe, k2);
      assert m1 <= Quotient(pantry, recipe, k2);
      assert m2 <= Quotient(pantry, recipe, k1);
    }
  }

  /** An ingredient whose amount is zero or negative does not constrain the
      count: the recipe behaves as if it were not there. */
  lemma NonPositiveIgnored(recipe: map<string, i64>, pantry: map<string, i64>, k: string, v: i64, m: int)
    requires v <= 0
    ensures IsMaxCookies(recipe[k := v], pantry, m) <==> IsMaxCookies(recipe - {k}, pantry, m)
  {
    var r1 := recipe[k := v];
    var r2 := recipe - {k};
    assert Limits(r1) == Limits(r2);
    forall j | j in Limits(r1)
      ensures Quotient(pantry, r1, j) == Quotient(pantry, r2, j)
    {
      assert r1[j] == r2[j];
    }
  }

  // ------------------------------------------------------------ baking

  datatype BakeResponse = BakeResponse(cookies: i64, pantry: map<string, i64>)

  /** The pantry after baking `n` cookies: every ingredient already in the
      pantry that the recipe uses loses amount × n (in `i64`, wrapping);
      recipe ingredients the pantry lacks are not added. */
  function Baked(n: i64, recipe: map<string, i64>, pantry: map<string, i64>): (r: map<string, i64>)
    ensures r.Keys == pantry.Keys
    ensures forall k :: k in pantry && k !in recipe ==> r[k] == pantry[k]
  {
    map k | k in pantry :: if k in recipe then Use(pantry[k], recipe[k], n) else pantry[k]
  }

  /** One ingredient's new amount: `*amount -= quantity * n_cookies`. */
  function Use(amount: i64, quantity: i64, n: i64): i64 {
    Wrap64(amount - quantity * n)
  }

  /** Wrapping the product first, as the `i64` multiplication does, gives
      the same amount. */
  lemma UseWrapped(amount: i64, quantity: i64, n: i64)
    ensures Wrap64(amount - Wrap64(quantity * n)) == Use(amount, quantity, n)
  {
    Wrap64Congruent(amount - Wrap64(quantity * n), amount - quantity * n);
  }

  /** `BakeResponse::bake`: a clone of the pantry, then one `and_modify`
      per recipe ingredient, which changes only keys that exist. */
  method Bake(n: i64, recipe: map<string, i64>, pantry: map<string, i64>) returns (r: BakeResponse)
    ensures r.cookies == n && r.pantry == Baked(n, recipe, pantry)
  {
    var remaining := pantry;
    var todo := recipe.Keys;
    while todo != {}
      invariant todo <= recipe.Keys
      invariant remaining.Keys == pantry.Keys
      invariant forall k :: k in pantry ==>
        remaining[k] == if k in recipe && k !in todo then Use(pantry[k], recipe[k], n) else pantry[k]
      decreases todo
    {
      var k :| k in todo;
      if k in remaining {
        var product := Wrap64(recipe[k] as int * n);
        UseWrapped(remaining[k], recipe[k], n);
        remaining := remaining[k := Wrap64(remaining[k] as int - product)];
      }
      todo := todo - {k};
    }
    r := BakeResponse(n, remaining);
  }

  /** Baking no cookies leaves the pantry as it was. */
  lemma BakeNothing(recipe: map<string, i64>, pantry: map<string, i64>)
    ensures Baked(0, recipe, pantry) == pantry
  {
    var r := Baked(0, recipe, pantry);
    forall k | k in pantry ensures r[k] == pantry[k] {
      if k in recipe {
        assert Use(pantry[k], recipe[k], 0) == pantry[k];
      }
    }
  }

  /** With a pantry of non-negative amounts, baking the maximum leaves every
      limiting ingredient the pantry holds at a non-negative amount, computed
      without any wrap-around. */
  lemma BakeMaxLeavesStock(recipe: map<string, i64>, pantry: map<string, i64>, m: i64)
    requires forall k :: k in pantry ==> pantry[k] >= 0
    requires IsMaxCookies(recipe, pantry, m)
    ensures forall k :: k in pantry && k in Limits(recipe) ==>
      Baked(m, recipe, pantry)[k] == pantry[k] - recipe[k] * m >= 0
  {
    forall k | k in pantry && k in Limits(recipe)
      ensures Baked(m, recipe, pantry)[k] == pantry[k] - recipe[k] * m >= 0
    {
      var k0 :| k0 in Limits(recipe) && m == Quotient(pantry, recipe, k0);
      QuotientNonNegative(pantry, recipe, k0);
      LimitLeavesStock(pantry[k], recipe[k], m, Quotient(pantry, recipe, k));
    }
  }

  /** A pantry without debts allows a non-negative count of each ingredient. */
  lemma QuotientNonNegative(pantry: map<string, i64>, recipe: map<string, i64>, k: string)
    requires forall k :: k in pantry ==> pantry[k] >= 0
    requires k in Limits(recipe)
    ensures Quotient(pantry, recipe, k) >= 0
  {
  }

  /** Using `m` times an amount of which the stock holds `q` times, with
      `0 <= m <= q`, neither wraps nor goes below zero. */
  lemma LimitLeavesStock(stock: i64, amount: i64, m: i64, q: i64)
    requires stock >= 0 && amount > 0 && 0 <= m <= q
    requires q == TruncDiv(stock, amount)
    ensures Use(stock, amount, m) == stock - amount * m >= 0
  {
    MulMono(m, q, amount);
  }

  lemma MulMono(m: int, q: int, b: int)
    requires 0 <= m <= q && b > 0
    ensures 0 <= b * m <= b * q
  {
  }

  /** The `bake` handler on a decoded recipe: the maximum count, then the
      pantry after baking it. */
  method BakeRecipe(recipe: map<string, i64>, pantry: map<string, i64>) returns (r: BakeResponse)
    ensures IsMaxCookies(recipe, pantry, r.cookies)
    ensures r.pantry == Baked(r.cookies, recipe, pantry)
  {
    var m := MaxCookies(recipe, pantry);
    r := Bake(m, recipe, pantry);
  }
}

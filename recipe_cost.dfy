/** app000.py: a baking-recipe cost calculator. The session holds a recipe name and a
    list of ingredients whose quantities are converted to grams; the recipe cost is the
    sum over ingredients of quantity × price per gram of the purchased package. */
module RecipeCost {

  /** convert_to_grams: 斤 is 500 g, 公斤 and 升 are 1000 g (density 1); 克, 毫升, 个 and
      any other unit are left as they are. */
  function ToGrams(value: real, unit: string): (r: real)
  {
    if unit == "克" then value
    else if unit == "斤" then value * 500.0
    else if unit == "公斤" then value * 1000.0
    else if unit == "毫升" then value
    else if unit == "升" then value * 1000.0
    else if unit == "个" then value
    else value
  }

  /** An entry of st.session_state.ingredients; weights are stored in grams. */
  datatype Ingredient = Ingredient(name: string, weight: real, price: real, packageWeight: real,
                                   unit: string, packageUnit: string, brand: string)

  /** What the 继续添加 button does. */
  datatype AddResult =
    | NeedsRecipeName   // the recipe name is not set: the name prompt is shown instead
    | Refused           // "请确保所有字段都已填写，并且重量和价格大于0"
    | Added

  /** What the 完成并计算 button does. */
  datatype CostResult = NoIngredients | TotalCost(total: real)

  /** The cost of one ingredient: its weight times the price per gram of its package. */
  function IngredientCost(i: Ingredient): real
    requires i.packageWeight != 0.0
  {
    i.weight * (i.price / i.packageWeight)
  }

  predicate PackagesWeighed(items: seq<Ingredient>)
  {
    forall k :: 0 <= k < |items| ==> items[k].packageWeight != 0.0
  }

  /** The total the loop of calculate_cost accumulates. */
  function Total(items: seq<Ingredient>): real
    requires PackagesWeighed(items)
  {
    if items == [] then 0.0 else Total(items[..|items| - 1]) + IngredientCost(items[|items| - 1])
  }

  /** The session state of the recipe page. */
  class Recipe {
    var name: string
    var ingredients: seq<Ingredient>
    var counter: int
    var recipeSet: bool

    /** What the page keeps true: the counter is one more than the number of
        ingredients; every stored ingredient passed the add guard; ingredients exist only
        once a non-empty recipe name is set. */
    predicate Valid()
      reads this
    {
      counter == |ingredients| + 1
      && (forall k :: 0 <= k < |ingredients| ==>
            ingredients[k].name != "" && ingredients[k].weight > 0.0 && ingredients[k].packageWeight > 0.0)
      && (recipeSet ==> name != "")
      && (!recipeSet ==> ingredients == [])
    }

    /** The session-state initialisation (lines 4-11). */
    constructor()
      ensures Valid()
      ensures name == "" && ingredients == [] && counter == 1 && !recipeSet
    {
      name := "";
      ingredients := [];
      counter := 1;
      recipeSet := false;
    }

    /** add_recipe_name: a non-empty entry becomes the recipe name. */
    method SetRecipeName(input: string) returns (accepted: bool)
      requires Valid()
      modifies this
      ensures Valid()
      ensures accepted <==> input != ""
      ensures accepted ==> name == input && recipeSet
      ensures !accepted ==> name == old(name) && recipeSet == old(recipeSet)
      ensures ingredients == old(ingredients) && counter == old(counter)
    {
      if input != "" {
        name := input;
        recipeSet := true;
        accepted := true;
      } else {
        accepted := false;
      }
    }

    /** add_ingredient followed by 继续添加: the entry is stored, converted to grams, when
        the name is non-empty and both weights are positive; the price is not checked. */
    method AddIngredient(ingredientName: string, weight: real, unit: string, brand: string,
                         packageWeight: real, packageUnit: string, price: real)
      returns (r: AddResult)
      requires Valid()
      modifies this
      ensures Valid()
      ensures r == NeedsRecipeName <==> !old(recipeSet)
      ensures r == Added <==> old(recipeSet) && ingredientName != "" && weight > 0.0 && packageWeight > 0.0
      ensures r == Added ==> ingredients == old(ingredients) + [Ingredient(ingredientName,
        ToGrams(weight, unit), price, ToGrams(packageWeight, packageUnit), unit, packageUnit, brand)]
      ensures r == Added ==> counter == old(counter) + 1
      ensures r != Added ==> ingredients == old(ingredients) && counter == old(counter)
      ensures name == old(name) && recipeSet == old(recipeSet)
    {
      if !recipeSet {
        return NeedsRecipeName;
      }
      if ingredientName != "" && weight > 0.0 && packageWeight > 0.0 {
        GramsPositive(weight, unit);
        GramsPositive(packageWeight, packageUnit);
        var item := Ingredient(ingredientName, ToGrams(weight, unit), price,
                               ToGrams(packageWeight, packageUnit), unit, packageUnit, brand);
        ingredients := ingredients + [item];
        counter := counter + 1;
        r := Added;
      } else {
        r := Refused;
      }
    }

    /** 完成并计算: refused with no ingredients; otherwise the loop of calculate_cost. */
    method CalculateCost() returns (r: CostResult)
      requires Valid()
      ensures ingredients == [] ==> r == NoIngredients
      ensures ingredients != [] ==> PackagesWeighed(ingredients) && r == TotalCost(Total(ingredients))
    {
      if ingredients == [] {
        return NoIngredients;
      }
      var total := 0.0;
      var k := 0;
      while k < |ingredients|
        invariant 0 <= k <= |ingredients|
        invariant PackagesWeighed(ingredients[..k])
        invariant total == Total(ingredients[..k])
      {
        var item := ingredients[k];
        var costPerGram := item.price / item.packageWeight;
        assert ingredients[..k + 1][..k] == ingredients[..k];
        total := total + item.weight * costPerGram;
        k := k + 1;
      }
      assert ingredients[..k] == ingredients;
      r := TotalCost(total);
    }
  }

  // ---------------------------------------------------------------------------
  // Properties
  // ---------------------------------------------------------------------------

  /** Conversion scales by a per-unit factor of at least 1, so positive quantities stay
      positive and the stored weights pass the guard's check in grams too. */
  lemma GramsPositive(value: real, unit: string)
    requires value > 0.0
    ensures ToGrams(value, unit) >= value > 0.0
  {
  }

  /** Conversion is linear: converting v is v times the grams of one unit. */
  lemma GramsLinear(value: real, unit: string)
    ensures ToGrams(value, unit) == value * ToGrams(1.0, unit)
  {
  }

  /** Only 斤, 公斤 and 升 change the value; every other unit, known or not, keeps it. */
  lemma GramsUnchangedIff(value: real, unit: string)
    requires value != 0.0
    ensures ToGrams(value, unit) == value <==> unit != "斤" && unit != "公斤" && unit != "升"
  {
  }

  /** The total of a list with one more ingredient grows by that ingredient's cost, so the
      total is the sum over ingredients in any split. */
  lemma {:induction false} TotalAppend(a: seq<Ingredient>, b: seq<Ingredient>)
    requires PackagesWeighed(a) && PackagesWeighed(b)
    ensures PackagesWeighed(a + b)
    ensures Total(a + b) == Total(a) + Total(b)
  {
    if b != [] {
      var n := |b| - 1;
      assert (a + b)[..|a + b| - 1] == a + b[..n];
      assert PackagesWeighed(b[..n]) by {
        forall k | 0 <= k < n ensures b[..n][k].packageWeight != 0.0 { assert b[..n][k] == b[k]; }
      }
      TotalAppend(a, b[..n]);
    } else {
      assert a + b == a;
    }
  }

  /** With non-negative prices the cost is non-negative, and it never exceeds the full
      price of the packages when every recipe uses at most one package of each. */
  lemma {:induction false} TotalBounds(items: seq<Ingredient>)
    requires forall k :: 0 <= k < |items| ==> items[k].packageWeight > 0.0 && items[k].weight >= 0.0 && items[k].price >= 0.0
    ensures PackagesWeighed(items) && Total(items) >= 0.0
    ensures (forall k :: 0 <= k < |items| ==> items[k].weight <= items[k].packageWeight) ==>
      Total(items) <= PackagePrices(items)
  {
    if items != [] {
      var n := |items| - 1;
      assert forall k :: 0 <= k < n ==> items[..n][k] == items[k];
      TotalBounds(items[..n]);
      var i := items[n];
      var unit := i.price / i.packageWeight;
      assert unit >= 0.0;
      if i.weight <= i.packageWeight {
        assert i.weight * unit <= i.packageWeight * unit;
        assert i.packageWeight * unit == i.price;
      }
    }
  }

  /** The price of every purchased package, added up. */
  function PackagePrices(items: seq<Ingredient>): real
  {
    if items == [] then 0.0 else PackagePrices(items[..|items| - 1]) + items[|items| - 1].price
  }
}

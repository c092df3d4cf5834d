/** The shapes of the decoded recipe records. Only the fields the yield
    resolver reads or writes are named; every other field of a Go struct is
    carried, unchanged, inside an opaque payload. */
module RecipeModel {
  import opened Base

  /** The serialized form of fields the scraper never inspects (names,
      slugs, links, timestamps, nutrition, allergens, tags, ...). */
  datatype Opaque = Opaque(fields: seq<Bytes>)

  /** A Go `float64`, kept as its IEEE-754 bit pattern: it is only copied. */
  datatype Float64 = Float64(bits: bv64)

  /** An ingredient of one recipe: its identifier, its display name and the
      fields nobody reads. */
  datatype Ingredient = Ingredient(id: string, name: string, details: Opaque)

  /** One row of a serving-size table. `id` is a two-phase field: it holds an
      ingredient identifier when decoded and that ingredient's name once the
      yield resolver has run. */
  datatype IngredientYield = IngredientYield(id: string, amount: Float64, unit: string)

  /** A serving-size variant: the serving count and its ingredient table. */
  datatype Yield = Yield(servings: int, ingredients: seq<IngredientYield>)

  /** A recipe as it is decoded from one query's `items` list; `recipeYields`
      is the Go field `Yields` (`yields` is a reserved word in Dafny). */
  datatype Recipe = Recipe(
    id: string,
    details: Opaque,
    ingredients: seq<Ingredient>,
    recipeYields: seq<Yield>)
}

# hello-fresh-scrape recipe extraction, modelled in Dafny

This project models the core of the `recipe` package of hello-fresh-scrape,
which pulls the recipe list out of a Hello Fresh listing page:

- **Document scanner** (`parseRecipeProps`): walks the page's HTML tokens and
  returns the text of the `<script id="__NEXT_DATA__" type="application/json">`
  element. The scanner keeps an "armed" flag that a matching start tag sets and
  nothing clears; the first text token seen while armed is the result; a
  tokenizer error (including end of stream) ends the scan with that error.
- **Query filter** (the loop of `ScrapeRecipes`): from the decoded envelope's
  cached queries, decodes those whose raw `data` starts with `{` and
  concatenates their `Items`; the first decode failure aborts the call with no
  recipes.
- **Yield resolver** (`Recipes.YieldIDsToNames` and `ingredientName`):
  replaces each yield entry's ingredient ID with the name of the first
  ingredient of the same recipe carrying that ID, stopping at the first ID it
  cannot find.

Modules, one per component: `Base` (bytes, the package's error values,
`Result`/`Option`, and `Decoded` for a `json.Unmarshal` outcome), `RecipeModel` (the record shapes), `Scanner`, `Queries`,
`Resolver`, and `Scrape` (the composition performed by `ScrapeRecipes` after
the HTTP fetch).

Modelling choices:

- The HTML tokenizer's output is a finite `seq<Token>`; running off its end
  stands for the tokenizer's last `ErrorToken`, whose `Err()` is `io.EOF`
  (`StreamError(EndOfStream)`). Tag names and attribute keys are taken as the
  tokenizer reports them (lower-cased), attribute values unescaped.
- The two `json.Unmarshal` calls are oracle parameters: the envelope decoder
  maps the script text to the list of each query's raw `data` bytes, and the
  per-query decoder maps those bytes to a recipe list. Each either decodes or
  reports the bytes malformed, which the package returns as `JsonError`.
- The resolver's in-place writes become a pure function returning the batch
  as the caller sees it afterwards together with the optional error. Each
  write `ys.Ingredients[i].ID = name` is a sequence update at the same
  position, so on failure the returned batch is the partially rewritten one.
  In the source `r` and `ys` are range copies, but `ys.Ingredients` shares
  its backing array with the caller's batch, which is why the writes are
  visible; decoded recipes never share slices with each other.
- Only `Recipe.ID`, `Recipe.Ingredients` (ID, Name), `Recipe.Yields`, `Yield.Yields` and
  `IngredientYield` (ID, Amount, Unit) are named. All other fields are carried
  unchanged in an opaque payload; `float64` amounts are kept as bit patterns
  and never computed with. The Go field `Recipe.Yields` is called
  `recipeYields` because `yields` is a reserved word in Dafny.

Two behaviours of the source worth stating plainly:

- `return nil, errors.New("recipe props data not found")`
  (recipe/recipe.go:273) follows a `for` loop with no `break` and is
  unreachable: a page without the sentinel element ends with the tokenizer's
  `io.EOF`. `Scanner.ScanNeverReportsNotFound` proves this, and
  `Scrape.ScrapeRecipes` proves the package never returns `PropsNotFound`.
- recipe/recipe.go:263-266 checks `id="__NEXT_DATA__"` in the first attribute
  slot and `type="application/json"` in the second; a tag with the same two
  attributes in another order or position does not match
  (`Scanner.ArmingRule`).

## Model

| member | source | states |
|---|---|---|
| Scanner.ArmingRule | recipe/recipe.go:260-268 | A start tag arms the scanner exactly when it is a `script` tag with at least two attributes, the first being `id="__NEXT_DATA__"` and the second `type="application/json"`. |
| Scanner.MisplacedAttributesNeverArm | recipe/recipe.go:261-266 | A tag whose first attribute is not `id`, a tag with a single attribute or none, and a tag not named `script` never arm the scanner. |
| Scanner.ArmedBeforeStep | recipe/recipe.go:250-268 | The armed state after a token is the state before it or that token arming: once set it is never cleared. |
| Scanner.ScanFirstStop | recipe/recipe.go:251-259 | The scan returns the error of the first error token, or the bytes of the first text token after the first arming tag, whichever comes first; earlier text is ignored and later tags do not disarm. |
| Scanner.ScanRunsOut | recipe/recipe.go:252-255 | When no error token and no armed text token occurs, including when nothing ever armed, the result is the tokenizer's end-of-stream error with no bytes. |
| Scanner.StopsOrRunsOut | recipe/recipe.go:251-272 | Every token stream either has a first position that ends the scan or runs out, so the two lemmas above cover all inputs. |
| Scanner.ScanNeverReportsNotFound | recipe/recipe.go:248-274 | The scan never returns "recipe props data not found"; every failure is the tokenizer's own error. |
| Scanner.ScanIgnoresRest | recipe/recipe.go:256-259 | Nothing after the token that ends the scan is inspected: replacing all later tokens leaves the result unchanged. |
| Scanner.ParseRecipeProps | recipe/recipe.go:248-274 | The token loop with its armed flag returns exactly what the first stopping token dictates, or end of stream when none stops it, and agrees with the functional scan. |
| Queries.FirstFailure | recipe/recipe.go:232-239 | Locates the first query that passes the `{` filter and fails to decode: every object-shaped query before it decodes. |
| Queries.ItemsAppend | recipe/recipe.go:240-242 | The recipes of two consecutive runs of queries are the first run's recipes followed by the second's, so relative order across queries is kept. |
| Queries.ItemsLength | recipe/recipe.go:231-245 | The number of recipes returned equals the sum of the lengths of the decoded `Items` lists of the `{`-prefixed queries. |
| Queries.SkippedQueryContributesNothing | recipe/recipe.go:233-243 | A query whose data does not start with `{`, or whose `Items` list is empty, adds nothing wherever it stands. |
| Queries.CollectRecipes | recipe/recipe.go:231-245 | The call succeeds iff every `{`-prefixed query decodes, returning the in-order concatenation of their items; otherwise it returns no recipes and the first failing query's decoding error as a JSON error. |
| Resolver.IngredientName | recipe/recipe.go:293-300 | The lookup succeeds iff some ingredient has the ID, returning the name of the first such ingredient; otherwise the error names the ID. |
| Resolver.NameFrom | recipe/recipe.go:294-299 | The lookup loop from a position before which no ingredient matches: same success, first-match and error statement as `ingredientName`. |
| Resolver.ResolveEntries | recipe/recipe.go:281-287 | Entries up to the first unknown ID get the first matching ingredient's name with amount and unit kept; that entry and later ones are untouched; the error names that ID. |
| Resolver.ResolveYields | recipe/recipe.go:280-288 | Yields before the first one holding an unknown ID are fully rewritten, that yield up to its first unknown ID, later yields untouched; serving counts kept; the error names that ID. |
| Resolver.ResolveRecipes | recipe/recipe.go:279-289 | Recipes before the first unresolvable one are fully rewritten against their own ingredients, that recipe partly, later recipes untouched; the error names the first missing ID. |
| Resolver.YieldIDsToNames | recipe/recipe.go:278-291 | The batch after the call and its error, recipe by recipe: rewritten up to the first missing ID and untouched from there, the error naming that ID or absent. |
| Resolver.ResolvePreservesShape | recipe/recipe.go:278-291 | On success or failure the batch keeps its recipes, identifiers, payloads, ingredient lists, yields, serving counts, entries, amounts and units; only entry IDs change. |
| Resolver.ResolveSucceedsIff | recipe/recipe.go:282-284 | An error is returned iff some entry's ID is absent from its own recipe's ingredient IDs. |
| Resolver.ResolveSuccess | recipe/recipe.go:278-297 | When every entry's ID occurs in its own recipe, every entry's ID becomes the name of the first matching ingredient of that same recipe and nothing else changes. |
| Resolver.ResolveFailureIsPartial | recipe/recipe.go:279-288 | On failure there is a first missing entry in recipe, yield, entry order; the error names its ID, every entry before it is rewritten and it and all later ones are untouched (no rollback). |
| Resolver.NamedByUnique | recipe/recipe.go:294-296 | The first matching ingredient determines the resolved name uniquely. |
| Resolver.ResolveIsPerRecipe | recipe/recipe.go:279-282 | Once the resolver reaches a recipe, what it writes there is what it would write for that recipe alone: other recipes' ingredients are never consulted. |
| Scrape.ScrapeRecipes | recipe/recipe.go:216-246 | A scanner error is returned as is and an envelope decoding error as a JSON error, both with no recipes; otherwise the query filter's result on this page's queries; every error is a stream or JSON error, never "recipe props data not found". |

## Left out

- `main.go`: flag parsing, output file creation, buffered writing and `json.MarshalIndent` are I/O with no logic to model.
- `Collections`, `URLSet` and `URL` (recipe/recipe.go:20-53): an HTTP GET plus XML decoding.
- The `http.Get` of `ScrapeRecipes` (recipe/recipe.go:217-221) and the `json.Unmarshal` calls (recipe/recipe.go:226-230, 236): foreign library calls, modelled as the token sequence and the two decoder oracles.
- The internals of `golang.org/x/net/html`'s tokenizer (raw-text handling of `script`, lower-casing, unescaping, newline conversion): its output is taken as given.
- `float64`, `time.Time` and `map[string]int` fields and the descriptive string fields of every record: carried opaquely, never computed with.
- Queries.CollectRecipes: requires non-empty `data` for every query the loop reaches (no earlier `{`-prefixed query fails to decode), because `q.State.Data[0]` (recipe/recipe.go:234) panics on such a query; queries after the first failure may be empty; the panic itself is not modelled.
- Scrape.ScrapeRecipes: requires non-empty `state.data` for every query of this page's decoded envelope that the loop reaches (no earlier `{`-prefixed query fails to decode), because `q.State.Data[0]` (recipe/recipe.go:234) panics on such a query; the panic itself is not modelled.
- Queries.CollectRecipes: does not distinguish a nil recipe slice from an empty one (the source returns nil when no query contributes, which `json.MarshalIndent` renders as `null`).
- Resolver.IngredientName: the error carries the missing ID; the message text "id <id> not found in ingredients list" is not built.

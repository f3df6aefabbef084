# Bouquet composer: a Dafny model of the server's selection and prompt logic

The server takes a request with a budget, a style, an occasion and a packaging.
It picks a flower composition from a fixed price list, then writes the text
prompt that an image model is asked to draw. This project models those two
steps and the price list, and proves what they promise.

- `Catalog` (catalog.dfy): the `flowerData` table. It holds ten flowers, each
  with a name, an integer price and its style tags. The module also has
  lookup by name and the filter by style.
- `Selector` (selector.dfy): `calculateComposition`.
  - 70% of the budget goes to flowers.
  - The flowers that carry the style are drawn at random fifteen times.
  - A draw the remaining money covers adds one stem and pays for it. Any
    other draw is skipped, and the loop goes on.
  - The method `CalculateComposition` keeps the source's running balance and
    the composition, updated in place in a `for` loop.
  - The loop is proved against the specification function `Select`, which
    the lemmas speak about.
  - `Math.random()` is a parameter. The caller passes the fifteen values in
    [0, 1) that the draws would use.
- `Text` (text.dfy): the string operations the prompt uses: ASCII
  `toLowerCase`, a count's decimal rendering, and `join(', ')`. The decimal
  rendering comes with `DecimalValue`, which reads it back, and the join with
  `SplitAtCommas`, which splits it again. Lower-casing loses information, so
  it has no reader; its partner is the idempotence lemma.
- `Prompt` (prompt.dfy): `createPrompt`.
  - The composition is rendered as "<count> <name>" entries in insertion
    order.
  - An empty rendering selects the generic template.
  - Any other rendering is quoted in the full template.
  - The fixed text of both templates is written as named clauses. Put
    together, they spell the source's template literals.
- `Wrappers` (wrappers.dfy): the `Option` type that name lookup returns.

A composition is the JavaScript object the source fills in. It is modelled as
its entries, in the order the keys were first set, which is the order
`Object.entries` reports them in. Money is a `real`: 70% of the budget is
`budget * 0.7` computed exactly.

## Model

| member | source | states |
|---|---|---|
| Catalog.FlowerData | server.js:14-25 | No contract of its own: the ten entries of the table, in declaration order. Specified by FlowerDataWellFormed, FlowerDataPrices and FlowerDataNamesCommaFree. |
| Catalog.FlowerDataWellFormed | server.js:14-25 | The price table has unique flower names and only positive prices. |
| Catalog.FlowerDataPrices | server.js:15-24 | Every price in the table is at least 20, and Greenery costs exactly 20. |
| Catalog.FlowerDataNamesCommaFree | server.js:15-24 | No flower name contains a comma, so the ", " separator in the prompt is unambiguous. |
| Catalog.LookupIn | server.js:41 | `flowerData[name]`: a result found is a catalog entry with that name, and no result means no entry has that name. |
| Catalog.LookupInFinds | server.js:41 | With unique keys, `flowerData[name]` for a listed flower's name returns that flower. |
| Catalog.FilterByStyle | server.js:32 | The suitable flowers are exactly the catalog flowers whose style list contains the requested style, and there are no more of them than catalog entries. |
| Catalog.FilterByStyleInOrder | server.js:32 | The suitable flowers keep their catalog order: the filter only drops entries. Which flower a random value picks depends on this order. |
| Catalog.FilteredCarries | server.js:32 | A suitable flower is in the catalog, carries the style, and is found by name at its own price. |
| Catalog.NoneFilteredIffNoMatch | server.js:32-37 | The list of suitable flowers is empty exactly when no catalog entry lists the style. |
| Selector.PickIndex | server.js:40 | `Math.floor(Math.random() * n)` is a valid index into the n suitable flowers. |
| Selector.Bump | server.js:44 | No contract of its own: sets `composition[name]` to its old count, or 0 when absent, plus one. Specified by BumpNames, BumpCount, BumpTotal, BumpSpent and BumpPositive. |
| Selector.Draw | server.js:43-46 | No contract of its own: one iteration with a given flower drawn. Specified by AcceptedDrawSpends and DrawKeepsConsistent. |
| Selector.Run | server.js:39-48 | No contract of its own: the loop over a sequence of random values. Specified by RunConsistent, RunFirst, UnaffordableDrawSkipped and RunBelowEveryPrice. |
| Selector.Select | server.js:28-49 | No contract of its own: the composition `calculateComposition` returns for given random values. Specified by SelectProperties, UnknownStyleSelectsNothing, SmallBudgetSelectsNothing and FlowerDataSelectsNothing, and implemented by CalculateComposition. |
| Selector.BumpNames | server.js:44 | Incrementing a key keeps the keys' insertion order; a new key is appended. |
| Selector.BumpCount | server.js:44 | Incrementing adds one stem of that flower and changes no other flower's count. |
| Selector.BumpTotal | server.js:44 | Incrementing adds exactly one stem in all. |
| Selector.BumpSpent | server.js:44-45 | Incrementing a flower costs exactly its catalog price. |
| Selector.BumpPositive | server.js:44 | Every count stays at least 1. |
| Selector.DrawKeepsConsistent | server.js:40-47 | One iteration keeps the loop invariant: names unique, counts at least 1, every flower of the style, balance + spent = 70% of the budget, at most one stem per iteration, and no negative balance once something is bought. |
| Selector.RunConsistent | server.js:39-48 | Every run of the loop keeps that invariant, whatever the random draws. |
| Selector.CalculateComposition | server.js:28-49 | The loop returns the composition the specification `Select` defines. It has unique names, every count at least 1, only flowers of the requested style, at most 15 stems in all, and costs at most 70% of a non-negative budget. |
| Selector.SelectProperties | server.js:28-49 | Same as the method's guarantees, for any number of draws: unique names, positive counts, only flowers of the style, at most one stem per draw, spending within 70% of the budget. |
| Selector.UnknownStyleSelectsNothing | server.js:32-37 | A style that no catalog entry lists gives the empty composition, for any budget and any random draws. |
| Selector.RunFirst | server.js:39-48 | The loop read front to back: the first random value is drawn first, and the rest start from the state it leaves. |
| Selector.UnaffordableDrawSkipped | server.js:43-46 | A draw the balance does not cover changes nothing, and the loop goes on with the remaining draws (no early exit). |
| Selector.AcceptedDrawSpends | server.js:43-46 | A draw changes the state exactly when the balance covers the price. It then lowers the balance by that price, strictly. |
| Selector.RunBelowEveryPrice | server.js:39-48 | While the balance is below every suitable price, no draw is accepted. |
| Selector.SmallBudgetSelectsNothing | server.js:29-46 | If 70% of the budget is below every catalog price, the composition is empty. This covers any budget of 0 or less. |
| Selector.FlowerDataSelectsNothing | server.js:14-49 | With the real table, a budget under 20 / 0.7 gives the empty composition. So does any style other than Romantic, Classic, Vibrant and Exotic. |
| Text.ToLower | server.js:58-61 | `toLowerCase` keeps the length, turns each capital letter A-Z into its small letter a-z, and leaves every other character unchanged. |
| Text.ToLowerIsLower | server.js:58-61 | Lower-casing a lower-cased string again changes nothing. |
| Text.NatToDecimal | server.js:53 | A count renders as at least one decimal digit and nothing else, with no leading zero, and a single digit below 10 (so 0 renders as "0"). With DecimalRoundTrip this fixes the rendering of every count. |
| Text.DecimalRoundTrip | server.js:53 | A count's decimal rendering reads back as that count. |
| Text.Join | server.js:54 | No contract of its own: `parts.join(sep)`. Specified by SplitJoin. |
| Text.SplitJoin | server.js:54 | Joining comma-free pieces with ", " and splitting at the commas gives the pieces back. |
| Prompt.RenderEntry | server.js:53 | No contract of its own: `${count} ${name}` for one entry. Specified by EntryRoundTrip. |
| Prompt.CompositionString | server.js:52-54 | No contract of its own: the entries rendered and joined with ", ". Specified by CompositionStringRoundTrip and CompositionStringEmptyIff. |
| Prompt.CreatePrompt | server.js:51-62 | No contract of its own: the prompt for a composition and a request. Specified by GenericPromptOmitsComposition, FullPromptQuotesComposition, PromptMentionsCompositionIff and PromptDescribesRequest. |
| Prompt.EntryRoundTrip | server.js:53 | An entry's "<count> <name>" rendering determines the entry. |
| Prompt.CompositionStringRoundTrip | server.js:52-54 | The composition string lists every entry with its count, in order. When no name holds a comma, the composition reads back from it unchanged. |
| Prompt.CompositionStringEmptyIff | server.js:52-57 | The composition string is empty exactly when the composition is, which is what the `!compositionString` test checks. |
| Prompt.GenericPromptOmitsComposition | server.js:57-58 | With an empty composition, the prompt never contains "The composition must include", whatever style, occasion or packaging the request gives. |
| Prompt.FullPromptQuotesComposition | server.js:61 | A non-empty composition is quoted in full, right after "The composition must include: ". |
| Prompt.PromptMentionsCompositionIff | server.js:56-61 | The prompt contains "The composition must include" exactly when the composition is non-empty. |
| Prompt.PromptDescribesRequest | server.js:58-61 | Both templates start with the fixed opening, the lower-cased style and the lower-cased occasion. Both contain "The bouquet is wrapped in", then the lower-cased color, a space and the lower-cased packaging type. |
| Prompt.SelectedCompositionReadsBack | server.js:14-62 | The prompt built from what the selector returns lists exactly that composition, which reads back from the composition string. |
| Prompt.UnservableRequestGetsGenericPrompt | server.js:28-62 | End to end: an unknown style, or a budget under 20 / 0.7, always gets the generic prompt without a composition. |

## Left out

- The HTTP endpoint and its Express and CORS setup are I/O: the setup (server.js:1-7), the request handler with its routing, JSON parsing, status codes, logging and error-to-500 mapping (server.js:65-99), and the listener (server.js:101-104).
- The image model request and the reading of its URL (OpenAI client) are a call into code this model cannot see.
- The check that returns 400 when a parameter is missing is not modelled. It uses JavaScript truthiness (`!budget` also rejects 0). The model's operations take typed, present arguments.
- Type coercion is not modelled. A budget sent as a string is multiplied as a number in the source. A non-string style or occasion, or a packaging without `color` or `type`, makes `toLowerCase` throw, which becomes a 500. The model takes numbers and strings.
- Selector.CalculateComposition does not model `Math.random()` itself. The values it returns are a parameter, constrained only to [0, 1).
- Selector.CalculateComposition does not model IEEE-754 rounding. `budget * 0.7` and the subtractions are computed on `real`. The source's doubles can round them, for example 0.7 itself is not exact.
- Text.ToLower does not model Unicode case mapping. It lower-cases the ASCII letters A-Z only. The source lower-cases the request's style, occasion, packaging color and packaging type in full Unicode, so a non-ASCII capital letter in those fields (Cyrillic, for example) stays unchanged in the model but is lower-cased by the source.
- Prompt.CreatePrompt takes a composition whose entry order is its key insertion order. The source's objects list non-integer keys in that order, and no flower name is an integer-like key.
- Prompt.CreatePrompt's fixed text is written as named clauses that concatenate, in order, to the template literals. No lemma states a whole prompt as one literal string.
- Other versions of the product describe budget tiers (price limits, draw counts and size phrases per tier), a "Minimalism" cut to three varieties, a ranking of the composition that sets greenery apart, and random background phrases. server.js has none of these. It uses one cap of 70% of the budget, 15 draws, no per-flower price limit and two fixed templates. The model follows server.js.

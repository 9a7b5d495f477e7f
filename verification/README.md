# recipe_analysis — a Dafny model of the graph pipeline

`recipe_analysis` turns scraped recipes into graphs of ingredients. The pipeline has these parts:

- **Expanded relation.** An arena of tagged vertices (ingredient hubs, recipe hubs and one instance per recipe-ingredient occurrence) with a map of weighted edges `(i, j) -> w`. It is built as overlapping stars or as cliques, with a boost for target ingredient pairs.
- **Partition parser.** The text written by an external Louvain community-detection tool is split into one 0/1 interpolation matrix per level.
- **Hierarchy query.** It composes those matrices up to a level, groups the instance vertices of each aggregate by ingredient name, keeps the aggregates holding every target ingredient, and sorts each by count.
- **Co-occurrence tables.** Ingredient ids are handed out in first-seen order, and each recipe's ids are deduplicated. Lower-triangle ingredient pairs are counted. There is also a recipe×ingredient incidence and its product Rᵀ·R.
- **Small serialisers and normalisers:**
  - the CSR text export;
  - the numbered-placeholder SQL query builder;
  - the NYT Cooking record with its rating and its row form;
  - the fraction and whitespace normalisation of ingredient phrases.

The files and what each one holds:

| file | module | models |
|---|---|---|
| `results.dfy` | `Results` | `Option` and `Result` |
| `text.dfy` | `Text` | the Rust string operations used: `trim`, `split_ascii_whitespace`, `split('\n')`, `join`, decimal printing and `usize` parsing |
| `seqs.dfy` | `Seqs` | `sort`/`dedup`, `tuple_combinations`, `zip`/`unzip`, first-seen order |
| `expanded.dfy` | `Expanded` | `src/expanded.rs`: vertices, `build_stars`, adjacency list and coolist text |
| `cliques.dfy` | `Cliques` | `build_cliques` |
| `louvain.dfy` | `Louvain` | `build_interpolation_matrices` over the tool's text |
| `hierarchy.dfy` | `Hierarchy` | `src/hierarchy.rs` |
| `table.dfy` | `Table` | `src/table.rs` |
| `co_occurrence.dfy` | `CoOccurrence` | `src/co_occurrence.rs` |
| `lib.dfy` | `Lib` | `src/lib.rs` |
| `recipe_query.dfy` | `RecipeQuery` | the query-text and parameter construction of `src/recipe.rs` |
| `nytc.dfy` | `Nytc` | `src/nytc.rs` |
| `process_ny.dfy` | `ProcessNy` | `src/process_ny.rs` |

**How the model treats failures and external pieces:**

- A Rust panic is an `Err` result naming its cause. These are `unwrap` on a bad number, an index past a vector, `assert!` and `assert_eq!`.
- A `SparseMatrix` is a row count, a column count and a list of `(row, column, value)` elements.
- An interpolation matrix is its list of `(vertex, group)` positions. Composing two of them is relational composition.

## Model

| member | source | states |
|---|---|---|
| Expanded.IngredientId | src/expanded.rs:19-25 | an ingredient id exists exactly for ingredient hubs and instances, and it is the vertex's ingredient |
| Expanded.RecipeId | src/expanded.rs:27-33 | a recipe id exists exactly for recipe hubs and instances, and it is the vertex's recipe |
| Expanded.BothIdsExactlyForInstances | src/expanded.rs:19-33 | a vertex has both ids if and only if it is an instance vertex |
| Expanded.AddRecipe | src/expanded.rs:61-72 | loop invariant of `build_stars`: the counter equals the arena length and the next recipe hub's index; every edge so far joins an instance to its ingredient hub or to its recipe hub; with ids in range, the edge count is twice the occurrences seen |
| Expanded.BuildStars | src/expanded.rs:53-76 | the result is the star expansion: n ingredient hubs, then per recipe its hub followed by one instance per ingredient, each instance linked to both hubs |
| Expanded.StarLayout | src/expanded.rs:57-73 | the arena has n + (number of recipes) + (total occurrences) vertices; vertex i < n is ingredient hub i; every recipe hub and instance sits at its computed index; every weight is 1 |
| Expanded.StarKeysOrdered | src/expanded.rs:67-72 | when every ingredient id is below n, every edge key (i, j) has i < j < vertex count |
| Expanded.StarInstanceEdges | src/expanded.rs:67-71 | every occurrence's instance is joined both to its ingredient hub and to its recipe's hub |
| Expanded.StarExample | src/expanded.rs:53-75 | on the recipes {0, 1} and {0, 1, 2} over three ingredients, the recipe hubs sit at 3 and 6, the arena has ten vertices, and the edges are exactly (0,4) (3,4) (1,5) (3,5) (0,7) (6,7) (1,8) (6,8) (2,9) (6,9), each of weight 1 |
| Expanded.SortedKeys | src/expanded.rs:150-155 | the ascending key order of the edge map: every key once, strictly ascending |
| Expanded.AdjacencyElements | src/expanded.rs:162-177 | twice as many triples as edges; every triple is an edge or its mirror with the edge's weight; both orientations of every edge are present |
| Expanded.AdjacencySymmetric | src/expanded.rs:162-177 | the triple list is symmetric: (i, j, w) present implies (j, i, w) present |
| Expanded.AdjacencyEntryCount | src/expanded.rs:162-177 | with ordered keys, the triples are pairwise distinct: the set has exactly 2·edges elements |
| Expanded.CoolistRoundTrip | src/expanded.rs:150-155 | the "i j w" text parses back to exactly the edge map's entries, one per edge, in ascending key order |
| Cliques.CliqueVertices | src/expanded.rs:92-104 | the arena holds only instance vertices, one per recipe-ingredient occurrence |
| Cliques.CliqueLayout | src/expanded.rs:92-104 | occurrence k of recipe q is at index BlockStart(q) + k, in input order |
| Cliques.Occurrences | src/expanded.rs:107-111 | the ascending list of arena positions holding a given ingredient |
| Cliques.TargetPairs | src/expanded.rs:114-124 | succeeds exactly when every target-pair index is in range (the second is only read when the first's list is non-empty); it lists every (first, second) occurrence pair of the target ingredients |
| Cliques.Bump | src/expanded.rs:114-124 | every key is kept or added, never removed; a weight grows by the number of times its key is listed |
| Cliques.BuildCliques | src/expanded.rs:78-132 | Ok exactly when ids are in range, the target step succeeds and every key has i < j; `UnorderedKey` exactly when some key has i >= j |
| Cliques.CliqueEdges | src/expanded.rs:92-129 | in a successful build, an edge joins two instances of the same recipe or ingredient, or a target pair; its weight is 1 for a same-recipe or same-ingredient link plus the number of target combinations naming its ingredients |
| Cliques.UnorderedKeyExample | src/expanded.rs:114-129 | recipe [1, 0] with targets [0, 1] stores key (1, 0), so the build fails its `i < j` assertion |
| Cliques.CanonicalCount | src/expanded.rs:114-124 | ordering each key counts both orientations of a pair under the ordered key |
| Cliques.BuildCliquesCanonical | src/expanded.rs:78-132 | the corrected build fails only on out-of-range ids or targets, never on key order |
| Cliques.CanonicalCliqueEdges | src/expanded.rs:92-129 | the corrected build's edges are ordered in-arena keys; a target pair boosts a key whichever orientation it was found in |
| Louvain.ParseRecord | src/louvain.rs:41-53 | a line is skipped exactly when it is blank after trimming |
| Louvain.RecordRoundTrip | src/louvain.rs:43-53 | the line "node group" the tool writes reads back as (node, group) |
| Louvain.ChunkSucceeds | src/louvain.rs:40-55 | one level's lines parse exactly when every one of them parses |
| Louvain.ChunkShape | src/louvain.rs:40-55 | one element per non-blank line, in order; the running maximum bounds every group and is reached by one of them |
| Louvain.TakeCount | src/louvain.rs:41-42 | a level reads n lines, or fewer only at the end of input |
| Louvain.LevelsSucceed | src/louvain.rs:38-60 | for every vertex count n, including 0, parsing succeeds exactly when every record parses |
| Louvain.ParseLevelsSucceed | src/louvain.rs:35-60 | for every vertex count n, including 0, the whole text parses exactly when every line does |
| Louvain.LevelsChained | src/louvain.rs:38-60 | there is at least one matrix exactly when there is input; the first has n rows; each matrix's column count is the next one's row count; every group is below its matrix's column count |
| Louvain.LevelsConsume | src/louvain.rs:38-59 | matrix i reads the lines after those the earlier matrices read; it has one element per non-blank line; its column count is the largest group plus 1; only the last one runs out of input |
| Louvain.TrailingBlankRecord | src/louvain.rs:35-59 | a final empty line after complete levels adds one matrix with no elements and 1 column, for n >= 1 or non-empty input |
| Louvain.NoVerticesLevels | src/louvain.rs:38-59 | with n == 0, `take(0)` reads no line: the first matrix has 0 rows, 1 column and no elements, and the rest is read as with n == 1 |
| Louvain.ParseBlock | src/louvain.rs:40-55 | the loop over one level's lines computes the level's elements and largest group |
| Louvain.ReadLevels | src/louvain.rs:38-60 | for every n, including 0, the `while` loop over the records yields the level-by-level parse, stopping at the first record that fails |
| Louvain.ReadLevel | src/louvain.rs:39-59 | one pass reads `min(rows, lines left)` lines, so it reads none only when the level has no rows; a failed level fails the whole parse; otherwise the matrix it builds is the next one the parse yields, and the next level has the largest group plus 1 rows |
| Louvain.BuildInterpolationMatrices | src/louvain.rs:30-63 | for every n, including 0, the loop over levels computes exactly the level-by-level parse of the text split at newlines |
| Louvain.OutputLevels | src/louvain.rs:30-63 | a successful parse of any text yields at least one matrix, the first with n rows; for n >= 1 the matrices chain, and for n == 0 the first is the empty 0-by-1 matrix and the ones after it chain |
| Louvain.ToolLevels | src/louvain.rs:38-59 | the tool's records for any chained hierarchy of group assignments parse back to exactly that hierarchy's matrices |
| Louvain.ToolOutput | src/louvain.rs:30-63 | the tool's text, with its final newline, parses to the hierarchy's matrices plus one empty 1-column matrix |
| Louvain.NoVerticesToolOutput | src/louvain.rs:30-63 | with no vertices the hierarchy is empty, and its text, a single newline, parses to a 0-by-1 and then a 1-by-1 matrix, both without elements |
| Hierarchy.New | src/hierarchy.rs:15-29 | the stored adjacency holds exactly the edges in both orientations, with their weights |
| Hierarchy.Product | src/hierarchy.rs:52-54 | the product exists exactly when the inner dimensions agree; a position is present exactly when some middle index links the two |
| Hierarchy.ProductAssigns | src/hierarchy.rs:53 | the product of two partition matrices (one non-zero per row) exists when they chain and is the partition matrix of the composed map |
| Hierarchy.PartitionAssigns | src/hierarchy.rs:51-54 | composing the first k chained partition matrices gives a partition matrix: vertex v is in exactly one aggregate, fs[k-1][...fs[0][v]] |
| Hierarchy.ReachesExactlyOne | src/hierarchy.rs:51-54 | for partition matrices, vertex i reaches aggregate g exactly when g is the aggregate its groups lead to, so no vertex reaches none or two |
| Hierarchy.MatrixAssigns | src/louvain.rs:40-57 | the matrix built from one level's "node group" lines is the partition matrix of that level's assignment |
| Hierarchy.ToolPartition | src/hierarchy.rs:51-54 | for matrices read back from a hierarchy's output, the composed partition of the first k levels puts vertex v in group assigns[k-1][...assigns[0][v]] |
| Hierarchy.PartitionPaths | src/hierarchy.rs:51-54 | the composed partition exists exactly when the first k matrices chain; then vertex i is in group g exactly when a path through the k levels leads from i to g |
| Hierarchy.Lookup | src/hierarchy.rs:69-77 | a name is absent exactly when no entry carries it; a found list belongs to an entry of that name |
| Hierarchy.PushSame | src/hierarchy.rs:69-77 | pushing a recipe under a name appends it to that name's list, creating the list if needed |
| Hierarchy.PushOther | src/hierarchy.rs:69-77 | pushing under one name leaves every other name's list unchanged |
| Hierarchy.PushDistinct | src/hierarchy.rs:69-77 | pushing never creates a second entry for a name |
| Hierarchy.Contribution | src/hierarchy.rs:58-68 | only instance vertices contribute; an element fails exactly when its vertex, its ingredient or its aggregate is out of range |
| Hierarchy.AggregateSucceeds | src/hierarchy.rs:58-78 | grouping succeeds exactly when every element's contribution does |
| Hierarchy.AggregateLookup | src/hierarchy.rs:58-78 | after grouping, a name's list in an aggregate is its earlier list extended by the recipes of its contributing elements, in element order |
| Hierarchy.KeptFrom | src/hierarchy.rs:80-87 | the kept positions ascend and are exactly the aggregates holding every target |
| Hierarchy.Keep | src/hierarchy.rs:80-87 | every kept aggregate contains every target name |
| Hierarchy.KeepAllWithoutTargets | src/hierarchy.rs:80-87 | with no targets, every aggregate is kept in order |
| Hierarchy.Row | src/hierarchy.rs:89-99 | each output row is a permutation of its aggregate's (name, count) pairs, by non-decreasing count |
| Hierarchy.RowContents | src/hierarchy.rs:89-99 | (name, c) is in a row exactly when the name is in the aggregate and c is its number of recipes |
| Hierarchy.Depth | src/hierarchy.rs:51-54 | levels from 1 on compose that many matrices, and level 0 still uses the first one |
| Hierarchy.GenerateRecipes | src/hierarchy.rs:43-102 | `out of range` exactly when level >= num_levels; every returned row is sorted by count |
| Hierarchy.LevelZeroIsLevelOne | src/hierarchy.rs:51-54 | level 0 answers as level 1 does |
| Hierarchy.BucketCounts | src/hierarchy.rs:56-78 | a name is in an aggregate exactly when the aggregate holds an instance of it; its list length is that number of instances |
| Hierarchy.GenerateRecipesContents | src/hierarchy.rs:43-102 | the output has one row per wanted aggregate, in aggregate order; (name, c) is in row i exactly when c > 0 is the instance count of that name in the i-th wanted aggregate |
| Hierarchy.CountsAreReachingInstances | src/hierarchy.rs:51-94 | a count is the number of distinct instance vertices of that ingredient the composed partition places in the aggregate |
| Hierarchy.GenerateRecipesSucceeds | src/hierarchy.rs:43-78 | success exactly when the level exists, a first matrix exists, the matrices chain, and every partition element names an existing vertex, ingredient and aggregate |
| Table.IndexRecipesIndexed | src/table.rs:82-99 | after the name loop the ids are first-seen positions, the names invert them, and the counts are occurrence totals |
| Table.Deduped | src/table.rs:107-110 | each recipe's id list becomes strictly ascending with the same members |
| Table.TallyCountsRecipes | src/table.rs:107-113 | the dense count at (x, y) is the number of recipes containing both when y < x, and 0 otherwise |
| Table.PointsMember | src/table.rs:115-124 | a point (x, y, c) is emitted exactly when y <= x < n and c is the non-zero dense count |
| Table.PointsOrdered | src/table.rs:115-124 | points come out in row-major order |
| Table.IngredientMapIds | src/table.rs:58-99 | names are in first-seen order and pairwise distinct; the id map and the name list invert each other; exactly the names of the recipes get ids |
| Table.IngredientMapCounts | src/table.rs:84-95 | each ingredient's count is its number of occurrences across all recipes |
| Table.IngredientMapVecs | src/table.rs:84-110 | each recipe's vector is strictly ascending and holds exactly the ids of that recipe's ingredients |
| Table.IngredientMapCooccurrence | src/table.rs:102-124 | points are row-major; (x, y, c) is a point exactly when y < x, c > 0 and c is the number of recipes containing both ingredients, so no diagonal point appears |
| Table.MakeCoolistRoundTrip | src/table.rs:44-49 | the "x y val" text parses back to exactly the points, and it splits into one line per point with no trailing newline |
| Table.IncidenceMember | src/table.rs:188-193 | an incidence pair is present exactly when the ingredient id is in that recipe's vector |
| Table.IncidenceOrdered | src/table.rs:188-193 | pairs come in recipe order, then ascending id |
| Table.Init | src/table.rs:137-225 | Err exactly when the recipe and ingredient lists differ in length; otherwise the recipes are kept and each gets a vector |
| Table.MappingIncidence | src/table.rs:188-193 | the incidence of the mapping is ordered and lists each recipe with each distinct ingredient it contains |
| Table.InitIncidence | src/table.rs:137-225 | `init` emits one ordered (recipe, ingredient) pair per distinct ingredient of each recipe |
| CoOccurrence.RecipeIngredient | src/co_occurrence.rs:69-104 | the matrix is recipes × ingredient list; as written, every stored count is 1 |
| CoOccurrence.RecipeIngredientIds | src/co_occurrence.rs:81-94 | the ingredient list is in first-seen order; the map and the list invert each other; exactly the recipes' names are mapped |
| CoOccurrence.CountExample | src/co_occurrence.rs:84-86 | two recipes each using "salt" leave salt's stored count at 1; the corrected count is 2 |
| CoOccurrence.RecipeIngredientCounted | src/co_occurrence.rs:69-104 | the corrected builder has the same dimensions |
| CoOccurrence.RecipeIngredientCountedCounts | src/co_occurrence.rs:81-94 | in the corrected builder each stored count is the ingredient's number of occurrences |
| CoOccurrence.RecipeIngredientElements | src/co_occurrence.rs:81-101 | one element per occurrence, each in range with value 1; entry (r, a) sums to how often recipe r lists ingredient a |
| CoOccurrence.GramSymmetric | src/co_occurrence.rs:109 | every entry of Rᵀ·R equals its mirror entry |
| CoOccurrence.MakeRelation | src/co_occurrence.rs:106-117 | the recipe count is the number of recipes, and the matrix is square over the ingredient list |
| CoOccurrence.RelationSymmetric | src/co_occurrence.rs:109 | the product's elements are symmetric |
| CoOccurrence.RelationCounts | src/co_occurrence.rs:106-117 | when each recipe lists an ingredient once, an element (a, b, c) exists exactly when c > 0 is the number of recipes containing both ingredients |
| CoOccurrence.RecipesWithSelf | src/co_occurrence.rs:109 | a diagonal count is the number of recipes containing that ingredient |
| CoOccurrence.OffDiagonal | src/co_occurrence.rs:53-58 | keeps exactly the elements off the diagonal |
| CoOccurrence.RelationCoolistRoundTrip | src/co_occurrence.rs:53-59 | the coolist parses back to exactly the off-diagonal elements |
| CoOccurrence.LabelsRoundTrip | src/co_occurrence.rs:64 | the label text splits at newlines into the ingredient list |
| Lib.FromStr | src/lib.rs:26-32 | a name recognised as a database is that database's name |
| Lib.ToStrRoundTrip | src/lib.rs:26-32 | each database's name reads back as that database, so the names differ |
| Lib.ExportLines | src/lib.rs:53-73 | the export is rows, cols, indptr, indices and data, one decimal per line, joined by newlines with no trailing newline |
| Lib.ExportRoundTrip | src/lib.rs:53-73 | a well-formed matrix's export has exactly 2 + len(indptr) + len(indices) + len(data) lines and reads back to the same matrix |
| RecipeQuery.NewPublisher | src/recipe.rs:36-42 | Ok exactly for 0 and 1, and the publisher's discriminant is the value |
| RecipeQuery.PublisherRoundTrip | src/recipe.rs:28-42 | every publisher is rebuilt from its discriminant |
| RecipeQuery.OneStep | src/recipe.rs:53-77 | after the one-ingredient block the counter is len(params) + 1 |
| RecipeQuery.AllStep | src/recipe.rs:79-100 | the all-ingredients block keeps counter = len(params) + 1 |
| RecipeQuery.TagStep | src/recipe.rs:102-114 | the tag block keeps counter = len(params) + 1 |
| RecipeQuery.SubQuery | src/recipe.rs:57-119 | params are the one-ingredient names, then the all-ingredient names, then the tag; a missing or empty list adds none |
| RecipeQuery.EmptyListIsMissing | src/recipe.rs:57-58 | an empty ingredient list gives the same query as no list |
| RecipeQuery.OneClauseDollars | src/recipe.rs:59-71 | the OR clause names the placeholders start .. start + n - 1 in order |
| RecipeQuery.AllClauseDollars | src/recipe.rs:81-95 | the INTERSECT of per-name selects names the placeholders start .. start + n - 1 in order |
| RecipeQuery.TagClauseDollars | src/recipe.rs:102-112 | the tag select names exactly the current placeholder |
| RecipeQuery.SubQueryPlaceholders | src/recipe.rs:116-119 | the joined sub-query names exactly $1 .. $len(params) in order |
| RecipeQuery.QueryPlaceholders | src/recipe.rs:50-131 | the full query text names exactly $1 .. $len(params) in order, so $k binds params[k-1] |
| Nytc.Discriminant | src/nytc.rs:48-55 | the discriminant is between 0 and 5, and `Rating::new` maps it back to the rating |
| Nytc.NewRating | src/nytc.rs:57-67 | 1 to 5 give One to Five, and every other value gives Zero |
| Nytc.UnzipOption | src/nytc.rs:117-133 | None gives two Nones; Some gives two equal-length lists of the first and second components |
| Nytc.ZipOption | src/nytc.rs:157-192 | Some only when both halves are Some, then the pairs of the shorter length |
| Nytc.Serialize | src/nytc.rs:116-154 | quantities and ingredients are parallel and of equal length, pair by pair; optional lists are present as the record's are; the rating is a discriminant |
| Nytc.New | src/nytc.rs:156-209 | the ingredient pairs are zipped and truncated to the shorter list; optional lists are rebuilt only when both halves are present; the rating is Zero exactly for out-of-range values |
| Nytc.RecipeRoundTrip | src/nytc.rs:116-209 | `new` of `serialize(x)` is x |
| Nytc.RowRoundTrip | src/nytc.rs:116-209 | every serialised row is consistent, and a consistent row read and written back is unchanged |
| ProcessNy.ReplaceEachIsMapChars | src/process_ny.rs:103-110 | the loop of guarded whole-string replacements equals one simultaneous character replacement when no replacement introduces a later key |
| ProcessNy.FractionListed | src/process_ny.rs:95-101 | the 15 listed characters are exactly the code points U+00BC–U+00BE and U+2153–U+215E |
| ProcessNy.UnicodeAscii | src/process_ny.rs:94-113 | the output has no leading or trailing ASCII whitespace, and ASCII whitespace only as single spaces between words; other Unicode whitespace such as U+00A0 is kept until the later `trim` |
| ProcessNy.UnicodeAsciiNoFraction | src/process_ny.rs:95-110 | no listed fraction character survives |
| ProcessNy.UnicodeAsciiIdempotent | src/process_ny.rs:94-113 | normalising twice equals normalising once |
| ProcessNy.QuantityFirst | src/process_ny.rs:77-86 | with a non-blank quantity, the phrase is the words of the normalised trimmed quantity followed by those of the phrase with newlines replaced |
| ProcessNy.Lower | src/process_ny.rs:85 | lower-casing keeps the length and every character that is not an ASCII capital, turns each capital into its small letter (32 code points on), so no capital remains, and keeps newlines and fractions where they were |
| ProcessNy.LowerAlphabet | src/process_ny.rs:85 | the k-th capital of the alphabet becomes the k-th small letter, and every other character stays |
| ProcessNy.LowerIdempotent | src/process_ny.rs:85 | lower-casing twice is lower-casing once |
| ProcessNy.Phrase | src/process_ny.rs:71-88 | a pair yields a phrase exactly when its phrase is not blank, and the phrase has no capitals, newlines or fractions |
| ProcessNy.KeptMember | src/process_ny.rs:71-76 | an entry survives exactly when its phrase is not blank |
| ProcessNy.KeptAppend | src/process_ny.rs:71-89 | filtering distributes over concatenation, so survivors keep their order |
| ProcessNy.RecipePhrasesKept | src/process_ny.rs:71-89 | the k-th phrase is the cleaned form of the k-th surviving pair |
| ProcessNy.GetPhrasesPlain | src/process_ny.rs:63-92 | every returned phrase has no capitals, newlines or fractions |
| ProcessNy.GetPhrasesShape | src/process_ny.rs:63-92 | one phrase list per recipe, none longer than its ingredient list |
| Seqs.ZipUnzip | src/nytc.rs:125 | zipping an unzipped list gives the list back |
| Seqs.UnzipZip | src/nytc.rs:171-178 | unzipping two equal-length lists zipped gives them back |

## Left out

- Scraping, HTTP and HTML parsing (`crawl`, `scrape`, `get_comments`, `parse_*` in `src/nytc.rs`, `src/scraper.rs`, `src/scrapers/`): network I/O and a foreign HTML library.
- Database access: the query execution of `query_filtered_recipes`, `pull_recipes`, `connect_db` and the Diesel schema are external state. The query's result rows are not modelled; only its text and parameters are.
- The async runtime: every `async fn` is modelled as the pure computation it awaits.
- The external `louvain` binary, `src/embed.rs` and the child process in `src/bin/expand.rs`: opaque foreign programs. The partition parser takes the tool's output as a string, and `ToolOutput` states the format that output has.
- File reads and writes: `build_coolist`, `make_coolist`, `write_files` and `export` are modelled by the text they write.
- `src/training.rs` (floating point, regex, CSV files), `src/bin/*` and every `display`/`println!` function: outside the pipeline, or output only.
- The stubs `parse_ingredients` (empty body) and `filter_title` (mutates bindings that are not `mut`) in `src/process_ny.rs`: they do not compile.
- `matrixlab` internals: `SparseMatrix::new`'s validation and CSR layout are not visible. The model does not check that elements are in range or free of duplicates. The element order of a product is not visible, so neither of the two products modelled fixes one. The product of interpolation matrices in `generate_recipes` is `Hierarchy.Product`, a relational composition that fails with `DimensionMismatch` when the inner dimensions differ. The product Rᵀ·R at src/co_occurrence.rs:109 is the counting product `CoOccurrence.GramEntry`: each entry is a sum of products of counts. The inner dimensions of Rᵀ·R always agree, so it has no error case.
- The `Ingredient` type is modelled by its name. The `i32` recipe id that `recipe_ingredient` ignores is kept but unused.
- Louvain.LevelsChained: stated for n >= 1 only, because `Chained` asks every matrix for at least one row. With n == 0 the first matrix has 0 rows; `Louvain.OutputLevels` states that case.
- Louvain.ToolOutput: stated for n >= 1 only. With n == 0 the hierarchy is empty and the text gives one extra matrix; `Louvain.NoVerticesToolOutput` states that case.
- Hierarchy.Row: the source sorts with `sort_unstable_by`, whose tie order is unspecified. The model sorts stably and promises only a permutation ordered by count.
- Hierarchy.Aggregate: aggregates are association lists in first-insertion order, not `BTreeMap` name order. Only the order before sorting differs, and the sort's tie order is unspecified anyway.
- Cliques.CliqueEdges: weights are unbounded naturals; `usize` overflow of a weight is not modelled.
- Overflow of `usize`, `u64` and `i32` counters and ids is not modelled anywhere; all integers are unbounded. Parsed numbers are limited to `usize`'s range, as Rust's `parse::<usize>` is.
- The degrees that the `build_stars` doc comment states (src/expanded.rs:42-52) have no lemma of their own. They are 2 for an instance vertex, the recipe size for a recipe hub and the occurrence count for an ingredient hub, and they follow from the edge characterisation `IsStarExpansion` that `StarLayout` unfolds. The doc comment's target hub, and with it the degree 3 of target instances, is not built by the code and is not modelled.
- ProcessNy.Phrase: a phrase is blank when every character is whitespace, which `BlankIsTrimEmpty` proves equal to `trim()` returning "". Unicode whitespace follows the `White_Space` property as listed in `Text`.

## Findings

| source | as written | input that shows it | evidently intended | confidence | as-written member | corrected member |
|---|---|---|---|---|---|---|
| src/expanded.rs:114-129 | a target pair (a, b) inserts key (occurrence of a, occurrence of b) as found, so the key can be (larger, smaller) and `assert!(i < j)` panics | recipes [[1, 0]], targets [0, 1], 2 ingredients: key (1, 0) | store each boosted pair under its ordered key (min, max), and drop a vertex paired with itself, which a repeated target id yields and which the assertion also rejects | not executed | Cliques.UnorderedKeyExample | Cliques.CanonicalCliqueEdges |
| src/co_occurrence.rs:84-86 | `Some((id, mut _count))` binds a copy of the count, so `_count += 1` never reaches the map and every count stays 1 | recipes [(7, ["salt"]), (8, ["salt"])]: salt's count is 1 | the map's count is the number of occurrences | not executed | CoOccurrence.CountExample | CoOccurrence.RecipeIngredientCountedCounts |

# tcpgen in Dafny

tcpgen generates prompts for drawing exercises. A prompt is a *TCP*, a
combination of one to five *types*, each an item from a category (food,
weapon, creature, …), plus optional *conditions*, *modifiers* and
*anomalies*, and a *designer* flag. The catalog is read from plain-text
files: under `types/`, a line `#food` switches the current category and
every other non-blank line is an item. Under `conditions/`, `modifiers/`
and `anomalies/`, every non-blank line is an entry. A small web front end
turns a query string into a prompt and looks up the composite base image
for it by a canonical file name.

This project models that core and proves properties of it:

- `taxonomy.dfy` (module `Taxonomy`): `TCPType`, with its glyph table, its
  display names and its conversions from a `u32` and from a header keyword.
- `catalog.dfy` (module `Catalog`): `TCPList::new`, the catalog loader. It
  is an imperative method over the lines already read: one sequence of lines
  per file under `types/`, in walk order, and one sequence of lines per flat
  directory. It is proved against `LoadedFrom`, a specification in which
  every item is filed under the category of its *first* attribution.
- `generator.dfy` (module `Generator`): `Display for TCP`, and the
  generator `TCPList::gen`. The random number generator is replaced by its
  output stream `rng: nat -> u32`, where `rng(n)` is the `n`-th `next_u32`.
  A panic of the source is a `Panicked` outcome of the model.
- `web.dfy` (module `Web`): query-string parsing, the canonical asset file
  name, and the choice between the composite image and the per-type images.
- `text.dfy`, `order.dfy`, `wrappers.dfy`: `str::trim`, `split`,
  `splitn(2, _)`, `join` and `to_lowercase`; Rust's string order,
  `Vec::sort`, and a `BTreeSet<String>` as a strictly ascending sequence;
  `Option`.

Behaviour of the code that is easy to misread, and that the model follows:

- A header is looked up by an exact, case-sensitive match of the text after
  `#`. That text is not trimmed a second time, so `#Food` and `# food` both
  select `Unknown` (`FromKeywordIsCaseSensitive`).
- The types part of the file name is sorted but *not* lower-cased. Only the
  attribute sections are lower-cased (`FileNameShape`, `FileNameExample`).
- Modifiers and anomalies are plain lists. They have no tiers.
- `gen` panics on an empty category list and on a flat list shorter than
  its sample. The model does not exclude those inputs by a precondition.
  It reports them as outcomes (`Panic`). Then it proves exactly when they
  happen. In Mode B a pool runs empty exactly when the drawn categories name
  some category more often than its list has items (`OverDrawn`). A sample
  fails exactly when that does not happen and some flat list is shorter than
  its count (`ShortSample`). Neither can happen when every category has at
  least five items and every flat list at least four (`MixedOutcome`).
- The category lists depend on the order in which the directory walk visits
  the files under `types/`. An item listed under two headers in two files is
  filed under the header of the file read first (`LoadOrderMatters`). The
  walk order of `WalkDir` is not sorted, so the same directory can load
  differently on two file systems.

Draw layout of `gen` in the model:

- `designer` is `gen_bool(0.25)`, drawn before everything else, and is
  passed in.
- `rng(0)` is the mode bit.
- Mode A draws the category at `rng(1)` and the item at `rng(2)`.
- Mode B draws the four rounds of counters at `rng(1)` to `rng(16)`.
- Type pick `j` then draws its category at `rng(17 + 2j)` and its pool
  index at `rng(18 + 2j)`.
- The three samples draw after that, in the order conditions, modifiers,
  anomalies.

## Model

| member | source | states |
|---|---|---|
| Taxonomy.Index | src/lib.rs:50-62 | the declaration order numbers the categories 0 to 9, and 9 is exactly `Unknown` |
| Taxonomy.AllByIndex | src/lib.rs:50-62 | the ten categories in declaration order, each at its own index; the order `BTreeMap` keys follow |
| Taxonomy.IndexInjective | src/lib.rs:50-62 | two categories with the same position are the same category |
| Taxonomy.Emoji | src/lib.rs:67-80 | the glyph table; its properties are stated by `EmojiShape`, `EmojiInjective` and `GlyphOfEmoji` |
| Taxonomy.Name | src/lib.rs:86-102 | a display name is capitalised and at least four characters long |
| Taxonomy.NameInjective | src/lib.rs:86-102 | no two categories share a display name |
| Taxonomy.EmojiShape | src/lib.rs:67-80 | every glyph is non-empty, starts with a non-ASCII character and contains no `/` |
| Taxonomy.EmojiInjective | src/lib.rs:67-80 | no two categories share a glyph |
| Taxonomy.FromIndex | src/lib.rs:104-119 | 0 to 8 give the category at that position, anything greater gives `Unknown` |
| Taxonomy.FromIndexOfIndex | src/lib.rs:104-119 | converting a category's position back gives the category |
| Taxonomy.FromKeyword | src/lib.rs:121-136 | a category other than `Unknown` exactly for the nine keywords, the one at that category's position |
| Taxonomy.FromKeywordAgreesWithFromIndex | src/lib.rs:104-136 | the `i`-th keyword and the number `i` give the same category, never `Unknown` |
| Taxonomy.FromKeywordIsCaseSensitive | src/lib.rs:86-102 | a category's display name, capitalised, is not a keyword: it selects `Unknown` |
| Text.IsWhitespace | src/lib.rs:152 | Unicode's `White_Space` property, the set `str::trim` strips |
| Text.Trim | src/lib.rs:152 | the result has no whitespace at either end |
| Text.TrimStartStrips | src/lib.rs:152 | trimming the start removes a prefix made only of whitespace |
| Text.TrimEndStrips | src/lib.rs:152 | trimming the end removes a suffix made only of whitespace |
| Text.TrimIdempotent | src/lib.rs:152 | trimming twice is trimming once |
| Text.Join | src/lib.rs:33 | `join`; `JoinSplit` and `SplitJoin` prove it inverts `Split` |
| Text.Split | src/web.rs:22 | at least one piece, and no piece contains the separator |
| Text.JoinSplit | src/web.rs:29 | joining the pieces of a split with the separator gives back the input |
| Text.SplitJoin | src/lib.rs:33 | splitting a join of pieces free of the separator gives back the pieces |
| Text.SplitOnce | src/web.rs:24-25 | the head holds no `=`; the tail is absent exactly when there is no `=`; head, `=` and tail make up the input |
| Text.Lower | src/web.rs:25 | the same length, with each ASCII capital replaced by its small letter and everything else kept |
| Order.Less | src/web.rs:67 | Rust's string order, lexicographic on characters with a proper prefix first; `LessTotal` and `LessTransitive` prove it a strict total order |
| Order.LessTotal | src/web.rs:67 | any two distinct strings are ordered one way or the other |
| Order.LessTransitive | src/web.rs:67 | the string order is transitive |
| Order.Sort | src/web.rs:66-67 | `Vec::sort` gives a sorted permutation of its input |
| Order.SortedUnique | src/web.rs:66-67 | two sorted permutations of each other are equal |
| Order.TwiceInMultiset | src/lib.rs:231-242 | an element at two positions of a sequence occurs at least twice in its multiset |
| Order.SortPermutationInvariant | src/web.rs:66-67 | sorting forgets the order of its input |
| Order.SetInsert | src/lib.rs:161 | `BTreeSet::insert` keeps the set strictly ascending and adds exactly the new element |
| Order.StrictlyAscendingUnique | src/lib.rs:191 | a set's iteration is determined by its elements |
| Catalog.HeaderCategory | src/lib.rs:154-155 | a header selects the category of its text after `#`, untrimmed and case-sensitive |
| Catalog.CollectLines | src/lib.rs:172-189 | a flat list is strictly ascending and holds exactly the trimmed non-blank lines |
| Catalog.Load | src/lib.rs:138-196 | the loaded catalog is the one `LoadedFrom` specifies for the lines read |
| Catalog.LoadFile | src/lib.rs:147-165 | one file under `types/`, its category starting as `Unknown`, extends the loader state by that file's attributions and headers |
| Catalog.LoadLine | src/lib.rs:151-163 | one line moves the current category to `CategoryAt` the next line and extends the attributions and headers by that line's |
| Catalog.StoreLine | src/lib.rs:152-162 | a header changes the current category and adds it; an item is attributed to the current category; a blank changes nothing |
| Catalog.LineStep | src/lib.rs:152-162 | the category in effect, the attributions and the headers of a file one line further |
| Catalog.HeaderStep | src/lib.rs:155-158 | a header adds its category, with an empty list, only when it is absent |
| Catalog.NewItemStep | src/lib.rs:159-161 | a first appearance of an item files it under the current category and marks it seen |
| Catalog.RepeatStep | src/lib.rs:159 | a repeated item changes nothing |
| Catalog.EntriesAppend | src/lib.rs:181-184 | one more flat line adds its trimmed form unless it is blank |
| Catalog.FirstCategoryAppend | src/lib.rs:159-161 | a later attribution does not change an item's first category |
| Catalog.GroupedInsert | src/lib.rs:159-161 | filing a new item keeps each list equal to the items first attributed to it |
| Catalog.GroupedRepeat | src/lib.rs:159 | a repeated attribution keeps the lists as they are |
| Catalog.LoadedUnknown | src/lib.rs:168-170 | the `Unknown` list is empty exactly when no item was first attributed to `Unknown` |
| Catalog.CategoryAtBeforeHeaders | src/lib.rs:150 | before the first header of a file, items are attributed to `Unknown` |
| Catalog.CategoryAtLastHeader | src/lib.rs:154-155 | after a header and up to the next one, items are attributed to that header's category |
| Catalog.ItemsInShape | src/lib.rs:152-159 | an attribution always names a trimmed, non-empty line that is not a header |
| Catalog.ItemsInComplete | src/lib.rs:151-162 | every item line of a file is attributed, with the category in effect at it |
| Catalog.EventsComplete | src/lib.rs:144-166 | the attributions of each file are among those of the whole walk |
| Catalog.LoadedWellFormed | src/lib.rs:138-196 | a loaded catalog files each item under at most one category, keeps only trimmed non-header items, has strictly ascending lists and drops an empty `Unknown` |
| Catalog.GroupedItems | src/lib.rs:152-161 | grouping attributions of trimmed item lines files only trimmed item lines |
| Catalog.GroupedDisjoint | src/lib.rs:159-161 | grouping by first attribution files each item under one category only |
| Catalog.GroupedUnknown | src/lib.rs:168-170 | `Unknown` is kept only with some item filed under it |
| Catalog.CollectedShape | src/lib.rs:181-184 | a flat list holds only non-empty trimmed entries |
| Catalog.LoadedStoresEveryItem | src/lib.rs:159-161 | every item line of every file ends up in some category's list |
| Catalog.LoadedDeterministic | src/lib.rs:138-196 | the catalog is determined by the lines read |
| Catalog.LoadOrderMatters | src/lib.rs:144-161 | two one-item files with the same item under different headers, read in the two orders, file the item under the first file's header each time, so the two catalogs differ |
| Catalog.OneItemFileExample | src/lib.rs:152-155 | `#food` then `apple`, and `#weapon` then `apple`, are such files |
| Catalog.FirstFileWins | src/lib.rs:144-161 | of two one-item files holding the same item, the one read first decides the item's only list |
| Catalog.TwoFilesEvents | src/lib.rs:144-162 | the walk attributes the item of each file, in walk order |
| Catalog.FileOfOneItem | src/lib.rs:150-161 | a file of one header and one item attributes that item to the header's category |
| Catalog.FiledOnce | src/lib.rs:159-161 | an item is in the list of its first attribution and in no other |
| Catalog.OnlyItem | src/lib.rs:159-161 | a list whose only first attribution is `x` is `[x]` |
| Catalog.CollectedUnique | src/lib.rs:172-188 | a flat list depends only on which lines were read, not on their order or repetition |
| Generator.Label | src/lib.rs:33 | one rendered type, the category's glyph followed by the item; `ParseLabelOfLabel` reads it back |
| Generator.Labels | src/lib.rs:33 | one rendered type per entry, each the category's glyph followed by the item |
| Generator.Section | src/lib.rs:34-45 | a section is absent for an empty list and starts with its title otherwise |
| Generator.ParseLabel | src/lib.rs:33 | whatever a rendered type reads back as renders to that text again |
| Generator.ParseLabelOfLabel | src/lib.rs:33 | a rendered type reads back as the entry it came from |
| Generator.GlyphOfEmoji | src/lib.rs:33 | the first character of a glyph identifies its category |
| Generator.Render | src/lib.rs:28-47 | the rendering starts with `designer ` exactly when the flag is set |
| Generator.BodyHead | src/lib.rs:33-45 | without the prefix, the rendering never starts with `d` |
| Generator.RenderTypesRoundTrip | src/lib.rs:33 | the types part splits on `/` back into the entries, when no item contains `/` |
| Generator.RenderExample | src/lib.rs:28-47 | glyph and name joined by `/`, then conditions, anomalies and modifiers, in that order, each joined by `", "` |
| Generator.LabelsPair | src/lib.rs:33 | two types render as their two labels |
| Generator.JoinPair | src/lib.rs:33-42 | joining two entries puts the separator between them |
| Generator.Keys | src/lib.rs:203-206 | the map's iteration visits exactly its keys, and none for an empty map |
| Generator.KeysOrdered | src/lib.rs:203-206 | the keys are visited in declaration order |
| Generator.Skip | src/lib.rs:203-206 | skipping `draw % len` keys lands on a key of the map |
| Generator.Mod | src/lib.rs:204 | below the modulus |
| Generator.ModIsRemainder | src/lib.rs:204 | is the remainder `%` |
| Generator.SwapRemove | src/lib.rs:240 | one shorter, the last element moves into the hole, the others stay, and the removed element is the only one lost |
| Generator.Hits | src/lib.rs:217-229 | a counter grows at most once per round |
| Generator.HitsStep | src/lib.rs:217-229 | each round adds zero or one |
| Generator.Hit | src/lib.rs:218-228 | one draw raises a counter by zero or one |
| Generator.HitsNext | src/lib.rs:217-229 | round `r` adds the outcome of the draw at offset `1 + 4r` to the counter |
| Generator.DrawCounts | src/lib.rs:213-230 | the four counters after four rounds of draws over 86, 94, 86 and 76, with `1 <= type_count <= 5` and the others at most 4 |
| Generator.PicksDistinct | src/lib.rs:231-242 | taking no more of an item than a duplicate-free list holds picks each pair at most once |
| Generator.ItemsOfMultiplicity | src/lib.rs:231-242 | how often an item was picked from a category is how often the pair occurs |
| Generator.CategoriesOfAppend | src/lib.rs:241 | a pick extends the picked categories by its own |
| Generator.Selected | src/lib.rs:232-237 | one selected category per pick |
| Generator.Selection | src/lib.rs:232-237 | pick `j` selects a key of the map |
| Generator.PickTypes | src/lib.rs:231-242 | `type_count` picks, or an exhausted pool after fewer; categories as drawn; never more of an item than its list holds |
| Generator.PickNext | src/lib.rs:232-241 | one pick: the drawn category, and an item removed from its pool, or an exhausted pool |
| Generator.PoolsOpen | src/lib.rs:238 | a fresh pool is a copy of the catalog list |
| Generator.PoolsTake | src/lib.rs:239-241 | `swap_remove` moves exactly the picked item from the pool into the picks |
| Generator.PoolsUpdate | src/lib.rs:238-241 | moving one item from a pool into the picks of its category keeps every pool in step with the catalog |
| Generator.PoolsBound | src/lib.rs:231-242 | picks never hold more of an item than its catalog list |
| Generator.PickStep | src/lib.rs:241 | a pick of one category leaves the items of every other category alone |
| Generator.Sample | src/lib.rs:245-247 | too few entries is an error; otherwise exactly `count` entries drawn from the list without replacement |
| Generator.SubMultisetNoDuplicates | src/lib.rs:245-247 | a sample of a duplicate-free list is duplicate-free |
| Generator.PicksNoRepeat | src/lib.rs:231-242 | from duplicate-free lists, no (category, item) pair is picked twice |
| Generator.Generate | src/lib.rs:198-251 | no categories panics in both modes; otherwise draw 0 selects Mode A or Mode B and their promises hold |
| Generator.GenerateSingle | src/lib.rs:201-211 | Mode A: one pair of the drawn category with an item of its list, nothing else, designer passed through; a panic exactly when that list is empty |
| Generator.GenerateMixed | src/lib.rs:212-250 | Mode B: the drawn counts, categories in draw order, picks within the catalog, samples of the flat lists; an empty pool exactly when a category is over-drawn, a failed sample exactly when none is but a flat list is shorter than its count; no panic when every list is long enough |
| Generator.SampleMixed | src/lib.rs:243-249 | after picks within the lists, the three samples give the combination, or a failed sample exactly when a flat list is shorter than its count |
| Generator.SelectedAt | src/lib.rs:233-237 | position `j` of the selection is the category pick `j` draws |
| Generator.MixedSelection | src/lib.rs:231-237 | Mode B selects `type_count` categories, at most five |
| Generator.MixedEmptyPool | src/lib.rs:239-240 | an over-drawn category ends Mode B in an empty pool and in nothing else |
| Generator.MixedTooFew | src/lib.rs:245-247 | with nothing over-drawn, a short flat list ends Mode B in a failed sample |
| Generator.MixedGenerated | src/lib.rs:243-249 | with nothing over-drawn and no short list, Mode B produces its combination |
| Generator.CountOfCategory | src/lib.rs:231-242 | the picks of category `k` are as many as the occurrences of `k` among the picked categories |
| Generator.SelectedGrows | src/lib.rs:233-237 | further picks only add selected categories |
| Generator.SubMultisetSize | src/lib.rs:239-241 | a sub-multiset of a list is no longer than the list |
| Generator.PicksWithinLists | src/lib.rs:231-242 | picks that never take more of an item than its list holds over-draw no category |
| Generator.ExhaustedOverDraws | src/lib.rs:239-240 | a pool found empty at pick `j` means the selected categories over-draw that category |
| Generator.OccurrencesBound | src/lib.rs:231-237 | a category occurs among the selected categories at most as often as there are picks |
| Generator.LongListsNotOverDrawn | src/lib.rs:231-242 | five picks or fewer never over-draw lists of five items or more |
| Generator.MixedDistinct | src/lib.rs:231-247 | from a loaded catalog, Mode B repeats no pair and its samples hold no duplicates |
| Web.Extend | src/web.rs:30 | appends to exactly one list and leaves the others and the flag alone |
| Web.ActionOf | src/web.rs:26-55 | each of the five keys selects its own action; anything else is ignored |
| Web.Key | src/web.rs:24-25 | the key is the lower-cased longest prefix of the argument that holds no `=` |
| Web.Values | src/web.rs:28-29 | no `=` carries no values; otherwise the values are free of `,` and joined with `,` give back the text after the first `=`, so by `SplitJoin` they are exactly its `,`-separated pieces |
| Web.ApplyArg | src/web.rs:24-55 | an unknown key leaves the descriptor unchanged |
| Web.Decoded | src/web.rs:23 | every argument is decoded, in order |
| Web.Fallback | src/web.rs:57-59 | the first type is present and non-empty afterwards; a missing or empty first type becomes exactly `["typeless"]`; nothing else changes |
| Web.ParseQuery | src/web.rs:20-60 | the loop over the arguments yields the descriptor `Parse` denotes, with a non-empty first type |
| Web.ApplyArgs | src/web.rs:22-56 | the arguments applied left to right; `ApplyArgsList` and `ApplyArgsDesigner` state the result field by field |
| Web.Parse | src/web.rs:20-60 | the descriptor a query denotes; `ParseQuery` computes it and `ParseFields` states it field by field |
| Web.ApplyArgsNext | src/web.rs:22-55 | the first `i + 1` arguments act as the first `i` followed by argument `i` |
| Web.ValuesFor | src/web.rs:22-50 | no argument with a list's key means no values for that list |
| Web.ApplyArgsList | src/web.rs:22-50 | each list ends up as its old contents followed by the values of every argument with its key, in order |
| Web.ApplyArgList | src/web.rs:24-50 | one argument appends its values to a list exactly when its key names that list |
| Web.ApplyArgsDesigner | src/web.rs:51-53 | the flag is set exactly when some argument has the key `designer` |
| Web.ApplyArgFlag | src/web.rs:51-53 | one argument sets the flag exactly when its key is `designer` and never clears it |
| Web.MentionsDesignerStep | src/web.rs:51-53 | a list mentions `designer` exactly when its front does or its last argument does |
| Web.ApplyArgsAppend | src/web.rs:22 | arguments are applied one after the other |
| Web.BlankFields | src/web.rs:21-56 | the descriptor from a blank one, field by field |
| Web.ParseFields | src/web.rs:20-60 | the parsed descriptor is the fallback of the field-by-field collection of the decoded arguments |
| Web.NoValueAppendsNothing | src/web.rs:28-49 | an argument without `=` adds no values |
| Web.DesignerArg | src/web.rs:51-53 | the key `designer` sets the flag whatever its value and changes nothing else |
| Web.ListArg | src/web.rs:24-31 | `<key>=<v>` with a list key in any case appends the comma-separated pieces of `v` to that list only |
| Web.HeadOf | src/web.rs:24 | `<head>=<value>` splits into `head` and `value` when `head` has no `=` |
| Web.Section | src/web.rs:70-84 | a section is absent exactly for an empty list; otherwise `-<tag>_` and the sorted list, joined with `.` and then lower-cased |
| Web.FileName | src/web.rs:65-85 | the canonical file name; `FileNameShape`, `FileNamePermutationInvariant` and `FileNameExample` state its properties |
| Web.AssetName | src/web.rs:65-85 | the step-by-step file name is the canonical `FileName` |
| Web.FileNamePermutationInvariant | src/web.rs:65-85 | the file name does not depend on the order of any list |
| Web.FileNameShape | src/web.rs:65-85 | the file name starts with the sorted types, not lower-cased, and ends in `.png` |
| Web.AttributesEmpty | src/web.rs:70-84 | there are no attribute sections exactly when all three lists are empty |
| Web.SectionLowerCase | src/web.rs:73 | an attribute section holds no ASCII capital |
| Web.SortBeforeLower | src/web.rs:71-73 | sorting happens before lower-casing: `a` and `B` give `-a_b.a` |
| Web.FileNameExample | src/web.rs:65-85 | types `b`, `A`, condition `Wet` and anomaly `X` give `A.b-a_x-c_wet.png` |
| Web.TypesExample | src/web.rs:66-67 | the types `b`, `A` sort to `A.b` |
| Web.SectionExample | src/web.rs:68-84 | a one-entry section is its tag followed by the lower-cased entry |
| Web.ExistingBases | src/web.rs:97-104 | at most one fallback image per type, each present under `bases/` |
| Web.Show | src/web.rs:86-105 | the composite image when its file exists, with `?designer` for a designer; otherwise its name and the fallbacks |
| Web.Fallbacks | src/web.rs:97-104 | the loop over the types lists exactly the fallbacks `ExistingBases` denotes |
| Web.ExistingBasesNext | src/web.rs:97-104 | the fallbacks of the first `i + 1` types are those of the first `i`, then type `i` when its image exists |
| Web.ExistingBasesComplete | src/web.rs:97-104 | every type whose `<t>.png` exists has it listed, and each listed image is `<t>.png` for some type |

## Left out

- Reading the catalog: `WalkDir`, `File::open` and `BufReader::lines` are replaced by the lines they yield. Their panics and the early stop of `lines()` at a read error are not modelled. The `info` and `baseless` endpoints, which also read directories, are left out.
- Randomness: `thread_rng` is replaced by the stream `rng`, and `gen_bool(0.25)` by the `designer` parameter. Distributions, rates and modulo bias are not stated.
- Generator.Sample: `rand::seq::sample_iter` is foreign library code. The model draws by `rng % len` and `swap_remove`. Only its contract is claimed: the error when the list is too short, the exact size, drawing without replacement.
- Generator.GenerateSingle: `Rng::choose` is foreign library code. The model picks the item at `rng(2) % len`. Only that the item comes from the category's list is claimed.
- Web.Key: the key is stated character by character through `LowerChar`, the ASCII stand-in for `to_lowercase`, so it is exactly as long as the text before the first `=`. Rust's key can be longer: `İ` lower-cases into two characters. The action chosen is the same, for the reason given for Text.Lower.
- Text.Lower: `to_lowercase` is modelled on ASCII letters only. For key matching this is exact, because no non-ASCII character lower-cases into any of the five keys. The lower-casing of non-ASCII attribute text is not modelled.
- Percent-decoding (`percent_decode(..).decode_utf8_lossy()`) is foreign code. It is a parameter `decode` of `ParseQuery`.
- The query-less branch of the front end, which renders `tcp_list.gen()`, is not modelled. The front end treats a `TCP`'s types as strings while `gen` produces (category, item) pairs, so the two do not connect. The model covers the branch with a query.
- The HTML assembly, the `Unknown parameter` log line, `Path::exists` (a parameter `present` of `Show`), the Iron server and routing are not modelled.
- Serving a base image and its PNG decode, polar-coordinate mask and encode are image I/O and `f32` arithmetic. They are left out.
- `src/console.rs` is a stdin/stdout loop and is not part of this model.
- Generator.Render: `fmt` errors from the formatter are not modelled; the rendering is a pure string.

# Moorea Life directory: catalogue, slugs and static pages

This project models the catalogue logic of a small business directory. The directory is one
semicolon-separated catalogue file. Each line names up to three nested categories, a business
name (`nom`) and a link to the business's Facebook page (`lien`). Three programs read that file:

- `js/data.js` is used by the category pages. It parses the catalogue into entries and
  normalises every link. It folds the entries into a tree, cat1 → cat2 → {`items`,
  `subcategories`}, and keeps that tree in a module-level cache. It also looks up one category
  and turns category paths into URL slugs and back.
- `js/script.js` is used by the side menu. It parses the same file into a differently shaped
  tree and builds page links with the same slug rule.
- `generate_pages.py` writes one static HTML page per category. It groups the rows of the
  catalogue and decides which pages exist. It names each file with its own rule
  (`sanitize_filename`) and gives each page a title and a breadcrumb.

The modules follow those programs:

| module | file | models |
|---|---|---|
| `Text` | `text.dfy` | trim (the JavaScript and the Python white-space sets, written out character by character), split/join, Latin-1 lower-casing, hyphen runs |
| `Assoc` | `assoc.dfy` | insertion-ordered dictionaries (JavaScript objects with string keys, Python dicts) as `seq<(string, V)>` |
| `CsvLine` | `csvline.dfy` | the per-line reading both JavaScript parsers share |
| `Catalog` | `catalog.dfy` | `js/data.js`: `parseCSV`, `normalizeFBUrl`, the `getCategories` fold and its cache (class `CatalogCache`), `getCategoryItems` |
| `Slug` | `slug.dfy` | `js/data.js`: `generateSlug`, `parseSlug` |
| `Menu` | `menu.dfy` | `js/script.js`: `parseCSV`, `generatePageUrl` |
| `PageNames` | `pagenames.dfy` | `generate_pages.py`: `sanitize_filename`, `normalize_fb_url`, the title and breadcrumb of `create_page_html` |
| `PageGen` | `pagegen.dfy` | `generate_pages.py`: the grouping loop of `read_csv_data`, the page loops of `generate_pages` |

Loops in the source are `method`s with loop invariants: `Catalog.ParseCsv`,
`Catalog.FoldEntries`, `Menu.ParseCsv`, `PageGen.ReadCsvData`, and `PageGen.GeneratePages` with
its two inner loops. Each method is proved equal to a recursive specification function over
the prefix read so far. The properties are then lemmas about those functions. The two cache
variables of `js/data.js` are the fields of the class `Catalog.CatalogCache`.

`generate_pages` is modelled as the list of pages it writes, in write order. Each page carries
its path, its file name, its heading and its items. The page counter is the length of that list.

## Model

| member | source | states |
|---|---|---|
| `Text.Trim` | js/data.js:38 | the trimmed text has no white space at either end and is no longer than the input |
| `Text.TrimIsSlice` | js/data.js:38 | trimming cuts only white space, and only from the two ends: the result is a slice `s[i..j]` with only white space outside it |
| `Text.TrimIdempotent` | js/data.js:44-48 | trimming a trimmed field changes nothing |
| `Text.Split` | js/data.js:41 | `split(';')` yields at least one piece, and no piece contains the separator |
| `Text.JoinSplit` | js/data.js:33 | joining the pieces of a split with the separator gives back the text |
| `Text.SplitJoin` | js/data.js:41 | splitting pieces that were joined with a separator they do not contain gives back the pieces |
| `Text.SplitCount` | js/data.js:41 | a split yields one more piece than the text has separators |
| `Text.CollapseHyphens` | js/data.js:187 | `replace(/-+/g, '-')` leaves no `--`, keeps every non-hyphen character in order and the first and last character, and is empty only for empty input |
| `Text.CollapseOfSingleHyphens` | js/data.js:187 | collapsing changes nothing in a text without `--` |
| `Text.CollapseKeepsWords` | js/data.js:187 | collapsing keeps the words of the text (its non-empty `-`-separated pieces) exactly, in order |
| `Text.SinglyHyphenatedIsJoinedWords` | js/data.js:187-188 | a text with no `--` and no edge hyphen is its words joined by single hyphens |
| `Text.CollapseJoinsWords` | js/data.js:187 | on a text without edge hyphens, collapsing gives its words joined by single hyphens: each hyphen run becomes one `-` between the same two words |
| `Text.TrimHyphensWords` | generate_pages.py:38 | `strip('-')` keeps the words of the text exactly |
| `Text.TrimHyphensSlug` | js/data.js:188 | dropping one edge hyphen at each end of a `[a-z0-9-]` text without `--` gives a slug |
| `Assoc.Get` | js/data.js:103 | a lookup finds a value exactly when the key is present |
| `Assoc.Put` | js/data.js:104 | storing under a key sets that key and leaves every other key alone; a new key goes last and an existing key keeps its place |
| `Assoc.PutNoDup` | js/data.js:104 | storing keeps the keys distinct |
| `Assoc.FirstSeen` | js/data.js:103-105 | the first-seen order of a key column holds exactly the keys of that column, each once |
| `CsvLine.ReadFields` | js/data.js:38-48 | a line yields fields exactly when it has at least five `;` pieces after trimming; the fields are trimmed and contain no `;` |
| `CsvLine.ReadWrittenFields` | js/data.js:41-48 | five trimmed fields without `;`, written as `a;b;c;d;e`, read back as the same five fields |
| `Catalog.WithScheme` | js/data.js:73-81 | the result starts with `http` and ends with the link; a link is kept unchanged exactly when it already starts with `http`; otherwise a link starting with `facebook.com`, `www.facebook.com` or `fb.me` gets `https://` in front, and any other link gets `https://www.facebook.com/` |
| `Catalog.NormalizeFbUrl` | js/data.js:67-84 | empty in, empty out; any other link is trimmed, the result starts with `http` and ends with the trimmed link, and a trimmed link already starting with `http` is returned as it is; the result is the scheme rule applied to the trimmed link |
| `Catalog.NormalizeFbUrlExamples` | js/data.js:73-81 | the page handle `myplace` becomes `https://www.facebook.com/myplace`, and `facebook.com/myplace` becomes `https://facebook.com/myplace` |
| `Catalog.HandleGetsPagePrefix` | js/data.js:73-81 | a link whose first character is none of `h`, `f`, `w` gets the `https://www.facebook.com/` prefix |
| `Catalog.NormalizeFbUrlIdempotent` | js/data.js:67-84 | normalising a normalised link changes nothing |
| `Catalog.ParseLine` | js/data.js:38-58 | a line gives an entry exactly when it has five fields and a non-empty cat1, name and link; the entry holds the five trimmed fields in order, with the link normalised |
| `Catalog.ParseWrittenLine` | js/data.js:38-58 | a line written from five trimmed fields without `;`, with a cat1, name and link, is read back as the entry of exactly those fields, with the link normalised |
| `Catalog.ParseEntries` | js/data.js:37-59 | at most one entry per line, and every entry has a non-empty cat1 and name and an `http` link |
| `Catalog.ParseCsv` | js/data.js:32-62 | the loop returns the entries of the lines after the header; there are at most (lines − 1) of them, all well formed |
| `Catalog.ParseEntriesAppend` | js/data.js:37-59 | the entries of two runs of lines are the entries of the first run followed by those of the second, so output order is line order |
| `Catalog.ParseEntriesMember` | js/data.js:50-57 | an entry is emitted exactly when some line parses to it |
| `Catalog.HeaderIgnored` | js/data.js:36-37 | the first line never contributes: the entries are those of the lines after it |
| `Catalog.HeaderOnly` | js/data.js:37 | a catalogue of one line has no entries |
| `Catalog.AddToNode` | js/data.js:117-131 | an entry with a cat3 is appended to that cat3 list, which is created last if it is new; otherwise it is appended to `items` |
| `Catalog.AddEntryStep` | js/data.js:97-133 | one step of the fold creates the cat1 key if new, creates the cat2 node only for a non-empty cat2, and changes only that node |
| `Catalog.BuildTreeCat1` | js/data.js:103-105 | cat1 is a key of the tree exactly when some entry has that cat1, even an entry with an empty cat2 |
| `Catalog.BuildTreeNodes` | js/data.js:108-114 | a (cat1, cat2) node exists exactly when cat2 is non-empty and some entry has that pair |
| `Catalog.BuildTreePlacement` | js/data.js:116-131 | a node's `items` are the entries of its pair with no cat3, in order; `subcategories[c3]` holds the entries of that triple and exists exactly when there are some |
| `Catalog.BuildTreeCat1Order` | js/data.js:103-105 | cat1 keys are in first-seen order |
| `Catalog.BuildTreeCat2Order` | js/data.js:109-114 | cat2 keys under each cat1 are in first-seen order |
| `Catalog.BuildTreeCat3Order` | js/data.js:118-120 | cat3 keys under each node are in first-seen order |
| `Catalog.BuildTreeSize` | js/data.js:97-133 | the tree stores exactly one item per entry with a non-empty cat2 |
| `Catalog.BuildTreeWellFormed` | js/data.js:97-133 | keys are distinct at every level, cat2 and cat3 keys are non-empty, and no cat3 list is empty |
| `Catalog.FoldEntries` | js/data.js:97-133 | the `forEach` loop builds the tree of the specification fold |
| `Catalog.GetCategoryItems` | js/data.js:142-168 | null exactly when cat1 or cat2 is absent; the title is cat3, or cat2 when cat3 is empty; the breadcrumb is `cat1 > cat2` followed by ` > cat3` when cat3 is non-empty |
| `Catalog.CategoryItemsOfEntries` | js/data.js:142-168 | on the tree of some entries, a listing exists exactly when some entry files under (cat1, non-empty cat2), and its items are exactly the entries of the requested path, in order (`[]` for an unknown cat3) |
| `Catalog.CatalogCache.constructor` | js/data.js:4-5 | both caches start empty |
| `Catalog.CatalogCache.LoadCsvData` | js/data.js:10-27 | returns any cached result, even an empty one, as it is, else the parse of the fetched text (`[]` when the fetch fails); caches only a successful parse; leaves the tree cache alone |
| `Catalog.CatalogCache.GetCategories` | js/data.js:89-137 | a cached tree is returned with nothing changed; otherwise the fold of the loaded entries is built, cached and returned, and the entry cache changes as `loadCSVData` changes it (filled only by a successful first parse); the tree is always well formed |
| `Slug.SlugChar` | js/data.js:179-186 | every character becomes a lower-case letter, a digit or `-`; those characters are kept |
| `Slug.SlugChars` | js/data.js:179-186 | the per-character replacements keep the length and act character by character |
| `Slug.TrimEdgeHyphen` | js/data.js:188 | removing one leading and one trailing hyphen from a text without `--` leaves no edge hyphen and no `--`, and drops only hyphens |
| `Slug.TrimEdgeHyphenWords` | js/data.js:188 | removing the edge hyphens keeps the words of the text exactly |
| `Slug.Slugify` | js/data.js:177-188 | the pipeline's output is a slug (only `[a-z0-9-]`, no `--`, no edge hyphen) and keeps every letter and digit of the folded input, in order |
| `Slug.SlugifyJoinsWords` | js/data.js:185-188 | the slug is the words of the replaced text (the non-empty runs between the `-` that replaced other characters) joined by single hyphens |
| `Slug.SlugifyOfSlug` | js/data.js:177-188 | a slug is its own slug |
| `Slug.SlugifyIdempotent` | js/data.js:177-188 | slugifying twice is slugifying once |
| `Slug.GenerateSlug` | js/data.js:173-189 | the output is a slug |
| `Slug.GenerateSlugContent` | js/data.js:173-189 | the letters and digits of the slug are those of the folded cat1, cat2 and cat3 in turn |
| `Slug.GenerateSlugOfSlugs` | js/data.js:174-178 | with an empty cat3, two non-empty slugs are joined with one `-` |
| `Slug.GenerateSlugExample` | js/data.js:173-189 | `("Café", "Bar", "")` gives `cafe-bar` |
| `Slug.FindCat3` | js/data.js:201-206 | a found cat3 is a key with the wanted slug; none found means no key has it |
| `Slug.FindCat3Concat` | js/data.js:201-206 | the cat3 keys are tried in order: a match among earlier keys wins over later ones |
| `Slug.FindCat3First` | js/data.js:201-206 | the loop returns the first key whose slug matches: a matching key with no match before it is the one returned |
| `Slug.FindInCat1` | js/data.js:199-213 | a found path lies under that cat1 and has the wanted slug; none found means no path under it does |
| `Slug.FindInCat1Concat` | js/data.js:199-213 | the cat2 entries are tried in order: a match under an earlier cat2 wins over later ones |
| `Slug.ParseSlug` | js/data.js:194-217 | a decoded path lies in the tree and has the given slug; null exactly when no path of the tree has that slug |
| `Slug.InTreeIff` | js/data.js:198-201 | in a well-formed tree, a path is searched exactly when its (cat1, cat2) node exists and its cat3 is empty or a subcategory key |
| `Slug.ParseSlugReachesNode` | js/data.js:209-212 | the two-level slug of any node of the tree decodes to some path |
| `Slug.ParseSlugHasListing` | js/data.js:194-217 | on the tree of some entries, a decoded slug always has a category listing, and that listing holds exactly the entries filed under the decoded path, in entry order |
| `Slug.ParseSlugConcat` | js/data.js:198 | categories are searched in tree order: a match under an earlier cat1 wins |
| `Slug.ParseSlugPrefersCat3` | js/data.js:201-212 | a decoded two-level path means no cat3 under that node had the slug |
| `Slug.CollidingSlugs` | js/data.js:173-189 | for any lower-case letters or digits x, y, z, `("x-y", "z")` and `("x", "y-z")` both have the slug `x-y-z` (e.g. `a-b-c`) |
| `Slug.SlugCollision` | js/data.js:194-217 | in a tree holding both such paths, the second is a page of the tree but its slug decodes to the first: the first match wins |
| `Menu.AddToList` | js/script.js:71-79 | a row with a cat3 creates that list (empty when the row has no name or link) and appends its link when it has both |
| `Menu.AddToValue` | js/script.js:65-86 | a cat3 row keeps the node's shape; a cat3-less row with a link appends to the direct list, turning a cat3 map into a fresh list; a cat3-less row without a link changes nothing |
| `Menu.LineRows` | js/script.js:45-57 | a line gives at most one row, with trimmed fields and a non-empty cat1 |
| `Menu.LineRowsKept` | js/script.js:45-57 | a line gives a row exactly when it has five fields and a non-empty cat1, and the row is then its five trimmed fields; a line with fewer than five fields gives none |
| `Menu.WrittenLineRows` | js/script.js:45-57 | a line written from five trimmed fields without `;` and with a cat1 is read back as exactly those fields |
| `Menu.RowsOf` | js/script.js:44-57 | at most one row per line |
| `Menu.RowsOfAppend` | js/script.js:44-57 | the rows of two runs of lines are those of the first run followed by those of the second, so row order is line order |
| `Menu.RowsOfMember` | js/script.js:44-57 | a row is read exactly when some line reads as it |
| `Menu.RowsOfKept` | js/script.js:45-57 | every row read has a non-empty cat1 and trimmed fields |
| `Menu.ReadRow` | js/script.js:45-57 | the trim, split and field steps of one line give that line's row, if any |
| `Menu.AddLine` | js/script.js:44-87 | one pass of the loop takes the menu of the lines before it to the menu of the lines up to and including it |
| `Menu.ParseCsv` | js/script.js:39-91 | the loop builds the menu tree of the rows after the header |
| `Menu.AddRowStep` | js/script.js:57-87 | one row creates its cat1 key if new, creates a cat2 key only for a non-empty cat2, and changes only that value |
| `Menu.BuildMenuCat1Order` | js/script.js:60-62 | cat1 keys are in first-seen order and include rows without a name or link |
| `Menu.BuildMenuCat2Order` | js/script.js:65-68 | cat2 keys are in first-seen order and never empty |
| `Menu.LinkRowDiscardsLists` | js/script.js:80-85 | a cat3-less row with a link on a node holding cat3 lists replaces them with a list of that one link |
| `Menu.EmptyListFromRow` | js/script.js:71-79 | a cat3 row without a name still creates an empty cat3 list |
| `Menu.LinkNotNormalised` | js/script.js:80-85 | links are stored as trimmed, without the `normalizeFBUrl` rewriting, so a bare handle stays different from its normalised form |
| `Menu.RowItems` | js/script.js:77-85 | every link a row can contribute has a name and a link |
| `Menu.BuildMenuWithin` | js/script.js:77-85 | every stored link comes from some row |
| `Menu.GeneratePageUrl` | js/script.js:141-157 | the menu link is `pages/` + the `generateSlug` of the same path + `.html` |
| `PageNames.CleanChar` | generate_pages.py:27-32 | after lower-casing, accent folding and `[^a-z0-9\s]` removal, a character leaves at most one letter, digit or white-space character; those are kept and `-` is deleted |
| `PageNames.CleanIsCleaned` | generate_pages.py:32 | the filtered text holds only letters, digits and white space |
| `PageNames.CleanConcat` | generate_pages.py:27-32 | the filter works character by character |
| `PageNames.SpaceRunsChars` | generate_pages.py:34 | replacing white-space runs leaves only `[a-z0-9-]` |
| `PageNames.SpaceRunsWords` | generate_pages.py:34 | replacing each white-space run by one `-` keeps the same words as replacing each white-space character by `-` |
| `PageNames.Hyphenate` | generate_pages.py:34-38 | white-space runs, hyphen collapsing and `strip('-')` give a slug |
| `PageNames.HyphenateJoinsWords` | generate_pages.py:34-38 | the result is the words of the filtered text (its runs of letters and digits) joined by single hyphens |
| `PageNames.SanitizeFilename` | generate_pages.py:9-40 | the file name contains only `[a-z0-9-]`, has no `--` and no edge `-` |
| `PageNames.SanitizeJoinsWords` | generate_pages.py:9-40 | the file name is the runs of letters and digits left by the character filter, in order, joined by single hyphens |
| `PageNames.SanitizeIgnoresHyphen` | generate_pages.py:32 | a hyphen in the input is deleted, not kept: `a-b` sanitises as `ab` |
| `PageNames.SanitizeWord` | generate_pages.py:9-40 | a word of lower-case letters and digits is its own file name |
| `PageNames.SanitizeSpaceRun` | generate_pages.py:34 | a run of white space between two words becomes one `-` |
| `PageNames.SanitizeTwoWords` | generate_pages.py:240 | `f"{cat1}-{cat2}"` for two words loses its joining hyphen |
| `PageNames.FileNameIsNotMenuLink` | generate_pages.py:240 | for two words, the file a page is written to is not the page the menu links to |
| `PageNames.SharedFileName` | generate_pages.py:222 | distinct paths such as (`xy`, `z`) and (`x`, `yz`) get the same file name |
| `PageNames.TildeFolded` | generate_pages.py:18 | `Ñ` becomes `n` in a file name, while the JavaScript slug table turns it into `-` |
| `PageNames.NormalizeFbUrl` | generate_pages.py:42-58 | empty in, empty out; any other link is stripped of Python white space, starts with `http` and ends with the stripped link; a stripped link starting with `http` is returned as it is; the result is the scheme rule of `Catalog.WithScheme` (`https://` before a Facebook host, `https://www.facebook.com/` before anything else) applied to the stripped link |
| `PageNames.NormalizeFbUrlIdempotent` | generate_pages.py:42-58 | normalising a normalised link changes nothing |
| `PageNames.NormalizeFbUrlsAgree` | generate_pages.py:42-58 | on links whose characters the JavaScript and Python white-space sets classify alike, both normalisers agree |
| `PageNames.NormalizeFbUrlsDiffer` | generate_pages.py:47 | they differ elsewhere: a leading U+FEFF is kept by `str.strip()` and removed by `String.prototype.trim()` |
| `PageNames.PageHeading` | generate_pages.py:112-117 | the title is cat3, or cat2 when cat3 is empty; the breadcrumb is `cat1 > cat2`, followed by ` > cat3` when cat3 is non-empty, so it ends with the title |
| `PageNames.HeadingMatchesListing` | generate_pages.py:112-117 | a static page has the title and breadcrumb the JavaScript listing gives the same path |
| `PageGen.ReadRecordAsWritten` | generate_pages.py:86-90 | reading fields succeeds exactly for rows of at least five columns; the fields are then the stripped columns |
| `PageGen.ReadRecord` | generate_pages.py:86-90 | corrected reading: a row of five columns gives the five stripped columns; a shorter row has an empty link |
| `PageGen.Slot` | generate_pages.py:92-104 | a row is filed exactly when it has a cat1, a name, a link and a cat2 or cat3; it is filed under its cat3, or under `_items` when cat3 is empty |
| `PageGen.AppendKeys` | generate_pages.py:101-104 | the nested `defaultdict` appends create missing keys last at each level and keep existing keys in place |
| `PageGen.AppendLookup` | generate_pages.py:101-104 | an append adds the link to exactly one list and leaves every other list alone |
| `PageGen.ReadCsvData` | generate_pages.py:60-106 | the loop builds the grouping of the records under the corrected reading, where a column missing from a short row reads as `''` (see "## Findings"); on records with all five columns this is the source as written (`PageGen.AsWrittenNeedsFullRecords`) |
| `PageGen.GroupLinks` | generate_pages.py:85-104 | `categories[c1][c2][k]` holds exactly the normalised links of the rows filed there, in row order |
| `PageGen.GroupWellFormed` | generate_pages.py:85-104 | keys are distinct at every level and no level or list is empty |
| `PageGen.WellFormedKeys` | generate_pages.py:101-104 | a key is present at any level exactly when what it holds is non-empty |
| `PageGen.GroupCat1Order` | generate_pages.py:92-104 | cat1 keys are the cat1s of the filed rows in first-seen order; rows that file nothing create no key |
| `PageGen.AsWrittenNeedsFullRecords` | generate_pages.py:85-90 | the loop as written finishes exactly when every row has five columns, and then agrees with the corrected grouping |
| `PageGen.ShortRecordRaises` | generate_pages.py:86-90 | one short row makes the loop as written fail |
| `PageGen.ShortRecordIgnored` | generate_pages.py:86-93 | the corrected grouping ignores a short row |
| `PageGen.AnyOtherKey` | generate_pages.py:213 | true exactly when some key is not `_items` |
| `PageGen.WriteNodePages` | generate_pages.py:213-251 | the pages of one cat2 node are appended in key order and counted |
| `PageGen.WriteCat1Pages` | generate_pages.py:210-251 | the pages of one cat1 are appended in cat2 order and counted |
| `PageGen.GeneratePages` | generate_pages.py:201-253 | the loops write the specified pages in order, and `pages_created` is the number of pages written |
| `PageGen.FileNameIsSlug` | generate_pages.py:222 | every file name is a slug followed by `.html` |
| `PageGen.TreePagesWellMade` | generate_pages.py:209-251 | every written page has non-empty items, is not an `_items` page, and has the file name and heading of its own path |
| `PageGen.NodePagesMember` | generate_pages.py:213-251 | a node with a key other than `_items` gets one page per non-empty cat3 list; otherwise it gets one two-level page exactly when `_items` is non-empty |
| `PageGen.TreePagesMember` | generate_pages.py:209-210 | a page is written exactly when it is a page of the node of its own (cat1, cat2) |
| `PageGen.GroupGet` | generate_pages.py:85-104 | a key exists under (c1, c2) exactly when some row is filed there, and it holds those rows' links |
| `PageGen.FilesCategory3Keys` | generate_pages.py:213 | a node has a key other than `_items` exactly when some row files a cat3 there |
| `PageGen.Category3Page` | generate_pages.py:215-233 | a cat3 page exists exactly when rows file links under that cat3, and it shows exactly those links |
| `PageGen.Category2Page` | generate_pages.py:235-251 | a two-level page exists exactly when rows file links without a cat3 and no row files a cat3 under that node; it shows those links |

## Left out

- The DOM and event wiring is not modelled: `js/category.js`, the menu wiring at js/script.js:2-26 and `buildMenu` (js/script.js:93-139) write HTML into the page and hold no catalogue logic.
- The catalogue fetch and UTF-8 decoding (js/data.js:15-20, js/script.js:28-37) are not modelled. `Catalog.CatalogCache.LoadCsvData` takes the fetched text as an `Option<string>` parameter, where `None` is a failed fetch. `async`/`await` and the console log are not modelled either.
- File I/O in `generate_pages.py` is not modelled: the encoding fallback (generate_pages.py:64-82), directory creation, the file writes and the progress prints. `PageGen.GeneratePages` returns the pages it would write instead.
- The HTML template text of `create_page_html` is left out; only its title and breadcrumb rule is modelled. A page keeps its items as data.
- `csv.DictReader` is not modelled. Its input is the list of field records it yields, with the header row `Categorie1;Categorie2;Categorie3;Nom;Lien`. Quoting, embedded newlines and a header with other column names are library behaviour.
- Columns beyond the fifth are ignored. This matches both JavaScript parsers and the Python reader.
- `Text.LowerStr`: lower-casing covers ASCII and the Latin-1 letters only (U+00C0–U+00DE except U+00D7). The full Unicode case mapping of `toLowerCase`/`lower()` is not modelled.
- The enumeration order of JavaScript objects is modelled as insertion order. JavaScript lists integer-like keys (such as a category named `2024`) first, in numeric order; that is not modelled.
- Keys that JavaScript objects inherit (`toString`, `__proto__` and so on) are not modelled. A category with such a name would behave differently in the browser.
- In `js/script.js`, a cat3 row on a cat2 whose value is already an array stores a named property on that array, when the cat3 is neither an array index nor `length`. That is modelled as the `named` part of `Menu.Cat2Value.Links`. How `buildMenu` later reads such a value is not modelled.
- `Menu.AddToValue`: on a cat2 whose value is already an array, a cat3 that is `length` or an array index is filed under `named` like any other name, which is not what JavaScript does. `arr["length"]` is a number and `arr["0"]` is a stored link, both truthy, so a row with a name and a link calls `.push` on it and throws a `TypeError`. `loadMenu` (js/script.js:28-36) catches it, and no menu is built. An index at or past the array's length instead creates an array element there, leaving holes, and later direct links are pushed after it. The model does not represent array indices as keys.
- The Python regex `\s` and `str.strip()` use the same white-space set, `PyWhiteSpace`, written out character by character. The JavaScript `trim()` set is `JsWhiteSpace`.

## Differences between the programs

- The first-level keys differ between the generator and the JavaScript fold. The Python grouping creates a cat1 key only for a row that files a link (`PageGen.GroupCat1Order`). The JavaScript fold creates one for any entry (`Catalog.BuildTreeCat1`).
- Rows with an empty cat2 are handled differently:
  - The Python grouping files a row with a cat3 and an empty cat2 under the cat2 key `''`. Its page is named from `cat1--cat3`.
  - `getCategories` stores no entry with an empty cat2.
  - The menu parser stores no row with an empty cat2.
- Direct links are handled differently when a node also has cat3 lists:
  - The Python generator gives a node's direct `_items` links no page when the node also has cat3 lists (`PageGen.Category2Page`).
  - `getCategoryItems` still returns those links for the two-level path.
  - In `js/script.js`, a later direct link replaces the cat3 lists (`Menu.LinkRowDiscardsLists`).
- A cat3 literally named `_items` is merged with a node's direct links by the generator. `PageGen.Slot` files it under `_items`.
- The generator's file name drops the hyphen that joins the categories (`PageNames.SanitizeIgnoresHyphen`). The menu links to the slug, which keeps it. A two-level page of two plain words is therefore written to a file the menu never links to (`PageNames.FileNameIsNotMenuLink`). Distinct paths can also be written to the same file (`PageNames.SharedFileName`). The later page overwrites the earlier one, yet `pages_created` counts both.
- The slug always joins cat1 and cat2 with a hyphen and adds cat3 only when it is non-empty (js/data.js:174-178). An empty cat1 or cat2 therefore still contributes its joining hyphen, which the hyphen collapsing and edge trimming of the slug chain then remove (`Slug.SlugifyJoinsWords`).
- `getCategoryItems` returns `[]` both for a known cat3 with no items and for a cat3 that is not a key of the node, through the `|| []` fallback at js/data.js:158 (`Catalog.CategoryItemsOfEntries`).

## Findings

| source | as written | input that shows it | evidently intended | confidence | as-written member | corrected member |
|---|---|---|---|---|---|---|
| generate_pages.py:86-90 | `row.get(..., '').strip()`: for a row with fewer columns than the header, `csv.DictReader` stores `None` for the missing columns, so `.get` returns `None` rather than the default and `.strip()` raises `AttributeError`, ending page generation; for `Shops;Food` the first to raise is `Categorie3` at line 88 | the catalogue line `Shops;Food` after the header | a missing column reads as empty, so the row is skipped like any row without a link, as both JavaScript parsers skip lines with fewer than five fields | not executed | `PageGen.ShortRecordRaises` (on `PageGen.GroupRecordsAsWritten`) | `PageGen.ShortRecordIgnored` (on `PageGen.GroupRecords`, used by `PageGen.ReadCsvData`) |

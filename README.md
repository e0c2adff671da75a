# keggtools core in Dafny

This project models the core of keggtools, a Python library for KEGG
pathways, and proves properties of the model. It covers five parts of the
library:

- `utils.py`: attribute access on KGML elements, TSV parsing into rows and
  into a dictionary, RGB to hex and CSS text, and the regular-expression
  validators for organism codes, pathway numbers, pathway names, hex colours
  and gene names.
- `models.py`: parsing a KGML tree into `Relation`, `Component`, `Graphics`,
  `Entry` and `KEGGPathway` records, and the pathway queries. These are
  `get_entry_by_id`, `get_genes`, `matches` and `Entry.get_gene_id`.
- `analysis.py`: the enrichment analysis. It covers `EnrichmentResult` and its
  JSON summary, and the `Enrichment` class with `run_analysis`, `get_subset`,
  `to_json` and the checks and rows of `to_csv`.
- `resolver.py`: the KEGG REST resolver. It covers the cache-or-request step
  over a key/value store, the cache keys and URLs, `get_gene_names` and
  `check_organism`.
- `render.py`: turning a pathway into graph nodes and edges. It covers the
  embedded HTML table, which entries become nodes and with what label, the
  edge style, arrowhead and label rules, and the default branch of
  `get_gene_color`.

Module layout:

- `wrappers.dfy`: `Option`, `Result` and `Outcome`, with an `Error` datatype
  naming the Python exception kinds.
- `strings.dfy`: the Python string operations the library relies on. These are
  `str.split` with an explicit separator, `join`, `str(int)`, `int()` on ASCII
  digits and two-digit hex formatting.
- `pattern.dfy`: the small regular-expression subset the validators use, with
  Python `re.match(...$)` semantics.
- `utils.dfy`, `models.dfy`, `analysis.dfy`, `resolver.dfy`, `render.dfy`: one
  module per source file.

Parsed records are immutable datatypes. `Enrichment`, `EnrichmentResult`,
`Resolver` and `Renderer` are classes, because the library updates their
fields in place. The source's statement loops are methods with loop
invariants, each proved against a specification function. Three kinds of loop
are modelled as recursive functions instead: the loop over a group's
components in `render.py` (`GroupItems`), the loop over a relation's subtypes
(the arrowhead and label folds) and the `related_entries` comprehensions
(`IntsOf`). Lemmas state the properties of the specification functions.

`models.py` is modelled against its own interface:

- the subtypes of a relation are a dict;
- `Entry.get_gene_id` returns one integer;
- a missing XML attribute raises `KeyError`.

`render.py` and `resolver.py` use the newer interface:

- a `Pathway` with subtype objects that carry `.name`;
- `Entry.get_gene_id()` returns a list of id strings;
- `get_entry_by_id` returns the first entry whose id string is equal.

The model of those files takes that interface as given.

Where the code and the library's documentation differ, the model follows the
code:

- `to_csv` writes one line per result and no header row.
- Missing attributes in `models.py` raise `KeyError`, not `ValueError`.
- The validators use `re.match` with `$`, so they also accept a value
  followed by one trailing newline (`"hsa\n"` is a valid organism code).

## Model

| member | source | states |
|---|---|---|
| Utils.GetAttribute | keggtools/utils.py:15-32 | succeeds exactly when the key is present, returns its value, and otherwise fails with ValueError |
| Utils.GetNumericAttribute | keggtools/utils.py:35-52 | succeeds exactly when the key is present and its value is all ASCII digits, and returns that value; otherwise ValueError |
| Utils.NumericAttributeParses | keggtools/utils.py:35-52 | a value accepted by get_numeric_attribute parses with int() to a non-negative number |
| Utils.ParseTsv | keggtools/utils.py:68-76 | one row per line of the text, except a final empty line; each row is the line split on tabs |
| Utils.ParseTsvRoundTrip | keggtools/utils.py:68-76 | parsing the TSV text written from rows without tabs or newlines gives back the rows |
| Utils.TsvExample | keggtools/utils.py:68-76 | the three-line header/item text parses into three two-column rows |
| Utils.PyIndex | keggtools/utils.py:97-101 | a row index succeeds exactly for Python's valid range -len..len-1, negative indices included |
| Utils.ParseTsvToDict | keggtools/utils.py:79-103 | the loop computes the dictionary specification, including its IndexError on a short row |
| Utils.RowsToDictAborts | keggtools/utils.py:97-101 | once a prefix of rows fails, the whole table fails with the same error |
| Utils.RowsToDictContents | keggtools/utils.py:97-101 | when every row with at least two columns has both columns, the keys are those of the rows and each key maps to its last row's value |
| Utils.TsvDictExample | keggtools/utils.py:79-103 | columns 0 and 1 of the example table give header1→header2 and item3→item4 |
| Utils.ToHexBytes | keggtools/utils.py:138-150 | for byte components, to_hex gives "#" plus six lower-case hex digits that pass the hex-colour check and read back as the three components |
| Utils.ToCssRoundTrip | keggtools/utils.py:124-135 | to_css gives "rgb(" + three comma-separated decimals + ")" that parse back to the three components |
| Utils.ToHexBlue | keggtools/utils.py:138-150 | blue (0,0,255) is "#0000ff" |
| Utils.ToCssBlue | keggtools/utils.py:124-135 | blue (0,0,255) is "rgb(0,0,255)" |
| Utils.IsValidPathwayOrgIff | keggtools/utils.py:181-193 | an organism code is valid exactly when it is "ko", "ec" or three lower-case letters, optionally followed by one newline |
| Utils.IsValidPathwayNumberIff | keggtools/utils.py:196-206 | a pathway number is valid exactly when it is five digits, optionally followed by one newline |
| Utils.IsValidPathwayNameIff | keggtools/utils.py:209-220 | a pathway name is valid exactly when it is "path:", then an organism code, then five digits, optionally followed by one newline |
| Utils.IsValidHexColorIff | keggtools/utils.py:223-231 | a colour is valid exactly when it is "#" and six hex digits of either case, optionally followed by one newline |
| Utils.IsValidGeneNameIff | keggtools/utils.py:234-244 | a gene name is valid exactly when it is three lower-case letters, ":" and five digits, optionally followed by one newline |
| Utils.OrgExamples | keggtools/utils.py:181-193 | "ko", "ec", "hsa" and "hsa\n" are accepted |
| Utils.OrgCounterExamples | keggtools/utils.py:181-193 | "hs2", "" and "hsaa" are rejected |
| Utils.NumberExamples | keggtools/utils.py:196-206 | "12345" is accepted; "1234a" and "1234" are rejected |
| Utils.NameExamples | keggtools/utils.py:209-220 | "path:ko12345" is accepted |
| Utils.NameCounterExamples | keggtools/utils.py:209-220 | "prefix:ko12345" and "path:ko123456" are rejected |
| Utils.HexColorExamples | keggtools/utils.py:223-231 | "#00af4e" and "#00FFA4" are accepted; "#00af4E00" and "#00af4K" are rejected |
| Utils.GeneNameExamples | keggtools/utils.py:234-244 | "mmu:12345" and "hsa:00001" are accepted; "ko:12345" and "hsa:1234" are rejected |
| Utils.NameShapeLength | keggtools/utils.py:209-220 | a valid pathway name is 12 or 13 characters, and splits into an organism code and a pathway number |
| Strings.JoinSplit | keggtools/utils.py:68-76 | joining the pieces of a split with the separator gives back the text |
| Strings.SplitJoin | keggtools/utils.py:68-76 | splitting a join of separator-free pieces gives back the pieces |
| Strings.ParseIntDecimal | keggtools/utils.py:35-52 | int() of str(i) is i |
| Strings.BeforeFirstSpec | keggtools/render.py:320-324 | split(sep)[0] is the longest prefix without sep, and ends where the first sep starts |
| Strings.LowerCaseChars | keggtools/utils.py:135-150 | `str.lower` keeps the length and lower-cases each character on its own |
| Strings.Hex02Byte | keggtools/utils.py:138-150 | a byte formats as two lower-case hex digits that read back as the byte |
| Models.Component.Parse | keggtools/models.py:56-64 | succeeds exactly when "id" is present, copies it, and otherwise raises KeyError("id") |
| Models.ParseAllSpec | keggtools/models.py:226-255 | parsing the children with one tag succeeds exactly when each such child parses, and gives their results in document order |
| Models.Graphics.Parse | keggtools/models.py:88-98 | the attribute loop computes the graphics specification |
| Models.GraphicsOfFields | keggtools/models.py:71-98 | each field is the attribute of the same name; x/y/width/height are 0 when absent, text fields are "" |
| Models.GraphicsIgnoresUnknown | keggtools/models.py:88-98 | attributes outside the known set do not change the parsed graphics |
| Models.Relation.Parse | keggtools/models.py:23-38 | the method computes the relation specification |
| Models.RelationOfSpec | keggtools/models.py:23-38 | succeeds exactly when entry1, entry2 and type are present and each subtype child has a name and a value; copies the three attributes; a missing entry1 is KeyError("entry1") |
| Models.SubtypesKeys | keggtools/models.py:34-36 | the subtype dict's keys are the names of the subtype children |
| Models.SubtypesLast | keggtools/models.py:34-36 | a subtype name repeated in the children maps to the value of its last occurrence |
| Models.SubtypesSize | keggtools/models.py:34-36 | the dict has no more keys than there are subtype children |
| Models.Entry.GetGeneId | keggtools/models.py:117-122 | IndexError exactly when the name has no ":" |
| Models.GeneIdOfName | keggtools/models.py:117-122 | for a name "org:n", get_gene_id returns n |
| Models.Entry.Parse | keggtools/models.py:133-153 | the method computes the entry specification |
| Models.EntryOfSpec | keggtools/models.py:133-153 | a missing id or name raises KeyError; the name is kept up to its first space; link and reaction default to ""; one component per component child |
| Models.EntryChildrenSpec | keggtools/models.py:140-153 | the children parse when every component parses; the last graphics child wins |
| Models.KEGGPathway.Parse | keggtools/models.py:226-255 | the method computes the pathway specification |
| Models.PathwayOfSpec | keggtools/models.py:226-255 | name, org and number are required, in that order, with KeyError; it succeeds exactly when they are present and every entry and relation parses; the entries and relations follow document order; title, image and link default to "" |
| Models.KEGGPathway.GetEntryById | keggtools/models.py:179-183 | the loop computes the entry search specification |
| Models.FindEntrySpec | keggtools/models.py:179-183 | a found entry is the first whose int(id) equals the key; "not found" means none matches; with numeric ids the search succeeds and finds an entry exactly when one matches |
| Models.FindEntryLeadingZero | keggtools/models.py:179-183 | ids compare as integers, so key 44 finds the entry with id "044" |
| Models.KEGGPathway.GetGenes | keggtools/models.py:199-209 | the loop computes the gene dict specification |
| Models.GenesOk | keggtools/models.py:199-209 | get_genes succeeds exactly when every gene entry has graphics and a gene id |
| Models.GenesKeys | keggtools/models.py:199-209 | the dict's keys are exactly the gene ids of the gene entries |
| Models.GenesLast | keggtools/models.py:199-209 | a gene id maps to the graphics name of the last gene entry with that id |
| Models.GenesSize | keggtools/models.py:199-209 | no more keys than gene entries |
| Models.KEGGPathway.MatchesAsWritten | keggtools/models.py:185-197 | the code as written: the share of entries "in" the id list, comparing entry objects with ints; ZeroDivisionError for no entries |
| Models.MatchCountAsWrittenZero | keggtools/models.py:185-197 | as written, the match count is always 0 |
| Models.MatchesDiscrepancy | keggtools/models.py:185-197 | an entry "hsa:10" against [10] counts 0 as written and 1 as intended |
| Models.KEGGPathway.Matches | keggtools/models.py:185-197 | the share of entries whose gene id is in the list, between 0 and 1; ZeroDivisionError for no entries |
| Models.MatchCountBound | keggtools/models.py:185-197 | the count is at most the number of entries, and equal to it when every entry's id is listed |
| Analysis.TableFor | keggtools/analysis.py:232-237 | the contingency table's rows and columns add up to the study size, the pathway size and the total gene count |
| Analysis.IntersectGenes | keggtools/analysis.py:199-202 | the loop keeps exactly the pathway genes that are in the study list, in pathway order |
| Analysis.FoundGenes | keggtools/analysis.py:199-202 | a gene is found exactly when it is in both lists; no more than the pathway genes |
| Analysis.FoundGenesAppend | keggtools/analysis.py:199-202 | intersection distributes over concatenation of the pathway genes |
| Analysis.FoundGenesAll | keggtools/analysis.py:199-202 | when every pathway gene is studied, all are found |
| Analysis.EnrichmentResult.GetHeader | keggtools/analysis.py:102-118 | seven distinct column names, from pathway_name to found_genes |
| Analysis.EnrichmentResult.JsonSummary | keggtools/analysis.py:82-99 | the keys of a summary are the seven header names, in header order |
| Analysis.JsonSummaryValues | keggtools/analysis.py:82-99 | pathway_name and pathway_id are the result's name and id, pathway_title is the title or null; study_count and pathway_genes are the two counts; pvalue is the value or null; found_genes is the genes joined by the delimiter |
| Analysis.LookupAt | keggtools/analysis.py:82-99 | with distinct keys, each summary key looks up its own value |
| Analysis.MadeForCounts | keggtools/analysis.py:52-69 | a result made by the analysis has study_count at most pathway_genes_count, and its found genes are in both lists |
| Analysis.Subset | keggtools/analysis.py:155-177 | keeps exactly the results whose pathway id is in the subset, in order |
| Analysis.SubsetIdempotent | keggtools/analysis.py:155-177 | taking the same subset twice changes nothing |
| Analysis.SubsetAppend | keggtools/analysis.py:155-177 | subsetting distributes over concatenation of results |
| Analysis.Enrichment.CheckAnalysisResultExist | keggtools/analysis.py:147-153 | fails with ValueError exactly when there are no results |
| Analysis.Enrichment.GetSubset | keggtools/analysis.py:155-177 | ValueError without results; otherwise the subset, which replaces the results only when inplace |
| Analysis.Enrichment.RunAnalysis | keggtools/analysis.py:179-241 | appends one fresh result per pathway, made from that pathway and the study list, keeping earlier results; then, in result order, every result with a found gene gets the Fisher value of its table until the first table with a negative cell, where ValueError is raised and the remaining results keep their p-values; success exactly when no table is refused |
| Analysis.Enrichment.AppendResults | keggtools/analysis.py:189-215 | one new result per pathway, with no p-value yet; returns the total pathway gene count |
| Analysis.NegativeCellExample | keggtools/analysis.py:224-237 | one pathway with gene "g1" against the study list "g1", "x" gives the table [[1, 1], [0, -1]], which the test refuses |
| Analysis.FirstRefusedSpec | keggtools/analysis.py:217-239 | the results before the first refused one all pass the test, and the one at that position is refused |
| Analysis.Enrichment.AssignPValues | keggtools/analysis.py:217-239 | results with a found gene before the first refused table get the Fisher value of their table; ValueError exactly when some tested table has a negative cell; every other p-value is unchanged |
| Analysis.Enrichment.ToJson | keggtools/analysis.py:243-258 | ValueError without results; otherwise one comma-joined summary per result, in order |
| Analysis.CsvGuardAsWritten | keggtools/analysis.py:260-308 | the checks as written: the file is opened before the reserved-delimiter check and before the CSV writer refuses a delimiter that is not one character |
| Analysis.CsvGuardDiscrepancy | keggtools/analysis.py:260-308 | with delimiter " " or ", " and an existing file that may be overwritten, the code opens the file and then raises; the corrected guard opens nothing |
| Analysis.CsvGuard | keggtools/analysis.py:260-308 | the same verdicts as the code, but a failing call opens no file |
| Analysis.CsvGuardErrors | keggtools/analysis.py:260-308 | ValueError without results, TypeError for a target that is neither path nor file, RuntimeError for an existing file without overwrite, ValueError for the delimiter " ", TypeError for a delimiter that is not one character; passes exactly when none applies |
| Analysis.Enrichment.ToCsv | keggtools/analysis.py:260-314 | follows the corrected guard, including the TypeError for a delimiter that is not one character; on success writes one row per result holding its summary values (`CsvRow`: the `to_json` summary flattened with the space child delimiter), in result order |
| Analysis.Enrichment.CsvRows | keggtools/analysis.py:296-314 | exactly one row per enrichment result, row i being the summary values of result i |
| Resolver.GeneNamesUrl | keggtools/resolver.py:77-82 | the request URL starts with the list endpoint |
| Resolver.GeneNamesUrlQuery | keggtools/resolver.py:77-82 | the query part splits on "+" back into the requested genes |
| Resolver.GeneNameSpec | keggtools/resolver.py:85-88 | the sanitised name is the longest prefix without ", ", and is the whole value exactly when there is none |
| Resolver.GeneNameExample | keggtools/resolver.py:85-88 | "Birc2, API1, HIAP1" becomes "Birc2" |
| Resolver.Sanitized | keggtools/resolver.py:85-88 | sanitising keeps the set of gene ids |
| Resolver.SanitizedIdempotent | keggtools/resolver.py:85-88 | sanitising twice is sanitising once |
| Resolver.SanitizeNames | keggtools/resolver.py:85-88 | the loop computes the sanitised dict |
| Resolver.GetGeneNames | keggtools/resolver.py:49-98 | ValueError for no genes and for more than the limit (any limit, a negative one included), with the library's messages; request and table errors are passed on; otherwise the sanitised id→name table |
| Resolver.CacheStepStores | keggtools/resolver.py:130-162 | after a successful step the key holds the result; a failed request leaves the store alone; existing keys never change and no other key is added |
| Resolver.CacheStepHit | keggtools/resolver.py:148-151 | a cached key returns the cached text whatever the network would answer |
| Resolver.CacheStepAgain | keggtools/resolver.py:130-162 | after one success, a repeated request is a cache hit with the same answer and no change to the store |
| Resolver.PathwayListKeyInjective | keggtools/resolver.py:210-212 | different organisms get different pathway-list cache files |
| Resolver.PathwayKeyInjective | keggtools/resolver.py:229-232 | for organism codes without "_", different (organism, pathway) pairs get different KGML cache files |
| Resolver.CacheKeysDistinct | keggtools/resolver.py:193-268 | the pathway, pathway-list, compound and organism cache files never collide |
| Resolver.Resolver.CacheOrRequest | keggtools/resolver.py:130-162 | the result and new store are one cache step; the URL is requested only on a miss |
| Resolver.Resolver.CacheOrRequestToDict | keggtools/resolver.py:164-191 | a cache step followed by parsing the TSV into a dict on the two given columns |
| Resolver.Resolver.GetPathwayList | keggtools/resolver.py:193-214 | a cache step on "pathway_list_<org>.tsv", parsed on columns 0 and 1; the URL is requested exactly when the file is not cached |
| Resolver.Resolver.GetPathwayText | keggtools/resolver.py:216-236 | a cache step on "<org>_path<code>.kgml" with the KGML URL; the URL is requested exactly when the file is not cached |
| Resolver.Resolver.GetCompounds | keggtools/resolver.py:238-251 | a cache step on "compound.tsv", parsed on columns 0 and 1; the URL is requested exactly when the file is not cached |
| Resolver.Resolver.GetOrganismList | keggtools/resolver.py:253-268 | a cache step on "organism.tsv", parsed on columns 1 and 2; the URL is requested exactly when the file is not cached |
| Resolver.Resolver.CheckOrganism | keggtools/resolver.py:270-280 | true exactly when the code is a key of the organism table; errors are passed on; the organism list is requested exactly when "organism.tsv" is not cached |
| Render.KeyIndex | keggtools/render.py:90-104 | the position of the first item with the key, or the length when there is none |
| Render.DictSet | keggtools/render.py:90-104 | a dict update keeps insertion order, replaces an existing key in place, and appends exactly when the key is new |
| Render.DictOf | keggtools/render.py:380-425 | building a dict from pairs gives distinct keys, exactly the keys of the pairs |
| Render.DictOfLast | keggtools/render.py:380-425 | each key of the dict holds the value of the last pair with that key |
| Render.DictOfOrder | keggtools/render.py:380-425 | the keys of the dict are in the order of their first pairs |
| Render.EmbeddedTableRows | keggtools/render.py:55-106 | one row per item, or the first `truncate` rows and a "N more genes..." row; a negative truncate leaves only that row |
| Render.GenerateEmbeddedHtmlTable | keggtools/render.py:55-106 | the loop with its early break builds the table specification |
| Render.GeneColorDefault | keggtools/render.py:209-235 | a gene with no expression value, or a value of 0, gets the default colour as a valid hex colour that reads back as its components |
| Render.GeneColorWhite | keggtools/render.py:223-224 | with the white default the colour is "#ffffff" |
| Render.EntryById | keggtools/render.py:387-389 | finds an entry exactly when one has that id string, and then it is the first entry with that id |
| Render.LineStyle | keggtools/render.py:477-486 | GErel is dashed, PCrel dotted, everything else solid |
| Render.ArrowFor | keggtools/render.py:518-530 | an arrow for a subtype is one of normal, tee or diamond |
| Render.ArrowheadLastWins | keggtools/render.py:503-530 | the arrowhead is "none" exactly when no subtype names an arrow; otherwise it is the last such subtype's arrow |
| Render.EdgeLabelGlyphs | keggtools/render.py:489-537 | the edge label is the event glyphs joined by ", ", or no label when there are none |
| Render.EdgeLabelExample | keggtools/render.py:489-537 | activation, phosphorylation and ubiquitination give label "+p, +u" and a normal arrowhead |
| Render.EdgesOf | keggtools/render.py:468-543 | one edge per relation, in order, from entry1 to entry2 |
| Render.IntsOf | keggtools/render.py:308-309 | converting ids with int() succeeds exactly when all are integers, keeps them in order, and otherwise raises ValueError |
| Render.RelatedIdsSpec | keggtools/render.py:308-309 | the related ids are exactly the integer ends of the relations; ValueError exactly when some end is not an integer |
| Render.GroupItems | keggtools/render.py:380-425 | at most one table row per component, and any error is IndexError |
| Render.GroupItemsErr | keggtools/render.py:389-407 | IndexError exactly when a component names an entry with a graphics name but no gene ids |
| Render.GroupItemsRows | keggtools/render.py:389-407 | without an error, one row per named component in component order, each the first ", "-separated part of the entry's name and the colour of its first gene |
| Render.NodeForSpec | keggtools/render.py:311-450 | a non-integer id raises ValueError; a node is made exactly for a selected entry and is named by its id; compounds are white ovals; single genes are rectangles in their first gene's colour, and raise IndexError when the gene has no ids |
| Render.NodesOfSelected | keggtools/render.py:311-450 | when the pass succeeds, the nodes are exactly the selected entries, in order |
| Render.NodesOfNumericIds | keggtools/render.py:311-450 | with integer ids the only error the pass can raise is IndexError |
| Render.NodesOfStep | keggtools/render.py:311-450 | one more entry adds its node, skips it or stops with its error |
| Render.NodesOfAbort | keggtools/render.py:311-450 | after an error, later entries change nothing |
| Render.Renderer.Render | keggtools/render.py:281-543 | a bad relation end raises ValueError and adds nothing; otherwise it adds the nodes of the entry pass and, when that succeeds, one edge per relation |
| Render.Renderer.AddNodes | keggtools/render.py:311-450 | the loop adds the nodes of the entry pass and stops at its first error |
| Render.Renderer.AddEdges | keggtools/render.py:468-543 | adds one edge per relation and no node |

## Left out

- Reading and writing XML text. The model starts from a parsed element tree (`Element`); KGML serialisation is not part of this model.
- HTTP. The network is a deterministic function from URL to `Result<string>`; timeouts, status codes and retries are not modelled.
- `storage.py` is not part of this model. The cache is a `map` from file name to text, and the `Storage` choice in `Resolver.__init__` is left out.
- The Fisher exact test (scipy) is a function parameter from the contingency table to a real number. Its refusal of a table with a negative cell (ValueError) is modelled; the float result is not.
- `to_dataframe` (pandas) and the csv module's quoting are left out.
- File handles in `to_csv` are left out. The model returns which file would be opened and the rows it would write.
- Floating-point colour arithmetic is left out. The branch of `get_gene_color` for non-zero expression values is a shading function parameter. `ColorGradient` and the cached colour maps are left out.
- pydot and graphviz are left out: the `Dot` attributes, node and edge styling constants, and `to_string`, `to_binary` and `to_file`.
- The Renderer's own resolver is left out.
- Text details are left out: `\r` line endings and csv quoting in `parse_tsv`; whitespace, `_` separators and non-ASCII digits in `int()`; Unicode lower-casing.
- Utils.GetNumericAttribute: accepts only ASCII digit strings. Python's `str.isnumeric` also accepts other Unicode numerals (such as "½", "٣" or "²"), which the model rejects with ValueError, because Unicode character classes are not modelled.
- Models.KEGGPathway.Matches: the share is an exact rational number (`real`); Python divides to a float, so the rounding of `count / len(self.entries)` is not modelled. The same holds for Models.KEGGPathway.MatchesAsWritten.
- Analysis.CsvGuard: only the one-character rule of the csv module's delimiter check is modelled; its other dialect checks are not.
- `__str__`, `summarize` and the `get_id` alias are not modelled.
- Resolver.Resolver.GetPathwayText: returns the KGML text; parsing it into a `Pathway` in `get_pathway` is the model of `models.py`, not repeated here.
- Render: `Pathway.get_entry_by_id` and `Entry.get_gene_id()` of the newer API are not in these files. The model assumes the first entry with an equal id string, and a list of id strings.
- Render.Renderer.Render: the multi-gene table label and the group label are produced but their HTML text is not stated in the contract; only which entries become nodes, their names and, for compounds and single genes, the whole node.
- Analysis.Enrichment.RunAnalysis: the pathway genes come as records of organism, number, name, title and gene ids; the KGML-to-gene-list step is `get_genes`, modelled in `models.py`.

## Findings

| source | as written | input that shows it | evidently intended | confidence | as-written member | corrected member |
|---|---|---|---|---|---|---|
| keggtools/models.py:185-197 | `matches` tests `entry in gene_id_list`, comparing an `Entry` object with ints, so the count is always 0 | one entry named "hsa:10" and the list [10] gives 0.0 | count the entries whose gene id is in the list, giving 1.0 | not executed | Models.MatchesDiscrepancy | Models.KEGGPathway.Matches |
| keggtools/analysis.py:260-308 | `to_csv` opens (and truncates) the target file before it rejects the reserved delimiter " ", and before the CSV writer rejects a delimiter that is not one character | an existing file "out.tsv", overwrite true, delimiter " ": the file is opened, then ValueError (with ", ": opened, then TypeError) | check the delimiter before opening, so a rejected call leaves the file alone | not executed | Analysis.CsvGuardDiscrepancy | Analysis.CsvGuard |

/** keggtools/analysis.py: the pathway enrichment engine. An `Enrichment`
    holds the pathways to test and a growing list of `EnrichmentResult`
    objects; `run_analysis` appends one result per pathway and fills in the
    p-values, the exports turn the results into rows. */
module Analysis {
  import opened Wrappers
  import opened Strings

  /** What the engine reads from a pathway: its organism, number, name,
      optional title and its gene identifiers (`Pathway.get_genes()`). */
  datatype PathwayGenes = PathwayGenes(org: string, number: string, name: string, title: Option<string>, genes: seq<string>)

  /** A value of a JSON summary. */
  datatype JsonValue = JNull | JStr(s: string) | JInt(i: int) | JReal(r: real)

  /** An insertion-ordered dictionary, as a list of key/value pairs. */
  type Summary = seq<(string, JsonValue)>

  function Keys(s: Summary): (ks: seq<string>)
    ensures |ks| == |s| && forall i :: 0 <= i < |s| ==> ks[i] == s[i].0
  {
    seq(|s|, i requires 0 <= i < |s| => s[i].0)
  }

  function Values(s: Summary): (vs: seq<JsonValue>)
    ensures |vs| == |s| && forall i :: 0 <= i < |s| ==> vs[i] == s[i].1
  {
    seq(|s|, i requires 0 <= i < |s| => s[i].1)
  }

  /** `d[key]`: the value stored under the first occurrence of `key`. */
  function Lookup(s: Summary, key: string): (v: Option<JsonValue>)
    ensures v.Some? <==> key in Keys(s)
  {
    if s == [] then None
    else if s[0].0 == key then Some(s[0].1)
    else
      assert Keys(s[1..]) == Keys(s)[1..];
      Lookup(s[1..], key)
  }

  /** No key occurs twice. */
  predicate DistinctKeys(s: Summary)
  {
    forall i, j :: 0 <= i < j < |s| ==> s[i].0 != s[j].0
  }

  /** In a summary without repeated keys, each key looks up its own value. */
  lemma {:induction false} LookupAt(s: Summary, i: nat)
    requires DistinctKeys(s) && i < |s|
    ensures Lookup(s, s[i].0) == Some(s[i].1)
    decreases i
  {
    if i > 0 {
      assert s[0].0 != s[i].0;
      assert s[1..][i - 1] == s[i];
      LookupAt(s[1..], i - 1);
    }
  }

  /** The contingency table handed to Fisher's exact test:
      [[a, b], [c, d]]. */
  datatype Table = Table(a: int, b: int, c: int, d: int)

  /** The table for a pathway with `pathwayCount` genes of which `studyCount`
      were found, a study list of `studyN` genes, and `absolute` pathway genes
      over the whole run: the table whose first cell is the found count and
      whose margins are the study size, the pathway size and the total. */
  function TableFor(studyCount: int, pathwayCount: int, studyN: int, absolute: int): (t: Table)
    ensures t.a == studyCount
    ensures t.a + t.b == studyN
    ensures t.a + t.c == pathwayCount
    ensures t.a + t.b + t.c + t.d == absolute
  {
    var b := studyN - studyCount;
    Table(studyCount, b, pathwayCount - studyCount, absolute - pathwayCount - b)
  }

  /** Fisher's exact test refuses a table with a negative cell (ValueError). */
  predicate Negative(t: Table)
  {
    t.a < 0 || t.b < 0 || t.c < 0 || t.d < 0
  }

  /** A study list with a gene in no pathway makes the last cell negative:
      one pathway with gene "g1" against the study list "g1", "x". */
  lemma NegativeCellExample()
    ensures TableFor(1, 1, 2, 1) == Table(1, 1, 0, -1)
    ensures Negative(TableFor(1, 1, 2, 1))
  {
  }

  /** The genes of the pathway that are in the study list, in pathway order. */
  function FoundGenes(genes: seq<string>, geneList: seq<string>): (found: seq<string>)
    ensures |found| <= |genes|
    ensures forall g :: g in found <==> g in genes && g in geneList
  {
    if genes == [] then []
    else
      var last := genes[|genes| - 1];
      assert genes == genes[..|genes| - 1] + [last];
      FoundGenes(genes[..|genes| - 1], geneList) + (if last in geneList then [last] else [])
  }

  /** Filtering distributes over concatenation, so it keeps the pathway's
      order. */
  lemma {:induction false} FoundGenesAppend(xs: seq<string>, ys: seq<string>, geneList: seq<string>)
    ensures FoundGenes(xs + ys, geneList) == FoundGenes(xs, geneList) + FoundGenes(ys, geneList)
    decreases |ys|
  {
    if ys == [] {
      assert xs + ys == xs;
    } else {
      var init := ys[..|ys| - 1];
      var last := ys[|ys| - 1];
      var tail := if last in geneList then [last] else [];
      FoundGenesAppend(xs, init, geneList);
      assert (xs + ys)[..|xs + ys| - 1] == xs + init;
      assert (xs + ys)[|xs + ys| - 1] == last;
      assert FoundGenes(xs + ys, geneList) == FoundGenes(xs + init, geneList) + tail;
      assert FoundGenes(ys, geneList) == FoundGenes(init, geneList) + tail;
    }
  }

  /** Every gene of the pathway is found when the study list covers the
      pathway. */
  lemma {:induction false} FoundGenesAll(genes: seq<string>, geneList: seq<string>)
    requires forall g :: g in genes ==> g in geneList
    ensures FoundGenes(genes, geneList) == genes
    decreases |genes|
  {
    if genes != [] {
      FoundGenesAll(genes[..|genes| - 1], geneList);
      assert genes == genes[..|genes| - 1] + [genes[|genes| - 1]];
    }
  }

  /** The number of genes of all the pathways, counted per pathway. */
  function TotalGenes(pathways: seq<PathwayGenes>): nat
  {
    if pathways == [] then 0
    else TotalGenes(pathways[..|pathways| - 1]) + |pathways[|pathways| - 1].genes|
  }

  /** The inner loop of `run_analysis`: the pathway genes that are in the
      study list. */
  method IntersectGenes(genes: seq<string>, geneList: seq<string>) returns (found: seq<string>)
    ensures found == FoundGenes(genes, geneList)
  {
    found := [];
    var i := 0;
    while i < |genes|
      invariant 0 <= i <= |genes|
      invariant found == FoundGenes(genes[..i], geneList)
    {
      assert genes[..i + 1][..i] == genes[..i];
      if genes[i] in geneList {
        found := found + [genes[i]];
      }
      i := i + 1;
    }
    assert genes[..i] == genes;
  }

  /** The seven columns of a summary, in order. */
  const Header: seq<string> :=
    ["pathway_name", "pathway_title", "pathway_id", "study_count", "pathway_genes", "pvalue", "found_genes"]

  /** One pathway's outcome. Only `pvalue` is ever written after
      construction. */
  class EnrichmentResult {
    const organism: string
    const pathwayId: string
    const pathwayName: string
    const pathwayTitle: Option<string>
    const foundGenes: seq<string>
    const pathwayGenes: seq<string>
    var pvalue: Option<real>

    constructor (org: string, pathwayId: string, pathwayName: string, foundGenes: seq<string>,
                 pathwayGenes: seq<string>, pathwayTitle: Option<string>)
      ensures this.organism == org && this.pathwayId == pathwayId && this.pathwayName == pathwayName
      ensures this.foundGenes == foundGenes && this.pathwayGenes == pathwayGenes
      ensures this.pathwayTitle == pathwayTitle
      ensures this.pvalue == None
    {
      this.organism := org;
      this.pathwayId := pathwayId;
      this.pathwayName := pathwayName;
      this.pathwayTitle := pathwayTitle;
      this.foundGenes := foundGenes;
      this.pathwayGenes := pathwayGenes;
      this.pvalue := None;
    }

    /** `pathway_genes_count`. */
    function PathwayGenesCount(): nat { |pathwayGenes| }

    /** `study_count`. */
    function StudyCount(): nat { |foundGenes| }

    /** `get_header`: the column names, seven distinct names in a fixed order. */
    static function GetHeader(): (h: seq<string>)
      ensures |h| == 7
      ensures forall i, j :: 0 <= i < j < |h| ==> h[i] != h[j]
      ensures h[0] == "pathway_name" && h[6] == "found_genes"
    {
      Header
    }

    /** `json_summary`: one entry per header column, in header order. */
    function JsonSummary(geneDelimiter: string): (s: Summary)
      reads this
      ensures Keys(s) == GetHeader()
    {
      var s :=
        [("pathway_name", JStr(pathwayName)),
         ("pathway_title", if pathwayTitle.Some? then JStr(pathwayTitle.value) else JNull),
         ("pathway_id", JStr(pathwayId)),
         ("study_count", JInt(StudyCount())),
         ("pathway_genes", JInt(PathwayGenesCount())),
         ("pvalue", if pvalue.Some? then JReal(pvalue.value) else JNull),
         ("found_genes", JStr(Join(foundGenes, geneDelimiter)))];
      assert Keys(s) == Header;
      s
    }
  }

  /** The values of a summary: the pathway's name and id, its title or null,
      the two counts as integers, the p-value or null, and the found genes
      joined by the delimiter. */
  lemma JsonSummaryValues(x: EnrichmentResult, geneDelimiter: string)
    ensures var s := x.JsonSummary(geneDelimiter);
      && Lookup(s, "pathway_name") == Some(JStr(x.pathwayName))
      && Lookup(s, "pathway_title") == Some(if x.pathwayTitle.Some? then JStr(x.pathwayTitle.value) else JNull)
      && Lookup(s, "pathway_id") == Some(JStr(x.pathwayId))
      && Lookup(s, "study_count") == Some(JInt(x.StudyCount()))
      && Lookup(s, "pathway_genes") == Some(JInt(x.PathwayGenesCount()))
      && Lookup(s, "pvalue") == Some(if x.pvalue.Some? then JReal(x.pvalue.value) else JNull)
      && Lookup(s, "found_genes") == Some(JStr(Join(x.foundGenes, geneDelimiter)))
  {
    var s := x.JsonSummary(geneDelimiter);
    assert Keys(s) == Header;
    LookupAt(s, 0);
    LookupAt(s, 1);
    LookupAt(s, 2);
    LookupAt(s, 3);
    LookupAt(s, 4);
    LookupAt(s, 5);
    LookupAt(s, 6);
  }

  /** Result `x` was made for pathway `p` and study list `geneList`. */
  predicate MadeFor(x: EnrichmentResult, p: PathwayGenes, geneList: seq<string>)
  {
    && x.organism == p.org && x.pathwayId == p.number && x.pathwayName == p.name
    && x.pathwayTitle == p.title && x.pathwayGenes == p.genes
    && x.foundGenes == FoundGenes(p.genes, geneList)
  }

  /** A result made by the engine never finds more genes than its pathway has. */
  lemma MadeForCounts(x: EnrichmentResult, p: PathwayGenes, geneList: seq<string>)
    requires MadeFor(x, p, geneList)
    ensures x.StudyCount() <= x.PathwayGenesCount()
    ensures forall g :: g in x.foundGenes ==> g in x.pathwayGenes && g in geneList
  {
  }

  /** The table `run_analysis` tests for result `x`, given the study size and
      the run's total number of pathway genes. */
  function TableOf(x: EnrichmentResult, studyN: int, absolute: int): Table
  {
    TableFor(x.StudyCount(), x.PathwayGenesCount(), studyN, absolute)
  }

  /** Result `x` is tested, and the test refuses its table. */
  predicate Refused(x: EnrichmentResult, studyN: int, absolute: int)
  {
    x.StudyCount() > 0 && Negative(TableOf(x, studyN, absolute))
  }

  /** The position of the first result whose test is refused; the number of
      results when there is none. */
  function FirstRefused(results: seq<EnrichmentResult>, studyN: int, absolute: int): (k: nat)
    ensures k <= |results|
  {
    if results == [] then 0
    else if Refused(results[0], studyN, absolute) then 0
    else 1 + FirstRefused(results[1..], studyN, absolute)
  }

  /** The results before the first refused one pass the test, and the one at
      that position is refused. */
  lemma {:induction false} FirstRefusedSpec(results: seq<EnrichmentResult>, studyN: int, absolute: int)
    ensures var k := FirstRefused(results, studyN, absolute);
      && (forall i :: 0 <= i < k ==> !Refused(results[i], studyN, absolute))
      && (k < |results| ==> Refused(results[k], studyN, absolute))
    decreases |results|
  {
    if results != [] && !Refused(results[0], studyN, absolute) {
      FirstRefusedSpec(results[1..], studyN, absolute);
      var k := FirstRefused(results, studyN, absolute);
      forall i | 0 < i < k
        ensures !Refused(results[i], studyN, absolute)
      {
        assert results[i] == results[1..][i - 1];
      }
      if k < |results| {
        assert results[k] == results[1..][k - 1];
      }
    }
  }

  /** The results whose pathway id is in `subset`, in their original order. */
  function Subset(results: seq<EnrichmentResult>, subset: seq<string>): (r: seq<EnrichmentResult>)
    ensures |r| <= |results|
    ensures forall i :: 0 <= i < |r| ==> r[i] in results && r[i].pathwayId in subset
    ensures forall i :: 0 <= i < |results| && results[i].pathwayId in subset ==> results[i] in r
  {
    if results == [] then []
    else
      var last := results[|results| - 1];
      assert results == results[..|results| - 1] + [last];
      Subset(results[..|results| - 1], subset) + (if last.pathwayId in subset then [last] else [])
  }

  /** Filtering twice by the same ids changes nothing. */
  lemma {:induction false} SubsetIdempotent(results: seq<EnrichmentResult>, subset: seq<string>)
    ensures Subset(Subset(results, subset), subset) == Subset(results, subset)
    decreases |results|
  {
    if results != [] {
      var init := results[..|results| - 1];
      var last := results[|results| - 1];
      SubsetIdempotent(init, subset);
      SubsetAppend(Subset(init, subset), if last.pathwayId in subset then [last] else [], subset);
    }
  }

  /** Filtering distributes over concatenation, so it keeps the results'
      order. */
  lemma {:induction false} SubsetAppend(xs: seq<EnrichmentResult>, ys: seq<EnrichmentResult>, subset: seq<string>)
    ensures Subset(xs + ys, subset) == Subset(xs, subset) + Subset(ys, subset)
    decreases |ys|
  {
    if ys == [] {
      assert xs + ys == xs;
    } else {
      var init := ys[..|ys| - 1];
      SubsetAppend(xs, init, subset);
      assert (xs + ys)[..|xs + ys| - 1] == xs + init;
      assert (xs + ys)[|xs + ys| - 1] == ys[|ys| - 1];
    }
  }

  /** A row of the delimited export: the summary's values in header order. */
  type Row = seq<JsonValue>

  /** Where `to_csv` writes. */
  datatype CsvTarget =
    | FilePath(path: string)   // a file name
    | Stream                   // an open IOBase stream
    | OtherObject              // anything else

  /** The column separator reserved for the gene lists. */
  const ChildDelimiter: string := " "

  /** The file `open(file_obj, mode="w")` opens: the path, for a path. */
  function Opened(target: CsvTarget): Option<string>
  {
    if target.FilePath? then Some(target.path) else None
  }

  /** The checks `to_csv` makes as written, given whether there are results
      and which files exist: the file a path names is opened for writing
      (and so created or emptied) BEFORE the delimiter is checked, so a
      rejected delimiter still leaves it opened. */
  function CsvGuardAsWritten(hasResults: bool, target: CsvTarget, delimiter: string, overwrite: bool,
                             existing: set<string>): (r: (Option<string>, Outcome))
  {
    if !hasResults then (None, Fail(ValueError("need to 'run_analysis' first")))
    else if target.OtherObject? then
      (None, Fail(TypeError("Argument 'file_obj' must be string or IOBase instance")))
    else if target.FilePath? && target.path in existing && !overwrite then
      (None, Fail(RuntimeError("File does already exist.")))
    else if ChildDelimiter == delimiter then
      (Opened(target), Fail(ValueError("This delimiter is reserved to seperate list of genes.")))
    else if |delimiter| != 1 then
      (Opened(target), Fail(TypeError("\"delimiter\" must be a 1-character string")))
    else (Opened(target), Pass)
  }

  /** The checks as evidently intended: every check comes before the file is
      opened. */
  function CsvGuard(hasResults: bool, target: CsvTarget, delimiter: string, overwrite: bool,
                    existing: set<string>): (r: (Option<string>, Outcome))
    ensures r.1.Fail? ==> r.0 == None
    ensures r.1.Pass? <==> CsvGuardAsWritten(hasResults, target, delimiter, overwrite, existing).1.Pass?
    ensures r.1.Pass? ==> r.0 == CsvGuardAsWritten(hasResults, target, delimiter, overwrite, existing).0
    ensures r.1.Fail? ==> r.1 == CsvGuardAsWritten(hasResults, target, delimiter, overwrite, existing).1
  {
    var asWritten := CsvGuardAsWritten(hasResults, target, delimiter, overwrite, existing);
    if asWritten.1.Fail? then (None, asWritten.1) else asWritten
  }

  /** An existing file, overwrite allowed, the space or a two-character
      delimiter: as written the file is opened (and emptied) and then the
      call fails. */
  lemma CsvGuardDiscrepancy()
    ensures CsvGuardAsWritten(true, FilePath("out.tsv"), " ", true, {"out.tsv"}) ==
      (Some("out.tsv"), Fail(ValueError("This delimiter is reserved to seperate list of genes.")))
    ensures CsvGuard(true, FilePath("out.tsv"), " ", true, {"out.tsv"}).0 == None
    ensures CsvGuardAsWritten(true, FilePath("out.tsv"), ", ", true, {"out.tsv"}).0 == Some("out.tsv")
    ensures CsvGuardAsWritten(true, FilePath("out.tsv"), ", ", true, {"out.tsv"}).1.Fail?
    ensures CsvGuard(true, FilePath("out.tsv"), ", ", true, {"out.tsv"}).0 == None
  {
  }

  /** The checks fail in this order: no results (ValueError), a target that
      is neither a path nor a stream (TypeError), an existing file without
      overwrite (RuntimeError), the reserved delimiter (ValueError), a
      delimiter that is not one character, refused by the CSV writer
      (TypeError). */
  lemma CsvGuardErrors(hasResults: bool, target: CsvTarget, delimiter: string, overwrite: bool, existing: set<string>)
    ensures var o := CsvGuard(hasResults, target, delimiter, overwrite, existing).1;
      && (!hasResults ==> o.Fail? && o.error.ValueError?)
      && (hasResults && target.OtherObject? ==> o.Fail? && o.error.TypeError?)
      && (hasResults && target.FilePath? && target.path in existing && !overwrite ==> o.Fail? && o.error.RuntimeError?)
      && var opens := hasResults && !target.OtherObject? && !(target.FilePath? && target.path in existing && !overwrite);
      && (opens && delimiter == " " ==> o.Fail? && o.error.ValueError?)
      && (opens && delimiter != " " && |delimiter| != 1 ==> o.Fail? && o.error.TypeError?)
      && (o.Pass? <==> opens && delimiter != " " && |delimiter| == 1)
  {
  }

  /** The enrichment engine. */
  class Enrichment {
    var result: seq<EnrichmentResult>
    const allPathways: seq<PathwayGenes>

    constructor (pathways: seq<PathwayGenes>)
      ensures result == [] && allPathways == pathways
    {
      result := [];
      allPathways := pathways;
    }

    /** `_check_analysis_result_exist`: fails iff there are no results yet. */
    method CheckAnalysisResultExist() returns (o: Outcome)
      ensures o.Fail? <==> result == []
      ensures o.Fail? ==> o.error.ValueError?
    {
      if |result| == 0 {
        return Fail(ValueError("need to 'run_analysis' first"));
      }
      return Pass;
    }

    /** `get_subset`: the results whose pathway id is in `subset`, in order;
        with `inplace` they replace the results. */
    method GetSubset(subset: seq<string>, inplace: bool) returns (r: Result<seq<EnrichmentResult>>)
      modifies this
      ensures old(result) == [] ==> r.Err? && r.error.ValueError?
      ensures old(result) != [] ==> r == Ok(Subset(old(result), subset))
      ensures result == (if r.Ok? && inplace then r.value else old(result))
    {
      var check := CheckAnalysisResultExist();
      if check.Fail? {
        return Err(check.error);
      }
      var buffer: seq<EnrichmentResult> := [];
      var i := 0;
      while i < |result|
        invariant 0 <= i <= |result|
        invariant buffer == Subset(result[..i], subset)
      {
        assert result[..i + 1][..i] == result[..i];
        if result[i].pathwayId in subset {
          buffer := buffer + [result[i]];
        }
        i := i + 1;
      }
      assert result[..i] == result;
      if inplace {
        result := buffer;
      }
      r := Ok(buffer);
    }

    /** `run_analysis`: appends one fresh result per pathway, in order, after
        the existing ones; then the results, old and new, are tested in order
        against this run's totals. Every result with found genes gets the
        p-value of its table, until the first table with a negative cell,
        where the test raises ValueError; the results from there on, and those
        without found genes, keep their p-value (None for a new one). */
    method RunAnalysis(geneList: seq<string>, fisher: Table -> real) returns (r: Result<seq<EnrichmentResult>>)
      modifies this, result
      ensures |result| == |old(result)| + |allPathways|
      ensures result[..|old(result)|] == old(result)
      ensures forall j :: |old(result)| <= j < |result| ==>
        fresh(result[j]) && MadeFor(result[j], allPathways[j - |old(result)|], geneList)
      ensures var k := FirstRefused(result, |geneList|, TotalGenes(allPathways));
        && (r.Ok? <==> k == |result|)
        && (r.Ok? ==> r.value == result)
        && (r.Err? ==> r.error.ValueError?)
        && forall x :: x in result ==>
             x.pvalue == (if x in result[..k] && x.StudyCount() > 0
                          then Some(fisher(TableOf(x, |geneList|, TotalGenes(allPathways))))
                          else if x in old(result) then old(x.pvalue) else None)
    {
      ghost var before := result;
      var absolutePathwayGenes := AppendResults(geneList);
      forall j | 0 <= j < |result| ensures result[j] in before || fresh(result[j]) {
        if j < |before| {
          assert result[j] == result[..|before|][j];
        }
      }
      forall x | x in result && x !in before
        ensures x.pvalue == None
      {
        var j :| 0 <= j < |result| && result[j] == x;
      }
      var o := AssignPValues(fisher, |geneList|, absolutePathwayGenes);
      if o.Fail? {
        return Err(o.error);
      }
      r := Ok(result);
    }

    /** The first loop of `run_analysis`: one new result per pathway, holding
        the genes of the study list found in it and no p-value yet; returns
        the number of genes over all pathways. */
    method AppendResults(geneList: seq<string>) returns (absolutePathwayGenes: nat)
      modifies this
      ensures absolutePathwayGenes == TotalGenes(allPathways)
      ensures |result| == |old(result)| + |allPathways|
      ensures result[..|old(result)|] == old(result)
      ensures forall j :: |old(result)| <= j < |result| ==>
        fresh(result[j]) && result[j].pvalue == None && MadeFor(result[j], allPathways[j - |old(result)|], geneList)
    {
      absolutePathwayGenes := 0;
      ghost var before := result;
      var k := 0;
      while k < |allPathways|
        invariant 0 <= k <= |allPathways|
        invariant |result| == |before| + k
        invariant result[..|before|] == before
        invariant absolutePathwayGenes == TotalGenes(allPathways[..k])
        invariant forall j :: |before| <= j < |result| ==>
          fresh(result[j]) && result[j].pvalue == None && MadeFor(result[j], allPathways[j - |before|], geneList)
      {
        var pathway := allPathways[k];
        assert allPathways[..k + 1][..k] == allPathways[..k];
        var allPathwaysGenes := pathway.genes;
        absolutePathwayGenes := absolutePathwayGenes + |allPathwaysGenes|;
        var genesFound := IntersectGenes(allPathwaysGenes, geneList);
        var pathwayResult := new EnrichmentResult(pathway.org, pathway.number, pathway.name,
                                                  genesFound, allPathwaysGenes, pathway.title);
        ghost var prev := result;
        result := result + [pathwayResult];
        assert forall j :: 0 <= j < |prev| ==> result[j] == prev[j];
        k := k + 1;
      }
      assert allPathways[..k] == allPathways;
    }

    /** The second loop of `run_analysis`: the results are tested in order;
        each with found genes gets the p-value of the table built from its
        counts, the study size and the given total, until a table has a
        negative cell and the test raises ValueError. */
    method AssignPValues(fisher: Table -> real, studyN: nat, absolutePathwayGenes: nat) returns (o: Outcome)
      modifies result
      ensures var k := FirstRefused(result, studyN, absolutePathwayGenes);
        && (o.Fail? <==> k < |result|)
        && (o.Fail? ==> o.error.ValueError?)
        && forall x :: x in result ==>
             x.pvalue == (if x in result[..k] && x.StudyCount() > 0
                          then Some(fisher(TableOf(x, studyN, absolutePathwayGenes)))
                          else old(x.pvalue))
    {
      FirstRefusedSpec(result, studyN, absolutePathwayGenes);
      ghost var k := FirstRefused(result, studyN, absolutePathwayGenes);
      var i := 0;
      while i < |result|
        invariant 0 <= i <= |result|
        invariant i <= k
        invariant forall x :: x in result ==>
          x.pvalue == (if x in result[..i] && x.StudyCount() > 0
                       then Some(fisher(TableOf(x, studyN, absolutePathwayGenes)))
                       else old(x.pvalue))
      {
        var analysis := result[i];
        assert result[..i + 1] == result[..i] + [analysis];
        if analysis.StudyCount() > 0 {
          var aVar := analysis.StudyCount();
          var bVar := studyN - analysis.StudyCount();
          var cVar := analysis.PathwayGenesCount() - analysis.StudyCount();
          var dVar := absolutePathwayGenes - analysis.PathwayGenesCount() - bVar;
          var table := Table(aVar, bVar, cVar, dVar);
          assert table == TableOf(analysis, studyN, absolutePathwayGenes);
          if Negative(table) {
            assert Refused(result[i], studyN, absolutePathwayGenes);
            assert i == k;
            return Fail(ValueError("All values in `table` must be nonnegative."));
          }
          analysis.pvalue := Some(fisher(table));
        }
        assert !Refused(result[i], studyN, absolutePathwayGenes);
        assert i < k;
        i := i + 1;
      }
      assert result[..i] == result;
      o := Pass;
    }

    /** `to_json`: one summary per result, in order, with genes joined by ",". */
    method ToJson() returns (r: Result<seq<Summary>>)
      ensures result == [] ==> r.Err? && r.error.ValueError?
      ensures result != [] ==> r.Ok? && |r.value| == |result|
      ensures r.Ok? ==> forall i :: 0 <= i < |result| ==> r.value[i] == result[i].JsonSummary(",")
    {
      var check := CheckAnalysisResultExist();
      if check.Fail? {
        return Err(check.error);
      }
      var summaries: seq<Summary> := [];
      var i := 0;
      while i < |result|
        invariant 0 <= i <= |result|
        invariant |summaries| == i
        invariant forall j :: 0 <= j < i ==> summaries[j] == result[j].JsonSummary(",")
      {
        summaries := summaries + [result[i].JsonSummary(",")];
        i := i + 1;
      }
      r := Ok(summaries);
    }

    /** The line `to_csv` writes for one result. */
    static function CsvRow(x: EnrichmentResult): Row
      reads x
    {
      Values(x.JsonSummary(ChildDelimiter))
    }

    /** `to_csv`, with its checks in the intended order. On success it names
        the file it opened (None for a stream) and gives the rows written:
        no header row, one row per result holding its summary's values in
        header order with the genes joined by a space. */

    method ToCsv(target: CsvTarget, delimiter: string, overwrite: bool, existing: set<string>)
      returns (openedFile: Option<string>, r: Result<seq<Row>>)
      ensures openedFile == CsvGuard(result != [], target, delimiter, overwrite, existing).0
      ensures r.Ok? <==> CsvGuard(result != [], target, delimiter, overwrite, existing).1.Pass?
      ensures r.Err? ==> Fail(r.error) == CsvGuard(result != [], target, delimiter, overwrite, existing).1
      ensures r.Ok? ==> |r.value| == |result|
      ensures r.Ok? ==> forall i :: 0 <= i < |result| ==> r.value[i] == CsvRow(result[i])
    {
      var guard := CsvGuard(result != [], target, delimiter, overwrite, existing);
      openedFile := guard.0;
      if guard.1.Fail? {
        return openedFile, Err(guard.1.error);
      }
      var rows := CsvRows();
      r := Ok(rows);
    }

    /** The lines `to_csv` writes, one per result in order. */
    method CsvRows() returns (rows: seq<Row>)
      ensures |rows| == |result|
      ensures forall i :: 0 <= i < |result| ==> rows[i] == CsvRow(result[i])
    {
      rows := [];
      var i := 0;
      while i < |result|
        invariant 0 <= i <= |result|
        invariant |rows| == i
        invariant forall j :: 0 <= j < i ==> rows[j] == CsvRow(result[j])
      {
        rows := rows + [CsvRow(result[i])];
        i := i + 1;
      }
    }
  }
}

/** keggtools/resolver.py: the requests to the KEGG REST service. A
    `Resolver` answers each request from its cache when the cache holds the
    file and otherwise fetches it and stores it; the gene name lookup goes to
    the network directly. The cache is a map from file name to text, and the
    network is a function from URL to the text it serves or an HTTP error. */
module Resolver {
  import opened Wrappers
  import opened Strings
  import opened Utils

  /** What the network serves at a URL. */
  type Fetch = string -> Result<string>

  /** The default `max_genes` of `get_gene_names`. */
  const MaxGenes: nat := 50

  const ListUrl: string := "http://rest.kegg.jp/list/"

  /** The URL `get_gene_names` requests: the genes joined by "+", in input
      order. */
  function GeneNamesUrl(genes: seq<string>): (url: string)
    ensures |ListUrl| <= |url| && url[..|ListUrl|] == ListUrl
  {
    ListUrl + Join(genes, "+")
  }

  /** The query part of the URL gives back the gene list, provided no gene
      identifier holds a "+". */
  lemma GeneNamesUrlQuery(genes: seq<string>)
    requires |genes| >= 1
    requires forall i :: 0 <= i < |genes| ==> '+' !in genes[i]
    ensures Split(GeneNamesUrl(genes)[|ListUrl|..], "+") == genes
  {
    assert GeneNamesUrl(genes)[|ListUrl|..] == Join(genes, ['+']);
    SplitJoin(genes, '+');
  }

  /** A gene's name: the text before the first ", " of the listed names. */
  function GeneName(value: string): (name: string)
  {
    BeforeFirst(value, ", ")
  }

  /** A gene name is the longest prefix of the listed names free of ", ". */
  lemma GeneNameSpec(value: string)
    ensures |GeneName(value)| <= |value| && value[..|GeneName(value)|] == GeneName(value)
    ensures !Contains(GeneName(value), ", ")
    ensures GeneName(value) == value || OccursAt(value, ", ", |GeneName(value)|)
    ensures GeneName(value) == value <==> !Contains(value, ", ")
  {
    BeforeFirstSpec(value, ", ");
  }

  lemma GeneNameExample()
    ensures GeneName("Birc2, API1, HIAP1") == "Birc2"
  {
    var s := "Birc2, API1, HIAP1";
    assert OccursAt(s, ", ", 5);
    forall k | 0 <= k < 5
      ensures !OccursAt(s, ", ", k)
    {
      assert s[k] != ',' && s[k..k + 2][0] == s[k];
    }
    FirstOccurrence(s, ", ", 5);
    assert s[..5] == "Birc2";
  }

  /** The sanitised dictionary: the same keys, each value cut to its first
      name. */
  function Sanitized(resolved: map<string, string>): (m: map<string, string>)
    ensures m.Keys == resolved.Keys
  {
    map k | k in resolved :: GeneName(resolved[k])
  }

  /** Sanitising twice is sanitising once. */
  lemma SanitizedIdempotent(resolved: map<string, string>)
    ensures Sanitized(Sanitized(resolved)) == Sanitized(resolved)
  {
    forall k | k in resolved
      ensures GeneName(GeneName(resolved[k])) == GeneName(resolved[k])
    {
      GeneNameSpec(resolved[k]);
      GeneNameSpec(GeneName(resolved[k]));
    }
  }

  /** The loop of `get_gene_names` that fills `result_dict`. */
  method SanitizeNames(resolved: map<string, string>) returns (m: map<string, string>)
    ensures m == Sanitized(resolved)
  {
    m := map[];
    var todo := resolved.Keys;
    while todo != {}
      invariant todo <= resolved.Keys
      invariant m.Keys == resolved.Keys - todo
      invariant forall k :: k in m ==> m[k] == GeneName(resolved[k])
      decreases todo
    {
      var key :| key in todo;
      m := m[key := GeneName(resolved[key])];
      todo := todo - {key};
    }
  }

  /** `get_gene_names`: ValueError for an empty list or one longer than
      `maxGenes`; otherwise the genes are listed in one uncached request,
      the answer is read as a two-column table and each name is sanitised.
      An HTTP error or a malformed table is passed on. */
  method GetGeneNames(genes: seq<string>, maxGenes: int, fetch: Fetch) returns (r: Result<map<string, string>>)
    ensures |genes| == 0 ==> r == Err(ValueError("No items to request."))
    ensures 0 < |genes| && |genes| > maxGenes ==>
      r == Err(ValueError("Too many entries are requested at once (" + DecimalNat(|genes|) + "/50)."))
    ensures 0 < |genes| <= maxGenes && fetch(GeneNamesUrl(genes)).Err? ==> r == Err(fetch(GeneNamesUrl(genes)).error)
    ensures 0 < |genes| <= maxGenes && fetch(GeneNamesUrl(genes)).Ok? ==>
      var table := RowsToDict(ParseTsv(fetch(GeneNamesUrl(genes)).value), 0, 1);
      && (table.Err? ==> r == Err(table.error))
      && (table.Ok? ==> r == Ok(Sanitized(table.value)))
  {
    if |genes| == 0 {
      return Err(ValueError("No items to request."));
    }
    if |genes| > maxGenes {
      return Err(ValueError("Too many entries are requested at once (" + DecimalNat(|genes|) + "/50)."));
    }
    var data := fetch(GeneNamesUrl(genes));
    if data.Err? {
      return Err(data.error);
    }
    var resolved := ParseTsvToDict(data.value, 0, 1);
    if resolved.Err? {
      return Err(resolved.error);
    }
    var names := SanitizeNames(resolved.value);
    r := Ok(names);
  }

  /** One read-through of the cache: the stored text when `filename` is
      cached, otherwise the fetched text, which is stored only when the fetch
      succeeded. Gives the answer and the new cache. */
  function CacheStep(store: map<string, string>, filename: string, fetched: Result<string>): (Result<string>, map<string, string>)
  {
    if filename in store then (Ok(store[filename]), store)
    else if fetched.Err? then (fetched, store)
    else (fetched, store[filename := fetched.value])
  }

  /** A successful answer is what the cache now holds for the file, and no
      other file changes. */
  lemma CacheStepStores(store: map<string, string>, filename: string, fetched: Result<string>)
    ensures var (r, after) := CacheStep(store, filename, fetched);
      && (r.Ok? ==> filename in after && after[filename] == r.value)
      && (r.Err? ==> after == store && r == fetched)
      && store.Keys <= after.Keys
      && (forall k :: k in store ==> after[k] == store[k])
      && (forall k :: k in after && k != filename ==> k in store)
  {
  }

  /** A cached file never consults the network: whatever it would serve,
      the answer and the cache are the same. */
  lemma CacheStepHit(store: map<string, string>, filename: string, fetched1: Result<string>, fetched2: Result<string>)
    requires filename in store
    ensures CacheStep(store, filename, fetched1) == CacheStep(store, filename, fetched2)
    ensures CacheStep(store, filename, fetched1) == (Ok(store[filename]), store)
  {
  }

  /** Asking again after a success gives the same answer from the cache and
      changes nothing. */
  lemma {:induction false} CacheStepAgain(store: map<string, string>, filename: string, fetched: Result<string>,
                                         again: Result<string>)
    requires CacheStep(store, filename, fetched).0.Ok?
    ensures var (r, after) := CacheStep(store, filename, fetched);
      CacheStep(after, filename, again) == (r, after)
  {
    CacheStepStores(store, filename, fetched);
  }

  /** `get_pathway`'s cache key and URL. */
  function PathwayKey(org: string, code: string): string { org + "_path" + code + ".kgml" }

  function PathwayUrl(org: string, code: string): string { "http://rest.kegg.jp/get/" + org + code + "/kgml" }

  /** `get_pathway_list`'s cache key and URL. */
  function PathwayListKey(org: string): string { "pathway_list_" + org + ".tsv" }

  function PathwayListUrl(org: string): string { "http://rest.kegg.jp/list/pathway/" + org }

  /** `get_compounds`' cache key and URL. */
  const CompoundKey: string := "compound.tsv"

  const CompoundUrl: string := "http://rest.kegg.jp/list/compound"

  /** `get_organism_list`'s cache key and URL. */
  const OrganismKey: string := "organism.tsv"

  const OrganismUrl: string := "http://rest.kegg.jp/list/organism"

  /** Different organisms never share a pathway list file. */
  lemma PathwayListKeyInjective(org1: string, org2: string)
    requires PathwayListKey(org1) == PathwayListKey(org2)
    ensures org1 == org2
  {
    var k := PathwayListKey(org1);
    assert org1 == k[13..|k| - 4];
    assert org2 == PathwayListKey(org2)[13..|k| - 4];
  }

  /** Different pathways never share a KGML file, as long as the organism
      code has no "_" (KEGG codes are lower-case letters). */
  lemma PathwayKeyInjective(org1: string, code1: string, org2: string, code2: string)
    requires '_' !in org1 && '_' !in org2
    requires PathwayKey(org1, code1) == PathwayKey(org2, code2)
    ensures org1 == org2 && code1 == code2
  {
    var k := PathwayKey(org1, code1);
    assert k == PathwayKey(org2, code2);
    assert |org1| == |org2| by {
      assert k[|org1|] == '_' && k[|org2|] == '_';
      assert forall i :: 0 <= i < |org1| ==> k[i] == org1[i] != '_';
      assert forall i :: 0 <= i < |org2| ==> k[i] == org2[i] != '_';
    }
    assert org1 == k[..|org1|] == org2;
    assert code1 == k[|org1| + 5..|k| - 5];
    assert code2 == k[|org2| + 5..|k| - 5];
  }

  /** The four kinds of cache file never collide: KGML files end in ".kgml",
      the lists in ".tsv", and the pathway lists start with "pathway_list_". */
  lemma CacheKeysDistinct(org: string, code: string, listOrg: string)
    ensures PathwayKey(org, code) != PathwayListKey(listOrg)
    ensures PathwayKey(org, code) != CompoundKey && PathwayKey(org, code) != OrganismKey
    ensures PathwayListKey(listOrg) != CompoundKey && PathwayListKey(listOrg) != OrganismKey
    ensures CompoundKey != OrganismKey
  {
    var p := PathwayKey(org, code);
    var l := PathwayListKey(listOrg);
    assert p[|p| - 5..] == ".kgml";
    assert l[|l| - 4..] == ".tsv";
    assert p[|p| - 4] == 'k' && l[|l| - 4] == '.';
    assert l[0] == 'p' && p[|p| - 1] == 'l';
  }

  /** The resolver: its cache of files, and the URLs it has requested (the
      trace of network use). */
  class Resolver {
    var storage: map<string, string>
    var requested: seq<string>

    constructor (cache: map<string, string>)
      ensures storage == cache && requested == []
    {
      storage := cache;
      requested := [];
    }

    /** `_cache_or_request`: a cached file is loaded and nothing is
        requested; otherwise the URL is requested once and a successful
        answer is saved under `filename`. */
    method CacheOrRequest(filename: string, url: string, fetch: Fetch) returns (r: Result<string>)
      modifies this
      ensures (r, storage) == CacheStep(old(storage), filename, fetch(url))
      ensures requested == old(requested) + (if filename in old(storage) then [] else [url])
    {
      if filename in storage {
        r := Ok(storage[filename]);
      } else {
        requested := requested + [url];
        r := fetch(url);
        if r.Ok? {
          storage := storage[filename := r.value];
        }
      }
    }

    /** `_cache_or_request_to_dict`: the cached or fetched text read as a
        two-column table. */
    method CacheOrRequestToDict(filename: string, url: string, fetch: Fetch, colKeys: int, colValues: int)
      returns (r: Result<map<string, string>>)
      modifies this
      ensures storage == CacheStep(old(storage), filename, fetch(url)).1
      ensures requested == old(requested) + (if filename in old(storage) then [] else [url])
      ensures var text := CacheStep(old(storage), filename, fetch(url)).0;
        r == (if text.Err? then Err(text.error) else RowsToDict(ParseTsv(text.value), colKeys, colValues))
    {
      var text := CacheOrRequest(filename, url, fetch);
      if text.Err? {
        return Err(text.error);
      }
      r := ParseTsvToDict(text.value, colKeys, colValues);
    }

    /** `get_pathway_list`: pathway id to title, from the organism's list. */
    method GetPathwayList(org: string, fetch: Fetch) returns (r: Result<map<string, string>>)
      modifies this
      ensures requested == old(requested) + (if PathwayListKey(org) in old(storage) then [] else [PathwayListUrl(org)])
      ensures storage == CacheStep(old(storage), PathwayListKey(org), fetch(PathwayListUrl(org))).1
      ensures var text := CacheStep(old(storage), PathwayListKey(org), fetch(PathwayListUrl(org))).0;
        r == (if text.Err? then Err(text.error) else RowsToDict(ParseTsv(text.value), 0, 1))
    {
      r := CacheOrRequestToDict(PathwayListKey(org), PathwayListUrl(org), fetch, 0, 1);
    }

    /** `get_pathway`, up to the KGML text that `Pathway.parse` reads. */
    method GetPathwayText(org: string, code: string, fetch: Fetch) returns (r: Result<string>)
      modifies this
      ensures requested == old(requested) + (if PathwayKey(org, code) in old(storage) then [] else [PathwayUrl(org, code)])
      ensures (r, storage) == CacheStep(old(storage), PathwayKey(org, code), fetch(PathwayUrl(org, code)))
    {
      r := CacheOrRequest(PathwayKey(org, code), PathwayUrl(org, code), fetch);
    }

    /** `get_compounds`: compound id to names. */
    method GetCompounds(fetch: Fetch) returns (r: Result<map<string, string>>)
      modifies this
      ensures requested == old(requested) + (if CompoundKey in old(storage) then [] else [CompoundUrl])
      ensures storage == CacheStep(old(storage), CompoundKey, fetch(CompoundUrl)).1
      ensures var text := CacheStep(old(storage), CompoundKey, fetch(CompoundUrl)).0;
        r == (if text.Err? then Err(text.error) else RowsToDict(ParseTsv(text.value), 0, 1))
    {
      r := CacheOrRequestToDict(CompoundKey, CompoundUrl, fetch, 0, 1);
    }

    /** `get_organism_list`: the second column (the organism code) to the
        third (its name). */
    method GetOrganismList(fetch: Fetch) returns (r: Result<map<string, string>>)
      modifies this
      ensures requested == old(requested) + (if OrganismKey in old(storage) then [] else [OrganismUrl])
      ensures storage == CacheStep(old(storage), OrganismKey, fetch(OrganismUrl)).1
      ensures var text := CacheStep(old(storage), OrganismKey, fetch(OrganismUrl)).0;
        r == (if text.Err? then Err(text.error) else RowsToDict(ParseTsv(text.value), 1, 2))
    {
      r := CacheOrRequestToDict(OrganismKey, OrganismUrl, fetch, 1, 2);
    }

    /** `check_organism`: true exactly when the code is a key of the organism
        list (its values are never None). */
    method CheckOrganism(org: string, fetch: Fetch) returns (r: Result<bool>)
      modifies this
      ensures requested == old(requested) + (if OrganismKey in old(storage) then [] else [OrganismUrl])
      ensures storage == CacheStep(old(storage), OrganismKey, fetch(OrganismUrl)).1
      ensures var text := CacheStep(old(storage), OrganismKey, fetch(OrganismUrl)).0;
        var table := if text.Err? then Err(text.error) else RowsToDict(ParseTsv(text.value), 1, 2);
        && (table.Err? ==> r == Err(table.error))
        && (table.Ok? ==> r == Ok(org in table.value))
    {
      var organisms := GetOrganismList(fetch);
      if organisms.Err? {
        return Err(organisms.error);
      }
      r := Ok(org in organisms.value);
    }
  }
}

/** keggtools/render.py: the drawing rules of the pathway renderer. The graph
    library is not modelled; the graph is the list of nodes and the list of
    edges the renderer hands to it, each with the attributes the rules
    choose. The pathway is read through the interface render.py itself uses:
    subtypes with a `name`, `get_gene_id()` giving a list of identifiers. */
module Render {
  import opened Wrappers
  import opened Strings
  import opened Utils

  // ---------------------------------------------------------------------
  // Insertion-ordered dictionaries of strings
  // ---------------------------------------------------------------------

  /** A Python `Dict[str, str]`, as its items in insertion order. */
  type Items = seq<(string, string)>

  predicate HasKey(d: Items, k: string)
  {
    exists i :: 0 <= i < |d| && d[i].0 == k
  }

  predicate DistinctItemKeys(d: Items)
  {
    forall i, j :: 0 <= i < j < |d| ==> d[i].0 != d[j].0
  }

  /** Where key `k` sits in `d`: its first index, or `|d|` when absent. */
  function KeyIndex(d: Items, k: string): (i: nat)
    ensures i <= |d|
    ensures i < |d| ==> d[i].0 == k
    ensures forall j :: 0 <= j < i ==> d[j].0 != k
  {
    if d == [] then 0
    else if d[0].0 == k then 0
    else 1 + KeyIndex(d[1..], k)
  }

  /** `d[k] = v`: an existing key keeps its place and takes the new value, a
      new key goes at the end. */
  function DictSet(d: Items, k: string, v: string): (r: Items)
    ensures |r| == |d| || |r| == |d| + 1
    ensures forall i :: 0 <= i < |r| ==> r[i].0 == (if i < |d| then d[i].0 else k)
    ensures forall i :: 0 <= i < |d| && d[i].0 != k ==> r[i] == d[i]
    ensures |r| == |d| + 1 <==> !HasKey(d, k)
    ensures r[KeyIndex(d, k)] == (k, v)
  {
    var i := KeyIndex(d, k);
    if i < |d| then d[i := (k, v)] else d + [(k, v)]
  }

  /** `dict(pairs)` or a dict comprehension: later pairs overwrite earlier
      values under the same key, keys stay where they first appeared. */
  function DictOf(pairs: Items): (d: Items)
    ensures DistinctItemKeys(d)
    ensures forall k :: HasKey(d, k) <==> HasKey(pairs, k)
  {
    if pairs == [] then []
    else
      var init := pairs[..|pairs| - 1];
      var (k, v) := pairs[|pairs| - 1];
      var before := DictOf(init);
      var d := DictSet(before, k, v);
      assert forall x :: HasKey(pairs, x) <==> HasKey(init, x) || x == k by {
        forall x | HasKey(pairs, x) ensures HasKey(init, x) || x == k {
          var i :| 0 <= i < |pairs| && pairs[i].0 == x;
          if i < |pairs| - 1 {
            assert init[i].0 == x;
          }
        }
        forall x | HasKey(init, x) ensures HasKey(pairs, x) {
          var i :| 0 <= i < |init| && init[i].0 == x;
          assert pairs[i].0 == x;
        }
        assert pairs[|pairs| - 1].0 == k;
      }
      assert forall x :: HasKey(d, x) <==> HasKey(before, x) || x == k by {
        forall x | HasKey(d, x) ensures HasKey(before, x) || x == k {
          var i :| 0 <= i < |d| && d[i].0 == x;
          if i < |before| {
            assert before[i].0 == x;
          }
        }
        forall x | HasKey(before, x) ensures HasKey(d, x) {
          var i :| 0 <= i < |before| && before[i].0 == x;
          assert d[i].0 == x;
        }
      }
      d
  }

  /** `KeyIndex` is the first position holding the key, or the length. */
  lemma KeyIndexIs(d: Items, k: string, i: nat)
    requires i <= |d| && (i < |d| ==> d[i].0 == k)
    requires forall j :: 0 <= j < i ==> d[j].0 != k
    ensures KeyIndex(d, k) == i
  {
  }

  /** A pair added at the end leaves the position of earlier keys alone. */
  lemma KeyIndexSnoc(d: Items, p: (string, string), k: string)
    ensures KeyIndex(d + [p], k) ==
      if HasKey(d, k) then KeyIndex(d, k) else if p.0 == k then |d| else |d| + 1
  {
    var e := d + [p];
    var i := KeyIndex(d, k);
    if HasKey(d, k) {
      var w :| 0 <= w < |d| && d[w].0 == k;
      assert i <= w;
      KeyIndexIs(e, k, i);
    } else {
      assert forall j :: 0 <= j < |d| ==> e[j].0 != k;
      if p.0 == k {
        KeyIndexIs(e, k, |d|);
      } else {
        KeyIndexIs(e, k, |d| + 1);
      }
    }
  }

  /** The last value given to a key among the pairs. */
  function LastValue(pairs: Items, k: string): string
    requires HasKey(pairs, k)
  {
    var last := pairs[|pairs| - 1];
    if last.0 == k then last.1
    else
      var init := pairs[..|pairs| - 1];
      var i :| 0 <= i < |pairs| && pairs[i].0 == k;
      assert init[i].0 == k;
      LastValue(init, k)
  }

  /** Each key of the dict holds the value of the last pair with that key. */
  lemma {:induction false} DictOfLast(pairs: Items, k: string)
    requires HasKey(pairs, k)
    ensures var d := DictOf(pairs);
      KeyIndex(d, k) < |d| && d[KeyIndex(d, k)] == (k, LastValue(pairs, k))
    decreases |pairs|
  {
    var init := pairs[..|pairs| - 1];
    var (k', v) := pairs[|pairs| - 1];
    var before := DictOf(init);
    var d := DictOf(pairs);
    assert d == DictSet(before, k', v);
    if k == k' {
      KeyIndexSame(before, d, k);
    } else {
      var i :| 0 <= i < |pairs| && pairs[i].0 == k;
      assert init[i].0 == k;
      DictOfLast(init, k);
      KeyIndexSame(before, d, k);
    }
  }

  /** Setting a key keeps every key's position. */
  lemma KeyIndexSame(before: Items, d: Items, k: string)
    requires DistinctItemKeys(before)
    requires |d| == |before| || |d| == |before| + 1
    requires forall i :: 0 <= i < |before| ==> d[i].0 == before[i].0
    requires |d| == |before| + 1 ==> !HasKey(before, d[|before|].0)
    requires HasKey(before, k) || (|d| == |before| + 1 && d[|before|].0 == k)
    ensures KeyIndex(d, k) == KeyIndex(before, k)
  {
    var i := KeyIndex(before, k);
    if HasKey(before, k) {
      var w :| 0 <= w < |before| && before[w].0 == k;
      assert i <= w;
    }
    KeyIndexIs(d, k, i);
  }

  /** The keys of the dict are in the order of their first pairs. */
  lemma DictOfOrder(pairs: Items)
    ensures var d := DictOf(pairs);
      forall i, j :: 0 <= i < j < |d| ==> KeyIndex(pairs, d[i].0) < KeyIndex(pairs, d[j].0)
  {
    var d := DictOf(pairs);
    forall i, j | 0 <= i < j < |d|
      ensures KeyIndex(pairs, d[i].0) < KeyIndex(pairs, d[j].0)
    {
      DictOfOrderAt(pairs, i, j);
    }
  }

  /** The key at an earlier place of the dict has an earlier first pair. */
  lemma {:induction false} DictOfOrderAt(pairs: Items, i: nat, j: nat)
    requires i < j < |DictOf(pairs)|
    ensures KeyIndex(pairs, DictOf(pairs)[i].0) < KeyIndex(pairs, DictOf(pairs)[j].0)
    decreases |pairs|
  {
    var init := pairs[..|pairs| - 1];
    var p := pairs[|pairs| - 1];
    assert pairs == init + [p];
    var before := DictOf(init);
    var d := DictOf(pairs);
    assert d == DictSet(before, p.0, p.1);
    var x := d[i].0;
    assert x == before[i].0;
    assert HasKey(before, x);
    KeyIndexSnoc(init, p, x);
    var w :| 0 <= w < |init| && init[w].0 == x;
    assert KeyIndex(init, x) <= w;
    var y := d[j].0;
    KeyIndexSnoc(init, p, y);
    if j < |before| {
      assert y == before[j].0;
      assert HasKey(before, y);
      DictOfOrderAt(init, i, j);
    } else {
      assert y == p.0 && !HasKey(before, p.0);
    }
  }

  // ---------------------------------------------------------------------
  // generate_embedded_html_table
  // ---------------------------------------------------------------------

  /** The attributes of the `table` element. */
  function TableAttrib(border: int, cellborder: int): map<string, string>
  {
    map["border" := Decimal(border), "cellborder" := Decimal(cellborder),
        "cellspacing" := "0", "cellpadding" := "4"]
  }

  /** A row showing one item: its value as background, its key as text. */
  function ItemRow(item: (string, string)): Element
  {
    Element("tr", map[], None, [Element("td", map["bgcolor" := item.1], Some(item.0), [])])
  }

  /** The row that replaces the items past the truncation point. */
  function MoreRow(hidden: int): Element
  {
    Element("tr", map[], None, [Element("td", map[], Some(Decimal(hidden) + " more genes..."), [])])
  }

  /** The table is cut short: there is an item at an index at or past
      `truncate`. */
  predicate Truncated(n: nat, truncate: Option<int>)
  {
    truncate.Some? && n > 0 && truncate.value < n
  }

  /** How many items get a row of their own. */
  function Shown(n: nat, truncate: Option<int>): nat
  {
    if !Truncated(n, truncate) then n
    else if truncate.value < 0 then 0
    else truncate.value
  }

  /** The table `generate_embedded_html_table` builds, before serialisation. */
  function EmbeddedTable(items: Items, border: int, cellborder: int, truncate: Option<int>): Element
  {
    var shown := Shown(|items|, truncate);
    Element("table", TableAttrib(border, cellborder), None,
            seq(shown, i requires 0 <= i < shown => ItemRow(items[i])) +
            (if Truncated(|items|, truncate) then [MoreRow(|items| - truncate.value)] else []))
  }

  /** Without truncation, or with a bound at least the number of items, one
      row per item; otherwise `truncate` item rows (none for a negative
      bound) and a last row counting the hidden items. The item rows show the
      first items in order. */
  lemma EmbeddedTableRows(items: Items, border: int, cellborder: int, truncate: Option<int>)
    ensures var rows := EmbeddedTable(items, border, cellborder, truncate).children;
      && ((truncate.None? || truncate.value >= |items|) ==> |rows| == |items|)
      && ((truncate.Some? && 0 <= truncate.value < |items|) ==> |rows| == truncate.value + 1)
      && ((truncate.Some? && truncate.value < 0 && |items| > 0) ==> |rows| == 1)
      && (forall i :: 0 <= i < |rows| && (truncate.None? || i < truncate.value) ==>
            i < |items| && rows[i] == ItemRow(items[i]))
      && (Truncated(|items|, truncate) ==>
            rows[|rows| - 1] == MoreRow(|items| - truncate.value) &&
            rows[|rows| - 1].children[0].attrib == map[])
  {
  }

  /** `generate_embedded_html_table`: rows are appended in item order until
      the index reaches `truncate`, where a last row counts the rest and the
      loop stops. */
  method GenerateEmbeddedHtmlTable(items: Items, border: int, cellborder: int, truncate: Option<int>)
    returns (table: Element)
    ensures table == EmbeddedTable(items, border, cellborder, truncate)
  {
    var rows: seq<Element> := [];
    var index := 0;
    while index < |items|
      invariant 0 <= index <= |items|
      invariant truncate.Some? ==> index == 0 || index <= truncate.value
      invariant rows == seq(index, i requires 0 <= i < index => ItemRow(items[i]))
    {
      if truncate.Some? && index >= truncate.value {
        rows := rows + [MoreRow(|items| - truncate.value)];
        break;
      }
      rows := rows + [ItemRow(items[index])];
      index := index + 1;
    }
    table := Element("table", TableAttrib(border, cellborder), None, rows);
  }

  // ---------------------------------------------------------------------
  // get_gene_color
  // ---------------------------------------------------------------------

  const White: Rgb := Rgb(255, 255, 255)

  /** `get_gene_color`: a gene missing from the overlay, or mapped to 0.0,
      gets the default colour as hex; the others get the shade the colour
      gradient gives them (`shade`, not modelled). */
  function GeneColor(overlay: map<string, real>, geneId: string, default: Rgb, shade: string -> string): string
  {
    if geneId !in overlay || overlay[geneId] == 0.0 then ToHex(default) else shade(geneId)
  }

  /** The default branch answers a valid hex colour string that reads back as
      the default colour. */
  lemma GeneColorDefault(overlay: map<string, real>, geneId: string, default: Rgb, shade: string -> string)
    requires geneId !in overlay || overlay[geneId] == 0.0
    requires IsByte(default.red) && IsByte(default.green) && IsByte(default.blue)
    ensures var c := GeneColor(overlay, geneId, default, shade);
      && |c| == 7 && c[0] == '#'
      && (forall i :: 1 <= i < 7 ==> IsLowerHexDigit(c[i]))
      && HexValue(c[1..3]) == default.red
      && HexValue(c[3..5]) == default.green
      && HexValue(c[5..7]) == default.blue
      && IsValidHexColor(c)
  {
    ToHexBytes(default);
  }

  /** With the default default colour, an unknown gene is white. */
  lemma GeneColorWhite(overlay: map<string, real>, geneId: string, shade: string -> string)
    requires geneId !in overlay
    ensures GeneColor(overlay, geneId, White, shade) == "#ffffff"
  {
    assert HexNat(255) == HexNat(15) + [HexChar(15)];
    assert Hex02(255) == "ff";
    assert "#" + Hex02(255) + Hex02(255) + Hex02(255) == "#ffffff";
    LowerNoUpper("#ffffff");
  }

  // ---------------------------------------------------------------------
  // The pathway as render.py reads it
  // ---------------------------------------------------------------------

  datatype Subtype = Subtype(name: string, value: string)

  datatype Relation = Relation(entry1: string, entry2: string, kind: string, subtypes: seq<Subtype>)

  datatype Graphics = Graphics(name: Option<string>)

  datatype Component = Component(id: string)

  /** An entry; `geneIds` is what its `get_gene_id()` answers. */
  datatype Entry = Entry(id: string, kind: string, graphics: Option<Graphics>, geneIds: seq<string>,
                         components: seq<Component>)

  datatype Pathway = Pathway(title: string, entries: seq<Entry>, relations: seq<Relation>)

  /** `get_entry_by_id`: the first entry with the given id. */
  function EntryById(entries: seq<Entry>, id: string): (r: Option<Entry>)
    ensures r.Some? <==> exists i :: 0 <= i < |entries| && entries[i].id == id
    ensures r.Some? ==> r.value.id == id
    ensures r.Some? ==> exists i :: 0 <= i < |entries| && entries[i] == r.value &&
                                    (forall j :: 0 <= j < i ==> entries[j].id != id)
  {
    if entries == [] then None
    else if entries[0].id == id then Some(entries[0])
    else
      var r := EntryById(entries[1..], id);
      assert forall i :: 1 <= i < |entries| ==> entries[i] == entries[1..][i - 1];
      r
  }

  // ---------------------------------------------------------------------
  // Edges
  // ---------------------------------------------------------------------

  datatype Edge = Edge(src: string, dst: string, arrowhead: string, caption: Option<string>, style: string)

  /** The line style of a relation type. */
  function LineStyle(kind: string): (style: string)
    ensures style == "dashed" <==> kind == "GErel"
    ensures style == "dotted" <==> kind == "PCrel"
    ensures style == "solid" <==> kind != "GErel" && kind != "PCrel"
  {
    if kind == "GErel" then "dashed"
    else if kind == "PCrel" then "dotted"
    else "solid"
  }

  /** The arrowhead a subtype asks for, if any. */
  function ArrowFor(name: string): (a: Option<string>)
    ensures a.Some? ==> a.value in {"normal", "tee", "diamond"}
  {
    if name in ["activation", "expression", "indirect effect", "binding/association"] then Some("normal")
    else if name in ["inhibition", "repression", "dissociation"] then Some("tee")
    else if name == "state change" then Some("diamond")
    else None
  }

  /** The arrowhead after the subtype loop: "none", overwritten by every
      subtype that asks for one. */
  function Arrowhead(subtypes: seq<Subtype>): string
  {
    if subtypes == [] then "none"
    else match ArrowFor(subtypes[|subtypes| - 1].name)
      case None => Arrowhead(subtypes[..|subtypes| - 1])
      case Some(a) => a
  }

  /** The last subtype that asks for an arrowhead decides it; with none the
      arrowhead is "none", and only then. */
  lemma ArrowheadLastWins(subtypes: seq<Subtype>)
    ensures (forall i :: 0 <= i < |subtypes| ==> ArrowFor(subtypes[i].name).None?) <==>
      Arrowhead(subtypes) == "none"
    ensures forall i ::
      (0 <= i < |subtypes| && ArrowFor(subtypes[i].name).Some? &&
       (forall j :: i < j < |subtypes| ==> ArrowFor(subtypes[j].name).None?)) ==>
      Arrowhead(subtypes) == ArrowFor(subtypes[i].name).value
  {
    ArrowheadNone(subtypes);
    forall i | 0 <= i < |subtypes| && ArrowFor(subtypes[i].name).Some? &&
        (forall j :: i < j < |subtypes| ==> ArrowFor(subtypes[j].name).None?)
      ensures Arrowhead(subtypes) == ArrowFor(subtypes[i].name).value
    {
      ArrowheadLast(subtypes, i);
    }
  }

  /** The arrowhead stays "none" exactly when no subtype asks for one. */
  lemma {:induction false} ArrowheadNone(subtypes: seq<Subtype>)
    ensures (forall i :: 0 <= i < |subtypes| ==> ArrowFor(subtypes[i].name).None?) <==>
      Arrowhead(subtypes) == "none"
    decreases |subtypes|
  {
    if subtypes != [] {
      var n := |subtypes| - 1;
      var init := subtypes[..n];
      ArrowheadNone(init);
      forall i | 0 <= i < n ensures init[i] == subtypes[i] { }
    }
  }

  /** The last subtype that asks for an arrowhead decides it. */
  lemma {:induction false} ArrowheadLast(subtypes: seq<Subtype>, i: nat)
    requires i < |subtypes| && ArrowFor(subtypes[i].name).Some?
    requires forall j :: i < j < |subtypes| ==> ArrowFor(subtypes[j].name).None?
    ensures Arrowhead(subtypes) == ArrowFor(subtypes[i].name).value
    decreases |subtypes|
  {
    var n := |subtypes| - 1;
    if i < n {
      var init := subtypes[..n];
      assert ArrowFor(subtypes[n].name).None?;
      assert Arrowhead(subtypes) == Arrowhead(init);
      forall j | i < j < n ensures ArrowFor(init[j].name).None? {
        assert init[j] == subtypes[j];
      }
      assert init[i] == subtypes[i];
      ArrowheadLast(init, i);
    }
  }

  /** The glyph of a molecular-event subtype. */
  function EventGlyph(name: string): Option<string>
  {
    if name == "phosphorylation" then Some("+p")
    else if name == "dephosphorylation" then Some("-p")
    else if name == "glycosylation" then Some("+g")
    else if name == "ubiquitination" then Some("+u")
    else if name == "methylation" then Some("+m")
    else None
  }

  /** The glyphs of the molecular events among the subtypes, in order. */
  function Glyphs(subtypes: seq<Subtype>): (gs: seq<string>)
    ensures |gs| <= |subtypes|
  {
    if subtypes == [] then []
    else
      var g := EventGlyph(subtypes[|subtypes| - 1].name);
      Glyphs(subtypes[..|subtypes| - 1]) + (if g.Some? then [g.value] else [])
  }

  /** The edge label after the subtype loop: unset until the first event,
      then extended by ", " and the next glyph at each further event. */
  function EdgeLabel(subtypes: seq<Subtype>): Option<string>
  {
    if subtypes == [] then None
    else
      var acc := EdgeLabel(subtypes[..|subtypes| - 1]);
      match EventGlyph(subtypes[|subtypes| - 1].name)
      case None => acc
      case Some(g) => if acc.None? then Some(g) else Some(acc.value + ", " + g)
  }

  lemma {:induction false} JoinSnoc(xs: seq<string>, x: string, sep: string)
    requires |xs| >= 1
    ensures Join(xs + [x], sep) == Join(xs, sep) + sep + x
    decreases |xs|
  {
    if |xs| == 1 {
      assert (xs + [x])[1..] == [x];
    } else {
      assert (xs + [x])[1..] == xs[1..] + [x];
      JoinSnoc(xs[1..], x, sep);
    }
  }

  /** The label is set exactly when some subtype is a molecular event, and
      it is then the events' glyphs joined by ", " in subtype order. */
  lemma {:induction false} EdgeLabelGlyphs(subtypes: seq<Subtype>)
    ensures EdgeLabel(subtypes) == if Glyphs(subtypes) == [] then None else Some(Join(Glyphs(subtypes), ", "))
    decreases |subtypes|
  {
    if subtypes != [] {
      var init := subtypes[..|subtypes| - 1];
      EdgeLabelGlyphs(init);
      var g := EventGlyph(subtypes[|subtypes| - 1].name);
      assert Glyphs(subtypes) == Glyphs(init) + (if g.Some? then [g.value] else []);
      if g.Some? {
        if Glyphs(init) == [] {
          assert Glyphs(subtypes) == [g.value];
          assert EdgeLabel(subtypes) == Some(g.value);
          assert Join([g.value], ", ") == g.value;
        } else {
          assert EdgeLabel(init) == Some(Join(Glyphs(init), ", "));
          assert EdgeLabel(subtypes) == Some(Join(Glyphs(init), ", ") + ", " + g.value);
          JoinSnoc(Glyphs(init), g.value, ", ");
        }
      } else {
        assert Glyphs(subtypes) == Glyphs(init);
        assert EdgeLabel(subtypes) == EdgeLabel(init);
      }
    }
  }

  lemma EdgeLabelExample()
    ensures EdgeLabel([Subtype("activation", "-->"), Subtype("phosphorylation", "+p"),
                       Subtype("ubiquitination", "+u")]) == Some("+p, +u")
    ensures Arrowhead([Subtype("activation", "-->"), Subtype("phosphorylation", "+p"),
                       Subtype("ubiquitination", "+u")]) == "normal"
  {
    var s := [Subtype("activation", "-->"), Subtype("phosphorylation", "+p"), Subtype("ubiquitination", "+u")];
    assert s[..2] == [Subtype("activation", "-->"), Subtype("phosphorylation", "+p")];
    assert s[..2][..1] == [Subtype("activation", "-->")];
    assert s[..2][..1][..0] == [];
    assert EdgeLabel(s[..2][..1]) == None;
    assert EdgeLabel(s[..2]) == Some("+p");
    assert EdgeLabel(s) == Some("+p" + ", " + "+u");
    assert "+p" + ", " + "+u" == "+p, +u";
  }

  /** The edge drawn for a relation: from its first to its second entry,
      with the style, arrowhead and label its type and subtypes choose. */
  function EdgeFor(rel: Relation): (e: Edge)
    ensures e.src == rel.entry1 && e.dst == rel.entry2
  {
    Edge(rel.entry1, rel.entry2, Arrowhead(rel.subtypes), EdgeLabel(rel.subtypes), LineStyle(rel.kind))
  }

  /** The edges of the relations, one per relation, in relation order. */
  function EdgesOf(relations: seq<Relation>): (es: seq<Edge>)
    ensures |es| == |relations|
    ensures forall i :: 0 <= i < |relations| ==> es[i] == EdgeFor(relations[i])
  {
    if relations == [] then []
    else EdgesOf(relations[..|relations| - 1]) + [EdgeFor(relations[|relations| - 1])]
  }

  // ---------------------------------------------------------------------
  // Nodes
  // ---------------------------------------------------------------------

  /** `int(s)` on each string, in order; the first that is not an integer
      raises ValueError. */
  function IntsOf(strs: seq<string>): (r: Result<seq<int>>)
    ensures r.Ok? <==> forall i :: 0 <= i < |strs| ==> ParseInt(strs[i]).Some?
    ensures r.Ok? ==> |r.value| == |strs| && forall i :: 0 <= i < |strs| ==> r.value[i] == ParseInt(strs[i]).value
    ensures r.Err? ==> r.error.ValueError?
  {
    if strs == [] then Ok([])
    else
      var init := strs[..|strs| - 1];
      var before := IntsOf(init);
      assert forall i :: 0 <= i < |init| ==> init[i] == strs[i];
      match ParseInt(strs[|strs| - 1])
      case None => Err(ValueError("invalid literal for int()"))
      case Some(n) => if before.Err? then before else Ok(before.value + [n])
  }

  /** An integer is among the parsed strings exactly when one of them
      parses to it. */
  lemma IntsOfMember(strs: seq<string>, x: int)
    requires IntsOf(strs).Ok?
    ensures x in IntsOf(strs).value <==> exists i :: 0 <= i < |strs| && ParseInt(strs[i]) == Some(x)
  {
    var v := IntsOf(strs).value;
    if x in v {
      var i :| 0 <= i < |v| && v[i] == x;
      assert ParseInt(strs[i]) == Some(x);
    }
    if exists i :: 0 <= i < |strs| && ParseInt(strs[i]) == Some(x) {
      var i :| 0 <= i < |strs| && ParseInt(strs[i]) == Some(x);
      assert v[i] == x;
    }
  }

  /** The first entries of the relations, then the second entries. */
  function Firsts(relations: seq<Relation>): seq<string>
  {
    seq(|relations|, i requires 0 <= i < |relations| => relations[i].entry1)
  }

  function Seconds(relations: seq<Relation>): seq<string>
  {
    seq(|relations|, i requires 0 <= i < |relations| => relations[i].entry2)
  }

  /** `related_entries`: the first entries of all relations as integers,
      followed by their second entries; the first non-integer raises
      ValueError. */
  function RelatedIds(relations: seq<Relation>): Result<seq<int>>
  {
    var a := IntsOf(Firsts(relations));
    var b := IntsOf(Seconds(relations));
    if a.Err? then Err(a.error)
    else if b.Err? then Err(b.error)
    else Ok(a.value + b.value)
  }

  /** Relation `rel` names the entry with integer id `x`. */
  predicate Mentions(rel: Relation, x: int)
  {
    ParseInt(rel.entry1) == Some(x) || ParseInt(rel.entry2) == Some(x)
  }

  /** Both ends of the relation are integers. */
  predicate NumericEnds(rel: Relation)
  {
    ParseInt(rel.entry1).Some? && ParseInt(rel.entry2).Some?
  }

  /** The related ids are exactly the integers some relation names; they
      fail with ValueError exactly when some relation end is not an
      integer. */
  lemma RelatedIdsSpec(relations: seq<Relation>)
    ensures var r := RelatedIds(relations);
      && (r.Ok? ==> forall x :: x in r.value <==> exists i :: 0 <= i < |relations| && Mentions(relations[i], x))
      && (r.Err? <==> exists i :: 0 <= i < |relations| && !NumericEnds(relations[i]))
      && (r.Err? ==> r.error.ValueError?)
  {
    var firsts := Firsts(relations);
    var seconds := Seconds(relations);
    var r := RelatedIds(relations);
    if r.Ok? {
      forall x
        ensures x in r.value <==> exists i :: 0 <= i < |relations| && Mentions(relations[i], x)
      {
        IntsOfMember(firsts, x);
        IntsOfMember(seconds, x);
        assert x in r.value <==> x in IntsOf(firsts).value || x in IntsOf(seconds).value;
        if x in IntsOf(firsts).value {
          var i :| 0 <= i < |firsts| && ParseInt(firsts[i]) == Some(x);
          assert Mentions(relations[i], x);
        } else if x in IntsOf(seconds).value {
          var i :| 0 <= i < |seconds| && ParseInt(seconds[i]) == Some(x);
          assert Mentions(relations[i], x);
        }
        if exists i :: 0 <= i < |relations| && Mentions(relations[i], x) {
          var i :| 0 <= i < |relations| && Mentions(relations[i], x);
          if ParseInt(relations[i].entry1) == Some(x) {
            assert ParseInt(firsts[i]) == Some(x);
          } else {
            assert ParseInt(seconds[i]) == Some(x);
          }
        }
      }
    } else {
      if IntsOf(firsts).Err? {
        var i :| 0 <= i < |firsts| && ParseInt(firsts[i]).None?;
        assert !NumericEnds(relations[i]);
      } else {
        var i :| 0 <= i < |seconds| && ParseInt(seconds[i]).None?;
        assert !NumericEnds(relations[i]);
      }
    }
    if exists i :: 0 <= i < |relations| && !NumericEnds(relations[i]) {
      var i :| 0 <= i < |relations| && !NumericEnds(relations[i]);
      assert ParseInt(firsts[i]).None? || ParseInt(seconds[i]).None?;
    }
  }

  /** How a node label is given: plain text or an HTML-like table. */
  datatype Label = Plain(text: string) | Html(table: Element)

  datatype Node = Node(name: string, caption: Label, shape: string, fillcolor: string)

  /** The label of a gene or compound: the first ", "-separated part of the
      graphics name when there is one, otherwise the entry id. */
  function EntryLabel(entry: Entry): string
  {
    if entry.graphics.Some? && entry.graphics.value.name.Some? then BeforeFirst(entry.graphics.value.name.value, ", ")
    else entry.id
  }

  /** The node types that are drawn. */
  predicate DrawnKind(kind: string)
  {
    kind == "gene" || kind == "group" || kind == "compound"
  }

  /** An entry gets a node: its id is an integer that occurs in a relation,
      and its type is drawn. */
  predicate Selected(entry: Entry, related: seq<int>)
  {
    ParseInt(entry.id).Some? && ParseInt(entry.id).value in related && DrawnKind(entry.kind)
  }

  /** Component `c` names an entry of the pathway that has a graphics name. */
  predicate Named(entries: seq<Entry>, c: Component)
  {
    var e := EntryById(entries, c.id);
    e.Some? && e.value.graphics.Some? && e.value.graphics.value.name.Some?
  }

  /** A named component whose entry has no gene ids: `get_gene_id()[0]`
      raises IndexError. */
  predicate NoGeneIds(entries: seq<Entry>, c: Component)
  {
    Named(entries, c) && EntryById(entries, c.id).value.geneIds == []
  }

  /** The row of a named component: the first ", "-separated part of its
      entry's graphics name and the colour of the entry's first gene. */
  function ComponentRow(entries: seq<Entry>, c: Component, color: string -> string): (string, string)
    requires Named(entries, c) && !NoGeneIds(entries, c)
  {
    var e := EntryById(entries, c.id).value;
    (BeforeFirst(e.graphics.value.name.value, ", "), color(e.geneIds[0]))
  }

  /** The number of named components. */
  function NamedCount(entries: seq<Entry>, components: seq<Component>): nat
  {
    if components == [] then 0
    else
      var last := components[|components| - 1];
      NamedCount(entries, components[..|components| - 1]) + (if Named(entries, last) then 1 else 0)
  }

  /** The (label, colour) pairs of a group's components, in component
      order: each named component gives its row, the others nothing. */
  function GroupItems(entries: seq<Entry>, components: seq<Component>, color: string -> string): (r: Result<Items>)
    ensures r.Ok? ==> |r.value| <= |components|
    ensures r.Err? ==> r.error == IndexError
  {
    if components == [] then Ok([])
    else
      var before := GroupItems(entries, components[..|components| - 1], color);
      var c := components[|components| - 1];
      if before.Err? then before
      else if Named(entries, c) then
        if NoGeneIds(entries, c) then Err(IndexError)
        else Ok(before.value + [ComponentRow(entries, c, color)])
      else before
  }

  /** The loop over the components raises IndexError exactly when a named
      component has no gene ids. */
  lemma GroupItemsErr(entries: seq<Entry>, components: seq<Component>, color: string -> string)
    ensures GroupItems(entries, components, color).Err? <==>
      exists j :: 0 <= j < |components| && NoGeneIds(entries, components[j])
  {
    if GroupItems(entries, components, color).Err? {
      var j := GroupItemsErrAt(entries, components, color);
    } else {
      forall j | 0 <= j < |components|
        ensures !NoGeneIds(entries, components[j])
      {
        GroupItemsOkAt(entries, components, color, j);
      }
    }
  }

  /** A failing loop has met a named component without gene ids. */
  lemma {:induction false} GroupItemsErrAt(entries: seq<Entry>, components: seq<Component>, color: string -> string)
    returns (j: nat)
    requires GroupItems(entries, components, color).Err?
    ensures j < |components| && NoGeneIds(entries, components[j])
    decreases |components|
  {
    var n := |components| - 1;
    var init := components[..n];
    if GroupItems(entries, init, color).Err? {
      j := GroupItemsErrAt(entries, init, color);
      assert components[j] == init[j];
    } else {
      j := n;
    }
  }

  /** A successful loop has met no named component without gene ids. */
  lemma {:induction false} GroupItemsOkAt(entries: seq<Entry>, components: seq<Component>, color: string -> string, j: nat)
    requires GroupItems(entries, components, color).Ok? && j < |components|
    ensures !NoGeneIds(entries, components[j])
    decreases |components|
  {
    var n := |components| - 1;
    var init := components[..n];
    if j < n {
      GroupItemsOkAt(entries, init, color, j);
      assert components[j] == init[j];
    }
  }

  /** Without an error there is one row per named component, in component
      order: the row of the j-th component comes right after the rows of the
      named components before it. */
  lemma {:induction false} GroupItemsRows(entries: seq<Entry>, components: seq<Component>, color: string -> string)
    ensures var r := GroupItems(entries, components, color);
      && (r.Ok? ==> |r.value| == NamedCount(entries, components))
      && (r.Ok? ==> forall j :: 0 <= j < |components| && Named(entries, components[j]) ==>
            && !NoGeneIds(entries, components[j])
            && NamedCount(entries, components[..j]) < |r.value|
            && r.value[NamedCount(entries, components[..j])] == ComponentRow(entries, components[j], color))
    decreases |components|
  {
    var r := GroupItems(entries, components, color);
    if components != [] && r.Ok? {
      var n := |components| - 1;
      var init := components[..n];
      GroupItemsRows(entries, init, color);
      GroupItemsErr(entries, components, color);
      forall j | 0 <= j < |components| && Named(entries, components[j])
        ensures !NoGeneIds(entries, components[j])
        ensures NamedCount(entries, components[..j]) < |r.value|
        ensures r.value[NamedCount(entries, components[..j])] == ComponentRow(entries, components[j], color)
      {
        if j < n {
          assert components[j] == init[j];
          assert components[..j] == init[..j];
        } else {
          assert components[..j] == init;
        }
      }
    }
  }

  /** The node one entry adds, if any; `int(entry.id)` raises ValueError
      for a non-integer id, and a gene or component without gene ids makes
      `get_gene_id()[0]` raise IndexError. */
  function NodeFor(entries: seq<Entry>, entry: Entry, related: seq<int>, displayUnlabeled: bool,
                   color: string -> string): Result<Option<Node>>
  {
    match ParseInt(entry.id)
    case None => Err(ValueError("invalid literal for int()"))
    case Some(id) =>
      if id !in related then Ok(None)
      else if entry.kind == "gene" then
        var text := EntryLabel(entry);
        if |entry.geneIds| > 1 && displayUnlabeled then
          var ids := [text] + entry.geneIds[1..];
          var items := seq(|ids|, i requires 0 <= i < |ids| => (ids[i], color(ids[i])));
          Ok(Some(Node(entry.id, Html(EmbeddedTable(DictOf(items), 0, 1, None)), "plaintext", "#ffffff")))
        else if entry.geneIds == [] then Err(IndexError)
        else Ok(Some(Node(entry.id, Plain(text), "rectangle", color(entry.geneIds[0]))))
      else if entry.kind == "group" then
        match GroupItems(entries, entry.components, color)
        case Err(e) => Err(e)
        case Ok(items) => Ok(Some(Node(entry.id, Html(EmbeddedTable(DictOf(items), 0, 1, None)), "plaintext", "#ffffff")))
      else if entry.kind == "compound" then
        Ok(Some(Node(entry.id, Plain(EntryLabel(entry)), "oval", "#ffffff")))
      else Ok(None)
  }

  /** An entry gets a node exactly when it is selected, named by its id; a
      compound and a single gene are labelled by their first name (or their
      id); a non-integer id raises ValueError and a gene without ids
      IndexError. */
  lemma NodeForSpec(entries: seq<Entry>, entry: Entry, related: seq<int>, displayUnlabeled: bool,
                    color: string -> string)
    ensures var r := NodeFor(entries, entry, related, displayUnlabeled, color);
      && (ParseInt(entry.id).None? <==> r.Err? && r.error.ValueError?)
      && (r.Ok? ==> (r.value.Some? <==> Selected(entry, related)))
      && (r.Ok? && r.value.Some? ==> r.value.value.name == entry.id)
      && (r.Ok? && r.value.Some? && entry.kind == "compound" ==>
            r.value.value == Node(entry.id, Plain(EntryLabel(entry)), "oval", "#ffffff"))
      && ((r.Ok? && r.value.Some? && entry.kind == "gene" && !(|entry.geneIds| > 1 && displayUnlabeled) &&
           entry.geneIds != []) ==>
            r.value.value == Node(entry.id, Plain(EntryLabel(entry)), "rectangle", color(entry.geneIds[0])))
      && (r.Err? && !r.error.ValueError? ==> Selected(entry, related) && r.error == IndexError)
      && ((Selected(entry, related) && entry.kind == "gene" && !(|entry.geneIds| > 1 && displayUnlabeled) &&
           entry.geneIds == []) ==> r == Err(IndexError))
  {
  }

  /** The nodes the entry loop adds, in entry order, and how the loop ends:
      at the first entry that raises, with the nodes added before it. */
  function NodesOf(entries: seq<Entry>, done: seq<Entry>, related: seq<int>, displayUnlabeled: bool,
                   color: string -> string): (Result<()>, seq<Node>)
  {
    if done == [] then (Ok(()), [])
    else
      var (o, ns) := NodesOf(entries, done[..|done| - 1], related, displayUnlabeled, color);
      if o.Err? then (o, ns)
      else match NodeFor(entries, done[|done| - 1], related, displayUnlabeled, color)
        case Err(e) => (Err(e), ns)
        case Ok(None) => (o, ns)
        case Ok(Some(n)) => (o, ns + [n])
  }

  /** The ids of the entries that get a node, in entry order. */
  function SelectedIds(done: seq<Entry>, related: seq<int>): seq<string>
  {
    if done == [] then []
    else
      var e := done[|done| - 1];
      SelectedIds(done[..|done| - 1], related) + (if Selected(e, related) then [e.id] else [])
  }

  /** When the loop completes, exactly the selected entries have nodes, one
      each, named by their ids, in entry order. */
  lemma {:induction false} NodesOfSelected(entries: seq<Entry>, done: seq<Entry>, related: seq<int>,
                                          displayUnlabeled: bool, color: string -> string)
    ensures var (o, ns) := NodesOf(entries, done, related, displayUnlabeled, color);
      o.Ok? ==> |ns| == |SelectedIds(done, related)| &&
                (forall i :: 0 <= i < |ns| ==> ns[i].name == SelectedIds(done, related)[i])
    decreases |done|
  {
    if done != [] {
      NodesOfSelected(entries, done[..|done| - 1], related, displayUnlabeled, color);
      NodeForSpec(entries, done[|done| - 1], related, displayUnlabeled, color);
    }
  }

  /** The loop stops with ValueError exactly when some entry's id is not an
      integer and no earlier entry raised. */
  lemma {:induction false} NodesOfNumericIds(entries: seq<Entry>, done: seq<Entry>, related: seq<int>,
                                            displayUnlabeled: bool, color: string -> string)
    requires forall i :: 0 <= i < |done| ==> ParseInt(done[i].id).Some?
    ensures var (o, _) := NodesOf(entries, done, related, displayUnlabeled, color);
      o.Err? ==> o.error == IndexError
    decreases |done|
  {
    if done != [] {
      NodesOfNumericIds(entries, done[..|done| - 1], related, displayUnlabeled, color);
      NodeForSpec(entries, done[|done| - 1], related, displayUnlabeled, color);
    }
  }

  // ---------------------------------------------------------------------
  // The renderer
  // ---------------------------------------------------------------------

  /** A renderer for one pathway with an expression overlay; `nodes` and
      `edges` are what it has added to its graph. */
  class Renderer {
    const pathway: Pathway
    const overlay: map<string, real>
    var nodes: seq<Node>
    var edges: seq<Edge>

    constructor (pathway: Pathway, geneDict: Option<map<string, real>>)
      ensures this.pathway == pathway
      ensures overlay == (if geneDict.Some? then geneDict.value else map[])
      ensures nodes == [] && edges == []
    {
      this.pathway := pathway;
      overlay := if geneDict.Some? then geneDict.value else map[];
      nodes := [];
      edges := [];
    }

    /** `get_gene_color` with the default white. */
    function Color(shade: string -> string): string -> string
      reads this
    {
      g => GeneColor(overlay, g, White, shade)
    }

    /** `render`: computes the related ids, adds the nodes of the selected
        entries in entry order, then one edge per relation in relation
        order. An exception ends it with the nodes added so far. */
    method Render(displayUnlabeled: bool, shade: string -> string) returns (o: Result<()>)
      modifies this
      ensures var related := RelatedIds(pathway.relations);
        && (related.Err? ==> o == Err(related.error) && nodes == old(nodes) && edges == old(edges))
        && (related.Ok? ==>
              var (done, added) := NodesOf(pathway.entries, pathway.entries, related.value, displayUnlabeled,
                                           Color(shade));
              && nodes == old(nodes) + added
              && o == done
              && edges == old(edges) + (if done.Ok? then EdgesOf(pathway.relations) else []))
    {
      var related := RelatedIds(pathway.relations);
      if related.Err? {
        return Err(related.error);
      }
      o := AddNodes(related.value, displayUnlabeled, Color(shade));
      if o.Err? {
        return;
      }
      AddEdges();
    }

    /** The entry loop of `render`. */
    method AddNodes(related: seq<int>, displayUnlabeled: bool, color: string -> string) returns (o: Result<()>)
      modifies this
      ensures var (done, added) := NodesOf(pathway.entries, pathway.entries, related, displayUnlabeled, color);
        nodes == old(nodes) + added && o == done && edges == old(edges)
    {
      var i := 0;
      while i < |pathway.entries|
        invariant 0 <= i <= |pathway.entries|
        invariant edges == old(edges)
        invariant NodesOf(pathway.entries, pathway.entries[..i], related, displayUnlabeled, color).0 == Ok(())
        invariant nodes == old(nodes) + NodesOf(pathway.entries, pathway.entries[..i], related, displayUnlabeled, color).1
      {
        var node := NodeFor(pathway.entries, pathway.entries[i], related, displayUnlabeled, color);
        NodesOfStep(pathway.entries, i, related, displayUnlabeled, color);
        if node.Err? {
          NodesOfAbort(pathway.entries, pathway.entries[..i + 1], |pathway.entries|, related, displayUnlabeled, color);
          assert pathway.entries[..|pathway.entries|] == pathway.entries;
          return Err(node.error);
        }
        if node.value.Some? {
          nodes := nodes + [node.value.value];
        }
        i := i + 1;
      }
      assert pathway.entries[..i] == pathway.entries;
      o := Ok(());
    }

    /** The relation loop of `render`: one edge per relation, in order. */
    method AddEdges()
      modifies this
      ensures nodes == old(nodes) && edges == old(edges) + EdgesOf(pathway.relations)
    {
      var rels := pathway.relations;
      var k := 0;
      while k < |rels|
        invariant 0 <= k <= |rels|
        invariant nodes == old(nodes)
        invariant edges == old(edges) + EdgesOf(rels[..k])
      {
        EdgesOfSnoc(rels, k);
        edges := edges + [EdgeFor(rels[k])];
        k := k + 1;
      }
      assert rels[..k] == rels;
    }
  }

  /** One more relation adds its edge at the end. */
  lemma EdgesOfSnoc(rels: seq<Relation>, k: nat)
    requires k < |rels|
    ensures EdgesOf(rels[..k + 1]) == EdgesOf(rels[..k]) + [EdgeFor(rels[k])]
  {
    assert rels[..k + 1][..k] == rels[..k];
  }

  /** One turn of the entry loop: an entry adds its node, adds nothing, or
      stops the loop with its error. */
  lemma NodesOfStep(entries: seq<Entry>, i: nat, related: seq<int>, displayUnlabeled: bool, color: string -> string)
    requires i < |entries|
    ensures var prev := NodesOf(entries, entries[..i], related, displayUnlabeled, color);
      var r := NodeFor(entries, entries[i], related, displayUnlabeled, color);
      prev.0.Ok? ==>
        NodesOf(entries, entries[..i + 1], related, displayUnlabeled, color) ==
          if r.Err? then (Err(r.error), prev.1)
          else if r.value.None? then prev
          else (prev.0, prev.1 + [r.value.value])
  {
    assert entries[..i + 1][..i] == entries[..i];
  }

  /** Once the entry loop has raised, later entries change nothing. */
  lemma {:induction false} NodesOfAbort(entries: seq<Entry>, done: seq<Entry>, n: nat, related: seq<int>,
                                       displayUnlabeled: bool, color: string -> string)
    requires |done| <= n <= |entries| && done == entries[..|done|]
    requires NodesOf(entries, done, related, displayUnlabeled, color).0.Err?
    ensures NodesOf(entries, entries[..n], related, displayUnlabeled, color) ==
      NodesOf(entries, done, related, displayUnlabeled, color)
    decreases n - |done|
  {
    if n > |done| {
      assert entries[..|done| + 1][..|done|] == done;
      NodesOfAbort(entries, entries[..|done| + 1], n, related, displayUnlabeled, color);
    }
  }
}

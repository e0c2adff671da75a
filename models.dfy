/** keggtools/models.py: the KGML object model of the older revision. An XML
    element tree is read into `KEGGPathway`, `Entry`, `Relation`, `Graphics`
    and `Component` records, and the pathway answers a few queries. */
module Models {
  import opened Wrappers
  import opened Strings
  import opened Utils

  // ---------------------------------------------------------------------
  // Children by tag

  /** The elements of `children` with tag `tag`, in document order. */
  function Tagged(children: seq<Element>, tag: string): (r: seq<Element>)
    ensures |r| <= |children|
    ensures forall e :: e in r ==> e in children && e.tag == tag
  {
    if children == [] then []
    else
      var last := children[|children| - 1];
      Tagged(children[..|children| - 1], tag) + (if last.tag == tag then [last] else [])
  }

  /** Every element with tag `tag` is turned into a record by `parse`, in
      document order; the first element that fails aborts. */
  function ParseAll<T>(children: seq<Element>, tag: string, parse: Element -> Result<T>): Result<seq<T>>
  {
    if children == [] then Ok([])
    else
      var last := children[|children| - 1];
      match ParseAll(children[..|children| - 1], tag, parse)
      case Err(e) => Err(e)
      case Ok(xs) =>
        if last.tag != tag then Ok(xs)
        else match parse(last)
          case Err(e) => Err(e)
          case Ok(x) => Ok(xs + [x])
  }

  /** `ParseAll` succeeds iff every element of that tag parses, and then
      holds one record per such element, in order. */
  lemma {:induction false} ParseAllSpec<T>(children: seq<Element>, tag: string, parse: Element -> Result<T>)
    ensures ParseAll(children, tag, parse).Ok? <==> forall e :: e in Tagged(children, tag) ==> parse(e).Ok?
    ensures ParseAll(children, tag, parse).Ok? ==>
      var xs := ParseAll(children, tag, parse).value;
      var ts := Tagged(children, tag);
      |xs| == |ts| && forall i :: 0 <= i < |ts| ==> parse(ts[i]).Ok? && xs[i] == parse(ts[i]).value
    decreases |children|
  {
    if children != [] {
      var init := children[..|children| - 1];
      var last := children[|children| - 1];
      ParseAllSpec(init, tag, parse);
      assert Tagged(children, tag) == Tagged(init, tag) + (if last.tag == tag then [last] else []);
    }
  }

  /** Attribute `key`, or `default` when it is absent: `attrib.get(key, default)`. */
  function AttribOr(item: Element, key: string, default: string): (r: string)
    ensures key in item.attrib ==> r == item.attrib[key]
    ensures key !in item.attrib ==> r == default
  {
    if key in item.attrib then item.attrib[key] else default
  }

  // ---------------------------------------------------------------------
  // Component

  /** A node of a complex (`<component id=...>`). */
  datatype Component = Component(id: string)
  {
    /** `Component.parse`: the id attribute, required. */
    static function Parse(item: Element): (r: Result<Component>)
      ensures r.Ok? <==> "id" in item.attrib
      ensures r.Ok? ==> r.value.id == item.attrib["id"]
      ensures r.Err? ==> r.error == KeyError("id")
    {
      if "id" in item.attrib then Ok(Component(item.attrib["id"])) else Err(KeyError("id"))
    }
  }

  // ---------------------------------------------------------------------
  // Graphics

  /** A value of the graphics attribute dictionary: the integer 0 that the
      coordinates start with, or a string read from the element. */
  datatype AttrValue = Zero | Text(text: string)

  /** The eight keys of the graphics dictionary. */
  const GraphicsKeys: set<string> := {"x", "y", "width", "height", "name", "type", "fgcolor", "bgcolor"}

  /** The graphics attribute dictionary, one field per key: the coordinates
      start at 0, the other keys at "". */
  datatype Graphics = Graphics(
    x: AttrValue, y: AttrValue, width: AttrValue, height: AttrValue,
    name: string, kind: string, fgcolor: string, bgcolor: string)
  {
    /** The dictionary a fresh `Graphics()` starts with. */
    static const Default: Graphics := Graphics(Zero, Zero, Zero, Zero, "", "", "", "")

    /** `attrib[key] = value` when `key` is one of the eight keys; other keys
        are left out. */
    function With(key: string, value: string): (g: Graphics)
      ensures key !in GraphicsKeys ==> g == this
    {
      match key
      case "x" => this.(x := Text(value))
      case "y" => this.(y := Text(value))
      case "width" => this.(width := Text(value))
      case "height" => this.(height := Text(value))
      case "name" => this.(name := value)
      case "type" => this.(kind := value)
      case "fgcolor" => this.(fgcolor := value)
      case "bgcolor" => this.(bgcolor := value)
      case _ => this
    }

    /** `Graphics.parse`: copies every attribute of the element whose key is
        one of the eight and ignores the rest. */
    static method Parse(item: Element) returns (g: Graphics)
      ensures g == GraphicsOf(item)
    {
      g := Default;
      var todo := item.attrib.Keys;
      while todo != {}
        invariant todo <= item.attrib.Keys
        invariant g == GraphicsFrom(item.attrib, item.attrib.Keys - todo)
        decreases todo
      {
        var key :| key in todo;
        GraphicsFromAdd(item.attrib, item.attrib.Keys - todo, key);
        assert item.attrib.Keys - (todo - {key}) == (item.attrib.Keys - todo) + {key};
        g := g.With(key, item.attrib[key]);
        todo := todo - {key};
      }
      assert item.attrib.Keys - todo == item.attrib.Keys;
    }
  }

  /** The graphics value after the keys in `done` were copied from `attrib`. */
  function GraphicsFrom(attrib: map<string, string>, done: set<string>): Graphics
    requires done <= attrib.Keys
  {
    Graphics(
      if "x" in done then Text(attrib["x"]) else Zero,
      if "y" in done then Text(attrib["y"]) else Zero,
      if "width" in done then Text(attrib["width"]) else Zero,
      if "height" in done then Text(attrib["height"]) else Zero,
      if "name" in done then attrib["name"] else "",
      if "type" in done then attrib["type"] else "",
      if "fgcolor" in done then attrib["fgcolor"] else "",
      if "bgcolor" in done then attrib["bgcolor"] else "")
  }

  /** The graphics record an element describes, whatever the order in which
      its attributes are visited. */
  function GraphicsOf(item: Element): Graphics
  {
    GraphicsFrom(item.attrib, item.attrib.Keys)
  }

  /** Copying one more key is one `With` step. */
  lemma GraphicsFromAdd(attrib: map<string, string>, done: set<string>, key: string)
    requires done <= attrib.Keys && key in attrib && key !in done
    ensures GraphicsFrom(attrib, done + {key}) == GraphicsFrom(attrib, done).With(key, attrib[key])
  {
    var g := GraphicsFrom(attrib, done);
    var v := attrib[key];
    if key == "x" {
      assert g.With(key, v) == g.(x := Text(v));
    } else if key == "y" {
      assert g.With(key, v) == g.(y := Text(v));
    } else if key == "width" {
      assert g.With(key, v) == g.(width := Text(v));
    } else if key == "height" {
      assert g.With(key, v) == g.(height := Text(v));
    } else if key == "name" {
      assert g.With(key, v) == g.(name := v);
    } else if key == "type" {
      assert g.With(key, v) == g.(kind := v);
    } else if key == "fgcolor" {
      assert g.With(key, v) == g.(fgcolor := v);
    } else if key == "bgcolor" {
      assert g.With(key, v) == g.(bgcolor := v);
    } else {
      assert g.With(key, v) == g;
    }
  }

  /** Graphics parsing ignores attributes outside the eight keys. */
  lemma GraphicsIgnoresUnknown(item: Element, key: string, value: string)
    requires key !in GraphicsKeys
    ensures GraphicsOf(item.(attrib := item.attrib[key := value])) == GraphicsOf(item)
  {
  }

  /** Each of the eight keys holds the element's value when the element has
      it, and its default otherwise; an element without attributes gives the
      defaults. */
  lemma GraphicsOfFields(item: Element)
    ensures GraphicsOf(item).name == AttribOr(item, "name", "")
    ensures GraphicsOf(item).kind == AttribOr(item, "type", "")
    ensures GraphicsOf(item).fgcolor == AttribOr(item, "fgcolor", "")
    ensures GraphicsOf(item).bgcolor == AttribOr(item, "bgcolor", "")
    ensures GraphicsOf(item).x == (if "x" in item.attrib then Text(item.attrib["x"]) else Zero)
    ensures GraphicsOf(item).height == (if "height" in item.attrib then Text(item.attrib["height"]) else Zero)
    ensures item.attrib == map[] ==> GraphicsOf(item) == Graphics.Default
  {
  }

  // ---------------------------------------------------------------------
  // Relation

  /** A relation between two entries, with its subtype dictionary name -> value. */
  datatype Relation = Relation(entry1: string, entry2: string, kind: string, subtypes: map<string, string>)
  {
    /** `Relation.parse`. */
    static method Parse(item: Element) returns (r: Result<Relation>)
      ensures r == RelationOf(item)
    {
      if "entry1" !in item.attrib { return Err(KeyError("entry1")); }
      if "entry2" !in item.attrib { return Err(KeyError("entry2")); }
      if "type" !in item.attrib { return Err(KeyError("type")); }
      var subtypes: map<string, string> := map[];
      var i := 0;
      while i < |item.children|
        invariant 0 <= i <= |item.children|
        invariant SubtypesOf(item.children[..i]) == Ok(subtypes)
      {
        var child := item.children[i];
        assert item.children[..i + 1][..i] == item.children[..i];
        if child.tag == "subtype" {
          // the value is read before the key, as in `d[k] = v`
          if "value" !in child.attrib {
            SubtypesAbort(item.children, i + 1);
            return Err(KeyError("value"));
          }
          if "name" !in child.attrib {
            SubtypesAbort(item.children, i + 1);
            return Err(KeyError("name"));
          }
          subtypes := subtypes[child.attrib["name"] := child.attrib["value"]];
        }
        i := i + 1;
      }
      assert item.children[..i] == item.children;
      r := Ok(Relation(item.attrib["entry1"], item.attrib["entry2"], item.attrib["type"], subtypes));
    }
  }

  /** The subtype dictionary built from the children, in document order. */
  function SubtypesOf(children: seq<Element>): Result<map<string, string>>
  {
    if children == [] then Ok(map[])
    else
      var last := children[|children| - 1];
      match SubtypesOf(children[..|children| - 1])
      case Err(e) => Err(e)
      case Ok(m) =>
        if last.tag != "subtype" then Ok(m)
        else if "value" !in last.attrib then Err(KeyError("value"))
        else if "name" !in last.attrib then Err(KeyError("name"))
        else Ok(m[last.attrib["name"] := last.attrib["value"]])
  }

  /** The relation an element describes. */
  function RelationOf(item: Element): Result<Relation>
  {
    if "entry1" !in item.attrib then Err(KeyError("entry1"))
    else if "entry2" !in item.attrib then Err(KeyError("entry2"))
    else if "type" !in item.attrib then Err(KeyError("type"))
    else match SubtypesOf(item.children)
      case Err(e) => Err(e)
      case Ok(m) => Ok(Relation(item.attrib["entry1"], item.attrib["entry2"], item.attrib["type"], m))
  }

  lemma {:induction false} SubtypesAbort(children: seq<Element>, n: nat)
    requires n <= |children|
    requires SubtypesOf(children[..n]).Err?
    ensures SubtypesOf(children) == SubtypesOf(children[..n])
    decreases |children| - n
  {
    if n < |children| {
      assert children[..n + 1][..n] == children[..n];
      SubtypesAbort(children, n + 1);
    } else {
      assert children[..n] == children;
    }
  }

  /** `c` is a subtype element naming `k`. */
  predicate Names(c: Element, k: string)
  {
    c.tag == "subtype" && "name" in c.attrib && c.attrib["name"] == k
  }

  /** The subtype children parse iff each has a name and a value. */
  lemma {:induction false} SubtypesOk(children: seq<Element>)
    ensures SubtypesOf(children).Ok? <==>
      forall c :: c in Tagged(children, "subtype") ==> "name" in c.attrib && "value" in c.attrib
    decreases |children|
  {
    if children != [] {
      var init := children[..|children| - 1];
      var last := children[|children| - 1];
      SubtypesOk(init);
      assert Tagged(children, "subtype") == Tagged(init, "subtype") + (if last.tag == "subtype" then [last] else []);
    }
  }

  /** There are at most as many subtype names as subtype children. */
  lemma {:induction false} SubtypesSize(children: seq<Element>)
    requires SubtypesOf(children).Ok?
    ensures |SubtypesOf(children).value.Keys| <= |Tagged(children, "subtype")|
    decreases |children|
  {
    if children != [] {
      var init := children[..|children| - 1];
      var last := children[|children| - 1];
      SubtypesSize(init);
      assert Tagged(children, "subtype") == Tagged(init, "subtype") + (if last.tag == "subtype" then [last] else []);
      if last.tag == "subtype" {
        var m := SubtypesOf(init).value;
        assert SubtypesOf(children).value.Keys == m.Keys + {last.attrib["name"]};
      }
    }
  }

  /** The subtype dictionary has exactly the names of the subtype children
      as keys. */
  lemma {:induction false} SubtypesKeys(children: seq<Element>)
    requires SubtypesOf(children).Ok?
    ensures forall k :: k in SubtypesOf(children).value <==>
      exists i :: 0 <= i < |children| && Names(children[i], k)
    decreases |children|
  {
    if children != [] {
      var init := children[..|children| - 1];
      SubtypesKeys(init);
      var m := SubtypesOf(init).value;
      var m' := SubtypesOf(children).value;
      forall k ensures k in m' <==> exists i :: 0 <= i < |children| && Names(children[i], k) {
        if k in m {
          var i :| 0 <= i < |init| && Names(init[i], k);
          assert children[i] == init[i];
        }
        if exists i :: 0 <= i < |children| && Names(children[i], k) {
          var i :| 0 <= i < |children| && Names(children[i], k);
          if i < |init| {
            assert Names(init[i], k);
          }
        }
      }
    }
  }

  /** A repeated subtype name keeps the value of its LAST child. */
  lemma {:induction false} SubtypesLast(children: seq<Element>, i: nat, k: string)
    requires SubtypesOf(children).Ok?
    requires i < |children| && Names(children[i], k)
    requires forall j :: i < j < |children| ==> !Names(children[j], k)
    ensures "value" in children[i].attrib
    ensures k in SubtypesOf(children).value && SubtypesOf(children).value[k] == children[i].attrib["value"]
    decreases |children|
  {
    var init := children[..|children| - 1];
    if i < |init| {
      assert init[i] == children[i];
      forall j | i < j < |init| ensures !Names(init[j], k) {
        assert init[j] == children[j];
      }
      SubtypesLast(init, i, k);
    }
  }

  /** A relation parses iff entry1, entry2 and type are present and every
      subtype child has a name and a value; its ends and type are then copied
      unchanged. */
  lemma RelationOfSpec(item: Element)
    ensures RelationOf(item).Ok? <==>
      "entry1" in item.attrib && "entry2" in item.attrib && "type" in item.attrib &&
      forall c :: c in Tagged(item.children, "subtype") ==> "name" in c.attrib && "value" in c.attrib
    ensures RelationOf(item).Ok? ==>
      RelationOf(item).value.entry1 == item.attrib["entry1"] &&
      RelationOf(item).value.entry2 == item.attrib["entry2"] &&
      RelationOf(item).value.kind == item.attrib["type"]
    ensures "entry1" !in item.attrib ==> RelationOf(item) == Err(KeyError("entry1"))
  {
    SubtypesOk(item.children);
  }

  // ---------------------------------------------------------------------
  // Entry

  /** A KGML entry: a gene, compound, group, map, ... node. */
  datatype Entry = Entry(
    id: string, name: string, kind: string, link: string, reaction: string,
    graphics: Option<Graphics>, components: seq<Component>)
  {
    /** `Entry.get_gene_id` (and its duplicate `get_id`): the integer after the
        first ":" of the name, up to the next ":". IndexError when the name has
        no ":", ValueError when that text is not an integer. */
    function GetGeneId(): (r: Result<int>)
      ensures r == Err(IndexError) <==> ':' !in name
    {
      var parts := Split(name, ":");
      if |parts| < 2 then
        assert ':' !in name by { SplitNoSep(name, ':'); }
        Err(IndexError)
      else
        assert ':' in name by { SplitHasSep(name, ':'); }
        match ParseInt(parts[1])
        case None => Err(ValueError("invalid literal for int() with base 10"))
        case Some(n) => Ok(n)
    }

    /** `Entry.parse`. */
    static method Parse(item: Element) returns (r: Result<Entry>)
      ensures r == EntryOf(item)
    {
      if "id" !in item.attrib { return Err(KeyError("id")); }
      if "name" !in item.attrib { return Err(KeyError("name")); }
      if "type" !in item.attrib { return Err(KeyError("type")); }
      var link := AttribOr(item, "link", "");
      var reaction := AttribOr(item, "reaction", "");
      var graphics: Option<Graphics> := None;
      var components: seq<Component> := [];
      var i := 0;
      while i < |item.children|
        invariant 0 <= i <= |item.children|
        invariant EntryChildrenOf(item.children[..i]) == Ok(EntryChildren(graphics, components))
      {
        var child := item.children[i];
        assert item.children[..i + 1][..i] == item.children[..i];
        if child.tag == "graphics" {
          var g := Graphics.Parse(child);
          graphics := Some(g);
        } else if child.tag == "component" {
          var c := Component.Parse(child);
          if c.Err? {
            EntryChildrenAbort(item.children, i + 1);
            return Err(c.error);
          }
          components := components + [c.value];
        }
        i := i + 1;
      }
      assert item.children[..i] == item.children;
      r := Ok(Entry(item.attrib["id"], BeforeFirst(item.attrib["name"], " "), item.attrib["type"],
                    link, reaction, graphics, components));
    }
  }

  lemma SplitNoSep(s: string, c: char)
    requires |Split(s, [c])| < 2
    ensures c !in s
  {
    if c in s {
      var k :| 0 <= k < |s| && s[k] == c;
      assert OccursAt(s, [c], k);
    }
  }

  lemma SplitHasSep(s: string, c: char)
    requires |Split(s, [c])| >= 2
    ensures c in s
  {
    match FindFrom(s, [c], 0)
    case None =>
    case Some(j) =>
      assert s[j..j + 1] == [c];
      assert s[j] == c;
  }

  /** The graphics and components read so far from an entry's children. */
  datatype EntryChildren = EntryChildren(graphics: Option<Graphics>, components: seq<Component>)

  /** Every `<graphics>` child replaces the graphics, every `<component>`
      child is appended, other children are ignored. */
  function EntryChildrenOf(children: seq<Element>): Result<EntryChildren>
  {
    if children == [] then Ok(EntryChildren(None, []))
    else
      var last := children[|children| - 1];
      match EntryChildrenOf(children[..|children| - 1])
      case Err(e) => Err(e)
      case Ok(acc) =>
        if last.tag == "graphics" then Ok(acc.(graphics := Some(GraphicsOf(last))))
        else if last.tag == "component" then
          match Component.Parse(last)
          case Err(e) => Err(e)
          case Ok(c) => Ok(acc.(components := acc.components + [c]))
        else Ok(acc)
  }

  /** The entry an element describes: id, name and type are required, only
      the first space-separated token of the name is kept, link and reaction
      default to "". */
  function EntryOf(item: Element): Result<Entry>
  {
    if "id" !in item.attrib then Err(KeyError("id"))
    else if "name" !in item.attrib then Err(KeyError("name"))
    else if "type" !in item.attrib then Err(KeyError("type"))
    else match EntryChildrenOf(item.children)
      case Err(e) => Err(e)
      case Ok(acc) =>
        Ok(Entry(item.attrib["id"], BeforeFirst(item.attrib["name"], " "), item.attrib["type"],
                 AttribOr(item, "link", ""), AttribOr(item, "reaction", ""), acc.graphics, acc.components))
  }

  lemma {:induction false} EntryChildrenAbort(children: seq<Element>, n: nat)
    requires n <= |children|
    requires EntryChildrenOf(children[..n]).Err?
    ensures EntryChildrenOf(children) == EntryChildrenOf(children[..n])
    decreases |children| - n
  {
    if n < |children| {
      assert children[..n + 1][..n] == children[..n];
      EntryChildrenAbort(children, n + 1);
    } else {
      assert children[..n] == children;
    }
  }

  /** The last `<graphics>` child, if any. */
  function LastGraphics(children: seq<Element>): Option<Element>
  {
    var gs := Tagged(children, "graphics");
    if gs == [] then None else Some(gs[|gs| - 1])
  }

  /** An entry's graphics come from its LAST `<graphics>` child (None without
      one), and its components are its `<component>` children in order; the
      children parse iff every component child has an id. */
  lemma {:induction false} EntryChildrenSpec(children: seq<Element>)
    ensures EntryChildrenOf(children).Ok? <==> ParseAll(children, "component", Component.Parse).Ok?
    ensures EntryChildrenOf(children).Ok? ==>
      EntryChildrenOf(children).value.components == ParseAll(children, "component", Component.Parse).value &&
      EntryChildrenOf(children).value.graphics ==
        (match LastGraphics(children) case None => None case Some(g) => Some(GraphicsOf(g)))
    decreases |children|
  {
    if children != [] {
      var init := children[..|children| - 1];
      var last := children[|children| - 1];
      EntryChildrenSpec(init);
      assert Tagged(children, "graphics") == Tagged(init, "graphics") + (if last.tag == "graphics" then [last] else []);
    }
  }

  /** What `Entry.parse` keeps of an element: the required attributes are
      checked in the order id, name, type; the name is cut at the first
      space; link and reaction default to ""; the components are the
      component children in order. */
  lemma EntryOfSpec(item: Element)
    ensures "id" !in item.attrib ==> EntryOf(item) == Err(KeyError("id"))
    ensures "id" in item.attrib && "name" !in item.attrib ==> EntryOf(item) == Err(KeyError("name"))
    ensures EntryOf(item).Ok? ==>
      var e := EntryOf(item).value;
      var full := item.attrib["name"];
      && e.id == item.attrib["id"] && e.kind == item.attrib["type"]
      && |e.name| <= |full| && full[..|e.name|] == e.name && ' ' !in e.name
      && (e.name == full || full[|e.name|] == ' ')
      && e.link == AttribOr(item, "link", "") && e.reaction == AttribOr(item, "reaction", "")
      && |e.components| == |Tagged(item.children, "component")|
      && (forall i :: 0 <= i < |e.components| ==>
            "id" in Tagged(item.children, "component")[i].attrib &&
            e.components[i].id == Tagged(item.children, "component")[i].attrib["id"])
  {
    if EntryOf(item).Ok? {
      NameToken(item.attrib["name"]);
      EntryComponents(item);
    }
  }

  /** The first space-separated token of a name: a prefix without a space,
      ending at the end of the name or at its first space. */
  lemma NameToken(full: string)
    ensures var t := BeforeFirst(full, " ");
      && |t| <= |full| && full[..|t|] == t && ' ' !in t
      && (t == full || full[|t|] == ' ')
  {
    var t := BeforeFirst(full, " ");
    BeforeFirstSpec(full, " ");
    if ' ' in t {
      var k :| 0 <= k < |t| && t[k] == ' ';
      assert OccursAt(t, " ", k);
    }
    if t != full {
      assert OccursAt(full, " ", |t|);
      assert full[|t|..|t| + 1][0] == full[|t|];
    }
  }

  /** An entry holds one component per component child, with that child's id. */
  lemma EntryComponents(item: Element)
    requires EntryOf(item).Ok?
    ensures var e := EntryOf(item).value;
      && |e.components| == |Tagged(item.children, "component")|
      && (forall i :: 0 <= i < |e.components| ==>
            "id" in Tagged(item.children, "component")[i].attrib &&
            e.components[i].id == Tagged(item.children, "component")[i].attrib["id"])
  {
    EntryChildrenSpec(item.children);
    ParseAllSpec(item.children, "component", Component.Parse);
  }

  /** The gene id of "org:NNN" is NNN. */
  lemma GeneIdOfName(entry: Entry, org: string, n: int)
    requires ':' !in org
    requires entry.name == org + ":" + Decimal(n)
    ensures entry.GetGeneId() == Ok(n)
  {
    var d := Decimal(n);
    assert ':' !in d by {
      var digits := DecimalNat(if n < 0 then -n else n);
      assert forall k :: 0 <= k < |digits| ==> IsDigit(digits[k]);
    }
    assert Join([org, d], ":") == org + ":" + d by {
      assert [org, d][1..] == [d];
    }
    SplitJoin([org, d], ':');
    ParseIntDecimal(n);
  }

  // ---------------------------------------------------------------------
  // Pathway

  /** The value `get_entry_by_id` is called with: an int or a string. */
  datatype EntryKey = IntKey(i: int) | StrKey(s: string)

  /** `int(entry_id)`. */
  function KeyInt(key: EntryKey): Option<int>
  {
    match key
    case IntKey(i) => Some(i)
    case StrKey(s) => ParseInt(s)
  }

  /** `int(entry.id) == int(key)`, both sides defined. */
  predicate IdMatches(entry: Entry, key: EntryKey)
  {
    ParseInt(entry.id).Some? && KeyInt(key) == ParseInt(entry.id)
  }

  /** A KGML pathway. `reactions` is never filled: reaction elements are
      skipped. */
  datatype KEGGPathway = KEGGPathway(
    name: string, org: string, number: string, title: string, image: string, link: string,
    relations: seq<Relation>, entries: seq<Entry>, reactions: seq<Element>)
  {
    /** `KEGGPathway.parse`, from the element tree's root. */
    static method Parse(root: Element) returns (r: Result<KEGGPathway>)
      ensures r == PathwayOf(root)
    {
      if "name" !in root.attrib { return Err(KeyError("name")); }
      if "org" !in root.attrib { return Err(KeyError("org")); }
      if "number" !in root.attrib { return Err(KeyError("number")); }
      var entries: seq<Entry> := [];
      var relations: seq<Relation> := [];
      var i := 0;
      while i < |root.children|
        invariant 0 <= i <= |root.children|
        invariant PathwayChildrenOf(root.children[..i]) == Ok(PathwayChildren(entries, relations))
      {
        var child := root.children[i];
        assert root.children[..i + 1][..i] == root.children[..i];
        if child.tag == "entry" {
          var e := Entry.Parse(child);
          if e.Err? {
            PathwayChildrenAbort(root.children, i + 1);
            return Err(e.error);
          }
          entries := entries + [e.value];
        } else if child.tag == "relation" {
          var rel := Relation.Parse(child);
          if rel.Err? {
            PathwayChildrenAbort(root.children, i + 1);
            return Err(rel.error);
          }
          relations := relations + [rel.value];
        }
        i := i + 1;
      }
      assert root.children[..i] == root.children;
      r := Ok(KEGGPathway(root.attrib["name"], root.attrib["org"], root.attrib["number"],
                          AttribOr(root, "title", ""), AttribOr(root, "image", ""), AttribOr(root, "link", ""),
                          relations, entries, []));
    }

    /** `get_entry_by_id`: the first entry whose id is numerically equal to
        `key`. */
    method GetEntryById(key: EntryKey) returns (r: Result<Option<Entry>>)
      ensures r == FindEntry(entries, key)
    {
      var i := 0;
      while i < |entries|
        invariant 0 <= i <= |entries|
        invariant FindEntry(entries, key) == FindEntry(entries[i..], key)
      {
        var item := entries[i];
        assert entries[i..][1..] == entries[i + 1..];
        var a := ParseInt(item.id);
        if a.None? {
          return Err(ValueError("invalid literal for int() with base 10"));
        }
        var b := KeyInt(key);
        if b.None? {
          return Err(ValueError("invalid literal for int() with base 10"));
        }
        if a.value == b.value {
          return Ok(Some(item));
        }
        i := i + 1;
      }
      r := Ok(None);
    }

    /** `get_genes`: gene id -> graphics name of every gene entry. */
    method GetGenes() returns (r: Result<map<int, string>>)
      ensures r == GenesOf(entries)
    {
      var result: map<int, string> := map[];
      var i := 0;
      while i < |entries|
        invariant 0 <= i <= |entries|
        invariant GenesOf(entries[..i]) == Ok(result)
      {
        var entry := entries[i];
        assert entries[..i + 1][..i] == entries[..i];
        if entry.kind == "gene" {
          // the graphics name is read before the id, as in `d[k] = v`
          if entry.graphics.None? {
            GenesAbort(entries, i + 1);
            return Err(AttributeError("name"));
          }
          var id := entry.GetGeneId();
          if id.Err? {
            GenesAbort(entries, i + 1);
            return Err(id.error);
          }
          result := result[id.value := entry.graphics.value.name];
        }
        i := i + 1;
      }
      assert entries[..i] == entries;
      r := Ok(result);
    }

    /** `matches` as written: it asks whether each Entry object is in a list
        of ints, which never holds, so it counts nothing. */
    method MatchesAsWritten(geneIdList: seq<int>) returns (r: Result<real>)
      ensures entries == [] ==> r == Err(ZeroDivisionError)
      ensures entries != [] ==> r == Ok(MatchCountAsWritten(entries, geneIdList) as real / |entries| as real)
    {
      var count := 0;
      var i := 0;
      while i < |entries|
        invariant 0 <= i <= |entries|
        invariant count == MatchCountAsWritten(entries[..i], geneIdList)
      {
        assert entries[..i + 1][..i] == entries[..i];
        if PyIn(PyEntry(entries[i]), IntValues(geneIdList)) {
          count := count + 1;
        }
        i := i + 1;
      }
      assert entries[..i] == entries;
      if |entries| == 0 {
        return Err(ZeroDivisionError);
      }
      r := Ok(count as real / |entries| as real);
    }

    /** `matches` as evidently intended: the share of entries whose gene id
        is in the list. */
    method Matches(geneIdList: seq<int>) returns (r: Result<real>)
      ensures entries == [] ==> r == Err(ZeroDivisionError)
      ensures entries != [] ==> r == Ok(MatchCount(entries, geneIdList) as real / |entries| as real)
      ensures r.Ok? ==> 0.0 <= r.value <= 1.0
    {
      var count := 0;
      var i := 0;
      while i < |entries|
        invariant 0 <= i <= |entries|
        invariant count == MatchCount(entries[..i], geneIdList)
      {
        assert entries[..i + 1][..i] == entries[..i];
        var id := entries[i].GetGeneId();
        if id.Ok? && id.value in geneIdList {
          count := count + 1;
        }
        i := i + 1;
      }
      assert entries[..i] == entries;
      if |entries| == 0 {
        return Err(ZeroDivisionError);
      }
      MatchCountBound(entries, geneIdList);
      Share(count, |entries|);
      r := Ok(count as real / |entries| as real);
    }
  }

  /** The entries and relations read so far from the root's children. */
  datatype PathwayChildren = PathwayChildren(entries: seq<Entry>, relations: seq<Relation>)

  /** `<entry>` and `<relation>` children are parsed and appended in document
      order; `<reaction>` and every other tag are skipped. */
  function PathwayChildrenOf(children: seq<Element>): Result<PathwayChildren>
  {
    if children == [] then Ok(PathwayChildren([], []))
    else
      var last := children[|children| - 1];
      match PathwayChildrenOf(children[..|children| - 1])
      case Err(e) => Err(e)
      case Ok(acc) =>
        if last.tag == "entry" then
          match EntryOf(last)
          case Err(e) => Err(e)
          case Ok(x) => Ok(acc.(entries := acc.entries + [x]))
        else if last.tag == "relation" then
          match RelationOf(last)
          case Err(e) => Err(e)
          case Ok(x) => Ok(acc.(relations := acc.relations + [x]))
        else Ok(acc)
  }

  /** The pathway a KGML root element describes. */
  function PathwayOf(root: Element): Result<KEGGPathway>
  {
    if "name" !in root.attrib then Err(KeyError("name"))
    else if "org" !in root.attrib then Err(KeyError("org"))
    else if "number" !in root.attrib then Err(KeyError("number"))
    else match PathwayChildrenOf(root.children)
      case Err(e) => Err(e)
      case Ok(acc) =>
        Ok(KEGGPathway(root.attrib["name"], root.attrib["org"], root.attrib["number"],
                       AttribOr(root, "title", ""), AttribOr(root, "image", ""), AttribOr(root, "link", ""),
                       acc.relations, acc.entries, []))
  }

  lemma {:induction false} PathwayChildrenAbort(children: seq<Element>, n: nat)
    requires n <= |children|
    requires PathwayChildrenOf(children[..n]).Err?
    ensures PathwayChildrenOf(children) == PathwayChildrenOf(children[..n])
    decreases |children| - n
  {
    if n < |children| {
      assert children[..n + 1][..n] == children[..n];
      PathwayChildrenAbort(children, n + 1);
    } else {
      assert children[..n] == children;
    }
  }

  /** Reading the root's children amounts to reading the entry children and
      the relation children separately. */
  lemma {:induction false} PathwayChildrenSplit(children: seq<Element>)
    ensures PathwayChildrenOf(children).Ok? <==>
      ParseAll(children, "entry", EntryOf).Ok? && ParseAll(children, "relation", RelationOf).Ok?
    ensures PathwayChildrenOf(children).Ok? ==>
      PathwayChildrenOf(children).value.entries == ParseAll(children, "entry", EntryOf).value &&
      PathwayChildrenOf(children).value.relations == ParseAll(children, "relation", RelationOf).value
    decreases |children|
  {
    if children != [] {
      PathwayChildrenSplit(children[..|children| - 1]);
    }
  }

  /** `KEGGPathway.parse` needs name, org and number (checked in that order,
      KeyError otherwise), defaults title, image and link to "", holds one
      entry per `<entry>` child and one relation per `<relation>` child in
      document order, and fills no reactions. */
  lemma PathwayOfSpec(root: Element)
    ensures "name" !in root.attrib ==> PathwayOf(root) == Err(KeyError("name"))
    ensures "name" in root.attrib && "org" !in root.attrib ==> PathwayOf(root) == Err(KeyError("org"))
    ensures "name" in root.attrib && "org" in root.attrib && "number" !in root.attrib ==>
      PathwayOf(root) == Err(KeyError("number"))
    ensures PathwayOf(root).Ok? <==>
      "name" in root.attrib && "org" in root.attrib && "number" in root.attrib &&
      (forall e :: e in Tagged(root.children, "entry") ==> EntryOf(e).Ok?) &&
      (forall e :: e in Tagged(root.children, "relation") ==> RelationOf(e).Ok?)
    ensures PathwayOf(root).Ok? ==>
      var p := PathwayOf(root).value;
      var es := Tagged(root.children, "entry");
      var rs := Tagged(root.children, "relation");
      && p.name == root.attrib["name"] && p.org == root.attrib["org"] && p.number == root.attrib["number"]
      && p.title == AttribOr(root, "title", "") && p.image == AttribOr(root, "image", "")
      && p.link == AttribOr(root, "link", "")
      && |p.entries| == |es| && (forall i :: 0 <= i < |es| ==> p.entries[i] == EntryOf(es[i]).value)
      && |p.relations| == |rs| && (forall i :: 0 <= i < |rs| ==> p.relations[i] == RelationOf(rs[i]).value)
      && p.reactions == []
  {
    PathwayChildrenSplit(root.children);
    ParseAllSpec(root.children, "entry", EntryOf);
    ParseAllSpec(root.children, "relation", RelationOf);
  }

  // ---------------------------------------------------------------------
  // Queries

  /** The first entry whose id is numerically `key`; `int()` failing on an
      entry id, or on the key once there is an entry to compare, is a
      ValueError. */
  function FindEntry(entries: seq<Entry>, key: EntryKey): Result<Option<Entry>>
  {
    if entries == [] then Ok(None)
    else if ParseInt(entries[0].id).None? then Err(ValueError("invalid literal for int() with base 10"))
    else if KeyInt(key).None? then Err(ValueError("invalid literal for int() with base 10"))
    else if ParseInt(entries[0].id) == KeyInt(key) then Ok(Some(entries[0]))
    else FindEntry(entries[1..], key)
  }

  /** `get_entry_by_id` finds the first entry whose id equals the key as an
      integer, and None exactly when no entry does (all ids being integers). */
  lemma FindEntrySpec(entries: seq<Entry>, key: EntryKey)
    ensures FindEntry(entries, key).Ok? && FindEntry(entries, key).value.Some? ==>
      exists i :: 0 <= i < |entries| && entries[i] == FindEntry(entries, key).value.value &&
        IdMatches(entries[i], key) && forall j :: 0 <= j < i ==> !IdMatches(entries[j], key)
    ensures FindEntry(entries, key) == Ok(None) ==>
      forall i :: 0 <= i < |entries| ==> !IdMatches(entries[i], key)
    ensures ((forall i :: 0 <= i < |entries| ==> ParseInt(entries[i].id).Some?) &&
      (entries == [] || KeyInt(key).Some?)) ==>
      (FindEntry(entries, key).Ok? &&
       (FindEntry(entries, key).value.Some? <==> exists i :: 0 <= i < |entries| && IdMatches(entries[i], key)))
  {
    var r := FindEntry(entries, key);
    if r.Ok? && r.value.Some? {
      var i := FindIndex(entries, key);
      FindIndexFound(entries, key);
      forall j | 0 <= j < i ensures !IdMatches(entries[j], key) {
        FindIndexFirst(entries, key, j);
      }
    }
    if r == Ok(None) {
      forall i | 0 <= i < |entries| ensures !IdMatches(entries[i], key) {
        FindEntryNone(entries, key, i);
      }
    }
    if (forall i :: 0 <= i < |entries| ==> ParseInt(entries[i].id).Some?) && (entries == [] || KeyInt(key).Some?) {
      FindEntryNumeric(entries, key);
    }
  }

  /** The position at which the search stops. */
  function FindIndex(entries: seq<Entry>, key: EntryKey): nat
  {
    if entries == [] || ParseInt(entries[0].id) == KeyInt(key) then 0
    else 1 + FindIndex(entries[1..], key)
  }

  /** The entry `get_entry_by_id` returns sits at `FindIndex` and matches. */
  lemma {:induction false} FindIndexFound(entries: seq<Entry>, key: EntryKey)
    requires FindEntry(entries, key).Ok? && FindEntry(entries, key).value.Some?
    ensures FindIndex(entries, key) < |entries|
    ensures entries[FindIndex(entries, key)] == FindEntry(entries, key).value.value
    ensures IdMatches(entries[FindIndex(entries, key)], key)
    decreases |entries|
  {
    if ParseInt(entries[0].id) != KeyInt(key) {
      var rest := entries[1..];
      assert FindEntry(entries, key) == FindEntry(rest, key);
      FindIndexFound(rest, key);
      assert entries[FindIndex(entries, key)] == rest[FindIndex(rest, key)];
    }
  }

  /** No entry before `FindIndex` matches. */
  lemma {:induction false} FindIndexFirst(entries: seq<Entry>, key: EntryKey, j: nat)
    requires FindEntry(entries, key).Ok? && FindEntry(entries, key).value.Some?
    requires j < FindIndex(entries, key)
    ensures j < |entries| && !IdMatches(entries[j], key)
    decreases |entries|
  {
    FindIndexFound(entries, key);
    var rest := entries[1..];
    assert ParseInt(entries[0].id) != KeyInt(key);
    assert FindEntry(entries, key) == FindEntry(rest, key);
    if j > 0 {
      FindIndexFirst(rest, key, j - 1);
      assert rest[j - 1] == entries[j];
    }
  }

  /** When `get_entry_by_id` returns None, no entry matches. */
  lemma {:induction false} FindEntryNone(entries: seq<Entry>, key: EntryKey, i: nat)
    requires FindEntry(entries, key) == Ok(None) && i < |entries|
    ensures !IdMatches(entries[i], key)
    decreases |entries|
  {
    var rest := entries[1..];
    assert FindEntry(entries, key) == FindEntry(rest, key);
    if i > 0 {
      FindEntryNone(rest, key, i - 1);
      assert rest[i - 1] == entries[i];
    }
  }

  /** With integer ids (and an integer key when there is an entry) the
      search raises nothing. */
  lemma {:induction false} FindEntryNumeric(entries: seq<Entry>, key: EntryKey)
    requires forall i :: 0 <= i < |entries| ==> ParseInt(entries[i].id).Some?
    requires entries == [] || KeyInt(key).Some?
    ensures FindEntry(entries, key).Ok?
    decreases |entries|
  {
    if entries != [] && ParseInt(entries[0].id) != KeyInt(key) {
      forall i | 0 <= i < |entries[1..]| ensures ParseInt(entries[1..][i].id).Some? {
        assert entries[1..][i] == entries[i + 1];
      }
      FindEntryNumeric(entries[1..], key);
    }
  }

  /** Ids compare as numbers: an entry "044" is found by the key 44. */
  lemma FindEntryLeadingZero(e: Entry)
    requires e.id == "044"
    ensures FindEntry([e], IntKey(44)) == Ok(Some(e))
  {
    assert "044"[1..] == "44" && "044"[..1] == "0";
    assert "44"[..1] == "4";
    assert "044"[..2] == "04" && "04"[..1] == "0";
    assert DigitsValue("0") == 0;
    assert DigitsValue("04") == 4;
    assert DigitsValue("044") == 44;
  }

  /** The gene map built from the entries in order: for each gene entry,
      a missing graphics is an AttributeError, then a bad id fails. */
  function GenesOf(entries: seq<Entry>): Result<map<int, string>>
  {
    if entries == [] then Ok(map[])
    else
      var last := entries[|entries| - 1];
      match GenesOf(entries[..|entries| - 1])
      case Err(e) => Err(e)
      case Ok(m) =>
        if last.kind != "gene" then Ok(m)
        else if last.graphics.None? then Err(AttributeError("name"))
        else match last.GetGeneId()
          case Err(e) => Err(e)
          case Ok(id) => Ok(m[id := last.graphics.value.name])
  }

  lemma {:induction false} GenesAbort(entries: seq<Entry>, n: nat)
    requires n <= |entries|
    requires GenesOf(entries[..n]).Err?
    ensures GenesOf(entries) == GenesOf(entries[..n])
    decreases |entries| - n
  {
    if n < |entries| {
      assert entries[..n + 1][..n] == entries[..n];
      GenesAbort(entries, n + 1);
    } else {
      assert entries[..n] == entries;
    }
  }

  /** The gene entries, in order. */
  function GeneEntries(entries: seq<Entry>): (r: seq<Entry>)
    ensures |r| <= |entries|
  {
    if entries == [] then []
    else
      var last := entries[|entries| - 1];
      GeneEntries(entries[..|entries| - 1]) + (if last.kind == "gene" then [last] else [])
  }

  /** Entry `e` is a gene entry whose id is `id`. */
  predicate GeneWithId(e: Entry, id: int)
  {
    e.kind == "gene" && e.GetGeneId() == Ok(id)
  }

  /** `get_genes` succeeds iff every gene entry has graphics and an integer id. */
  lemma {:induction false} GenesOk(entries: seq<Entry>)
    ensures GenesOf(entries).Ok? <==>
      forall e :: e in GeneEntries(entries) ==> e.graphics.Some? && e.GetGeneId().Ok?
    decreases |entries|
  {
    if entries != [] {
      var init := entries[..|entries| - 1];
      var last := entries[|entries| - 1];
      GenesOk(init);
      assert GeneEntries(entries) == GeneEntries(init) + (if last.kind == "gene" then [last] else []);
    }
  }

  /** There are at most as many genes as gene entries. */
  lemma {:induction false} GenesSize(entries: seq<Entry>)
    requires GenesOf(entries).Ok?
    ensures |GenesOf(entries).value.Keys| <= |GeneEntries(entries)|
    decreases |entries|
  {
    if entries != [] {
      var init := entries[..|entries| - 1];
      var last := entries[|entries| - 1];
      GenesSize(init);
      assert GeneEntries(entries) == GeneEntries(init) + (if last.kind == "gene" then [last] else []);
      if last.kind == "gene" {
        assert GenesOf(entries).value.Keys == GenesOf(init).value.Keys + {last.GetGeneId().value};
      }
    }
  }

  /** The ids of the gene entries whose id is an integer. */
  function GeneIds(entries: seq<Entry>): set<int>
  {
    if entries == [] then {}
    else
      var last := entries[|entries| - 1];
      GeneIds(entries[..|entries| - 1]) +
      (if last.kind == "gene" && last.GetGeneId().Ok? then {last.GetGeneId().value} else {})
  }

  /** An id is among `GeneIds` iff some gene entry has it. */
  lemma GeneIdsSpec(entries: seq<Entry>, id: int)
    ensures id in GeneIds(entries) <==> exists i :: 0 <= i < |entries| && GeneWithId(entries[i], id)
  {
    if id in GeneIds(entries) {
      var i := GeneIdsWitness(entries, id);
    }
    if exists i :: 0 <= i < |entries| && GeneWithId(entries[i], id) {
      var i :| 0 <= i < |entries| && GeneWithId(entries[i], id);
      GeneIdsHas(entries, i, id);
    }
  }

  /** A gene entry that contributes an id in `GeneIds`. */
  lemma {:induction false} GeneIdsWitness(entries: seq<Entry>, id: int) returns (i: nat)
    requires id in GeneIds(entries)
    ensures i < |entries| && GeneWithId(entries[i], id)
    decreases |entries|
  {
    var n := |entries| - 1;
    var last := entries[n];
    if last.kind == "gene" && last.GetGeneId() == Ok(id) {
      i := n;
    } else {
      var init := entries[..n];
      assert id in GeneIds(init);
      i := GeneIdsWitness(init, id);
      assert entries[i] == init[i];
    }
  }

  /** Every gene entry contributes its id to `GeneIds`. */
  lemma {:induction false} GeneIdsHas(entries: seq<Entry>, i: nat, id: int)
    requires i < |entries| && GeneWithId(entries[i], id)
    ensures id in GeneIds(entries)
    decreases |entries|
  {
    var n := |entries| - 1;
    var init := entries[..n];
    if i < n {
      assert init[i] == entries[i];
      GeneIdsHas(init, i, id);
    }
  }

  /** The keys of `get_genes` are exactly the ids of the gene entries. */
  lemma {:induction false} GenesKeys(entries: seq<Entry>)
    requires GenesOf(entries).Ok?
    ensures GenesOf(entries).value.Keys == GeneIds(entries)
    ensures forall id :: id in GenesOf(entries).value <==>
      exists i :: 0 <= i < |entries| && GeneWithId(entries[i], id)
    decreases |entries|
  {
    if entries != [] {
      GenesKeys(entries[..|entries| - 1]);
    }
    forall id ensures id in GeneIds(entries) <==> exists i :: 0 <= i < |entries| && GeneWithId(entries[i], id) {
      GeneIdsSpec(entries, id);
    }
  }

  /** A repeated gene id keeps the graphics name of its LAST gene entry. */
  lemma {:induction false} GenesLast(entries: seq<Entry>, i: nat, id: int)
    requires GenesOf(entries).Ok?
    requires i < |entries| && GeneWithId(entries[i], id)
    requires forall j :: i < j < |entries| ==> !GeneWithId(entries[j], id)
    ensures entries[i].graphics.Some?
    ensures id in GenesOf(entries).value && GenesOf(entries).value[id] == entries[i].graphics.value.name
    decreases |entries|
  {
    var init := entries[..|entries| - 1];
    if i < |init| {
      assert init[i] == entries[i];
      forall j | i < j < |init| ensures !GeneWithId(init[j], id) {
        assert init[j] == entries[j];
      }
      GenesLast(init, i, id);
    }
  }

  // ---------------------------------------------------------------------
  // matches

  /** The two kinds of value `matches` compares: the Entry objects of the
      pathway and the ints of the list. */
  datatype PyValue = PyInt(i: int) | PyEntry(e: Entry)

  /** Python `==`: ints compare by value; an Entry defines no `__eq__`, so it
      equals only itself and never an int. */
  predicate PyEq(a: PyValue, b: PyValue)
  {
    match (a, b)
    case (PyInt(x), PyInt(y)) => x == y
    case (PyEntry(x), PyEntry(y)) => x == y
    case _ => false
  }

  /** Python `in` on a list. */
  predicate PyIn(v: PyValue, xs: seq<PyValue>)
  {
    exists k :: 0 <= k < |xs| && PyEq(v, xs[k])
  }

  function IntValues(xs: seq<int>): (r: seq<PyValue>)
    ensures |r| == |xs| && forall k :: 0 <= k < |xs| ==> r[k] == PyInt(xs[k])
  {
    seq(|xs|, k requires 0 <= k < |xs| => PyInt(xs[k]))
  }

  /** The counter of `matches` as written: entries that are `in` the list. */
  function MatchCountAsWritten(entries: seq<Entry>, geneIdList: seq<int>): nat
  {
    if entries == [] then 0
    else
      MatchCountAsWritten(entries[..|entries| - 1], geneIdList) +
      (if PyIn(PyEntry(entries[|entries| - 1]), IntValues(geneIdList)) then 1 else 0)
  }

  /** The counter of `matches` as intended: entries whose gene id is in the list. */
  function MatchCount(entries: seq<Entry>, geneIdList: seq<int>): nat
  {
    if entries == [] then 0
    else
      var last := entries[|entries| - 1];
      MatchCount(entries[..|entries| - 1], geneIdList) +
      (if last.GetGeneId().Ok? && last.GetGeneId().value in geneIdList then 1 else 0)
  }

  /** As written, the counter stays 0 whatever the entries and the list. */
  lemma {:induction false} MatchCountAsWrittenZero(entries: seq<Entry>, geneIdList: seq<int>)
    ensures MatchCountAsWritten(entries, geneIdList) == 0
    decreases |entries|
  {
    if entries != [] {
      MatchCountAsWrittenZero(entries[..|entries| - 1], geneIdList);
    }
  }

  /** The intended counter counts each entry at most once, and counts every
      entry whose gene id is listed. */
  lemma {:induction false} MatchCountBound(entries: seq<Entry>, geneIdList: seq<int>)
    ensures MatchCount(entries, geneIdList) <= |entries|
    ensures (forall i :: 0 <= i < |entries| ==> entries[i].GetGeneId().Ok? && entries[i].GetGeneId().value in geneIdList)
      ==> MatchCount(entries, geneIdList) == |entries|
    decreases |entries|
  {
    if entries != [] {
      var init := entries[..|entries| - 1];
      MatchCountBound(init, geneIdList);
      if forall i :: 0 <= i < |entries| ==> entries[i].GetGeneId().Ok? && entries[i].GetGeneId().value in geneIdList {
        forall i | 0 <= i < |init| ensures init[i].GetGeneId().Ok? && init[i].GetGeneId().value in geneIdList {
          assert init[i] == entries[i];
        }
      }
    }
  }

  /** A count out of a positive total is a share between 0 and 1. */
  lemma Share(count: nat, total: nat)
    requires 0 < total && count <= total
    ensures 0.0 <= count as real / total as real <= 1.0
  {
    var q := count as real / total as real;
    assert q * total as real == count as real;
  }

  /** A pathway of the single gene hsa:10 matched against the list [10]:
      as written the share is 0, as intended it is 1. */
  lemma MatchesDiscrepancy(e: Entry)
    requires e.name == "hsa:10"
    ensures MatchCountAsWritten([e], [10]) == 0
    ensures MatchCount([e], [10]) == 1
  {
    MatchCountAsWrittenZero([e], [10]);
    GeneIdOfName(e, "hsa", 10);
    assert [e][..0] == [];
  }
}

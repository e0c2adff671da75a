/** keggtools/utils.py: reading attributes off XML elements, tab-separated
    text, colour formatting and the format validators. */
module Utils {
  import opened Wrappers
  import opened Strings
  import opened Pattern

  /** An XML element as `xml.etree.ElementTree` hands it out: the tag, the
      attribute dictionary, the text content and the child elements in
      document order. */
  datatype Element = Element(tag: string, attrib: map<string, string>, text: Option<string>, children: seq<Element>)

  // ---------------------------------------------------------------------
  // Attributes

  /** `get_attribute`: the attribute's value as written, the empty string
      included; ValueError when the element has no such attribute. */
  function GetAttribute(element: Element, key: string): (r: Result<string>)
    ensures r.Ok? <==> key in element.attrib
    ensures r.Ok? ==> r.value == element.attrib[key]
    ensures r.Err? ==> r.error.ValueError?
  {
    if key in element.attrib then Ok(element.attrib[key])
    else Err(ValueError("Value of attribute '" + key + "' is not a string."))
  }

  /** `str.isnumeric`, on ASCII: non-empty and made of digits only. */
  predicate IsNumeric(s: string)
  {
    |s| > 0 && AllDigits(s)
  }

  /** `get_numeric_attribute`: the value unchanged when it is numeric;
      ValueError when it is absent or not numeric (the empty string included). */
  function GetNumericAttribute(element: Element, key: string): (r: Result<string>)
    ensures r.Ok? <==> key in element.attrib && IsNumeric(element.attrib[key])
    ensures r.Ok? ==> r.value == element.attrib[key]
    ensures r.Err? ==> r.error.ValueError?
  {
    var value :- GetAttribute(element, key);
    if IsNumeric(value) then Ok(value)
    else Err(ValueError("Value of attribute '" + key + "' is not numeric."))
  }

  /** A numeric attribute is one that `int()` accepts, and it reads as the
      value of its digits. */
  lemma NumericAttributeParses(element: Element, key: string)
    requires GetNumericAttribute(element, key).Ok?
    ensures var v := GetNumericAttribute(element, key).value;
      ParseInt(v) == Some(DigitsValue(v) as int) && ParseInt(v).value >= 0
  {
    var v := GetNumericAttribute(element, key).value;
    assert v[0] != '-' && v[0] != '+';
  }

  // ---------------------------------------------------------------------
  // Tab-separated text

  /** The lines of the text: the pieces between newlines, where a final
      newline does not start one more (empty) line. */
  function Lines(data: string): (lines: seq<string>)
  {
    var parts := Split(data, "\n");
    if parts[|parts| - 1] == "" then parts[..|parts| - 1] else parts
  }

  /** One line as `csv.reader` reads it with a tab delimiter: a blank line is
      an empty row, any other line is its tab-separated fields. */
  function Row(line: string): seq<string>
  {
    if line == "" then [] else Split(line, "\t")
  }

  /** `parse_tsv`: one row per line. */
  function ParseTsv(data: string): (rows: seq<seq<string>>)
    ensures |rows| == |Lines(data)|
    ensures forall i :: 0 <= i < |rows| ==> rows[i] == Row(Lines(data)[i])
  {
    var lines := Lines(data);
    seq(|lines|, i requires 0 <= i < |lines| => Row(lines[i]))
  }

  /** The text a list of rows is written as: each row's fields joined by
      tabs, each line ended by a newline. */
  function TsvText(rows: seq<seq<string>>): string
  {
    if rows == [] then "" else Join(rows[0], "\t") + "\n" + TsvText(rows[1..])
  }

  /** The fields of a row that `parse_tsv` can read back unchanged: no tab or
      newline inside a field, and no row that is a single empty field (it
      would be written as a blank line, which reads back as an empty row). */
  predicate Writable(rows: seq<seq<string>>)
  {
    forall i :: 0 <= i < |rows| ==>
      rows[i] != [""] &&
      forall j :: 0 <= j < |rows[i]| ==> '\t' !in rows[i][j] && '\n' !in rows[i][j]
  }

  lemma {:induction false} TsvTextLines(rows: seq<seq<string>>)
    requires Writable(rows)
    ensures rows != [] ==> TsvText(rows) == Join(RowLines(rows) + [""], "\n")
    ensures forall i :: 0 <= i < |rows| ==> '\n' !in RowLines(rows)[i]
    decreases |rows|
  {
    if rows != [] {
      TsvTextLines(rows[1..]);
      JoinFree(rows[0], '\t', '\n');
      assert RowLines(rows) == [Join(rows[0], "\t")] + RowLines(rows[1..]);
      assert (RowLines(rows) + [""])[1..] == RowLines(rows[1..]) + [""];
      if rows[1..] == [] {
        assert Join(RowLines(rows) + [""], "\n") == Join(rows[0], "\t") + "\n" + "";
      }
    }
  }

  function RowLines(rows: seq<seq<string>>): (lines: seq<string>)
    ensures |lines| == |rows|
    ensures forall i :: 0 <= i < |rows| ==> lines[i] == Join(rows[i], "\t")
  {
    seq(|rows|, i requires 0 <= i < |rows| => Join(rows[i], "\t"))
  }

  /** Joining pieces free of a character with a different one-character
      separator gives a string free of that character. */
  lemma {:induction false} JoinFree(xs: seq<string>, sep: char, c: char)
    requires sep != c
    requires forall j :: 0 <= j < |xs| ==> c !in xs[j]
    ensures c !in Join(xs, [sep])
    decreases |xs|
  {
    if |xs| > 1 {
      JoinFree(xs[1..], sep, c);
    }
  }

  /** Parsing reads back every row written as tab-separated text. */
  lemma ParseTsvRoundTrip(rows: seq<seq<string>>)
    requires Writable(rows)
    ensures ParseTsv(TsvText(rows)) == rows
  {
    TsvTextLines(rows);
    if rows == [] {
      assert Split("", "\n") == [""];
    } else {
      var lines := RowLines(rows);
      assert forall i :: 0 <= i < |lines + [""]| ==> '\n' !in (lines + [""])[i];
      SplitJoin(lines + [""], '\n');
      assert Lines(TsvText(rows)) == lines;
      forall i | 0 <= i < |rows| ensures Row(lines[i]) == rows[i] {
        if rows[i] == [] {
        } else {
          if |rows[i]| == 1 {
            assert lines[i] == rows[i][0];
          }
          SplitJoin(rows[i], '\t');
        }
      }
    }
  }

  /** `row[i]` with Python's negative indices; None where Python raises IndexError. */
  function PyIndex(row: seq<string>, i: int): (r: Option<string>)
    ensures r.Some? <==> -|row| <= i < |row|
  {
    if 0 <= i < |row| then Some(row[i])
    else if -|row| <= i < 0 then Some(row[|row| + i])
    else None
  }

  /** One turn of the loop in `parse_tsv_to_dict`: rows with fewer than two
      fields or an empty key are skipped, otherwise the key is (re)bound. */
  function AddRow(acc: map<string, string>, row: seq<string>, colKeys: int, colValues: int): Result<map<string, string>>
  {
    if |row| < 2 then Ok(acc)
    else match PyIndex(row, colKeys)
      case None => Err(IndexError)
      case Some(key) =>
        if key == "" then Ok(acc)
        else match PyIndex(row, colValues)
          case None => Err(IndexError)
          case Some(value) => Ok(acc[key := value])
  }

  /** The dictionary built from the rows, in order; the first row that
      indexes out of range aborts with IndexError. */
  function RowsToDict(rows: seq<seq<string>>, colKeys: int, colValues: int): Result<map<string, string>>
  {
    if rows == [] then Ok(map[])
    else match RowsToDict(rows[..|rows| - 1], colKeys, colValues)
      case Err(e) => Err(e)
      case Ok(m) => AddRow(m, rows[|rows| - 1], colKeys, colValues)
  }

  /** `parse_tsv_to_dict`. */
  method ParseTsvToDict(data: string, colKeys: int, colValues: int) returns (r: Result<map<string, string>>)
    ensures r == RowsToDict(ParseTsv(data), colKeys, colValues)
  {
    var listData := ParseTsv(data);
    var result: map<string, string> := map[];
    var i := 0;
    while i < |listData|
      invariant 0 <= i <= |listData|
      invariant RowsToDict(listData[..i], colKeys, colValues) == Ok(result)
    {
      var row := listData[i];
      assert listData[..i + 1][..i] == listData[..i];
      assert RowsToDict(listData[..i + 1], colKeys, colValues) == AddRow(result, row, colKeys, colValues);
      if |row| >= 2 {
        var key := PyIndex(row, colKeys);
        if key.None? {
          RowsToDictAborts(listData, i + 1);
          return Err(IndexError);
        }
        if key.value != "" {
          var value := PyIndex(row, colValues);
          if value.None? {
            RowsToDictAborts(listData, i + 1);
            return Err(IndexError);
          }
          result := result[key.value := value.value];
        }
      }
      i := i + 1;
    }
    assert listData[..i] == listData;
    r := Ok(result);
  }

  /** Once a prefix of the rows aborts, the whole table aborts with the same error. */
  lemma {:induction false} RowsToDictAborts(rows: seq<seq<string>>, n: nat)
    requires n <= |rows|
    ensures forall ck, cv :: RowsToDict(rows[..n], ck, cv).Err? ==>
      RowsToDict(rows, ck, cv) == RowsToDict(rows[..n], ck, cv)
    decreases |rows| - n
  {
    if n < |rows| {
      RowsToDictAborts(rows, n + 1);
      assert rows[..n + 1][..n] == rows[..n];
    } else {
      assert rows[..n] == rows;
    }
  }

  /** Row `row` binds `key` when it has two fields and `key` is its non-empty
      key column. */
  predicate KeyRow(row: seq<string>, key: string, colKeys: nat)
  {
    |row| >= 2 && colKeys < |row| && row[colKeys] == key && key != ""
  }

  /** When both columns exist in every row of two or more fields, the
      dictionary has exactly the non-empty keys of those rows, each bound to
      the value column of the LAST row with that key. */
  lemma {:induction false} RowsToDictContents(rows: seq<seq<string>>, colKeys: nat, colValues: nat)
    requires forall i :: 0 <= i < |rows| && |rows[i]| >= 2 ==> colKeys < |rows[i]| && colValues < |rows[i]|
    ensures RowsToDict(rows, colKeys, colValues).Ok?
    ensures forall k :: k in RowsToDict(rows, colKeys, colValues).value <==>
      exists i :: 0 <= i < |rows| && KeyRow(rows[i], k, colKeys)
    ensures forall i, k ::
      (0 <= i < |rows| && KeyRow(rows[i], k, colKeys) &&
       (forall j :: i < j < |rows| ==> !KeyRow(rows[j], k, colKeys))) ==>
      RowsToDict(rows, colKeys, colValues).value[k] == rows[i][colValues]
    decreases |rows|
  {
    if rows != [] {
      var init := rows[..|rows| - 1];
      var last := rows[|rows| - 1];
      RowsToDictContents(init, colKeys, colValues);
      var m := RowsToDict(init, colKeys, colValues).value;
      var m' := RowsToDict(rows, colKeys, colValues).value;
      forall k ensures k in m' <==> exists i :: 0 <= i < |rows| && KeyRow(rows[i], k, colKeys) {
        if k in m {
          var i :| 0 <= i < |init| && KeyRow(init[i], k, colKeys);
          assert rows[i] == init[i];
        }
        if exists i :: 0 <= i < |rows| && KeyRow(rows[i], k, colKeys) {
          var i :| 0 <= i < |rows| && KeyRow(rows[i], k, colKeys);
          if i < |init| {
            assert KeyRow(init[i], k, colKeys);
          }
        }
      }
      forall i, k | 0 <= i < |rows| && KeyRow(rows[i], k, colKeys) &&
        (forall j :: i < j < |rows| ==> !KeyRow(rows[j], k, colKeys))
        ensures m'[k] == rows[i][colValues]
      {
        if i < |init| {
          assert !KeyRow(last, k, colKeys);
          assert KeyRow(init[i], k, colKeys);
          forall j | i < j < |init| ensures !KeyRow(init[j], k, colKeys) {
            assert init[j] == rows[j];
          }
        }
      }
    }
  }

  /** The rows of the parse_tsv test. */
  lemma TsvExample()
    ensures ParseTsv("header1\theader2\nitem1\titem2\nitem3\titem4\n") ==
      [["header1", "header2"], ["item1", "item2"], ["item3", "item4"]]
  {
    var rows := [["header1", "header2"], ["item1", "item2"], ["item3", "item4"]];
    TsvExampleText();
    TsvExampleWritable();
    ParseTsvRoundTrip(rows);
  }

  lemma TsvExampleText()
    ensures TsvText([["header1", "header2"], ["item1", "item2"], ["item3", "item4"]]) ==
      "header1\theader2\nitem1\titem2\nitem3\titem4\n"
  {
    var rows := [["header1", "header2"], ["item1", "item2"], ["item3", "item4"]];
    assert Join(rows[0], "\t") == "header1\theader2";
    assert Join(rows[1], "\t") == "item1\titem2";
    assert Join(rows[2], "\t") == "item3\titem4";
    assert rows[1..][1..][1..] == [];
  }

  lemma TsvExampleWritable()
    ensures Writable([["header1", "header2"], ["item1", "item2"], ["item3", "item4"]])
  {
    var rows := [["header1", "header2"], ["item1", "item2"], ["item3", "item4"]];
    forall i, j | 0 <= i < |rows| && 0 <= j < |rows[i]| ensures '\t' !in rows[i][j] && '\n' !in rows[i][j] {
      assert |rows[i][j]| == 7 || |rows[i][j]| == 5;
      assert forall k :: 0 <= k < |rows[i][j]| ==> 'a' <= rows[i][j][k] <= 'z' || '1' <= rows[i][j][k] <= '4';
    }
  }

  /** The dictionary `parse_tsv_to_dict` builds from the test rows with its
      default columns. */
  lemma TsvDictExample()
    ensures var d := RowsToDict([["header1", "header2"], ["item1", "item2"], ["item3", "item4"]], 0, 1);
      d.Ok? && "header1" in d.value && "item3" in d.value &&
      d.value["header1"] == "header2" && d.value["item3"] == "item4"
  {
    var rows := [["header1", "header2"], ["item1", "item2"], ["item3", "item4"]];
    RowsToDictContents(rows, 0, 1);
    assert KeyRow(rows[0], "header1", 0);
    assert KeyRow(rows[2], "item3", 0);
    assert !KeyRow(rows[1], "header1", 0) && !KeyRow(rows[2], "header1", 0);
  }

  // ---------------------------------------------------------------------
  // Colours

  /** A colour tuple of three integer components. */
  datatype Rgb = Rgb(red: int, green: int, blue: int)

  /** `ColorGradient.to_hex`. */
  function ToHex(color: Rgb): string
  {
    LowerCase("#" + Hex02(color.red) + Hex02(color.green) + Hex02(color.blue))
  }

  /** `ColorGradient.to_css`. */
  function ToCss(color: Rgb): string
  {
    LowerCase("rgb(" + Decimal(color.red) + "," + Decimal(color.green) + "," + Decimal(color.blue) + ")")
  }

  predicate IsByte(n: int) { 0 <= n < 256 }

  /** For byte components `to_hex` gives a seven-character lower-case string
      that the hex colour check accepts and whose digit pairs read back as
      the three components. */
  lemma ToHexBytes(color: Rgb)
    requires IsByte(color.red) && IsByte(color.green) && IsByte(color.blue)
    ensures var h := ToHex(color);
      && |h| == 7 && h[0] == '#'
      && (forall i :: 1 <= i < 7 ==> IsLowerHexDigit(h[i]))
      && IsValidHexColor(h)
      && HexValue(h[1..3]) == color.red
      && HexValue(h[3..5]) == color.green
      && HexValue(h[5..7]) == color.blue
  {
    var r, g, b := Hex02(color.red), Hex02(color.green), Hex02(color.blue);
    var h := "#" + r + g + b;
    Hex02Byte(color.red);
    Hex02Byte(color.green);
    Hex02Byte(color.blue);
    assert ToHex(color) == h by {
      HexTextLower(r, g, b);
      LowerNoUpper(h);
    }
    assert h[1..3] == r && h[3..5] == g && h[5..7] == b by {
      assert h == "#" + r + g + b;
      assert |r| == 2 && |g| == 2 && |b| == 2;
    }
    assert IsValidHexColor(h) by {
      assert AllIn(Hex, h[1..7]);
      RepeatEnds(Hex, 6, h, 1, 7);
      LitEnds("#", h, 0, 1);
      CatEnds(Lit("#"), Repeat(Hex, 6), h, 0, 7);
    }
  }

  /** "#" followed by three pairs of lower-case hex digits has no upper-case letter. */
  lemma HexTextLower(r: string, g: string, b: string)
    requires |r| == 2 && |g| == 2 && |b| == 2
    requires forall i :: 0 <= i < 2 ==> IsLowerHexDigit(r[i]) && IsLowerHexDigit(g[i]) && IsLowerHexDigit(b[i])
    ensures NoUpper("#" + r + g + b)
  {
    var h := "#" + r + g + b;
    forall i | 0 <= i < 7 ensures !('A' <= h[i] <= 'Z') {
      if i == 0 {
      } else if i < 3 {
        assert h[i] == r[i - 1];
      } else if i < 5 {
        assert h[i] == g[i - 3];
      } else {
        assert h[i] == b[i - 5];
      }
    }
  }

  /** Decimal notation never holds a comma or an upper-case letter. */
  lemma DecimalPlain(i: int)
    ensures ',' !in Decimal(i)
    ensures NoUpper(Decimal(i))
  {
    var d := DecimalNat(if i < 0 then -i else i);
    assert forall k :: 0 <= k < |d| ==> IsDigit(d[k]);
  }

  /** Three pieces free of commas, joined by commas, split back into themselves. */
  lemma SplitThree(r: string, g: string, b: string)
    requires ',' !in r && ',' !in g && ',' !in b
    ensures Split(r + "," + g + "," + b, ",") == [r, g, b]
  {
    assert Join([b], ",") == b;
    assert [g, b][1..] == [b];
    assert Join([g, b], ",") == g + "," + b;
    assert [r, g, b][1..] == [g, b];
    assert Join([r, g, b], ",") == r + "," + (g + "," + b);
    assert r + "," + g + "," + b == r + "," + (g + "," + b);
    SplitJoin([r, g, b], ',');
  }

  /** `to_css` lower-cases nothing: the text is "rgb(", the three decimal
      components separated by commas, and ")". */
  lemma ToCssText(color: Rgb)
    ensures ToCss(color) == "rgb(" + (Decimal(color.red) + "," + Decimal(color.green) + "," + Decimal(color.blue)) + ")"
  {
    var r, g, b := Decimal(color.red), Decimal(color.green), Decimal(color.blue);
    var t := "rgb(" + r + "," + g + "," + b + ")";
    assert LowerCase(t) == t by {
      DecimalPlain(color.red);
      DecimalPlain(color.green);
      DecimalPlain(color.blue);
      CssNoUpper(r, g, b);
      LowerNoUpper(t);
    }
    CssParts("rgb(", r, g, b, ")");
  }

  /** Regrouping the CSS text around its inner part. */
  lemma CssParts(open: string, r: string, g: string, b: string, close: string)
    ensures open + r + "," + g + "," + b + close == open + (r + "," + g + "," + b) + close
  {
  }

  /** The CSS text around three upper-case-free components is upper-case free. */
  lemma CssNoUpper(r: string, g: string, b: string)
    requires NoUpper(r) && NoUpper(g) && NoUpper(b)
    ensures NoUpper("rgb(" + r + "," + g + "," + b + ")")
  {
    NoUpperAppend("rgb(", r);
    NoUpperAppend("rgb(" + r, ",");
    NoUpperAppend("rgb(" + r + ",", g);
    NoUpperAppend("rgb(" + r + "," + g, ",");
    NoUpperAppend("rgb(" + r + "," + g + ",", b);
    NoUpperAppend("rgb(" + r + "," + g + "," + b, ")");
  }

  /** `to_css` reads back: the text between "rgb(" and ")" splits on commas
      into the decimal notations of the three components. */
  lemma ToCssRoundTrip(color: Rgb)
    ensures var s := ToCss(color);
      && |s| >= 5 && s[..4] == "rgb(" && s[|s| - 1] == ')'
      && var parts := Split(s[4..|s| - 1], ",");
         |parts| == 3 &&
         ParseInt(parts[0]) == Some(color.red) &&
         ParseInt(parts[1]) == Some(color.green) &&
         ParseInt(parts[2]) == Some(color.blue)
  {
    var r, g, b := Decimal(color.red), Decimal(color.green), Decimal(color.blue);
    DecimalPlain(color.red);
    DecimalPlain(color.green);
    DecimalPlain(color.blue);
    var inner := r + "," + g + "," + b;
    ToCssText(color);
    var s := ToCss(color);
    assert s[4..|s| - 1] == inner;
    SplitThree(r, g, b);
    ParseIntDecimal(color.red);
    ParseIntDecimal(color.green);
    ParseIntDecimal(color.blue);
  }

  /** The colours of the test suite. */
  lemma ToHexBlue()
    ensures ToHex(Rgb(0, 0, 255)) == "#0000ff"
  {
    assert Hex02(0) == "00";
    assert HexNat(255) == HexNat(15) + [HexChar(15)];
    assert Hex02(255) == "ff";
    assert "#" + Hex02(0) + Hex02(0) + Hex02(255) == "#0000ff";
    LowerNoUpper("#0000ff");
  }

  lemma ToCssBlue()
    ensures ToCss(Rgb(0, 0, 255)) == "rgb(0,0,255)"
  {
    assert DecimalNat(2) == "2";
    assert DecimalNat(25) == "2" + "5";
    assert DecimalNat(255) == "25" + "5";
    assert Decimal(0) == "0";
    ToCssText(Rgb(0, 0, 255));
  }

  // ---------------------------------------------------------------------
  // Validators

  /** `^(ko|ec|[a-z]{3})$` */
  const OrgPattern: Re := Alt(Alt(Lit("ko"), Lit("ec")), Repeat(Lower, 3))
  /** `^([0-9]{5})$` */
  const NumberPattern: Re := Repeat(Digit, 5)
  /** `^path:(ko|ec|[a-z]{3})([0-9]{5})$` */
  const NamePattern: Re := Cat(Lit("path:"), Cat(OrgPattern, NumberPattern))
  /** `^\#([a-fA-F0-9]{6})$` */
  const HexColorPattern: Re := Cat(Lit("#"), Repeat(Hex, 6))
  /** `^([a-z]{3}):([0-9]{5})$` */
  const GeneNamePattern: Re := Cat(Repeat(Lower, 3), Cat(Lit(":"), Repeat(Digit, 5)))

  predicate IsValidPathwayOrg(value: string) { PyMatch(OrgPattern, value) }
  predicate IsValidPathwayNumber(value: string) { PyMatch(NumberPattern, value) }
  predicate IsValidPathwayName(value: string) { PyMatch(NamePattern, value) }
  predicate IsValidHexColor(value: string) { PyMatch(HexColorPattern, value) }
  predicate IsValidGeneName(value: string) { PyMatch(GeneNamePattern, value) }

  // The formats themselves, stated without patterns.

  predicate OrgShape(t: string) { t == "ko" || t == "ec" || (|t| == 3 && AllIn(Lower, t)) }
  predicate NumberShape(t: string) { |t| == 5 && AllIn(Digit, t) }
  ghost predicate NameShape(t: string)
  {
    exists o, n {:trigger OrgShape(o), NumberShape(n)} :: OrgShape(o) && NumberShape(n) && t == "path:" + o + n
  }
  predicate HexColorShape(t: string) { |t| == 7 && t[0] == '#' && AllIn(Hex, t[1..]) }
  predicate GeneNameShape(t: string) { |t| == 9 && AllIn(Lower, t[..3]) && t[3] == ':' && AllIn(Digit, t[4..]) }

  /** `s`, or `s` with one trailing newline: what a Python `$` lets through. */
  ghost predicate UpToNewline(shape: string -> bool, s: string)
  {
    shape(s) || (|s| > 0 && s[|s| - 1] == '\n' && shape(s[..|s| - 1]))
  }

  lemma OrgEnds(s: string, i: nat, e: nat)
    requires i <= e <= |s|
    ensures e in Ends(OrgPattern, s, i) <==> OrgShape(s[i..e])
  {
    LitEnds("ko", s, i, e);
    LitEnds("ec", s, i, e);
    RepeatEnds(Lower, 3, s, i, e);
  }

  lemma NumberEnds(s: string, i: nat, e: nat)
    requires i <= e <= |s|
    ensures e in Ends(NumberPattern, s, i) <==> NumberShape(s[i..e])
  {
    RepeatEnds(Digit, 5, s, i, e);
  }

  lemma NameEndsShape(s: string, e: nat)
    requires e <= |s|
    requires e in Ends(NamePattern, s, 0)
    ensures NameShape(s[..e])
  {
    var rest := Cat(OrgPattern, NumberPattern);
    var j := CatSplit(Lit("path:"), rest, s, 0, e);
    LitEnds("path:", s, 0, j);
    var j2 := CatSplit(OrgPattern, NumberPattern, s, j, e);
    OrgEnds(s, j, j2);
    NumberEnds(s, j2, e);
    var o, n := s[j..j2], s[j2..e];
    assert s[..e] == s[..j] + o + n;
    assert OrgShape(o) && NumberShape(n) && s[..e] == "path:" + o + n;
  }

  lemma ShapeNameEnds(s: string, e: nat)
    requires e <= |s|
    requires NameShape(s[..e])
    ensures e in Ends(NamePattern, s, 0)
  {
    var o, n :| OrgShape(o) && NumberShape(n) && s[..e] == "path:" + o + n;
    var t := s[..e];
    var j2 := 5 + |o|;
    assert t[..5] == "path:" && t[5..j2] == o && t[j2..] == n;
    assert s[0..5] == t[..5];
    assert s[5..j2] == t[5..j2];
    assert s[j2..e] == t[j2..];
    LitEnds("path:", s, 0, 5);
    OrgEnds(s, 5, j2);
    NumberEnds(s, j2, e);
    CatEnds(OrgPattern, NumberPattern, s, 5, e);
    assert e in Ends(Cat(OrgPattern, NumberPattern), s, 5);
    CatEnds(Lit("path:"), Cat(OrgPattern, NumberPattern), s, 0, e);
  }

  lemma NameEnds(s: string, e: nat)
    requires e <= |s|
    ensures e in Ends(NamePattern, s, 0) <==> NameShape(s[..e])
  {
    if e in Ends(NamePattern, s, 0) {
      NameEndsShape(s, e);
    }
    if NameShape(s[..e]) {
      ShapeNameEnds(s, e);
    }
  }

  lemma HexColorEnds(s: string, e: nat)
    requires e <= |s|
    ensures e in Ends(HexColorPattern, s, 0) <==> HexColorShape(s[..e])
  {
    CatEnds(Lit("#"), Repeat(Hex, 6), s, 0, e);
    if e in Ends(HexColorPattern, s, 0) {
      var j :| 0 <= j <= e && j in Ends(Lit("#"), s, 0) && e in Ends(Repeat(Hex, 6), s, j);
      LitEnds("#", s, 0, j);
      RepeatEnds(Hex, 6, s, j, e);
      assert s[..e][1..] == s[1..e];
    }
    if HexColorShape(s[..e]) {
      assert s[0..1] == s[..e][..1];
      assert s[1..e] == s[..e][1..];
      LitEnds("#", s, 0, 1);
      RepeatEnds(Hex, 6, s, 1, e);
    }
  }

  lemma GeneNameEnds(s: string, e: nat)
    requires e <= |s|
    ensures e in Ends(GeneNamePattern, s, 0) <==> GeneNameShape(s[..e])
  {
    if e in Ends(GeneNamePattern, s, 0) {
      GeneNameEndsShape(s, e);
    }
    if GeneNameShape(s[..e]) {
      ShapeGeneNameEnds(s, e);
    }
  }

  lemma GeneNameEndsShape(s: string, e: nat)
    requires e <= |s|
    requires e in Ends(GeneNamePattern, s, 0)
    ensures GeneNameShape(s[..e])
  {
    var rest := Cat(Lit(":"), Repeat(Digit, 5));
    var j := CatSplit(Repeat(Lower, 3), rest, s, 0, e);
    RepeatEnds(Lower, 3, s, 0, j);
    var j2 := CatSplit(Lit(":"), Repeat(Digit, 5), s, j, e);
    LitEnds(":", s, j, j2);
    RepeatEnds(Digit, 5, s, j2, e);
    var t := s[..e];
    assert t[..3] == s[0..3];
    assert t[3] == s[j..j2][0];
    assert t[4..] == s[j2..e];
  }

  lemma ShapeGeneNameEnds(s: string, e: nat)
    requires e <= |s|
    requires GeneNameShape(s[..e])
    ensures e in Ends(GeneNamePattern, s, 0)
  {
    var t := s[..e];
    assert s[0..3] == t[..3];
    assert s[3..4] == [t[3]];
    assert s[4..e] == t[4..];
    RepeatEnds(Lower, 3, s, 0, 3);
    LitEnds(":", s, 3, 4);
    RepeatEnds(Digit, 5, s, 4, e);
    CatEnds(Lit(":"), Repeat(Digit, 5), s, 3, e);
    CatEnds(Repeat(Lower, 3), Cat(Lit(":"), Repeat(Digit, 5)), s, 0, e);
  }

  /** `is_valid_pathway_org` holds iff the value is "ko", "ec" or three
      lower-case ASCII letters, optionally followed by one newline. */
  lemma IsValidPathwayOrgIff(value: string)
    ensures IsValidPathwayOrg(value) <==> UpToNewline(OrgShape, value)
  {
    OrgEnds(value, 0, |value|);
    assert value[0..|value|] == value;
    if |value| > 0 {
      OrgEnds(value, 0, |value| - 1);
      assert value[0..|value| - 1] == value[..|value| - 1];
    }
  }

  /** `is_valid_pathway_number` holds iff the value is five ASCII digits,
      optionally followed by one newline. */
  lemma IsValidPathwayNumberIff(value: string)
    ensures IsValidPathwayNumber(value) <==> UpToNewline(NumberShape, value)
  {
    NumberEnds(value, 0, |value|);
    assert value[0..|value|] == value;
    if |value| > 0 {
      NumberEnds(value, 0, |value| - 1);
      assert value[0..|value| - 1] == value[..|value| - 1];
    }
  }

  /** `is_valid_pathway_name` holds iff the value is "path:" followed by an
      organism code and a pathway number as the two checks above define them,
      optionally followed by one newline. */
  lemma IsValidPathwayNameIff(value: string)
    ensures IsValidPathwayName(value) <==> UpToNewline(NameShape, value)
  {
    NameEnds(value, |value|);
    assert value[..|value|] == value;
    if |value| > 0 {
      NameEnds(value, |value| - 1);
    }
  }

  /** `is_valid_hex_color` holds iff the value is "#" and six hex digits of
      either case, optionally followed by one newline. */
  lemma IsValidHexColorIff(value: string)
    ensures IsValidHexColor(value) <==> UpToNewline(HexColorShape, value)
  {
    HexColorEnds(value, |value|);
    assert value[..|value|] == value;
    if |value| > 0 {
      HexColorEnds(value, |value| - 1);
    }
  }

  /** `is_valid_gene_name` holds iff the value is three lower-case letters, a
      colon and five digits, optionally followed by one newline. */
  lemma IsValidGeneNameIff(value: string)
    ensures IsValidGeneName(value) <==> UpToNewline(GeneNameShape, value)
  {
    GeneNameEnds(value, |value|);
    assert value[..|value|] == value;
    if |value| > 0 {
      GeneNameEnds(value, |value| - 1);
    }
  }

  // The validator cases of the test suite, and the trailing newline that
  // Python's `$` lets through.

  lemma OrgExamples()
    ensures IsValidPathwayOrg("ko") && IsValidPathwayOrg("ec") && IsValidPathwayOrg("hsa")
    ensures IsValidPathwayOrg("hsa\n")
  {
    IsValidPathwayOrgIff("ko");
    IsValidPathwayOrgIff("ec");
    IsValidPathwayOrgIff("hsa");
    IsValidPathwayOrgIff("hsa\n");
    assert "hsa\n"[..3] == "hsa";
  }

  lemma OrgCounterExamples()
    ensures !IsValidPathwayOrg("hs2") && !IsValidPathwayOrg("") && !IsValidPathwayOrg("hsaa")
  {
    IsValidPathwayOrgIff("hs2");
    assert "hs2"[2] == '2';
    IsValidPathwayOrgIff("");
    IsValidPathwayOrgIff("hsaa");
  }

  lemma NumberExamples()
    ensures IsValidPathwayNumber("12345")
    ensures !IsValidPathwayNumber("1234a") && !IsValidPathwayNumber("1234")
  {
    IsValidPathwayNumberIff("12345");
    IsValidPathwayNumberIff("1234a");
    assert "1234a"[4] == 'a';
    IsValidPathwayNumberIff("1234");
  }

  lemma NameExamples()
    ensures IsValidPathwayName("path:ko12345")
  {
    IsValidPathwayNameIff("path:ko12345");
    assert "path:ko12345" == "path:" + "ko" + "12345";
    assert OrgShape("ko") && NumberShape("12345");
  }

  lemma NameCounterExamples()
    ensures !IsValidPathwayName("prefix:ko12345") && !IsValidPathwayName("path:ko123456")
  {
    IsValidPathwayNameIff("prefix:ko12345");
    if NameShape("prefix:ko12345") {
      NameShapePrefix("prefix:ko12345");
    }
    IsValidPathwayNameIff("path:ko123456");
    assert "path:ko123456"[5..8] == "ko1";
    assert !InClass(Lower, "ko1"[2]);
    if NameShape("path:ko123456") {
      NameShapeLength("path:ko123456");
    }
  }

  lemma HexColorExamples()
    ensures IsValidHexColor("#00af4e") && IsValidHexColor("#00FFA4")
    ensures !IsValidHexColor("#00af4E00") && !IsValidHexColor("#00af4K")
  {
    IsValidHexColorIff("#00af4e");
    IsValidHexColorIff("#00FFA4");
    IsValidHexColorIff("#00af4E00");
    IsValidHexColorIff("#00af4K");
    assert "#00af4K"[6] == 'K';
  }

  lemma GeneNameExamples()
    ensures IsValidGeneName("mmu:12345") && IsValidGeneName("hsa:00001")
    ensures !IsValidGeneName("ko:12345") && !IsValidGeneName("hsa:1234")
  {
    IsValidGeneNameIff("mmu:12345");
    IsValidGeneNameIff("hsa:00001");
    IsValidGeneNameIff("ko:12345");
    assert "ko:12345"[2] == ':';
    IsValidGeneNameIff("hsa:1234");
  }

  lemma NameShapePrefix(t: string)
    requires NameShape(t)
    ensures t[..5] == "path:"
  {
    var o, n :| OrgShape(o) && NumberShape(n) && t == "path:" + o + n;
  }

  lemma NameShapeLength(t: string)
    requires NameShape(t)
    ensures |t| == 12 || |t| == 13
    ensures |t| == 12 ==> OrgShape(t[5..7]) && NumberShape(t[7..])
    ensures |t| == 13 ==> OrgShape(t[5..8]) && NumberShape(t[8..])
  {
    var o, n :| OrgShape(o) && NumberShape(n) && t == "path:" + o + n;
    assert |o| == 2 || |o| == 3;
    if |t| == 12 {
      assert t[5..7] == o && t[7..] == n;
    } else {
      assert t[5..8] == o && t[8..] == n;
    }
  }
}

/**
 * `exportToCSV`: a fixed header line, then one line per grievance, joined
 * with line feeds. Title, description and location are wrapped in double
 * quotes with nothing escaped; the other cells are written raw. A reader
 * following RFC 4180 is modelled alongside, to state when the export reads
 * back as the stored fields and that a title holding a quote never does.
 */
module Csv {
  import opened Options
  import opened JsText
  import opened Records

  const HEADERS := ["ID", "Title", "Description", "Location", "Department", "Status", "Reporter", "Contact", "Date", "Votes"]

  /** One cell as `exportToCSV` writes it: raw, or wrapped in quotes. */
  datatype Cell = Raw(text: string) | Quoted(text: string)

  function Encode(c: Cell): string {
    match c
    case Raw(t) => t
    case Quoted(t) => "\"" + t + "\""
  }

  function EncodeAll(cells: seq<Cell>): (r: seq<string>)
    ensures |r| == |cells| && forall i :: 0 <= i < |cells| ==> r[i] == Encode(cells[i])
  {
    seq(|cells|, i requires 0 <= i < |cells| => Encode(cells[i]))
  }

  function Values(cells: seq<Cell>): (r: seq<string>)
    ensures |r| == |cells| && forall i :: 0 <= i < |cells| ==> r[i] == cells[i].text
  {
    seq(|cells|, i requires 0 <= i < |cells| => cells[i].text)
  }

  /** The cells of one grievance's line, in header order. */
  function Cells(p: Grievance): (cells: seq<Cell>)
    ensures |cells| == |HEADERS| && Values(cells) == ExportedFields(p)
    ensures forall i :: 0 <= i < |cells| ==> (cells[i].Quoted? <==> 1 <= i <= 3)
  {
    [Raw(IntToString(p.id)), Quoted(p.title), Quoted(p.description), Quoted(p.location),
     Raw(p.authority), Raw(p.status), Raw(p.reporterName), Raw(p.reporterContact),
     Raw(p.dateReported), Raw(IntToString(p.votes))]
  }

  /** The values a grievance contributes to the export, one per header. */
  function ExportedFields(p: Grievance): (r: seq<string>)
    ensures |r| == |HEADERS|
  {
    [IntToString(p.id), p.title, p.description, p.location, p.authority, p.status,
     p.reporterName, p.reporterContact, p.dateReported, IntToString(p.votes)]
  }

  function Row(p: Grievance): string {
    Join(EncodeAll(Cells(p)), ',')
  }

  function HeaderLine(): string {
    Join(HEADERS, ',')
  }

  /** `rows.map(r => r.join(','))` */
  function Rows(ps: seq<Grievance>): (r: seq<string>)
    ensures |r| == |ps| && forall i :: 0 <= i < |ps| ==> r[i] == Row(ps[i])
  {
    seq(|ps|, i requires 0 <= i < |ps| => Row(ps[i]))
  }

  function Lines(ps: seq<Grievance>): (r: seq<string>)
    ensures |r| == |ps| + 1 && r[0] == HeaderLine()
    ensures forall i :: 0 <= i < |ps| ==> r[i + 1] == Row(ps[i])
  {
    var header := HeaderLine();
    var rows := Rows(ps);
    assert forall i :: 0 <= i < |ps| ==> ([header] + rows)[i + 1] == rows[i];
    [header] + rows
  }

  /** `csvContent` */
  function Content(ps: seq<Grievance>): string {
    Join(Lines(ps), '\n')
  }

  // ---- An RFC 4180 reader for one line ----

  /** An unquoted field: the characters up to the next comma; a quote inside is malformed. */
  function Unquoted(s: string): (r: Option<(string, string)>)
    ensures r.Some? ==> |r.value.1| <= |s|
  {
    if s == [] || s[0] == ',' then Some(("", s))
    else if s[0] == '"' then None
    else match Unquoted(s[1..])
      case None => None
      case Some((f, rest)) => Some(([s[0]] + f, rest))
  }

  /** The inside of a quoted field, after its opening quote; a doubled quote stands for one. */
  function QuotedRest(s: string): (r: Option<(string, string)>)
    ensures r.Some? ==> |r.value.1| < |s|
  {
    if s == [] then None
    else if s[0] == '"' && |s| > 1 && s[1] == '"' then
      match QuotedRest(s[2..])
      case None => None
      case Some((f, rest)) => Some(("\"" + f, rest))
    else if s[0] == '"' then Some(("", s[1..]))
    else match QuotedRest(s[1..])
      case None => None
      case Some((f, rest)) => Some(([s[0]] + f, rest))
  }

  function ParseField(s: string): (r: Option<(string, string)>)
    ensures r.Some? ==> |r.value.1| <= |s|
  {
    if s != [] && s[0] == '"' then QuotedRest(s[1..]) else Unquoted(s)
  }

  /** The fields of one line, or `None` when the line is not well-formed CSV. */
  function ParseRow(s: string): Option<seq<string>>
    decreases |s|
  {
    match ParseField(s)
    case None => None
    case Some((f, rest)) =>
      if rest == [] then Some([f])
      else if rest[0] != ',' then None
      else match ParseRow(rest[1..])
        case None => None
        case Some(fs) => Some([f] + fs)
  }

  /** Every line of a text read as a CSV record. */
  function ParseTable(s: string): seq<Option<seq<string>>> {
    var lines := Split(s, '\n');
    seq(|lines|, i requires 0 <= i < |lines| => ParseRow(lines[i]))
  }

  /** A cell that survives the unescaped export: no line feed, no quote, and no comma unless it is quoted. */
  predicate Clean(c: Cell) {
    && '\n' !in c.text && '"' !in c.text
    && (c.Raw? ==> ',' !in c.text)
  }

  /** A grievance whose every exported cell is clean. */
  predicate Exportable(p: Grievance) {
    forall i :: 0 <= i < |Cells(p)| ==> Clean(Cells(p)[i])
  }

  lemma {:induction false} UnquotedClean(w: string, t: string)
    requires ',' !in w && '"' !in w
    requires t == [] || t[0] == ','
    ensures Unquoted(w + t) == Some((w, t))
  {
    if w == [] {
      assert w + t == t;
    } else {
      assert (w + t)[1..] == w[1..] + t;
      UnquotedClean(w[1..], t);
      assert [w[0]] + w[1..] == w;
    }
  }

  lemma {:induction false} QuotedClean(w: string, t: string)
    requires '"' !in w
    requires t == [] || t[0] == ','
    ensures QuotedRest(w + "\"" + t) == Some((w, t))
  {
    if w == [] {
      assert w + "\"" + t == "\"" + t;
      assert ("\"" + t)[1..] == t;
    } else {
      assert (w + "\"" + t)[1..] == w[1..] + "\"" + t;
      QuotedClean(w[1..], t);
      assert [w[0]] + w[1..] == w;
    }
  }

  lemma FieldClean(c: Cell, t: string)
    requires Clean(c)
    requires t == [] || t[0] == ','
    ensures ParseField(Encode(c) + t) == Some((c.text, t))
  {
    match c
    case Raw(w) =>
      UnquotedClean(w, t);
      if w != [] {
        assert (w + t)[0] == w[0];
      }
    case Quoted(w) =>
      assert (Encode(c) + t)[1..] == w + "\"" + t;
      QuotedClean(w, t);
  }

  /** A line of clean cells reads back as the cells' values. */
  lemma {:induction false} RowReadsBack(cells: seq<Cell>)
    requires |cells| >= 1
    requires forall i :: 0 <= i < |cells| ==> Clean(cells[i])
    ensures ParseRow(Join(EncodeAll(cells), ',')) == Some(Values(cells))
  {
    var parts := EncodeAll(cells);
    if |cells| == 1 {
      assert parts[0] + [] == parts[0];
      FieldClean(cells[0], []);
      assert Join(parts, ',') == parts[0];
      assert Values(cells) == [cells[0].text];
    } else {
      var tail := Join(parts[1..], ',');
      assert parts[1..] == EncodeAll(cells[1..]);
      FieldClean(cells[0], [','] + tail);
      assert Join(parts, ',') == Encode(cells[0]) + ([','] + tail);
      assert ([','] + tail)[1..] == tail;
      RowReadsBack(cells[1..]);
      assert Values(cells) == [cells[0].text] + Values(cells[1..]);
    }
  }

  /** A character that occurs in no piece and is not the separator does not occur in the joined text. */
  lemma {:induction false} JoinAvoids(parts: seq<string>, sep: char, c: char)
    requires c != sep
    requires forall i :: 0 <= i < |parts| ==> c !in parts[i]
    ensures c !in Join(parts, sep)
  {
    if |parts| > 1 {
      JoinAvoids(parts[1..], sep, c);
    }
  }

  lemma CleanRowHasNoLineFeed(cells: seq<Cell>)
    requires forall i :: 0 <= i < |cells| ==> Clean(cells[i])
    ensures '\n' !in Join(EncodeAll(cells), ',')
  {
    var parts := EncodeAll(cells);
    forall i | 0 <= i < |parts| ensures '\n' !in parts[i] {
      assert parts[i] == Encode(cells[i]);
    }
    JoinAvoids(parts, ',', '\n');
  }

  /** The header as cells: ten raw words. */
  function HeaderCells(): (cells: seq<Cell>)
    ensures |cells| == |HEADERS|
    ensures forall i :: 0 <= i < |cells| ==> cells[i] == Raw(HEADERS[i])
  {
    seq(|HEADERS|, i requires 0 <= i < |HEADERS| => Raw(HEADERS[i]))
  }

  /** A word of ASCII letters is a clean raw cell. */
  lemma LettersClean(w: string)
    requires forall k :: 0 <= k < |w| ==> IsAsciiLetter(w[k])
    ensures Clean(Raw(w))
  {
  }

  lemma HeaderCellClean(i: nat)
    requires i < |HEADERS|
    ensures Clean(Raw(HEADERS[i]))
  {
    var w := HEADERS[i];
    assert forall k :: 0 <= k < |w| ==> IsAsciiLetter(w[k]) by {
      if i == 0 { assert w == "ID"; }
      else if i == 1 { assert w == "Title"; }
      else if i == 2 { assert w == "Description"; }
      else if i == 3 { assert w == "Location"; }
      else if i == 4 { assert w == "Department"; }
      else if i == 5 { assert w == "Status"; }
      else if i == 6 { assert w == "Reporter"; }
      else if i == 7 { assert w == "Contact"; }
      else if i == 8 { assert w == "Date"; }
      else { assert w == "Votes"; }
    }
    LettersClean(w);
  }

  lemma HeaderCellsClean()
    ensures forall i :: 0 <= i < |HeaderCells()| ==> Clean(HeaderCells()[i])
  {
    forall i | 0 <= i < |HEADERS| ensures Clean(Raw(HEADERS[i])) {
      HeaderCellClean(i);
    }
  }

  lemma HeaderReadsBack()
    ensures ParseRow(HeaderLine()) == Some(HEADERS) && '\n' !in HeaderLine()
  {
    var cells := HeaderCells();
    assert EncodeAll(cells) == HEADERS;
    assert Values(cells) == HEADERS;
    HeaderCellsClean();
    RowReadsBack(cells);
    CleanRowHasNoLineFeed(cells);
  }

  /** The line of an exportable grievance reads back as its fields. */
  lemma RecordReadsBack(p: Grievance)
    requires Exportable(p)
    ensures ParseRow(Row(p)) == Some(ExportedFields(p)) && '\n' !in Row(p)
  {
    assert Values(Cells(p)) == ExportedFields(p);
    RowReadsBack(Cells(p));
    CleanRowHasNoLineFeed(Cells(p));
  }

  lemma LinesHaveNoLineFeed(ps: seq<Grievance>)
    requires forall i :: 0 <= i < |ps| ==> Exportable(ps[i])
    ensures forall i :: 0 <= i < |Lines(ps)| ==> '\n' !in Lines(ps)[i]
  {
    var lines := Lines(ps);
    HeaderReadsBack();
    forall i | 0 <= i < |lines| ensures '\n' !in lines[i] {
      if i > 0 {
        RecordReadsBack(ps[i - 1]);
      }
    }
  }

  /** Lines without line feeds, joined with line feeds, are read back one row per line. */
  lemma TableOfLines(lines: seq<string>)
    requires |lines| >= 1 && forall i :: 0 <= i < |lines| ==> '\n' !in lines[i]
    ensures var table := ParseTable(Join(lines, '\n'));
            |table| == |lines| && forall i :: 0 <= i < |lines| ==> table[i] == ParseRow(lines[i])
  {
    SplitJoin(lines, '\n');
  }

  /**
   * When every record is exportable, reading the export back gives the
   * header, then each record's fields, in store order.
   */
  lemma ExportReadsBack(ps: seq<Grievance>)
    requires forall i :: 0 <= i < |ps| ==> Exportable(ps[i])
    ensures var table := ParseTable(Content(ps));
            && |table| == |ps| + 1
            && table[0] == Some(HEADERS)
            && forall i :: 0 <= i < |ps| ==> table[i + 1] == Some(ExportedFields(ps[i]))
  {
    var lines := Lines(ps);
    LinesHaveNoLineFeed(ps);
    TableOfLines(lines);
    HeaderReadsBack();
    forall i | 0 <= i < |ps| ensures ParseRow(lines[i + 1]) == Some(ExportedFields(ps[i])) {
      RecordReadsBack(ps[i]);
    }
  }

  /** `k` double quotes. */
  function Quotes(k: nat): (r: string)
    ensures |r| == k && forall i :: 0 <= i < k ==> r[i] == '"'
  {
    seq(k, i => '"')
  }

  /**
   * Text holding a quote, written between quotes unescaped, never reads back
   * as itself. `k` counts quotes the reader has already collapsed from
   * doubled ones; what follows the closing quote does not start with a quote.
   */
  lemma {:induction false} QuotedMisread(k: nat, t: string, u: string)
    requires k > 0 || '"' in t
    requires u == [] || u[0] != '"'
    ensures match QuotedRest(t + "\"" + u)
      case None => true
      case Some((f, _)) => f != Quotes(k) + t
    decreases |t|
  {
    var x := t + "\"" + u;
    var v := Quotes(k) + t;
    if t == [] {
      assert x == "\"" + u;
      if u != [] {
        assert x[1] == u[0];
      }
    } else if t[0] != '"' {
      assert x[0] == t[0];
      assert x[1..] == t[1..] + "\"" + u;
      if k == 0 {
        QuotedMisread(0, t[1..], u);
        assert v == [t[0]] + (Quotes(0) + t[1..]);
        match QuotedRest(x[1..])
        case None =>
        case Some((f, _)) =>
          assert ([t[0]] + f)[1..] == f;
      } else {
        assert v[0] == '"';
      }
    } else if |t| == 1 {
      assert x[2..] == u;
      match QuotedRest(u)
      case None =>
      case Some((f, _)) =>
        assert u != [] && f != [] && f[0] == u[0];
        assert ("\"" + f)[1] == u[0];
        assert |v| == k + 1;
        if k > 0 {
          assert v[1] == '"';
        }
    } else if t[1] != '"' {
      assert x[0] == '"' && x[1] == t[1];
    } else {
      assert x[0] == '"' && x[1] == '"';
      assert x[2..] == t[2..] + "\"" + u;
      QuotedMisread(k + 1, t[2..], u);
      assert v[1..] == Quotes(k + 1) + t[2..];
      match QuotedRest(x[2..])
      case None =>
      case Some((f, _)) =>
        assert ("\"" + f)[1..] == f;
    }
  }

  /** After a first field and a comma, the line reads as that field followed by the fields of the rest. */
  lemma ParseRowAfter(s: string, f: string, rest: string)
    requires ParseField(s) == Some((f, rest)) && rest != [] && rest[0] == ','
    ensures ParseRow(s).Some? ==> ParseRow(rest[1..]).Some? && ParseRow(s).value == [f] + ParseRow(rest[1..]).value
  {
  }

  /** The first field a line reads as is the first field the reader takes from it. */
  lemma ParseRowHead(s: string)
    ensures match ParseRow(s)
      case None => true
      case Some(fs) => ParseField(s).Some? && |fs| >= 1 && fs[0] == ParseField(s).value.0
  {
  }

  /**
   * The unescaped quoting is not harmless: the line of a grievance whose
   * title holds a quote never reads back as its fields. It is either
   * unreadable or read with a different title.
   */
  lemma QuoteInTitleNeverReadsBack(p: Grievance)
    requires '"' in p.title
    ensures ParseRow(Row(p)) != Some(ExportedFields(p))
  {
    var parts := EncodeAll(Cells(p));
    var second := Join(parts[1..], ',');
    var u := [','] + Join(parts[2..], ',');
    var line := parts[0] + ([','] + second);
    assert Row(p) == line by {
      assert Join(parts, ',') == line;
    }
    assert second == "\"" + (p.title + "\"" + u) by {
      assert parts[1..][1..] == parts[2..];
    }
    assert ParseField(line) == Some((parts[0], [','] + second)) by {
      assert parts[0] == IntToString(p.id);
      UnquotedClean(parts[0], [','] + second);
      assert line[0] == parts[0][0];
    }
    assert ([','] + second)[1..] == second;
    ParseRowAfter(line, parts[0], [','] + second);
    ParseRowHead(second);
    assert ParseField(second) == QuotedRest(p.title + "\"" + u) by {
      assert second[1..] == p.title + "\"" + u;
    }
    QuotedMisread(0, p.title, u);
    assert Quotes(0) + p.title == p.title;
    assert ParseRow(second).Some? ==> ParseRow(second).value[0] != p.title;
    assert ParseRow(line).Some? ==> ParseRow(line).value[1] != p.title;
  }

  /**
   * A title that already holds a doubled quote, such as `a""b`, is read back
   * without complaint, but as `a"b`.
   */
  lemma DoubledQuoteMisread(u: string)
    requires u == [] || u[0] == ','
    ensures QuotedRest("a\"\"b" + "\"" + u) == Some(("a\"b", u))
  {
    var x := "a\"\"b" + "\"" + u;
    QuotedClean("b", u);
    assert x[1..][2..] == "b" + "\"" + u;
    assert QuotedRest(x[1..]) == Some(("\"" + "b", u));
    assert x[1..] == "\"\"b" + "\"" + u;
    assert [x[0]] + ("\"" + "b") == "a\"b";
  }

  /**
   * A title such as `5" pipe` makes the record's line unreadable as CSV.
   */
  lemma QuoteInTitleBreaksRow(p: Grievance)
    requires p.title == "5\" pipe"
    ensures ParseRow(Row(p)) == None
  {
    var parts := EncodeAll(Cells(p));
    var second := Join(parts[1..], ',');
    assert Join(parts, ',') == parts[0] + ([','] + second);
    assert parts[1..][1..] == parts[2..];
    assert second == parts[1] + ([','] + Join(parts[2..], ','));
    assert parts[1] == "\"5\" pipe\"";
    UnquotedClean(parts[0], [','] + second);
    assert ([','] + second)[1..] == second;
    BrokenQuotedField([','] + Join(parts[2..], ','));
  }

  /** The line from `"5" pipe"` on does not parse: the quote after 5 closes the field too early. */
  lemma BrokenQuotedField(t: string)
    ensures ParseRow("\"5\" pipe\"" + t) == None
  {
    var x := "\"5\" pipe\"" + t;
    var inner := x[1..];
    assert inner[1..][1..] == " pipe\"" + t;
    assert QuotedRest(inner[1..]) == Some(("", inner[1..][1..]));
    assert inner[0] == '5' && inner[0] != '"';
    assert [inner[0]] + "" == "5";
    assert QuotedRest(inner) == Some(("5", inner[1..][1..]));
  }
}

/** The CSV export of the displayed series: a header line and one line per
    entry, fields joined by commas and lines by line breaks. How a number is
    printed is the parameter `show`; the PDF export and the file download
    are not part of this model. */
module Export {
  import opened Calendar
  import opened Metrics

  const Header: seq<string> :=
    ["Date", "Open", "High", "Low", "Close", "Volume", "Performance", "Volatility", "Liquidity"]

  /** `parts.join(sep)` */
  function Join(parts: seq<string>, sep: char): string
  {
    if |parts| == 0 then ""
    else if |parts| == 1 then parts[0]
    else Join(parts[..|parts| - 1], sep) + [sep] + parts[|parts| - 1]
  }

  /** `s.split(sep)` */
  function Split(s: string, sep: char): (r: seq<string>)
    ensures |r| >= 1
  {
    if |s| == 0 then [""]
    else
      var init := Split(s[..|s| - 1], sep);
      var c := s[|s| - 1];
      if c == sep then init + [""]
      else init[..|init| - 1] + [init[|init| - 1] + [c]]
  }

  /** Text without the separator extends the last piece. */
  lemma {:induction false} SplitExtend(s: string, t: string, sep: char)
    requires sep !in t
    ensures var before := Split(s, sep);
      Split(s + t, sep) == before[..|before| - 1] + [before[|before| - 1] + t]
    decreases |t|
  {
    var before := Split(s, sep);
    var k := |before|;
    var p, w := before[..k - 1], before[k - 1];
    assert before == p + [w];
    if |t| == 0 {
      assert s + t == s;
      assert w + t == w;
    } else {
      var u := t[..|t| - 1];
      assert sep !in u;
      SplitExtend(s, u, sep);
      SplitExtendStep(s, u, t[|t| - 1], sep, p, w);
      assert u + [t[|t| - 1]] == t;
    }
  }

  lemma SplitExtendStep(s: string, u: string, c: char, sep: char, p: seq<string>, w: string)
    requires c != sep
    requires Split(s + u, sep) == p + [w + u]
    ensures Split(s + (u + [c]), sep) == p + [w + (u + [c])]
  {
    var init := Split(s + u, sep);
    assert init[..|init| - 1] == p;
    assert s + (u + [c]) == (s + u) + [c];
    SplitSnoc(s + u, c, sep);
    assert (w + u) + [c] == w + (u + [c]);
  }

  /** A character other than the separator extends the last piece. */
  lemma SplitSnoc(x: string, c: char, sep: char)
    requires c != sep
    ensures var init := Split(x, sep);
      Split(x + [c], sep) == init[..|init| - 1] + [init[|init| - 1] + [c]]
  {
    assert (x + [c])[..|x + [c]| - 1] == x;
  }

  /** A separator followed by text without one starts a new piece. */
  lemma SplitAfterSeparator(s: string, t: string, sep: char)
    requires sep !in t
    ensures Split(s + [sep] + t, sep) == Split(s, sep) + [t]
  {
    var s' := s + [sep];
    assert s'[..|s'| - 1] == s;
    assert Split(s', sep) == Split(s, sep) + [""];
    SplitExtend(s', t, sep);
    assert "" + t == t;
  }

  /** Splitting a join gives the parts back when no part holds the separator. */
  lemma {:induction false} SplitJoin(parts: seq<string>, sep: char)
    requires |parts| >= 1
    requires forall i :: 0 <= i < |parts| ==> sep !in parts[i]
    ensures Split(Join(parts, sep), sep) == parts
  {
    if |parts| == 1 {
      SplitExtend("", parts[0], sep);
      assert "" + parts[0] == parts[0];
    } else {
      var init, last := parts[..|parts| - 1], parts[|parts| - 1];
      assert forall i :: 0 <= i < |init| ==> init[i] == parts[i];
      SplitJoin(init, sep);
      assert init + [last] == parts;
      SplitJoinStep(init, last, sep);
    }
  }

  lemma SplitJoinStep(init: seq<string>, last: string, sep: char)
    requires |init| >= 1 && sep !in last
    requires Split(Join(init, sep), sep) == init
    ensures Split(Join(init + [last], sep), sep) == init + [last]
  {
    var parts := init + [last];
    assert parts[..|parts| - 1] == init;
    var j := Join(init, sep);
    assert Join(parts, sep) == j + [sep] + last;
    SplitAfterSeparator(j, last, sep);
  }

  /** A join holds a character only if a part or the separator does. */
  lemma {:induction false} JoinAvoids(parts: seq<string>, sep: char, c: char)
    requires c != sep
    requires forall i :: 0 <= i < |parts| ==> c !in parts[i]
    ensures c !in Join(parts, sep)
  {
    if |parts| > 1 {
      JoinAvoids(parts[..|parts| - 1], sep, c);
    }
  }

  /** The numeric fields of one entry, in header order after the date. */
  function Figures(e: FinancialMetrics): seq<real>
  {
    [e.open, e.high, e.low, e.close, e.volume, e.performance, e.volatility, e.liquidity]
  }

  /** A line's fields: the entry's date text, then its printed figures. */
  function Fields(e: FinancialMetrics, date: FinancialMetrics -> string, show: real -> string): (r: seq<string>)
    ensures |r| == |Header|
  {
    var figures := Figures(e);
    [date(e)] + seq(|figures|, i requires 0 <= i < |figures| => show(figures[i]))
  }

  /** The header line, then one line of fields per entry. */
  function Lines(data: seq<FinancialMetrics>, date: FinancialMetrics -> string, show: real -> string)
    : (r: seq<string>)
    ensures |r| == |data| + 1
  {
    [Join(Header, ',')] + seq(|data|, i requires 0 <= i < |data| => Join(Fields(data[i], date, show), ','))
  }

  /** The rendered key of an entry, its `date` text. */
  function DateText(e: FinancialMetrics): string
  {
    KeyText(e.date)
  }

  /** The fields of one entry, in header order. */
  function Row(e: FinancialMetrics, show: real -> string): seq<string>
  {
    Fields(e, DateText, show)
  }

  /** `generateCSV` */
  function GenerateCSV(data: seq<FinancialMetrics>, show: real -> string): string
  {
    Join(Lines(data, DateText, show), '\n')
  }

  /** Text with neither a comma nor a line break. */
  predicate Plain(t: string)
  {
    ',' !in t && '\n' !in t
  }

  /** `show` prints plain text, as number text always is. */
  ghost predicate PlainNumbers(show: real -> string)
  {
    forall x :: Plain(show(x))
  }

  ghost predicate PlainDates(date: FinancialMetrics -> string)
  {
    forall e :: Plain(date(e))
  }

  lemma KeyTextPlain(k: DateKey)
    ensures Plain(KeyText(k))
  {
    KeyTextChars(k);
    var s := KeyText(k);
    forall i | 0 <= i < |s|
      ensures s[i] != ',' && s[i] != '\n'
    {
      assert KeyChar(s[i]);
    }
  }

  /** Rendered keys are plain. */
  lemma DateTextPlain()
    ensures PlainDates(DateText)
  {
    forall e: FinancialMetrics
      ensures Plain(DateText(e))
    {
      KeyTextPlain(e.date);
    }
  }

  lemma FieldsPlain(e: FinancialMetrics, date: FinancialMetrics -> string, show: real -> string)
    requires PlainDates(date) && PlainNumbers(show)
    ensures forall i :: 0 <= i < |Fields(e, date, show)| ==> Plain(Fields(e, date, show)[i])
  {
  }

  /** The column names are plain words. */
  lemma HeaderPlain()
    ensures forall i :: 0 <= i < |Header| ==> Plain(Header[i])
  {
    forall i | 0 <= i < |Header|
      ensures Plain(Header[i])
    {
      var h := Header[i];
      forall j | 0 <= j < |h|
        ensures 'A' <= h[j] <= 'z'
      {
      }
    }
  }

  /** The header line holds no line break and reads back as the column names. */
  lemma HeaderLine()
    ensures '\n' !in Join(Header, ',')
    ensures Split(Join(Header, ','), ',') == Header
  {
    HeaderPlain();
    JoinAvoids(Header, ',', '\n');
    SplitJoin(Header, ',');
  }

  /** An entry's line holds no line break and reads back as its fields. */
  lemma EntryLine(data: seq<FinancialMetrics>, date: FinancialMetrics -> string, show: real -> string, i: nat)
    requires PlainDates(date) && PlainNumbers(show) && i < |data|
    ensures '\n' !in Lines(data, date, show)[i + 1]
    ensures Split(Lines(data, date, show)[i + 1], ',') == Fields(data[i], date, show)
  {
    var fields := Fields(data[i], date, show);
    assert Lines(data, date, show)[i + 1] == Join(fields, ',');
    FieldsPlain(data[i], date, show);
    JoinAvoids(fields, ',', '\n');
    SplitJoin(fields, ',');
  }

  /** No line holds a line break. */
  lemma LinesUnbroken(data: seq<FinancialMetrics>, date: FinancialMetrics -> string, show: real -> string)
    requires PlainDates(date) && PlainNumbers(show)
    ensures forall i :: 0 <= i < |Lines(data, date, show)| ==> '\n' !in Lines(data, date, show)[i]
  {
    var lines := Lines(data, date, show);
    HeaderLine();
    forall i | 1 <= i < |lines|
      ensures '\n' !in lines[i]
    {
      EntryLine(data, date, show, i - 1);
    }
  }

  /** Reading the lines back field by field gives the header and then every
      entry's fields, in order. */
  lemma LinesReadBack(data: seq<FinancialMetrics>, date: FinancialMetrics -> string, show: real -> string)
    requires PlainDates(date) && PlainNumbers(show)
    ensures var lines := Split(Join(Lines(data, date, show), '\n'), '\n');
      |lines| == |data| + 1 &&
      Split(lines[0], ',') == Header &&
      forall i :: 0 <= i < |data| ==> Split(lines[i + 1], ',') == Fields(data[i], date, show)
  {
    var lines := Lines(data, date, show);
    LinesUnbroken(data, date, show);
    SplitJoin(lines, '\n');
    HeaderLine();
    forall i | 0 <= i < |data|
      ensures Split(lines[i + 1], ',') == Fields(data[i], date, show)
    {
      EntryLine(data, date, show, i);
    }
  }

  /** Reading the export back line by line and field by field gives the
      header and then every entry's date and figures, in order. */
  lemma CsvReadsBack(data: seq<FinancialMetrics>, show: real -> string)
    requires PlainNumbers(show)
    ensures var lines := Split(GenerateCSV(data, show), '\n');
      |lines| == |data| + 1 &&
      Split(lines[0], ',') == Header &&
      forall i :: 0 <= i < |data| ==> Split(lines[i + 1], ',') == Row(data[i], show)
  {
    DateTextPlain();
    LinesReadBack(data, DateText, show);
  }
}

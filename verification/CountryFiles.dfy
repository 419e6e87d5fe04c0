/** Files printed from address ranges: loading one gives back exactly its ranges, and every address is then
    found in the range that holds it (LoadIPv4, Reload and Find, core/IP2Country.cpp). */
module CountryFiles {
  import opened Decimals
  import opened Options
  import opened Sequences
  import opened CountryTable
  import opened CountryCsv
  import opened IpToCountry

  /** The fields of a row that the loader skips. */
  datatype Dress = Dress(registry: string, date: string, rest: string)

  datatype Entry = Remark(text: string) | Entry(range: Range, dress: Dress)

  /** Country codes that can stand in a file: quote-free, and no two the same. */
  ghost predicate Printable(codes: seq<string>) {
    Codes(codes) && (forall i, j :: 0 <= i < j < |codes| ==> codes[i] != codes[j]) &&
    forall i :: 0 <= i < |codes| ==> '"' !in codes[i]
  }

  ghost predicate Proper(e: Entry) {
    match e
    case Remark(text) => !IsRow(text)
    case Entry(range, dress) => range.country < UNKNOWN && '"' !in dress.registry && '"' !in dress.date
  }

  ghost predicate AllProper(es: seq<Entry>) {
    forall i :: 0 <= i < |es| ==> Proper(es[i])
  }

  /** A range as a row of the file: its bounds in decimal and the code of its country. */
  function RowOf(codes: seq<string>, r: Range, d: Dress): CsvRow
    requires r.country < |codes|
  {
    CsvRow(Digits(r.from), Digits(r.to), d.registry, d.date, codes[r.country], d.rest)
  }

  function LineOf(codes: seq<string>, e: Entry): CsvLine
    requires e.Entry? ==> e.range.country < |codes|
  {
    match e case Remark(text) => Comment(text) case Entry(range, dress) => Data(RowOf(codes, range, dress))
  }

  ghost function FileOf(codes: seq<string>, es: seq<Entry>): (ls: seq<CsvLine>)
    requires Codes(codes) && AllProper(es)
    ensures |ls| == |es|
  {
    seq(|es|, i requires 0 <= i < |es| => LineOf(codes, es[i]))
  }

  /** The ranges of a file, in order. */
  function RangesOf(es: seq<Entry>): seq<Range>
    decreases |es|
  {
    if es == [] then []
    else
      var front, last := RangesOf(es[..|es| - 1]), es[|es| - 1];
      if last.Remark? then front else front + [last.range]
  }

  lemma OwnCode(codes: seq<string>, k: nat)
    requires Printable(codes) && k < UNKNOWN
    ensures CodeIndex(codes, codes[k], 0) == Some(k)
  {
    CodeIndexExactly(codes, codes[k], 0);
    assert codes[k] <= codes[k];
    if CodeIndex(codes, codes[k], 0).Some? {
      var j := CodeIndex(codes, codes[k], 0).value;
      assert codes[j] == codes[k][..2] == codes[k];
    }
  }

  lemma DigitsAreNumeral(n: Word)
    ensures Numeral(Digits(n)) && '"' !in Digits(n) && FromChars(Digits(n), 0) == n
  {
    LeadingOfDigits(n);
    FromCharsDecimal(n, "", 0);
    assert Digits(n) + "" == Digits(n);
  }

  lemma RowIsRange(codes: seq<string>, r: Range, d: Dress)
    requires Printable(codes) && Proper(Entry(r, d))
    ensures WellFormed(RowOf(codes, r, d)) && Accepted(codes, [Data(RowOf(codes, r, d))]) == [r]
  {
    DigitsAreNumeral(r.from);
    DigitsAreNumeral(r.to);
    OwnCode(codes, r.country);
    assert [Data(RowOf(codes, r, d))][..0] == [];
  }

  lemma EntryIsLine(codes: seq<string>, e: Entry)
    requires Printable(codes) && Proper(e)
    ensures WellFormedLine(LineOf(codes, e))
    ensures Accepted(codes, [LineOf(codes, e)]) == if e.Remark? then [] else [e.range]
  {
    if e.Entry? {
      RowIsRange(codes, e.range, e.dress);
    } else {
      assert [LineOf(codes, e)][..0] == [];
    }
  }

  lemma {:induction false} FileIsRanges(codes: seq<string>, es: seq<Entry>)
    requires Printable(codes) && AllProper(es)
    ensures forall i :: 0 <= i < |es| ==> WellFormedLine(FileOf(codes, es)[i])
    ensures Accepted(codes, FileOf(codes, es)) == RangesOf(es)
    decreases |es|
  {
    if es != [] {
      var front, last := es[..|es| - 1], es[|es| - 1];
      FileIsRanges(codes, front);
      EntryIsLine(codes, last);
      assert FileOf(codes, es) == FileOf(codes, front) + [LineOf(codes, last)];
      AcceptedAppend(codes, FileOf(codes, front), LineOf(codes, last));
    }
  }

  /** A file printed from ranges of numbers, with remarks in between, is loaded as exactly those ranges, in
      order; a reload leaves nothing else. */
  lemma LoadsItsRanges(codes: seq<string>, t: Table, es: seq<Entry>)
    requires Printable(codes) && t.Valid() && AllProper(es)
    ensures Visible(Loaded(codes, t, Print(FileOf(codes, es)))) == Visible(t) + RangesOf(es)
    ensures Visible(Loaded(codes, t.(count := 0), Print(FileOf(codes, es)))) == RangesOf(es)
  {
    FileIsRanges(codes, es);
    LoadedIsAccepted(codes, t, FileOf(codes, es));
  }

  // ---------- lookups after a reload ----------

  /** Ranges in the order of the file that do not meet. */
  ghost predicate InOrder(rs: seq<Range>) {
    (forall i, j :: 0 <= i < j < |rs| ==> rs[i].from <= rs[j].from) && forall i, j :: 0 <= i < j < |rs| ==> rs[i].to < rs[j].from
  }

  /** The country of the range that holds a number. */
  ghost predicate CountryOf(rs: seq<Range>, x: nat, country: Byte) {
    (forall i :: 0 <= i < |rs| && rs[i].from <= x <= rs[i].to ==> country == rs[i].country) &&
    ((forall i :: 0 <= i < |rs| ==> !(rs[i].from <= x <= rs[i].to)) ==> country == UNKNOWN)
  }

  lemma TableFinds(t: Table, x: Word)
    requires t.Valid() && InOrder(Visible(t))
    ensures CountryOf(Visible(t), x, CountryAt(Search(t.from, t.to, t.count, x), t.ci))
  {
    var rs := Visible(t);
    assert forall i :: 0 <= i < t.count ==> rs[i].from == t.from[i] && rs[i].to == t.to[i] && rs[i].country == t.ci[i];
    assert Sorted(t.from, t.count) && Disjoint(t.from, t.to, t.count);
    DisjointIsHarmless(t.from, t.to, t.ci, t.count);
    HarmlessAgrees(t.from, t.to, t.ci, t.count, x);
    OneRowScanned(t.from, t.to, t.ci, t.count, x);
  }

  /** After a reload from such a file every IPv4 address, however it is embedded, is found in the range of
      the file that holds its number, and is unknown if there is none. */
  lemma ReloadedIsFound(codes: seq<string>, t: Table, es: seq<Entry>, f: FlatTable, a: Address, b: seq<Byte>)
    requires Printable(codes) && t.Valid() && f.Valid() && AllProper(es) && InOrder(RangesOf(es))
    requires |b| == 4 && Embeds(a, b)
    ensures CountryOf(RangesOf(es), BigEndian(b), Lookup(Loaded(codes, t.(count := 0), Print(FileOf(codes, es))), f, a, true))
  {
    var loaded := Loaded(codes, t.(count := 0), Print(FileOf(codes, es)));
    LoadsItsRanges(codes, t, es);
    EmbeddingClassified(a, b);
    TableFinds(loaded, Classify(a, true).ip);
  }
}

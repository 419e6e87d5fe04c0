/** Loading IpToCountry.csv: one quoted row per range, read field by field into vectors that grow by 512
    rows (LoadIPv4 and Reload, core/IP2Country.cpp). */
module CountryCsv {
  import opened Decimals
  import opened Options
  import opened Sequences
  import opened CountryTable

  const FIRST_SIZE: nat := 262144
  const GROWTH: nat := 512

  /** The three parallel vectors and the number of rows in use. */
  datatype Table = Table(from: seq<Word>, to: seq<Word>, ci: seq<Byte>, count: nat) {
    ghost predicate Valid() {
      |from| == |to| == |ci| && count <= |from|
    }
  }

  datatype Range = Range(from: Word, to: Word, country: Byte)

  /** What lookups can see. */
  function Visible(t: Table): (rows: seq<Range>)
    requires t.Valid()
    ensures |rows| == t.count
  {
    seq(t.count, i requires 0 <= i < t.count => Range(t.from[i], t.to[i], t.ci[i]))
  }

  // ---------- numbers ----------

  /** The value of the leading digits of s, continuing from acc. */
  function Leading(s: string, acc: nat): nat {
    if s == "" || !IsDigit(s[0]) then acc else Leading(s[1..], 10 * acc + (s[0] - '0') as nat)
  }

  /** `std::from_chars` into an unsigned 32-bit variable: without a leading digit, or out of range, the
      variable keeps its old value. */
  function FromChars(s: string, old_: Word): Word {
    if s == "" || !IsDigit(s[0]) then old_
    else
      var v := Leading(s, 0);
      if v < 0x1_0000_0000 then v else old_
  }

  lemma {:induction false} LeadingSnoc(s: string, c: char, acc: nat)
    requires IsDigit(c) && forall i :: 0 <= i < |s| ==> IsDigit(s[i])
    ensures Leading(s + [c], acc) == 10 * Leading(s, acc) + (c - '0') as nat
    decreases |s|
  {
    if s == "" {
      assert [c][1..] == "";
    } else {
      assert (s + [c])[0] == s[0] && (s + [c])[1..] == s[1..] + [c];
      LeadingSnoc(s[1..], c, 10 * acc + (s[0] - '0') as nat);
    }
  }

  lemma {:induction false} LeadingStops(s: string, tail: string, acc: nat)
    requires (tail == "" || !IsDigit(tail[0])) && forall i :: 0 <= i < |s| ==> IsDigit(s[i])
    ensures Leading(s + tail, acc) == Leading(s, acc)
    decreases |s|
  {
    if s == "" {
      assert s + tail == tail;
    } else {
      assert (s + tail)[0] == s[0] && (s + tail)[1..] == s[1..] + tail;
      LeadingStops(s[1..], tail, 10 * acc + (s[0] - '0') as nat);
    }
  }

  lemma {:induction false} LeadingOfDigits(n: nat)
    ensures Leading(Digits(n), 0) == n
  {
    if n < 10 {
      assert Digits(n)[1..] == "";
    } else {
      LeadingOfDigits(n / 10);
      LeadingSnoc(Digits(n / 10), ((n % 10) as char) + '0', 0);
    }
  }

  /** A printed number of any size, whatever follows its last digit: it is read as itself if it fits 32
      bits, otherwise the vector element stays.  A field that does not begin with a digit is not read. */
  lemma FromCharsDecimal(n: nat, tail: string, old_: Word)
    requires tail == "" || !IsDigit(tail[0])
    ensures FromChars(Digits(n) + tail, old_) == if n < 0x1_0000_0000 then n else old_
    ensures FromChars(tail, old_) == old_
  {
    LeadingOfDigits(n);
    LeadingStops(Digits(n), tail, 0);
    assert (Digits(n) + tail)[0] == Digits(n)[0];
  }

  // ---------- rows ----------

  /** The position of the first quote, or the length. */
  function Quote(s: string): (q: nat)
    ensures q <= |s| && (q < |s| ==> s[q] == '"')
    ensures forall j :: 0 <= j < q ==> s[j] != '"'
  {
    if s == "" || s[0] == '"' then 0 else 1 + Quote(s[1..])
  }

  /** The first country code the field starts with; the last code is never matched. */
  function CodeIndex(codes: seq<string>, field: string, i: nat): Option<nat>
    requires i < |codes|
    decreases |codes| - i
  {
    if i == |codes| - 1 then None
    else if |field| >= 2 && field[..2] == codes[i] then Some(i)
    else CodeIndex(codes, field, i + 1)
  }

  ghost predicate Codes(codes: seq<string>) {
    |codes| == UNKNOWN + 1 && forall i :: 0 <= i < |codes| ==> |codes[i]| == 2
  }

  /** What one closed field does to the row being filled. */
  function PutField(codes: seq<string>, t: Table, d: nat, field: string): (r: Table)
    requires Codes(codes) && t.Valid() && t.count < |t.from|
    ensures r.Valid() && |r.from| == |t.from|
    ensures d != 4 ==> r.count == t.count
  {
    if d == 0 then t.(from := t.from[t.count := FromChars(field, t.from[t.count])])
    else if d == 1 then t.(to := t.to[t.count := FromChars(field, t.to[t.count])])
    else if d == 4 then
      match CodeIndex(codes, field, 0)
      case None => t
      case Some(i) => if i < 256 then t.(ci := t.ci[t.count := i], count := t.count + 1) else t
    else t
  }

  /** The fields closed in the rest of a line, the first one being field d; three characters separate
      two fields, and the fifth one is the last that is read. */
  function SplitFields(s: string, d: nat): (fs: seq<string>)
    requires d <= 4
    ensures d + |fs| <= 5
    decreases 4 - d
  {
    var q := Quote(s);
    if q == |s| then []
    else if d == 4 || q + 3 > |s| then [s[..q]]
    else [s[..q]] + SplitFields(s[q + 3..], d + 1)
  }

  /** The effect of a list of fields, the first one being field d. */
  function PutAll(codes: seq<string>, t: Table, d: nat, fs: seq<string>): (r: Table)
    requires Codes(codes) && t.Valid() && (fs != [] ==> t.count < |t.from| && d + |fs| <= 5)
    ensures r.Valid() && |r.from| == |t.from| && t.count <= r.count <= t.count + 1
    decreases |fs|
  {
    if fs == [] then t
    else if d == 4 then PutField(codes, t, d, fs[0])
    else PutAll(codes, PutField(codes, t, d, fs[0]), d + 1, fs[1..])
  }

  function Grow<T>(s: seq<T>, n: nat, zero: T): (r: seq<T>)
    ensures |r| == |s| + n && r[..|s|] == s
  {
    s + seq(n, _ => zero)
  }

  function Grown(t: Table, n: nat): (r: Table)
    requires t.Valid()
    ensures r.Valid() && |r.from| == |t.from| + n && r.count == t.count && Visible(r) == Visible(t)
  {
    Table(Grow(t.from, n, 0), Grow(t.to, n, 0), Grow(t.ci, n, 0), t.count)
  }

  predicate IsRow(line: string) {
    line != "" && line[0] == '"'
  }

  /** One line of the file. */
  function PutLine(codes: seq<string>, t: Table, line: string): (r: Table)
    requires Codes(codes) && t.Valid()
    ensures r.Valid()
  {
    if !IsRow(line) then t
    else PutAll(codes, if t.count == |t.from| then Grown(t, GROWTH) else t, 0, SplitFields(line[1..], 0))
  }

  function PutLines(codes: seq<string>, t: Table, lines: seq<string>): (r: Table)
    requires Codes(codes) && t.Valid()
    ensures r.Valid()
    decreases |lines|
  {
    if lines == [] then t else PutLine(codes, PutLines(codes, t, lines[..|lines| - 1]), lines[|lines| - 1])
  }

  function Trimmed(t: Table): (r: Table)
    requires t.Valid()
    ensures r.Valid() && Visible(r) == Visible(t)
  {
    Table(t.from[..t.count], t.to[..t.count], t.ci[..t.count], t.count)
  }

  function Loaded(codes: seq<string>, t: Table, lines: seq<string>): (r: Table)
    requires Codes(codes) && t.Valid()
    ensures r.Valid()
  {
    Trimmed(PutLines(codes, if t.from == [] then Grown(t, FIRST_SIZE) else t, lines))
  }

  // ---------- well-formed files ----------

  /** A decimal number that fits 32 bits. */
  ghost predicate Numeral(s: string) {
    s != "" && (forall i :: 0 <= i < |s| ==> IsDigit(s[i])) && Leading(s, 0) < 0x1_0000_0000
  }

  /** The quote-free fields of a row; what follows the country code does not matter. */
  datatype CsvRow = CsvRow(from: string, to: string, registry: string, date: string, code: string, rest: string)

  ghost predicate QuoteFree(row: CsvRow) {
    '"' !in row.from && '"' !in row.to && '"' !in row.registry && '"' !in row.date && '"' !in row.code
  }

  ghost predicate WellFormed(row: CsvRow) {
    Numeral(row.from) && Numeral(row.to) && QuoteFree(row)
  }

  const SEP := "\",\""

  function FieldsOf(row: CsvRow): (fs: seq<string>)
    ensures |fs| == 5
  {
    [row.from, row.to, row.registry, row.date, row.code]
  }

  function Join(fs: seq<string>, rest: string): string
    requires fs != []
  {
    if |fs| == 1 then fs[0] + ("\"" + rest) else fs[0] + (SEP + Join(fs[1..], rest))
  }

  function PrintRow(row: CsvRow): string {
    "\"" + Join(FieldsOf(row), row.rest)
  }

  datatype CsvLine = Comment(text: string) | Data(row: CsvRow)

  ghost predicate WellFormedLine(l: CsvLine) {
    match l
    case Comment(text) => !IsRow(text)
    case Data(row) => WellFormed(row)
  }

  function PrintLine(l: CsvLine): string {
    match l case Comment(text) => text case Data(row) => PrintRow(row)
  }

  /** The rows a file stands for: data lines whose country is known, in order. */
  function Accepted(codes: seq<string>, ls: seq<CsvLine>): seq<Range>
    requires Codes(codes)
    decreases |ls|
  {
    if ls == [] then []
    else
      var front, last := Accepted(codes, ls[..|ls| - 1]), ls[|ls| - 1];
      if last.Comment? then front
      else match CodeIndex(codes, last.row.code, 0)
        case None => front
        case Some(i) => front + [Range(FromChars(last.row.from, 0), FromChars(last.row.to, 0), if i < 256 then i else 0)]
  }

  lemma {:induction false} CodeIndexBound(codes: seq<string>, field: string, i: nat)
    requires Codes(codes) && i < |codes|
    ensures CodeIndex(codes, field, i).Some? ==> i <= CodeIndex(codes, field, i).value < UNKNOWN
    decreases |codes| - i
  {
    if i < |codes| - 1 {
      CodeIndexBound(codes, field, i + 1);
    }
  }

  /** A field names the first country, from i on, whose code it starts with; the last code names none. */
  lemma {:induction false} CodeIndexExactly(codes: seq<string>, field: string, i: nat)
    requires Codes(codes) && i < |codes|
    ensures match CodeIndex(codes, field, i)
            case None => forall j :: i <= j < UNKNOWN ==> !(codes[j] <= field)
            case Some(k) => i <= k < UNKNOWN && codes[k] <= field && forall j :: i <= j < k ==> !(codes[j] <= field)
    decreases |codes| - i
  {
    if i < |codes| - 1 {
      CodeIndexExactly(codes, field, i + 1);
    }
  }

  lemma FieldEnds(s: string, field: string, tail: string)
    requires s == field + tail && tail != "" && tail[0] == '"' && '"' !in field
    ensures Quote(s) == |field| && s[..|field|] == field && s[|field|..] == tail
  {
    assert s[|field|] == '"' && forall j :: 0 <= j < |field| ==> s[j] == field[j];
  }

  lemma SplitMore(s: string, d: nat, f: string, more: string)
    requires d < 4 && '"' !in f && s == f + (SEP + more)
    ensures SplitFields(s, d) == [f] + SplitFields(more, d + 1)
  {
    FieldEnds(s, f, SEP + more);
    assert s[|f| + 3..] == s[|f|..][3..] == more;
  }

  lemma {:induction false} JoinSplit(s: string, d: nat, fs: seq<string>, rest: string)
    requires fs != [] && d + |fs| == 5 && s == Join(fs, rest)
    requires forall i :: 0 <= i < |fs| ==> '"' !in fs[i]
    ensures SplitFields(s, d) == fs
    decreases |fs|
  {
    var f := fs[0];
    if |fs| == 1 {
      FieldEnds(s, f, "\"" + rest);
    } else {
      var more := Join(fs[1..], rest);
      SplitMore(s, d, f, more);
      JoinSplit(more, d + 1, fs[1..], rest);
      assert fs == [f] + fs[1..];
    }
  }

  /** A row of quote-free fields is read as itself. */
  lemma PrintedRow(row: CsvRow)
    requires QuoteFree(row)
    ensures SplitFields(PrintRow(row)[1..], 0) == FieldsOf(row)
  {
    var fs := FieldsOf(row);
    assert PrintRow(row)[1..] == Join(fs, row.rest);
    JoinSplit(PrintRow(row)[1..], 0, fs, row.rest);
  }

  /** The third and the fourth field are skipped. */
  lemma PutAllRow(codes: seq<string>, t: Table, row: CsvRow)
    requires Codes(codes) && t.Valid() && t.count < |t.from|
    ensures PutAll(codes, t, 0, FieldsOf(row)) == PutRow(codes, t, row)
  {
    var fs := FieldsOf(row);
    var t1 := PutField(codes, t, 0, row.from);
    var t2 := PutField(codes, t1, 1, row.to);
    var f1, f2, f3, f4 := fs[1..], fs[1..][1..], fs[1..][1..][1..], fs[1..][1..][1..][1..];
    assert f1[0] == row.to && f2[0] == row.registry && f3[0] == row.date && f4[0] == row.code;
    assert PutAll(codes, t2, 4, f4) == PutField(codes, t2, 4, row.code);
    assert PutAll(codes, t2, 3, f3) == PutAll(codes, t2, 4, f4);
    assert PutAll(codes, t2, 2, f2) == PutAll(codes, t2, 3, f3);
    assert PutAll(codes, t1, 1, f1) == PutAll(codes, t2, 2, f2);
    assert PutAll(codes, t, 0, fs) == PutAll(codes, t1, 1, f1);
  }

  function PutRow(codes: seq<string>, t: Table, row: CsvRow): (r: Table)
    requires Codes(codes) && t.Valid() && t.count < |t.from|
    ensures r.Valid()
  {
    PutField(codes, PutField(codes, PutField(codes, t, 0, row.from), 1, row.to), 4, row.code)
  }

  /** What a row changes in the part that lookups see. */
  lemma PutRowShows(codes: seq<string>, t: Table, row: CsvRow)
    requires Codes(codes) && t.Valid() && t.count < |t.from|
    ensures Visible(PutRow(codes, t, row)) == Visible(t) +
            match CodeIndex(codes, row.code, 0)
            case None => []
            case Some(i) =>
              [Range(FromChars(row.from, t.from[t.count]), FromChars(row.to, t.to[t.count]), if i < 256 then i else 0)]
  {
    CodeIndexBound(codes, row.code, 0);
    var r := PutRow(codes, t, row);
    assert forall i :: 0 <= i < t.count ==> r.from[i] == t.from[i] && r.to[i] == t.to[i] && r.ci[i] == t.ci[i];
  }

  lemma NumeralRead(s: string, a: Word, b: Word)
    requires Numeral(s)
    ensures FromChars(s, a) == FromChars(s, b)
  {
  }

  /** A line adds its row, whatever the unused part of the vectors holds and whether or not they grow. */
  lemma LineAdds(codes: seq<string>, t: Table, l: CsvLine)
    requires Codes(codes) && t.Valid() && WellFormedLine(l)
    ensures Visible(PutLine(codes, t, PrintLine(l))) == Visible(t) + Accepted(codes, [l])
  {
    assert [l][..0] == [];
    if l.Data? {
      var g := if t.count == |t.from| then Grown(t, GROWTH) else t;
      var line := PrintRow(l.row);
      assert PutLine(codes, t, line) == PutRow(codes, g, l.row) by {
        PrintedRow(l.row);
        PutAllRow(codes, g, l.row);
      }
      assert Visible(PutRow(codes, g, l.row)) == Visible(g) + Accepted(codes, [l]) by {
        PutRowShows(codes, g, l.row);
        NumeralRead(l.row.from, 0, g.from[g.count]);
        NumeralRead(l.row.to, 0, g.to[g.count]);
      }
    }
  }

  function Print(ls: seq<CsvLine>): seq<string> {
    seq(|ls|, i requires 0 <= i < |ls| => PrintLine(ls[i]))
  }

  lemma AcceptedAppend(codes: seq<string>, ls: seq<CsvLine>, l: CsvLine)
    requires Codes(codes)
    ensures Accepted(codes, ls + [l]) == Accepted(codes, ls) + Accepted(codes, [l])
  {
    assert (ls + [l])[..|ls|] == ls && [l][..0] == [];
  }

  lemma PrintSplit(ls: seq<CsvLine>)
    requires ls != []
    ensures Print(ls)[..|ls| - 1] == Print(ls[..|ls| - 1]) && Print(ls)[|ls| - 1] == PrintLine(ls[|ls| - 1])
  {
  }

  lemma LastLineAdds(codes: seq<string>, t: Table, front: seq<CsvLine>, l: CsvLine)
    requires Codes(codes) && t.Valid() && WellFormedLine(l)
    ensures Visible(PutLines(codes, t, Print(front + [l]))) ==
            Visible(PutLines(codes, t, Print(front))) + Accepted(codes, [l])
  {
    var ls := front + [l];
    assert ls[..|ls| - 1] == front && ls[|ls| - 1] == l;
    PrintSplit(ls);
    LineAdds(codes, PutLines(codes, t, Print(front)), l);
  }

  lemma {:induction false} LinesAdd(codes: seq<string>, t: Table, ls: seq<CsvLine>)
    requires Codes(codes) && t.Valid() && forall i :: 0 <= i < |ls| ==> WellFormedLine(ls[i])
    ensures Visible(PutLines(codes, t, Print(ls))) == Visible(t) + Accepted(codes, ls)
    decreases |ls|
  {
    if ls == [] {
      assert Visible(t) + [] == Visible(t);
    } else {
      var front, l := ls[..|ls| - 1], ls[|ls| - 1];
      assert front + [l] == ls;
      LinesAdd(codes, t, front);
      LastLineAdds(codes, t, front, l);
      AcceptedAppend(codes, front, l);
      ConcatAssoc(Visible(t), Accepted(codes, front), Accepted(codes, [l]));
    }
  }

  /** Loading a well-formed file of any length, comments and unknown countries included, adds exactly its
      accepted rows in order; and a reload shows nothing of the old table. */
  lemma LoadedIsAccepted(codes: seq<string>, t: Table, ls: seq<CsvLine>)
    requires Codes(codes) && t.Valid() && forall i :: 0 <= i < |ls| ==> WellFormedLine(ls[i])
    ensures Visible(Loaded(codes, t, Print(ls))) == Visible(t) + Accepted(codes, ls)
    ensures Visible(Loaded(codes, t.(count := 0), Print(ls))) == Accepted(codes, ls)
  {
    LinesAdd(codes, if t.from == [] then Grown(t, FIRST_SIZE) else t, ls);
    var e := t.(count := 0);
    LinesAdd(codes, if e.from == [] then Grown(e, FIRST_SIZE) else e, ls);
    assert Visible(e) == [];
  }

  /** A row whose start is not a number is different: `from_chars` leaves the vector element alone, so a
      reload shows the start of a row of the old table. */
  lemma StaleNumberShows(codes: seq<string>, t: Table, row: CsvRow)
    requires Codes(codes) && t.Valid() && t.count > 0
    requires QuoteFree(row) && row.from == "" && Numeral(row.to) && CodeIndex(codes, row.code, 0).Some?
    ensures var shown := Visible(Loaded(codes, t.(count := 0), [PrintRow(row)]));
            |shown| == 1 && shown[0].from == Visible(t)[0].from
  {
    var e := t.(count := 0);
    PrintedRow(row);
    PutAllRow(codes, e, row);
    PutRowShows(codes, e, row);
    var line := PrintRow(row);
    assert [line][..0] == [];
    assert PutLines(codes, e, [line]) == PutLine(codes, PutLines(codes, e, []), line) == PutRow(codes, e, row);
  }
}

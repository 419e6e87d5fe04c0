/** Which files show numbers of the old table when they are loaded into it: `from_chars` leaves a vector
    element alone when a field is no number (LoadIPv4 and Reload, core/IP2Country.cpp).  A file is any list
    of lines. */
module CsvReload {
  import opened Decimals
  import opened Options
  import opened CountryTable
  import opened CountryCsv

  /** The number a field begins with, if it fits 32 bits. */
  function Number(s: string): Option<Word> {
    if s != "" && IsDigit(s[0]) && Leading(s, 0) < 0x1_0000_0000 then Some(Leading(s, 0)) else None
  }

  function Or(number: Option<Word>, other: Word): Word {
    match number case Some(v) => v case None => other
  }

  lemma FromCharsIs(s: string, old_: Word)
    ensures FromChars(s, old_) == Or(Number(s), old_)
  {
  }

  /** What a vector element held before the load; the vectors grow by zeros. */
  function Old(v: seq<Word>, i: nat): Word {
    if i < |v| then v[i] else 0
  }

  // ---------- what a line says ----------

  /** The fields closed in a line. */
  function FieldsIn(line: string): (fs: seq<string>)
    ensures |fs| <= 5
  {
    if IsRow(line) then SplitFields(line[1..], 0) else []
  }

  /** The first or the second number of a line. */
  function NumberIn(line: string, second: bool): Option<Word> {
    var fs, d := FieldsIn(line), if second then 1 else 0;
    if d < |fs| then Number(fs[d]) else None
  }

  /** The country of a line; only a line that has one is accepted. */
  function CountryIn(codes: seq<string>, line: string): Option<nat>
    requires Codes(codes)
  {
    if |FieldsIn(line)| == 5 then CodeIndex(codes, FieldsIn(line)[4], 0) else None
  }

  // ---------- the condition ----------

  /** The number that the lines rejected since the last accepted one have left for the next one. */
  function Pending(codes: seq<string>, lines: seq<string>, second: bool): Option<Word>
    requires Codes(codes)
    decreases |lines|
  {
    if lines == [] then None
    else
      var front, last := Pending(codes, lines[..|lines| - 1], second), lines[|lines| - 1];
      if CountryIn(codes, last).Some? then None
      else if NumberIn(last, second).Some? then NumberIn(last, second)
      else front
  }

  /** Both numbers of every accepted line parse, or a line rejected since the last accepted one left one. */
  predicate AllKnown(codes: seq<string>, lines: seq<string>)
    requires Codes(codes)
    decreases |lines|
  {
    lines == [] ||
    var front, last := lines[..|lines| - 1], lines[|lines| - 1];
    AllKnown(codes, front) &&
    (CountryIn(codes, last).Some? ==>
      (NumberIn(last, false).Some? || Pending(codes, front, false).Some?) &&
      (NumberIn(last, true).Some? || Pending(codes, front, true).Some?))
  }

  // ---------- what a load shows ----------

  /** A number of the row being filled. */
  function Filled(codes: seq<string>, v: seq<Word>, front: seq<string>, line: string, second: bool, k: nat): Word
    requires Codes(codes)
  {
    Or(NumberIn(line, second), Or(Pending(codes, front, second), Old(v, k)))
  }

  function AsByte(i: nat): Byte {
    if i < 256 then i else 0
  }

  /** The rows visible after a load into an emptied table. */
  function Shown(codes: seq<string>, t: Table, lines: seq<string>): (rows: seq<Range>)
    requires Codes(codes)
    ensures |rows| <= |lines|
    decreases |lines|
  {
    if lines == [] then []
    else
      var front, last := lines[..|lines| - 1], lines[|lines| - 1];
      var rows := Shown(codes, t, front);
      match CountryIn(codes, last)
      case None => rows
      case Some(i) => rows + [Range(Filled(codes, t.from, front, last, false, |rows|),
                                    Filled(codes, t.to, front, last, true, |rows|), AsByte(i))]
  }

  // ---------- the effect of a line ----------

  /** Element k of a vector after a field of the line was read into it. */
  function Read(v: seq<Word>, k: nat, number: Option<Word>): (r: seq<Word>)
    requires k < |v|
    ensures |r| == |v|
  {
    v[k := Or(number, v[k])]
  }

  /** What a line leaves. */
  function Taken(codes: seq<string>, t: Table, line: string): (r: Table)
    requires Codes(codes) && t.Valid() && t.count < |t.from|
    ensures r.Valid()
  {
    var from, to := Read(t.from, t.count, NumberIn(line, false)), Read(t.to, t.count, NumberIn(line, true));
    match CountryIn(codes, line)
    case None => Table(from, to, t.ci, t.count)
    case Some(i) => Table(from, to, t.ci[t.count := AsByte(i)], t.count + 1)
  }

  /** The third and the fourth field are skipped, and fields that are not closed do nothing. */
  lemma FieldsPut(codes: seq<string>, t: Table, fs: seq<string>)
    requires Codes(codes) && t.Valid() && t.count < |t.from| && |fs| <= 5
    ensures var t1 := if |fs| > 0 then PutField(codes, t, 0, fs[0]) else t;
            var t2 := if |fs| > 1 then PutField(codes, t1, 1, fs[1]) else t1;
            PutAll(codes, t, 0, fs) == if |fs| == 5 then PutField(codes, t2, 4, fs[4]) else t2
  {
    if |fs| > 1 {
      var t2 := PutField(codes, PutField(codes, t, 0, fs[0]), 1, fs[1]);
      TwoFieldsPut(codes, t, fs);
      LastFieldsPut(codes, t2, fs[1..][1..]);
    } else if |fs| == 1 {
      assert fs[1..] == [];
    }
  }

  lemma TwoFieldsPut(codes: seq<string>, t: Table, fs: seq<string>)
    requires Codes(codes) && t.Valid() && t.count < |t.from| && 2 <= |fs| <= 5
    ensures PutAll(codes, t, 0, fs) == PutAll(codes, PutField(codes, PutField(codes, t, 0, fs[0]), 1, fs[1]), 2, fs[1..][1..])
  {
    assert fs[1..][0] == fs[1];
  }

  lemma LastFieldsPut(codes: seq<string>, t: Table, fs: seq<string>)
    requires Codes(codes) && t.Valid() && t.count < |t.from| && |fs| <= 3
    ensures PutAll(codes, t, 2, fs) == if |fs| == 3 then PutField(codes, t, 4, fs[2]) else t
  {
    if |fs| > 0 {
      assert PutAll(codes, t, 2, fs) == PutAll(codes, t, 3, fs[1..]);
      if |fs| > 1 {
        assert PutAll(codes, t, 3, fs[1..]) == PutAll(codes, t, 4, fs[1..][1..]);
      }
    }
  }

  lemma NumberPut(codes: seq<string>, t: Table, line: string, second: bool)
    requires Codes(codes) && t.Valid() && t.count < |t.from|
    ensures var fs, d := FieldsIn(line), if second then 1 else 0;
            var r := if d < |fs| then PutField(codes, t, d, fs[d]) else t;
            r == if second then t.(to := Read(t.to, t.count, NumberIn(line, second)))
                 else t.(from := Read(t.from, t.count, NumberIn(line, second)))
  {
    var fs, d := FieldsIn(line), if second then 1 else 0;
    if d < |fs| {
      FromCharsIs(fs[d], if second then t.to[t.count] else t.from[t.count]);
    }
  }

  /** The table a row is put into. */
  function Roomy(r: Table): (g: Table)
    requires r.Valid()
    ensures g.Valid() && g.count < |g.from|
  {
    if r.count == |r.from| then Grown(r, GROWTH) else r
  }

  lemma RowIsTaken(codes: seq<string>, t: Table, line: string)
    requires Codes(codes) && t.Valid() && t.count < |t.from|
    ensures PutAll(codes, t, 0, FieldsIn(line)) == Taken(codes, t, line)
  {
    var fs := FieldsIn(line);
    FieldsPut(codes, t, fs);
    NumberPut(codes, t, line, false);
    var t1 := t.(from := Read(t.from, t.count, NumberIn(line, false)));
    NumberPut(codes, t1, line, true);
    if |fs| == 5 {
      CodeIndexBound(codes, fs[4], 0);
    }
  }

  lemma NoRow(codes: seq<string>, line: string)
    requires Codes(codes) && !IsRow(line)
    ensures NumberIn(line, false) == None && NumberIn(line, true) == None && CountryIn(codes, line) == None
  {
  }

  // ---------- the vectors while they are filled ----------

  /** Vector v while it is filled: past the row being filled it is as it was, in that row is what rejected
      lines have left. */
  ghost predicate Beyond(v: seq<Word>, old_: seq<Word>, k: nat, pending: Option<Word>) {
    |v| >= |old_| && k <= |v| && (k == |v| ==> pending == None) &&
    (k < |v| ==> v[k] == Or(pending, Old(old_, k))) && forall i :: k < i < |v| ==> v[i] == Old(old_, i)
  }

  ghost predicate Follows(codes: seq<string>, t: Table, lines: seq<string>, r: Table)
    requires Codes(codes)
  {
    r.Valid() && Visible(r) == Shown(codes, t, lines) && |r.from| >= |t.from| && |r.to| >= |t.to| &&
    Beyond(r.from, t.from, r.count, Pending(codes, lines, false)) &&
    Beyond(r.to, t.to, r.count, Pending(codes, lines, true))
  }

  lemma BeyondGrows(v: seq<Word>, old_: seq<Word>, k: nat, pending: Option<Word>, n: nat)
    requires Beyond(v, old_, k, pending)
    ensures Beyond(Grow(v, n, 0), old_, k, pending)
  {
    var g := Grow(v, n, 0);
    assert forall i :: 0 <= i < |v| ==> g[i] == v[i];
    assert forall i :: |v| <= i < |g| ==> g[i] == 0;
  }

  lemma BeyondStays(v: seq<Word>, old_: seq<Word>, k: nat, pending: Option<Word>, number: Option<Word>)
    requires Beyond(v, old_, k, pending) && k < |v|
    ensures var w := Read(v, k, number);
            && w[k] == Or(number, Or(pending, Old(old_, k)))
            && Beyond(w, old_, k, if number.Some? then number else pending) && Beyond(w, old_, k + 1, None)
  {
  }

  lemma GrownFollows(codes: seq<string>, t: Table, lines: seq<string>, r: Table)
    requires Codes(codes) && Follows(codes, t, lines, r)
    ensures Follows(codes, t, lines, Grown(r, GROWTH))
  {
    BeyondGrows(r.from, t.from, r.count, Pending(codes, lines, false), GROWTH);
    BeyondGrows(r.to, t.to, r.count, Pending(codes, lines, true), GROWTH);
  }

  lemma RowsShow(t: Table, r: Table)
    requires t.Valid() && r.Valid() && t.count <= r.count <= t.count + 1
    requires forall i :: 0 <= i < t.count ==> r.from[i] == t.from[i] && r.to[i] == t.to[i] && r.ci[i] == t.ci[i]
    ensures Visible(r) == Visible(t) +
            if r.count == t.count then [] else [Range(r.from[t.count], r.to[t.count], r.ci[t.count])]
  {
  }

  lemma TakenShows(codes: seq<string>, t: Table, line: string)
    requires Codes(codes) && t.Valid() && t.count < |t.from|
    ensures var r := Taken(codes, t, line);
            Visible(r) == Visible(t) +
            match CountryIn(codes, line)
            case None => []
            case Some(i) => [Range(r.from[t.count], r.to[t.count], AsByte(i))]
  {
    RowsShow(t, Taken(codes, t, line));
  }

  /** The specification, one line further. */
  lemma OneMore(codes: seq<string>, t: Table, lines: seq<string>, line: string)
    requires Codes(codes)
    ensures var all, rows := lines + [line], Shown(codes, t, lines);
            && Shown(codes, t, all) == rows +
               (match CountryIn(codes, line)
                case None => []
                case Some(i) => [Range(Filled(codes, t.from, lines, line, false, |rows|),
                                       Filled(codes, t.to, lines, line, true, |rows|), AsByte(i))])
            && forall second :: Pending(codes, all, second) ==
                 if CountryIn(codes, line).Some? then None
                 else if NumberIn(line, second).Some? then NumberIn(line, second) else Pending(codes, lines, second)
  {
    var all := lines + [line];
    assert all[..|lines|] == lines && all[|lines|] == line;
  }

  lemma TakenFollows(codes: seq<string>, t: Table, lines: seq<string>, line: string, r: Table)
    requires Codes(codes) && Follows(codes, t, lines, r) && r.count < |r.from|
    ensures Follows(codes, t, lines + [line], Taken(codes, r, line))
  {
    OneMore(codes, t, lines, line);
    TakenShows(codes, r, line);
    BeyondStays(r.from, t.from, r.count, Pending(codes, lines, false), NumberIn(line, false));
    BeyondStays(r.to, t.to, r.count, Pending(codes, lines, true), NumberIn(line, true));
  }

  lemma LineFollows(codes: seq<string>, t: Table, lines: seq<string>, line: string, r: Table)
    requires Codes(codes) && Follows(codes, t, lines, r)
    ensures Follows(codes, t, lines + [line], PutLine(codes, r, line))
  {
    if IsRow(line) {
      RowIsTaken(codes, Roomy(r), line);
      GrownFollows(codes, t, lines, r);
      TakenFollows(codes, t, lines, line, Roomy(r));
    } else {
      NoRow(codes, line);
      OneMore(codes, t, lines, line);
    }
  }

  lemma NextFollows(codes: seq<string>, t: Table, lines: seq<string>, front: seq<string>, line: string, r: Table)
    requires Codes(codes) && lines == front + [line] && Follows(codes, t, front, r)
    ensures Follows(codes, t, lines, PutLine(codes, r, line))
  {
    LineFollows(codes, t, front, line, r);
  }

  lemma {:induction false} LinesFollow(codes: seq<string>, t: Table, lines: seq<string>, start: Table)
    requires Codes(codes) && Follows(codes, t, [], start)
    ensures Follows(codes, t, lines, PutLines(codes, start, lines))
    decreases |lines|
  {
    if lines != [] {
      var front, line := lines[..|lines| - 1], lines[|lines| - 1];
      LinesFollow(codes, t, front, start);
      NextFollows(codes, t, lines, front, line, PutLines(codes, start, front));
    }
  }

  /** The rows visible after loading any file into an emptied table, whatever its vectors still hold. */
  lemma LoadShows(codes: seq<string>, t: Table, lines: seq<string>)
    requires Codes(codes) && t.Valid() && t.count == 0
    ensures Visible(Loaded(codes, t, lines)) == Shown(codes, t, lines)
  {
    var start := if t.from == [] then Grown(t, FIRST_SIZE) else t;
    BeyondGrows(t.from, t.from, 0, None, FIRST_SIZE);
    BeyondGrows(t.to, t.to, 0, None, FIRST_SIZE);
    LinesFollow(codes, t, lines, start);
  }

  // ---------- what of the old table shows ----------

  lemma {:induction false} KnownIsNew(codes: seq<string>, t: Table, u: Table, lines: seq<string>)
    requires Codes(codes) && AllKnown(codes, lines)
    ensures Shown(codes, t, lines) == Shown(codes, u, lines)
    decreases |lines|
  {
    if lines != [] {
      KnownIsNew(codes, t, u, lines[..|lines| - 1]);
    }
  }

  /** n used-up rows of one number. */
  function Filler(n: nat, v: Word): (t: Table)
    ensures t.Valid() && |t.from| == n && t.count == 0
  {
    Table(seq(n, _ => v), seq(n, _ => v), seq(n, _ => 0), 0)
  }

  lemma {:induction false} UnknownIsOld(codes: seq<string>, lines: seq<string>, n: nat)
    requires Codes(codes) && !AllKnown(codes, lines) && n >= |lines|
    ensures Shown(codes, Filler(n, 0), lines) != Shown(codes, Filler(n, 1), lines)
    decreases |lines|
  {
    var front, last := lines[..|lines| - 1], lines[|lines| - 1];
    var a, b := Shown(codes, Filler(n, 0), lines), Shown(codes, Filler(n, 1), lines);
    SameLength(codes, Filler(n, 0), Filler(n, 1), front);
    var k := |Shown(codes, Filler(n, 0), front)|;
    if !AllKnown(codes, front) {
      UnknownIsOld(codes, front, n);
      assert a[..k] == Shown(codes, Filler(n, 0), front) && b[..k] == Shown(codes, Filler(n, 1), front);
    } else {
      assert a[k] != b[k];
    }
  }

  lemma {:induction false} SameLength(codes: seq<string>, t: Table, u: Table, lines: seq<string>)
    requires Codes(codes)
    ensures |Shown(codes, t, lines)| == |Shown(codes, u, lines)|
    decreases |lines|
  {
    if lines != [] {
      SameLength(codes, t, u, lines[..|lines| - 1]);
    }
  }

  ghost predicate LoadsAlike(codes: seq<string>, t: Table, u: Table, lines: seq<string>)
    requires Codes(codes) && t.Valid() && u.Valid()
  {
    Visible(Loaded(codes, t, lines)) == Visible(Loaded(codes, u, lines))
  }

  /** A load of any file from count zero shows nothing of what the table held before if and only if both
      numbers of every accepted line parse or were left by a line rejected since the last accepted one. */
  lemma ReloadIsNewExactly(codes: seq<string>, lines: seq<string>)
    requires Codes(codes)
    ensures (forall t: Table, u: Table :: t.Valid() && u.Valid() && t.count == u.count == 0 ==> LoadsAlike(codes, t, u, lines)) <==>
            AllKnown(codes, lines)
  {
    forall t: Table, u: Table | t.Valid() && u.Valid() && t.count == u.count == 0 && AllKnown(codes, lines)
      ensures LoadsAlike(codes, t, u, lines)
    {
      LoadShows(codes, t, lines);
      LoadShows(codes, u, lines);
      KnownIsNew(codes, t, u, lines);
    }
    if !AllKnown(codes, lines) {
      var t, u := Filler(|lines|, 0), Filler(|lines|, 1);
      LoadShows(codes, t, lines);
      LoadShows(codes, u, lines);
      UnknownIsOld(codes, lines, |lines|);
      assert !LoadsAlike(codes, t, u, lines);
    }
  }

  lemma RowSays(codes: seq<string>, row: CsvRow)
    requires Codes(codes) && QuoteFree(row)
    ensures var line := PrintRow(row);
            NumberIn(line, false) == Number(row.from) && NumberIn(line, true) == Number(row.to) &&
            CountryIn(codes, line) == CodeIndex(codes, row.code, 0)
  {
    PrintedRow(row);
  }

  lemma FirstRejected(codes: seq<string>, t: Table, first: string)
    requires Codes(codes) && CountryIn(codes, first).None?
    ensures Shown(codes, t, [first]) == [] && Pending(codes, [first], false) == NumberIn(first, false)
  {
    OneMore(codes, t, [], first);
    assert [] + [first] == [first];
  }

  lemma TwoLinesShow(codes: seq<string>, t: Table, first: string, second: string)
    requires Codes(codes) && CountryIn(codes, first).None? && CountryIn(codes, second).Some?
    ensures var shown := Shown(codes, t, [first, second]);
            |shown| == 1 && shown[0].from == Or(NumberIn(second, false), Or(NumberIn(first, false), Old(t.from, 0)))
  {
    FirstRejected(codes, t, first);
    OneMore(codes, t, [first], second);
    assert [first] + [second] == [first, second];
  }

  /** A number left behind need not come from an old table: a rejected row leaves its start to an accepted
      one that has none. */
  lemma RejectedStartShows(codes: seq<string>, t: Table, a: CsvRow, b: CsvRow)
    requires Codes(codes) && t.Valid() && t.count == 0 && QuoteFree(a) && QuoteFree(b)
    requires CodeIndex(codes, a.code, 0).None? && Number(a.from).Some?
    requires CodeIndex(codes, b.code, 0).Some? && b.from == ""
    ensures var shown := Visible(Loaded(codes, t, [PrintRow(a), PrintRow(b)]));
            |shown| == 1 && shown[0].from == Number(a.from).value
  {
    var first, second := PrintRow(a), PrintRow(b);
    LoadShows(codes, t, [first, second]);
    RowSays(codes, a);
    RowSays(codes, b);
    TwoLinesShow(codes, t, first, second);
  }
}

/** The country index as the hub keeps it: vectors that are reloaded from a file, and two lookups over
    them (IpP2Country, core/IP2Country.h and core/IP2Country.cpp). */
module IpToCountry {
  import opened Options
  import opened CountryTable
  import opened CountryCsv

  /** IPv6 ranges: 16 bytes per row and vector. */
  datatype FlatTable = FlatTable(from: seq<Byte>, to: seq<Byte>, ci: seq<Byte>, count: nat) {
    ghost predicate Valid() {
      |from| == |to| == 16 * |ci| && count <= |ci|
    }
  }

  /** The country of an address, by binary search. */
  function Lookup(t: Table, f: FlatTable, a: Address, useIPv6: bool): Byte
    requires t.Valid() && f.Valid()
  {
    match Classify(a, useIPv6)
    case V4(ip) => CountryAt(Search(t.from, t.to, t.count, ip), t.ci)
    case V6(b) => CountryAt(Search(Keys(f.from, f.count), Keys(f.to, f.count), f.count, BigEndian(b)), f.ci)
  }

  /** The country of an address, by the linear scan. */
  function Linear(t: Table, f: FlatTable, a: Address, useIPv6: bool): Byte
    requires t.Valid() && f.Valid()
  {
    match Classify(a, useIPv6)
    case V4(ip) => CountryAt(Scan(t.from, t.to, t.count, ip, 0), t.ci)
    case V6(b) => CountryAt(Scan(Keys(f.from, f.count), Keys(f.to, f.count), f.count, BigEndian(b), 0), f.ci)
  }

  /** Both tables are sorted, and overlapping rows, if any, do not show. */
  ghost predicate Ordered(t: Table, f: FlatTable)
    requires t.Valid() && f.Valid()
  {
    var from, to := Keys(f.from, f.count), Keys(f.to, f.count);
    Sorted(t.from, t.count) && AllHarmless(t.from, t.to, t.ci, t.count) &&
    Sorted(from, f.count) && AllHarmless(from, to, f.ci, f.count)
  }

  /** On such tables the binary search finds the country the linear scan finds, for every address: IPv4,
      IPv4 inside IPv6, tunnelled, and native IPv6. */
  lemma LookupIsLinear(t: Table, f: FlatTable, a: Address, useIPv6: bool)
    requires t.Valid() && f.Valid() && Ordered(t, f)
    ensures Lookup(t, f, a, useIPv6) == Linear(t, f, a, useIPv6)
  {
    match Classify(a, useIPv6) {
      case V4(ip) => HarmlessAgrees(t.from, t.to, t.ci, t.count, ip);
      case V6(b) => HarmlessAgrees(Keys(f.from, f.count), Keys(f.to, f.count), f.ci, f.count, BigEndian(b));
    }
  }

  /** The country of the row that holds a key, if one does. */
  ghost predicate OfItsRow(from: seq<nat>, to: seq<nat>, ci: seq<Byte>, n: nat, x: nat, country: Byte)
    requires Parallel(from, to, n) && n <= |ci|
  {
    (forall i :: 0 <= i < n && from[i] <= x <= to[i] ==> country == ci[i]) &&
    ((forall i :: 0 <= i < n ==> !(from[i] <= x <= to[i])) ==> country == UNKNOWN)
  }

  lemma OneRowHolds(from: seq<nat>, to: seq<nat>, n: nat, x: nat, i: nat, j: nat)
    requires Parallel(from, to, n) && Disjoint(from, to, n)
    requires i < n && from[i] <= x <= to[i] && j < n && from[j] <= x <= to[j]
    ensures i == j
  {
  }

  lemma OneRowScanned(from: seq<nat>, to: seq<nat>, ci: seq<Byte>, n: nat, x: nat)
    requires Parallel(from, to, n) && n <= |ci| && Disjoint(from, to, n)
    ensures OfItsRow(from, to, ci, n, x, CountryAt(Scan(from, to, n, x, 0), ci))
  {
    var h := Scan(from, to, n, x, 0);
    if h.At? {
      forall i | 0 <= i < n && from[i] <= x <= to[i]
        ensures i == h.index
      {
        OneRowHolds(from, to, n, x, i, h.index);
      }
    }
  }

  /** Sorted tables without overlaps. */
  ghost predicate OrderedDisjoint(t: Table, f: FlatTable)
    requires t.Valid() && f.Valid()
  {
    var from, to := Keys(f.from, f.count), Keys(f.to, f.count);
    Sorted(t.from, t.count) && Disjoint(t.from, t.to, t.count) && Sorted(from, f.count) && Disjoint(from, to, f.count)
  }

  /** On them every address is found in the one row that holds it, and nowhere if there is none. */
  lemma LookupFindsRow(t: Table, f: FlatTable, a: Address, useIPv6: bool)
    requires t.Valid() && f.Valid() && OrderedDisjoint(t, f)
    ensures match Classify(a, useIPv6)
            case V4(ip) => OfItsRow(t.from, t.to, t.ci, t.count, ip, Lookup(t, f, a, useIPv6))
            case V6(b) => OfItsRow(Keys(f.from, f.count), Keys(f.to, f.count), f.ci, f.count, BigEndian(b), Lookup(t, f, a, useIPv6))
  {
    var from, to := Keys(f.from, f.count), Keys(f.to, f.count);
    DisjointIsHarmless(t.from, t.to, t.ci, t.count);
    DisjointIsHarmless(from, to, f.ci, f.count);
    LookupIsLinear(t, f, a, useIPv6);
    match Classify(a, useIPv6) {
      case V4(ip) => OneRowScanned(t.from, t.to, t.ci, t.count, ip);
      case V6(b) => OneRowScanned(from, to, f.ci, f.count, BigEndian(b));
    }
  }

  /** Country codes and the two lists of country names. */
  datatype Names = Names(codes: seq<string>, english: seq<string>, russian: seq<string>, inRussian: bool) {
    ghost predicate Valid() {
      Codes(codes) && |english| == |codes| && |russian| == |codes|
    }

    /** The name in the configured language. */
    function Translate(i: Byte): string
      requires |english| == |russian| == UNKNOWN + 1
    {
      if i <= UNKNOWN then (if inRussian then russian[i] else english[i]) else "Error country index"
    }
  }

  /** `std::upper_bound` over the used part of the starts. */
  method UpperBound(from: seq<nat>, count: nat, ip: nat) returns (k: nat)
    requires count <= |from|
    ensures k == Bisect(from, 0, count, ip)
  {
    var lo, hi := 0, count;
    while lo < hi
      invariant 0 <= lo <= hi <= count && Bisect(from, lo, hi, ip) == Bisect(from, 0, count, ip)
    {
      var mid := lo + (hi - lo) / 2;
      if from[mid] <= ip {
        lo := mid + 1;
      } else {
        hi := mid;
      }
    }
    k := lo;
  }

  /** `memcmp` of a row with an address, as numbers. */
  method CompareRow(flat: seq<Byte>, i: nat, a: Address) returns (sign: int)
    requires (i + 1) * 16 <= |flat|
    ensures sign <= 0 <==> BigEndian(Row(flat, i)) <= BigEndian(a)
    ensures sign >= 0 <==> BigEndian(Row(flat, i)) >= BigEndian(a)
  {
    MemCmpOrder(Row(flat, i), a);
    sign := MemCmp(Row(flat, i), a);
  }

  /** Whether a range reaches as far as an address. */
  method RowReaches(to: seq<Byte>, count: nat, i: nat, a: Address) returns (fits: bool)
    requires count * 16 <= |to| && i < count
    ensures fits <==> Keys(to, count)[i] >= BigEndian(a)
  {
    var sign := CompareRow(to, i, a);
    assert Keys(to, count)[i] == BigEndian(Row(to, i));
    fits := sign >= 0;
  }

  /** The same search over 16-byte rows. */
  method UpperBound6(from: seq<Byte>, count: nat, a: Address) returns (k: nat)
    requires count * 16 <= |from|
    ensures k == Bisect(Keys(from, count), 0, count, BigEndian(a))
  {
    ghost var keys, x := Keys(from, count), BigEndian(a);
    var lo, hi := 0, count;
    while lo < hi
      invariant 0 <= lo <= hi <= count && Bisect(keys, lo, hi, x) == Bisect(keys, 0, count, x)
    {
      var mid := lo + (hi - lo) / 2;
      assert (mid + 1) * 16 <= |from|;
      var sign := CompareRow(from, mid, a);
      assert sign <= 0 <==> keys[mid] <= x;
      if sign <= 0 {
        lo := mid + 1;
      } else {
        hi := mid;
      }
    }
    k := lo;
  }

  lemma SearchEnds(from: seq<nat>, to: seq<nat>, n: nat, x: nat, k: nat)
    requires Parallel(from, to, n) && k == Bisect(from, 0, n, x)
    ensures Search(from, to, n, x) == if k > 0 && to[k - 1] >= x then At(k - 1) else Miss
  {
  }

  /** The binary search over 16-byte rows. */
  method SearchFlat(f: FlatTable, a: Address) returns (h: Hit)
    requires f.Valid()
    ensures h == Search(Keys(f.from, f.count), Keys(f.to, f.count), f.count, BigEndian(a))
  {
    var k := UpperBound6(f.from, f.count, a);
    SearchEnds(Keys(f.from, f.count), Keys(f.to, f.count), f.count, BigEndian(a), k);
    h := Miss;
    if k > 0 {
      var fits := RowReaches(f.to, f.count, k - 1, a);
      if fits {
        h := At(k - 1);
      }
    }
  }

  /** All country indexes in use are those of known countries. */
  ghost predicate Known(ci: seq<Byte>, count: nat) {
    count <= |ci| && forall i :: 0 <= i < count ==> ci[i] <= UNKNOWN
  }

  class IpP2Country {
    const names: Names
    const useIPv6: bool
    var rangeFrom: seq<Word>
    var rangeTo: seq<Word>
    var rangeCI: seq<Byte>
    var count: nat
    var flat: FlatTable

    ghost predicate Valid()
      reads this
    {
      names.Valid() && State().Valid() && flat.Valid() && Known(rangeCI, count) && Known(flat.ci, flat.count)
    }

    ghost function State(): Table
      reads this
    {
      Table(rangeFrom, rangeTo, rangeCI, count)
    }

    constructor (names: Names, useIPv6: bool, flat: FlatTable)
      requires names.Valid() && flat.Valid() && Known(flat.ci, flat.count)
      ensures Valid() && this.names == names && this.useIPv6 == useIPv6 && this.flat == flat && count == 0
    {
      this.names, this.useIPv6, this.flat := names, useIPv6, flat;
      rangeFrom, rangeTo, rangeCI, count := [], [], [], 0;
    }

    // ---------- lookups ----------

    /** Which key an address is looked up by. */
    method Decode(a: Address) returns (target: Target)
      ensures target == Classify(a, useIPv6)
    {
      var bIPv4, ip := false, 0;
      if !useIPv6 || IsV4Mapped(a) {
        bIPv4, ip := true, Combine(a[12], a[13], a[14], a[15]);
      }
      if !bIPv4 {
        if a[0] == 32 && a[1] == 2 {
          bIPv4, ip := true, Combine(a[2], a[3], a[4], a[5]);
        } else if a[0] == 32 && a[1] == 1 && a[2] == 0 && a[3] == 0 {
          bIPv4, ip := true, Flip(Combine(a[12], a[13], a[14], a[15]));
        }
      }
      target := if bIPv4 then V4(ip) else V6(a);
    }

    method Search4(ip: Word) returns (h: Hit)
      requires State().Valid()
      ensures h == Search(rangeFrom, rangeTo, count, ip)
    {
      var k := UpperBound(rangeFrom, count, ip);
      if k != 0 && rangeTo[k - 1] >= ip {
        return At(k - 1);
      }
      return Miss;
    }

    method Search6(a: Address) returns (h: Hit)
      requires flat.Valid()
      ensures h == Search(Keys(flat.from, flat.count), Keys(flat.to, flat.count), flat.count, BigEndian(a))
    {
      h := SearchFlat(flat, a);
    }

    /** The overload that returns a country index. */
    method Find(a: Address) returns (country: Byte)
      requires Valid()
      ensures country == Lookup(State(), flat, a, useIPv6)
    {
      var target := Decode(a);
      match target {
        case V4(ip) =>
          var h := Search4(ip);
          if h.At? {
            return rangeCI[h.index];
          }
        case V6(b) =>
          var h := Search6(b);
          if h.At? {
            return flat.ci[h.index];
          }
      }
      return UNKNOWN;
    }

    /** Whether an address is found in the IPv6 table. */
    ghost predicate HitsIPv6(a: Address)
      requires flat.Valid()
      reads this
    {
      Classify(a, useIPv6).V6? &&
      Search(Keys(flat.from, flat.count), Keys(flat.to, flat.count), flat.count, BigEndian(a)).At?
    }

    /** The overload that returns a code or a name.  A name found in the IPv6 table is always English. */
    method FindName(a: Address, bCountryName: bool) returns (text: string)
      requires Valid()
      ensures var country := Lookup(State(), flat, a, useIPv6);
              country <= UNKNOWN &&
              text == if !bCountryName then names.codes[country]
                      else if names.inRussian && !HitsIPv6(a) then names.russian[country]
                      else names.english[country]
    {
      var target := Decode(a);
      match target {
        case V4(ip) =>
          var h := Search4(ip);
          if h.At? {
            if !bCountryName {
              return names.codes[rangeCI[h.index]];
            }
            return names.Translate(rangeCI[h.index]);
          }
        case V6(b) =>
          var h := Search6(b);
          if h.At? {
            if !bCountryName {
              return names.codes[flat.ci[h.index]];
            }
            return names.english[flat.ci[h.index]];
          }
      }
      if !bCountryName {
        return names.codes[UNKNOWN];
      }
      return names.Translate(UNKNOWN);
    }

    /** The benchmark's reference: the first range that contains the address. */
    method FindLinear(ip: Word) returns (country: Byte)
      requires Valid()
      ensures country == CountryAt(Scan(rangeFrom, rangeTo, count, ip, 0), rangeCI)
    {
      for i := 0 to count
        invariant Scan(rangeFrom, rangeTo, count, ip, i) == Scan(rangeFrom, rangeTo, count, ip, 0)
      {
        if rangeFrom[i] <= ip && rangeTo[i] >= ip {
          return rangeCI[i];
        }
      }
      return UNKNOWN;
    }

    // ---------- loading ----------

    method MatchCode(field: string) returns (index: Option<nat>)
      requires names.Valid()
      ensures index == CodeIndex(names.codes, field, 0)
    {
      for i := 0 to |names.codes| - 1
        invariant CodeIndex(names.codes, field, i) == CodeIndex(names.codes, field, 0)
      {
        if |field| >= 2 && field[..2] == names.codes[i] {
          return Some(i);
        }
      }
      return None;
    }

    /** One closed field of the row being filled. */
    method PutOne(d: nat, field: string)
      requires Valid() && count < |rangeFrom|
      modifies this`rangeFrom, this`rangeTo, this`rangeCI, this`count
      ensures Valid() && State() == PutField(names.codes, old(State()), d, field)
    {
      if d == 0 {
        rangeFrom := rangeFrom[count := FromChars(field, rangeFrom[count])];
      } else if d == 1 {
        rangeTo := rangeTo[count := FromChars(field, rangeTo[count])];
      } else if d == 4 {
        var index := MatchCode(field);
        CodeIndexBound(names.codes, field, 0);
        if index.Some? {
          rangeCI := rangeCI[count := index.value];
          count := count + 1;
        }
      }
    }

    /** The first of the fields to come. */
    method CloseField(field: string, d: nat, ghost later: seq<string>, ghost goal: Table)
      requires Valid() && count < |rangeFrom| && d <= 4 && (if d == 4 then later == [] else d + |later| < 5)
      requires PutAll(names.codes, State(), d, [field] + later) == goal
      modifies this`rangeFrom, this`rangeTo, this`rangeCI, this`count
      ensures Valid() && (d < 4 ==> count < |rangeFrom|) && PutAll(names.codes, State(), d + 1, later) == goal
    {
      assert ([field] + later)[1..] == later;
      PutOne(d, field);
    }

    /** A closing quote: the field before it is stored and the next one starts three characters later. */
    method CloseQuote(text: string, start: nat, szi: nat, d: nat, ghost rests: Rests, ghost goal: Table)
      requires Valid() && count < |rangeFrom| && d <= 4 && AreRests(rests, text)
      requires Owed(rests(start, d), d) && PutAll(names.codes, State(), d, rests(start, d)) == goal
      requires start <= szi < |text| && text[szi] == '"' && forall j :: start <= j < szi ==> text[j] != '"'
      modifies this`rangeFrom, this`rangeTo, this`rangeCI, this`count
      ensures Valid() && (d < 4 ==> count < |rangeFrom|)
      ensures Owed(rests(szi + 3, d + 1), d + 1) && PutAll(names.codes, State(), d + 1, rests(szi + 3, d + 1)) == goal
    {
      RestSplits(text, start, szi, d);
      CloseField(text[start..szi], d, rests(szi + 3, d + 1), goal);
    }

    /** The same on the line as it is split: the quote becomes a NUL. */
    method AtQuote(text: string, line: string, start: nat, szi: nat, d: nat, ghost rests: Rests, ghost goal: Table)
      returns (rest: string, next: nat)
      requires Valid() && count < |rangeFrom| && d <= 4 && AreRests(rests, text)
      requires Owed(rests(start, d), d) && PutAll(names.codes, State(), d, rests(start, d)) == goal
      requires Scanned(text, line, start, szi) && szi < |line| && line[szi] == '"'
      modifies this`rangeFrom, this`rangeTo, this`rangeCI, this`count
      ensures Valid() && (d < 4 ==> count < |rangeFrom|)
      ensures Owed(rests(next, d + 1), d + 1) && PutAll(names.codes, State(), d + 1, rests(next, d + 1)) == goal
      ensures next == szi + 3 && Scanned(text, rest, next, next)
    {
      ScanClose(text, line, start, szi);
      rest, next := line[szi := '\0'], szi + 3;
      CloseQuote(text, start, szi, d, rests, goal);
    }

    /** One row, split in place: each closing quote becomes a NUL; the fifth field ends it. */
    method ReadRow(text: string)
      requires Valid() && count < |rangeFrom| && text != ""
      modifies this`rangeFrom, this`rangeTo, this`rangeCI, this`count
      ensures Valid() && State() == PutAll(names.codes, old(State()), 0, SplitFields(text[1..], 0))
    {
      ghost var rests := RestsOf(text);
      ghost var goal := PutAll(names.codes, State(), 0, rests(1, 0));
      var line, d: nat, start: nat, szi: nat := text, 0, 1, 1;
      while szi < |line| && d <= 4
        invariant Valid() && (d <= 4 ==> count < |rangeFrom|) && Owed(rests(start, d), d)
        invariant Scanned(text, line, start, szi)
        invariant PutAll(names.codes, State(), d, rests(start, d)) == goal
      {
        if line[szi] != '"' {
          ScanPast(text, line, start, szi);
          szi := szi + 1;
        } else {
          line, start := AtQuote(text, line, start, szi, d, rests, goal);
          d, szi := d + 1, start;
        }
      }
      RestEmpty(text, line, start, szi, d);
    }

    /** Reads a file line by line, growing the vectors by 512 rows whenever they are full. */
    method LoadIPv4(bUseIPv4: bool, file: Option<seq<string>>)
      requires Valid()
      modifies this`rangeFrom, this`rangeTo, this`rangeCI, this`count
      ensures Valid()
      ensures State() == if bUseIPv4 && file.Some? then Loaded(names.codes, old(State()), file.value) else old(State())
    {
      if !bUseIPv4 || file.None? {
        return;
      }
      if rangeFrom == [] {
        Extend(FIRST_SIZE);
      }
      var lines := file.value;
      ghost var t := State();
      for n := 0 to |lines|
        invariant Valid() && State() == PutLines(names.codes, t, lines[..n])
      {
        assert lines[..n + 1][..n] == lines[..n];
        if lines[n] != "" && lines[n][0] == '"' {
          if count == |rangeFrom| {
            Extend(GROWTH);
          }
          ReadRow(lines[n]);
        }
      }
      assert lines[..|lines|] == lines;
      if count < |rangeFrom| {
        rangeFrom, rangeTo, rangeCI := rangeFrom[..count], rangeTo[..count], rangeCI[..count];
      } else {
        assert rangeFrom[..count] == rangeFrom && rangeTo[..count] == rangeTo && rangeCI[..count] == rangeCI;
      }
    }

    /** `resize` of all three vectors. */
    method Extend(n: nat)
      requires Valid()
      modifies this`rangeFrom, this`rangeTo, this`rangeCI
      ensures Valid() && State() == Grown(old(State()), n)
    {
      rangeFrom := Grow(rangeFrom, n, 0);
      rangeTo := Grow(rangeTo, n, 0);
      rangeCI := Grow(rangeCI, n, 0);
      assert forall i :: 0 <= i < count ==> rangeCI[i] == rangeCI[..|old(rangeCI)|][i];
    }

    /** Empties the table and reads the file again; the IPv6 file is not read in this build. */
    method Reload(bUseIPv4: bool, file: Option<seq<string>>)
      requires Valid()
      modifies this
      ensures Valid() && flat.count == 0
      ensures State() == if bUseIPv4 && file.Some? then Loaded(names.codes, old(State()).(count := 0), file.value)
                         else old(State()).(count := 0)
    {
      count := 0;
      LoadIPv4(bUseIPv4, file);
      flat := flat.(count := 0);
    }
  }

  /** Nothing is left to find in line[start..szi], and the rest of the line is as it was read. */
  ghost predicate Scanned(text: string, line: string, start: int, szi: int) {
    |line| == |text| && 1 <= start <= szi && (szi > |text| ==> start == szi) &&
    (forall j :: start <= j < |text| ==> line[j] == text[j]) &&
    (forall j :: start <= j < szi && j < |text| ==> text[j] != '"')
  }

  lemma ScanPast(text: string, line: string, start: nat, szi: nat)
    requires Scanned(text, line, start, szi) && szi < |line| && line[szi] != '"'
    ensures Scanned(text, line, start, szi + 1)
  {
  }

  lemma ScanClose(text: string, line: string, start: nat, szi: nat)
    requires Scanned(text, line, start, szi) && szi < |line| && line[szi] == '"'
    ensures Scanned(text, line[szi := '\0'], szi + 3, szi + 3)
    ensures szi < |text| && text[szi] == '"' && forall j :: start <= j < szi ==> text[j] != '"'
  {
  }

  /** The fields still to come at position start. */
  function Rest(text: string, start: nat, d: nat): (fs: seq<string>)
    ensures d <= 4 ==> d + |fs| <= 5
    ensures d > 4 ==> fs == []
  {
    if start <= |text| && d <= 4 then SplitFields(text[start..], d) else []
  }

  /** The fields still to come at every position. */
  type Rests = (nat, nat) -> seq<string>

  ghost predicate AreRests(rests: Rests, text: string) {
    forall start: nat, d: nat {:trigger Rest(text, start, d)} :: rests(start, d) == Rest(text, start, d)
  }

  /** Fields that fit into a row of which d are stored. */
  predicate Owed(fs: seq<string>, d: nat) {
    fs != [] ==> d + |fs| <= 5
  }

  lemma RestsOf(text: string) returns (rests: Rests)
    requires text != ""
    ensures AreRests(rests, text) && rests(1, 0) == SplitFields(text[1..], 0) && Owed(rests(1, 0), 0)
  {
    rests := (start: nat, d: nat) => Rest(text, start, d);
    assert Rest(text, 1, 0) == SplitFields(text[1..], 0);
  }

  lemma RestSplits(text: string, start: nat, szi: nat, d: nat)
    requires start <= szi < |text| && text[szi] == '"' && d <= 4
    requires forall j :: start <= j < szi ==> text[j] != '"'
    ensures Rest(text, start, d) == [text[start..szi]] + Rest(text, szi + 3, d + 1)
  {
    var s, k := text[start..], szi - start;
    assert s[..k] == text[start..szi];
    assert forall j :: 0 <= j < k ==> s[j] == text[start + j];
    QuoteIs(s, k);
    if d < 4 && szi + 3 <= |text| {
      assert s[k + 3..] == text[szi + 3..];
    }
  }

  lemma QuoteIs(s: string, k: nat)
    requires k < |s| && s[k] == '"' && forall j :: 0 <= j < k ==> s[j] != '"'
    ensures Quote(s) == k
  {
  }

  /** The loop stops only when no field is left. */
  lemma RestEmpty(text: string, line: string, start: nat, szi: nat, d: nat)
    requires Scanned(text, line, start, szi) && (szi >= |line| || d > 4)
    ensures Rest(text, start, d) == []
  {
    if start <= |text| && d <= 4 {
      var s := text[start..];
      assert forall j :: 0 <= j < |s| ==> s[j] == text[start + j];
      assert Quote(s) == |s|;
    }
  }
}

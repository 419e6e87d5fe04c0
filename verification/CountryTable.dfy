/** Address ranges by country: the linear scan, the binary search that replaced it, and the decoding of
    addresses into table keys (core/IP2Country.cpp, benches/bench_hotspots.cpp). */
module CountryTable {

  type Byte = b: int | 0 <= b < 256
  type Word = w: int | 0 <= w < 0x1_0000_0000

  /** The index of "unknown", the last country. */
  const UNKNOWN: Byte := 253

  // ---------- scanning ranges ----------

  datatype Hit = Miss | At(index: nat)

  /** Ranges as parallel sequences of keys; the first n rows are in use. */
  ghost predicate Parallel(from: seq<nat>, to: seq<nat>, n: nat) {
    n <= |from| && n <= |to|
  }

  /** FindLinear: the first range containing x, from row i on. */
  function Scan(from: seq<nat>, to: seq<nat>, n: nat, x: nat, i: nat): (h: Hit)
    requires Parallel(from, to, n) && i <= n
    ensures h.At? ==> i <= h.index < n && from[h.index] <= x <= to[h.index] &&
                      forall j :: i <= j < h.index ==> !(from[j] <= x <= to[j])
    ensures h.Miss? ==> forall j :: i <= j < n ==> !(from[j] <= x <= to[j])
    decreases n - i
  {
    if i == n then Miss
    else if from[i] <= x <= to[i] then At(i)
    else Scan(from, to, n, x, i + 1)
  }

  /** The binary search: the number of leading starts that are at most x. */
  function Bisect(from: seq<nat>, lo: nat, hi: nat, x: nat): (k: nat)
    requires lo <= hi <= |from|
    ensures lo <= k <= hi
    ensures lo < k ==> from[k - 1] <= x
    ensures k < hi ==> x < from[k]
    decreases hi - lo
  {
    if lo == hi then lo
    else
      var mid := lo + (hi - lo) / 2;
      if from[mid] <= x then Bisect(from, mid + 1, hi, x) else Bisect(from, lo, mid, x)
  }

  /** Only the last range that starts at or before x is looked at. */
  function Search(from: seq<nat>, to: seq<nat>, n: nat, x: nat): (h: Hit)
    requires Parallel(from, to, n)
    ensures h.At? ==> h.index < n && from[h.index] <= x <= to[h.index]
  {
    var k := Bisect(from, 0, n, x);
    if k > 0 && to[k - 1] >= x then At(k - 1) else Miss
  }

  ghost predicate Sorted(from: seq<nat>, n: nat)
    requires n <= |from|
  {
    forall i, j :: 0 <= i < j < n ==> from[i] <= from[j]
  }

  /** No range reaches the start of a later one. */
  ghost predicate Disjoint(from: seq<nat>, to: seq<nat>, n: nat)
    requires Parallel(from, to, n)
  {
    forall i, j :: 0 <= i < j < n ==> to[i] < from[j]
  }

  /** In a sorted table the search ends after the last start that is at most x. */
  lemma BisectLast(from: seq<nat>, n: nat, x: nat, j: nat)
    requires n <= |from| && Sorted(from, n) && j < n
    ensures from[j] <= x <==> j < Bisect(from, 0, n, x)
  {
    var k := Bisect(from, 0, n, x);
    if j < k - 1 {
      assert from[j] <= from[k - 1];
    } else if k < j {
      assert from[k] <= from[j];
    }
  }

  lemma SearchIsScan(from: seq<nat>, to: seq<nat>, n: nat, x: nat)
    requires Parallel(from, to, n) && Sorted(from, n) && Disjoint(from, to, n)
    ensures Search(from, to, n, x) == Scan(from, to, n, x, 0)
  {
    var k := Bisect(from, 0, n, x);
    match Scan(from, to, n, x, 0) {
      case Miss =>
      case At(i) =>
        BisectLast(from, n, x, i);
    }
  }

  /** A sorted table is searched as the linear scan would for every key exactly when its ranges are
      disjoint. */
  lemma SearchIsScanExactly(from: seq<nat>, to: seq<nat>, n: nat)
    requires Parallel(from, to, n) && Sorted(from, n)
    ensures (forall x: nat :: Search(from, to, n, x) == Scan(from, to, n, x, 0)) <==> Disjoint(from, to, n)
  {
    if Disjoint(from, to, n) {
      forall x: nat
        ensures Search(from, to, n, x) == Scan(from, to, n, x, 0)
      {
        SearchIsScan(from, to, n, x);
      }
    } else {
      var i, j :| 0 <= i < j < n && from[j] <= to[i];
      var x := from[j];
      BisectLast(from, n, x, j);
      assert from[i] <= x <= to[i];
      var h := Scan(from, to, n, x, 0);
      assert h.At? && h.index <= i;
      assert Search(from, to, n, x) != h;
    }
  }

  // ---------- countries of overlapping ranges ----------

  function CountryAt(h: Hit, ci: seq<Byte>): Byte
    requires h.At? ==> h.index < |ci|
  {
    match h case Miss => UNKNOWN case At(i) => ci[i]
  }

  /** The least key that no row before i reaches. */
  function Reach(to: seq<nat>, i: nat): (r: nat)
    requires i <= |to|
    ensures forall k :: 0 <= k < i ==> to[k] < r
    ensures r > 0 ==> exists k :: 0 <= k < i && r == to[k] + 1
  {
    if i == 0 then 0
    else
      var r := Reach(to, i - 1);
      if r <= to[i - 1] then to[i - 1] + 1 else r
  }

  /** The keys for which the scan stops at row i and the search looks at the later row j: from Low on and
      before Past, none if Low is not before Past. */
  function Low(from: seq<nat>, to: seq<nat>, i: nat, j: nat): nat
    requires i < |to| && j < |from|
  {
    if Reach(to, i) < from[j] then from[j] else Reach(to, i)
  }

  function Past(from: seq<nat>, to: seq<nat>, n: nat, i: nat, j: nat): nat
    requires Parallel(from, to, n) && i < n && j < n
  {
    if j + 1 < n && from[j + 1] <= to[i] then from[j + 1] else to[i] + 1
  }

  /** An overlap of rows i and j that shows in no answer: where row j reaches, both have one country, and
      where only row i does, its country is the unknown one. */
  ghost predicate Harmless(from: seq<nat>, to: seq<nat>, ci: seq<Byte>, n: nat, i: nat, j: nat)
    requires Parallel(from, to, n) && n <= |ci| && i < n && j < n
  {
    var low, past := Low(from, to, i, j), Past(from, to, n, i, j);
    low < past ==> (low <= to[j] ==> ci[i] == ci[j]) && (past > to[j] + 1 ==> ci[i] == UNKNOWN)
  }

  ghost predicate AllHarmless(from: seq<nat>, to: seq<nat>, ci: seq<Byte>, n: nat)
    requires Parallel(from, to, n) && n <= |ci|
  {
    forall i, j :: 0 <= i < j < n ==> Harmless(from, to, ci, n, i, j)
  }

  ghost predicate SameCountry(from: seq<nat>, to: seq<nat>, ci: seq<Byte>, n: nat, x: nat)
    requires Parallel(from, to, n) && n <= |ci|
  {
    CountryAt(Search(from, to, n, x), ci) == CountryAt(Scan(from, to, n, x, 0), ci)
  }

  lemma ReachIs(from: seq<nat>, to: seq<nat>, n: nat, i: nat, x: nat)
    requires Parallel(from, to, n) && Sorted(from, n) && i < n && from[i] <= x
    ensures Reach(to, i) <= x <==> forall r :: 0 <= r < i ==> !(from[r] <= x <= to[r])
  {
    if Reach(to, i) > x {
      var r :| 0 <= r < i && Reach(to, i) == to[r] + 1;
      assert from[r] <= from[i];
    }
  }

  /** The scan stops at i and the search looks at j exactly for the keys from Low on and before Past. */
  lemma Between(from: seq<nat>, to: seq<nat>, n: nat, i: nat, j: nat, x: nat)
    requires Parallel(from, to, n) && Sorted(from, n) && i < j < n
    ensures Low(from, to, i, j) <= x < Past(from, to, n, i, j) <==>
            Scan(from, to, n, x, 0) == At(i) && Bisect(from, 0, n, x) == j + 1
  {
    assert from[i] <= from[j];
    BisectLast(from, n, x, j);
    if j + 1 < n {
      BisectLast(from, n, x, j + 1);
    }
    if from[j] <= x {
      ReachIs(from, to, n, i, x);
      ScanStops(from, to, n, i, x);
    }
  }

  lemma ScanStops(from: seq<nat>, to: seq<nat>, n: nat, i: nat, x: nat)
    requires Parallel(from, to, n) && i < n
    ensures Scan(from, to, n, x, 0) == At(i) <==>
            from[i] <= x <= to[i] && forall r :: 0 <= r < i ==> !(from[r] <= x <= to[r])
  {
  }

  /** What the two lookups answer there. */
  lemma SameBetween(from: seq<nat>, to: seq<nat>, ci: seq<Byte>, n: nat, i: nat, j: nat, x: nat)
    requires Parallel(from, to, n) && n <= |ci| && Sorted(from, n) && i < j < n
    requires Low(from, to, i, j) <= x < Past(from, to, n, i, j)
    ensures SameCountry(from, to, ci, n, x) <==> ci[i] == if x <= to[j] then ci[j] else UNKNOWN
  {
    Between(from, to, n, i, j, x);
  }

  lemma AgreesAt(from: seq<nat>, to: seq<nat>, ci: seq<Byte>, n: nat, x: nat, i: nat, k: nat)
    requires Parallel(from, to, n) && n <= |ci| && Sorted(from, n) && i < k <= n
    requires Scan(from, to, n, x, 0) == At(i) && Bisect(from, 0, n, x) == k
    requires i < k - 1 ==> Harmless(from, to, ci, n, i, k - 1)
    ensures SameCountry(from, to, ci, n, x)
  {
    if i < k - 1 {
      Between(from, to, n, i, k - 1, x);
      SameBetween(from, to, ci, n, i, k - 1, x);
    }
  }

  lemma HarmlessAgrees(from: seq<nat>, to: seq<nat>, ci: seq<Byte>, n: nat, x: nat)
    requires Parallel(from, to, n) && n <= |ci| && Sorted(from, n) && AllHarmless(from, to, ci, n)
    ensures SameCountry(from, to, ci, n, x)
  {
    var h := Scan(from, to, n, x, 0);
    if h.At? {
      BisectLast(from, n, x, h.index);
      AgreesAt(from, to, ci, n, x, h.index, Bisect(from, 0, n, x));
    }
  }

  ghost predicate AllAgree(from: seq<nat>, to: seq<nat>, ci: seq<Byte>, n: nat)
    requires Parallel(from, to, n) && n <= |ci|
  {
    forall x: nat :: SameCountry(from, to, ci, n, x)
  }

  lemma AgreementTells(from: seq<nat>, to: seq<nat>, ci: seq<Byte>, n: nat, i: nat, j: nat, x: nat)
    requires Parallel(from, to, n) && n <= |ci| && Sorted(from, n) && i < j < n && AllAgree(from, to, ci, n)
    requires Low(from, to, i, j) <= x < Past(from, to, n, i, j)
    ensures ci[i] == if x <= to[j] then ci[j] else UNKNOWN
  {
    SameBetween(from, to, ci, n, i, j, x);
  }

  /** Two keys tell whether an overlap is harmless. */
  lemma HarmlessIf(from: seq<nat>, to: seq<nat>, ci: seq<Byte>, n: nat, i: nat, j: nat)
    requires Parallel(from, to, n) && n <= |ci| && Sorted(from, n) && i < j < n && AllAgree(from, to, ci, n)
    ensures Harmless(from, to, ci, n, i, j)
  {
    var low, past := Low(from, to, i, j), Past(from, to, n, i, j);
    if low < past {
      AgreementTells(from, to, ci, n, i, j, low);
      AgreementTells(from, to, ci, n, i, j, past - 1);
    }
  }

  /** The binary search finds the country that the linear scan finds, for every key, if and only if every
      overlap of two rows is harmless. */
  lemma CountriesAgreeExactly(from: seq<nat>, to: seq<nat>, ci: seq<Byte>, n: nat)
    requires Parallel(from, to, n) && n <= |ci| && Sorted(from, n)
    ensures AllAgree(from, to, ci, n) <==> AllHarmless(from, to, ci, n)
  {
    if AllHarmless(from, to, ci, n) {
      forall x: nat ensures SameCountry(from, to, ci, n, x) {
        HarmlessAgrees(from, to, ci, n, x);
      }
    }
    if AllAgree(from, to, ci, n) {
      forall i, j | 0 <= i < j < n ensures Harmless(from, to, ci, n, i, j) {
        HarmlessIf(from, to, ci, n, i, j);
      }
    }
  }

  /** Disjoint rows have no overlap. */
  lemma DisjointIsHarmless(from: seq<nat>, to: seq<nat>, ci: seq<Byte>, n: nat)
    requires Parallel(from, to, n) && n <= |ci| && Disjoint(from, to, n)
    ensures AllHarmless(from, to, ci, n)
  {
    forall i, j | 0 <= i < j < n ensures Harmless(from, to, ci, n, i, j) {
      assert to[i] < from[j];
    }
  }

  // ---------- flat 16-byte keys ----------

  function Power(n: nat): (p: nat)
    ensures p >= 1
  {
    if n == 0 then 1 else 256 * Power(n - 1)
  }

  /** The number a big-endian byte string spells. */
  function BigEndian(s: seq<Byte>): nat {
    if s == [] then 0 else s[0] * Power(|s| - 1) + BigEndian(s[1..])
  }

  /** The sign of `memcmp` on equally long buffers. */
  function MemCmp(a: seq<Byte>, b: seq<Byte>): int
    requires |a| == |b|
  {
    if a == [] then 0
    else if a[0] != b[0] then a[0] - b[0]
    else MemCmp(a[1..], b[1..])
  }

  lemma Times(a: nat, b: nat, p: nat)
    requires a <= b
    ensures a * p <= b * p && (a + 1) * p == a * p + p
  {
  }

  lemma {:induction false} BigEndianBound(s: seq<Byte>)
    ensures BigEndian(s) < Power(|s|)
  {
    if s != [] {
      BigEndianBound(s[1..]);
      var p := Power(|s| - 1);
      Times(s[0], 255, p);
      assert Power(|s|) == 256 * p;
    }
  }

  /** Byte order is number order. */
  lemma {:induction false} MemCmpOrder(a: seq<Byte>, b: seq<Byte>)
    requires |a| == |b|
    ensures MemCmp(a, b) <= 0 <==> BigEndian(a) <= BigEndian(b)
    ensures MemCmp(a, b) >= 0 <==> BigEndian(a) >= BigEndian(b)
  {
    if a != [] {
      var p := Power(|a| - 1);
      BigEndianBound(a[1..]);
      BigEndianBound(b[1..]);
      MemCmpOrder(a[1..], b[1..]);
      if a[0] < b[0] {
        Times(a[0] + 1, b[0], p);
        Times(a[0], a[0], p);
      } else if b[0] < a[0] {
        Times(b[0] + 1, a[0], p);
        Times(b[0], b[0], p);
      }
    }
  }

  /** Row i of a flat buffer. */
  function Row(flat: seq<Byte>, i: nat): (r: seq<Byte>)
    requires (i + 1) * 16 <= |flat|
    ensures |r| == 16
  {
    flat[i * 16..(i + 1) * 16]
  }

  /** The first n rows as numbers. */
  function Keys(flat: seq<Byte>, n: nat): (k: seq<nat>)
    requires n * 16 <= |flat|
    ensures |k| == n
    ensures forall i :: 0 <= i < n ==> (i + 1) * 16 <= |flat| && k[i] == BigEndian(Row(flat, i))
  {
    seq(n, i requires 0 <= i < n => assert (i + 1) * 16 <= n * 16; BigEndian(Row(flat, i)))
  }

  // ---------- addresses ----------

  type Address = a: seq<Byte> | |a| == 16 witness seq(16, _ => 0)

  /** Four bytes as the source combines them. */
  function Combine(b3: Byte, b2: Byte, b1: Byte, b0: Byte): Word {
    16777216 * b3 + 65536 * b2 + 256 * b1 + b0
  }

  predicate IsV4Mapped(a: Address) {
    a[..10] == seq(10, _ => 0) && a[10] == 0xFF && a[11] == 0xFF
  }

  predicate Is6to4(a: Address) {
    a[0] == 32 && a[1] == 2
  }

  predicate IsTeredo(a: Address) {
    a[0] == 32 && a[1] == 1 && a[2] == 0 && a[3] == 0
  }

  /** `w ^ 0xffffffff`. */
  function Flip(w: Word): Word {
    0xFFFF_FFFF - w
  }

  /** The low k bits of w, each one inverted. */
  function Inverted(w: nat, k: nat): nat {
    if k == 0 then 0 else 2 * Inverted(w / 2, k - 1) + (1 - w % 2)
  }

  function Doubled(k: nat): (p: nat)
    ensures p >= 1
  {
    if k == 0 then 1 else 2 * Doubled(k - 1)
  }

  lemma {:induction false} InvertedIs(w: nat, k: nat)
    requires w < Doubled(k)
    ensures Inverted(w, k) == Doubled(k) - 1 - w
  {
    if k > 0 {
      InvertedIs(w / 2, k - 1);
    }
  }

  /** XOR with all ones inverts each of the 32 bits. */
  lemma FlipIsXor(w: Word)
    ensures Flip(w) == Inverted(w, 32)
  {
    assert Doubled(8) == 256;
    assert Doubled(16) == 0x1_0000;
    assert Doubled(24) == 0x100_0000;
    assert Doubled(32) == 0x1_0000_0000;
    InvertedIs(w, 32);
  }

  datatype Target = V4(ip: Word) | V6(address: Address)

  function Classify(a: Address, useIPv6: bool): Target {
    if !useIPv6 || IsV4Mapped(a) then V4(Combine(a[12], a[13], a[14], a[15]))
    else if Is6to4(a) then V4(Combine(a[2], a[3], a[4], a[5]))
    else if IsTeredo(a) then V4(Flip(Combine(a[12], a[13], a[14], a[15])))
    else V6(a)
  }

  /** The ways RFC 4291, section 2 of RFC 3056 and section 4 of RFC 4380 embed an IPv4 address. */
  function Mapped(b: seq<Byte>): Address
    requires |b| == 4
  {
    seq(10, _ => 0) + [0xFF, 0xFF] + b
  }

  function SixToFour(b: seq<Byte>, rest: seq<Byte>): Address
    requires |b| == 4 && |rest| == 10
  {
    [32, 2] + b + rest
  }

  function Teredo(b: seq<Byte>, server: seq<Byte>): Address
    requires |b| == 4 && |server| == 8
  {
    [32, 1, 0, 0] + server + [255 - b[0], 255 - b[1], 255 - b[2], 255 - b[3]]
  }

  /** Every embedding of an IPv4 address is looked up as that IPv4 address. */
  lemma EmbeddingsAgree(b: seq<Byte>, rest: seq<Byte>, server: seq<Byte>)
    requires |b| == 4 && |rest| == 10 && |server| == 8
    ensures var ip := Combine(b[0], b[1], b[2], b[3]);
            && Classify(Mapped(b), true) == V4(ip) && Classify(Mapped(b), false) == V4(ip)
            && Classify(SixToFour(b, rest), true) == V4(ip)
            && Classify(Teredo(b, server), true) == V4(ip)
  {
    assert Mapped(b)[..10] == seq(10, _ => 0);
    assert SixToFour(b, rest)[0] == 32 && Teredo(b, server)[0] == 32;
    assert SixToFour(b, rest)[..10] != seq(10, _ => 0) by {
      assert SixToFour(b, rest)[..10][0] == 32;
    }
    assert Teredo(b, server)[..10] != seq(10, _ => 0) by {
      assert Teredo(b, server)[..10][0] == 32;
    }
  }

  /** The number the hub makes of four bytes is the one they spell. */
  lemma CombineIsBigEndian(b: seq<Byte>)
    requires |b| == 4
    ensures Combine(b[0], b[1], b[2], b[3]) == BigEndian(b)
  {
    var b1, b2, b3 := b[1..], b[1..][1..], b[1..][1..][1..];
    assert b1[0] == b[1] && b2[0] == b[2] && b3[0] == b[3] && b3[1..] == [];
    assert Power(1) == 256 && Power(2) == 65536 && Power(3) == 16777216;
    assert BigEndian(b3) == b[3] * Power(0) + BigEndian([]);
    assert BigEndian(b2) == b[2] * Power(1) + BigEndian(b3);
    assert BigEndian(b1) == b[1] * Power(2) + BigEndian(b2);
    assert BigEndian(b) == b[0] * Power(3) + BigEndian(b1);
  }

  /** An address that embeds the IPv4 address b. */
  ghost predicate Embeds(a: Address, b: seq<Byte>)
    requires |b| == 4
  {
    a == Mapped(b) || (exists rest :: |rest| == 10 && a == SixToFour(b, rest)) ||
    exists server :: |server| == 8 && a == Teredo(b, server)
  }

  /** The IPv4 address an IPv6 address of one of the three forms embeds. */
  function Embedded(a: Address): (b: seq<Byte>)
    ensures |b| == 4
  {
    if IsV4Mapped(a) then a[12..]
    else if Is6to4(a) then a[2..6]
    else [255 - a[12], 255 - a[13], 255 - a[14], 255 - a[15]]
  }

  lemma MappedIs(a: Address)
    requires IsV4Mapped(a)
    ensures a == Mapped(a[12..])
  {
    assert a == a[..10] + [a[10], a[11]] + a[12..];
  }

  lemma SixToFourIs(a: Address)
    requires Is6to4(a)
    ensures a == SixToFour(a[2..6], a[6..])
  {
    assert a == [a[0], a[1]] + a[2..6] + a[6..];
  }

  lemma TeredoIs(a: Address)
    requires IsTeredo(a)
    ensures a == Teredo([255 - a[12], 255 - a[13], 255 - a[14], 255 - a[15]], a[4..12])
  {
    assert a == [a[0], a[1], a[2], a[3]] + a[4..12] + [a[12], a[13], a[14], a[15]];
  }

  lemma ClassifiedEmbeds(a: Address)
    requires Classify(a, true).V4?
    ensures Embeds(a, Embedded(a))
  {
    if IsV4Mapped(a) {
      MappedIs(a);
    } else if Is6to4(a) {
      SixToFourIs(a);
      assert |a[6..]| == 10;
    } else {
      TeredoIs(a);
      assert |a[4..12]| == 8;
    }
  }

  lemma EmbeddingClassified(a: Address, b: seq<Byte>)
    requires |b| == 4 && Embeds(a, b)
    ensures Classify(a, true).V4? && Classify(a, true).ip == BigEndian(b)
  {
    CombineIsBigEndian(b);
    var any10, any8: seq<Byte> := seq(10, _ => 0), seq(8, _ => 0);
    if a == Mapped(b) {
      EmbeddingsAgree(b, any10, any8);
    } else if rest :| |rest| == 10 && a == SixToFour(b, rest) {
      EmbeddingsAgree(b, rest, any8);
    } else {
      var server :| |server| == 8 && a == Teredo(b, server);
      EmbeddingsAgree(b, any10, server);
    }
  }

  /** With IPv6 in use an address is looked up as an IPv4 address if and only if it embeds one, in one of
      the three forms, and as that one; every other address is looked up as it is. */
  lemma ClassifyExactly(a: Address)
    ensures Classify(a, true).V4? <==> exists b :: |b| == 4 && Embeds(a, b)
    ensures forall b | |b| == 4 && Embeds(a, b) :: Classify(a, true).V4? && Classify(a, true).ip == BigEndian(b)
    ensures Classify(a, true).V6? ==> Classify(a, true).address == a
  {
    if Classify(a, true).V4? {
      ClassifiedEmbeds(a);
    }
    forall b | |b| == 4 && Embeds(a, b)
      ensures Classify(a, true).V4? && Classify(a, true).ip == BigEndian(b)
    {
      EmbeddingClassified(a, b);
    }
  }

  /** Without IPv6 only the last four bytes count. */
  lemma ClassifyWithoutIPv6(a: Address)
    ensures Classify(a, false).V4? && Classify(a, false).ip == BigEndian(a[12..])
  {
    CombineIsBigEndian(a[12..]);
  }
}

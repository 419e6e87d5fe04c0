/** When two locks are answered with the same key (`lock2key`, dc_common.py).

    The client sends '/' raw although it also opens an escape.  No other byte of an escape is ever escaped
    itself, so a key can be read in as many ways as one can choose escapes in it that do not overlap; two
    escapes overlap only in a '/' that closes one and opens the other. */
module LockCollisions {
  import opened Sequences
  import opened LockKey

  const ESCAPE_SIZE: nat := 10

  // ---------- what can be changed in a chain without changing its key ----------

  /** Some byte is sent as an escape. */
  ghost predicate HasReserved(w: seq<Byte>) {
    exists i :: 0 <= i < |w| && Reserved(w[i])
  }

  /** At i there are ten raw bytes that read as an escape. */
  ghost predicate RawCodeAt(w: seq<Byte>, i: nat, b: Byte) {
    i + ESCAPE_SIZE <= |w| && Reserved(b) && w[i..i + ESCAPE_SIZE] == Code(b)
  }

  /** At i there is an escaped byte, and its last '/' with nine raw bytes reads as another escape. */
  ghost predicate TailAt(w: seq<Byte>, i: nat, b: Byte) {
    i + ESCAPE_SIZE <= |w| && Reserved(w[i]) && Reserved(b) && w[i + 1..i + ESCAPE_SIZE] == Code(b)[1..]
  }

  /** At i there are nine raw bytes that read as an escape with the first '/' of the escaped byte behind. */
  ghost predicate FrontAt(w: seq<Byte>, i: nat, b: Byte) {
    i + ESCAPE_SIZE <= |w| && Reserved(b) && w[i..i + 9] == Code(b)[..9] && Reserved(w[i + 9])
  }

  ghost predicate HasRawCode(w: seq<Byte>) {
    exists i: nat, b :: RawCodeAt(w, i, b)
  }

  /** An escape that could as well start or end nine bytes away. */
  ghost predicate HasShift(w: seq<Byte>) {
    (exists i: nat, b :: TailAt(w, i, b)) || exists i: nat, b :: FrontAt(w, i, b)
  }

  /** The condition: an escape can be shifted, or read raw without exceeding 46 bytes, or ten raw bytes can
      be read as one without falling below two. */
  ghost predicate Ambiguous(w: seq<Byte>) {
    HasShift(w) || (HasReserved(w) && |w| + 9 <= LOCK_SIZE) || (HasRawCode(w) && |w| >= 11)
  }

  // ---------- facts about escapes ----------

  lemma EscapeConcat(u: seq<Byte>, v: seq<Byte>)
    ensures Escape(u + v) == Escape(u) + Escape(v)
  {
    assert Codes(u + v) == Codes(u) + Codes(v);
    FlattenConcat(Codes(u), Codes(v));
  }

  lemma EscapeSplit(u: seq<Byte>, x: seq<Byte>, v: seq<Byte>)
    ensures Escape(u + x + v) == Escape(u) + Escape(x) + Escape(v)
  {
    EscapeConcat(u + x, v);
    EscapeConcat(u, x);
  }

  /** A part of a chain can be exchanged for another with the same code. */
  lemma Exchange(u: seq<Byte>, x: seq<Byte>, y: seq<Byte>, v: seq<Byte>)
    requires Escape(x) == Escape(y)
    ensures Escape(u + x + v) == Escape(u + y + v)
    ensures x != y && |x| == |y| ==> u + x + v != u + y + v
  {
    EscapeSplit(u, x, v);
    EscapeSplit(u, y, v);
    if x != y && |x| == |y| {
      assert (u + x + v)[|u|..|u| + |x|] == x && (u + y + v)[|u|..|u| + |y|] == y;
    }
  }

  lemma CodeShape(b: Byte)
    requires Reserved(b)
    ensures |Code(b)| == ESCAPE_SIZE && Code(b)[0] == SLASH && Code(b)[9] == SLASH
    ensures forall k :: 0 <= k < ESCAPE_SIZE ==> !Reserved(Code(b)[k])
    ensures forall k :: 0 < k < 9 ==> Code(b)[k] != SLASH
  {
  }

  lemma CodeInjective(b: Byte, c: Byte)
    requires Reserved(b) && Reserved(c) && Code(b) == Code(c)
    ensures b == c
  {
    assert Code(b)[5] == Code(c)[5] && Code(b)[6] == Code(c)[6] && Code(b)[7] == Code(c)[7];
  }

  lemma EscapeOne(b: Byte)
    ensures Escape([b]) == Code(b)
  {
    EscapeHead([b]);
    assert [b][1..] == [];
  }

  lemma EscapeRaw(b: Byte)
    requires Reserved(b)
    ensures Escape(Code(b)) == Code(b) && Escape(Code(b)[1..]) == Code(b)[1..] && Escape(Code(b)[..9]) == Code(b)[..9]
  {
    CodeShape(b);
    RawBytes(Code(b));
    RawBytes(Code(b)[1..]);
    RawBytes(Code(b)[..9]);
  }

  /** The two readings of a shifted escape. */
  lemma Shifted(b: Byte, c: Byte)
    requires Reserved(b) && Reserved(c)
    ensures Escape([b] + Code(c)[1..]) == Escape(Code(b)[..9] + [c])
  {
    CodeShape(b);
    CodeShape(c);
    EscapeRaw(b);
    EscapeRaw(c);
    EscapeOne(b);
    EscapeOne(c);
    EscapeConcat([b], Code(c)[1..]);
    EscapeConcat(Code(b)[..9], [c]);
    assert Code(b) + Code(c)[1..] == Code(b)[..9] + Code(c);
  }

  // ---------- the condition is sufficient ----------

  /** Another chain with the same key. */
  ghost predicate Twin(w: seq<Byte>, v: seq<Byte>) {
    v != w && Escape(v) == Escape(w)
  }

  /** A stretch of a chain exchanged for another with the same code. */
  lemma Replaced(w: seq<Byte>, i: nat, n: nat, y: seq<Byte>)
    requires i + n <= |w| && Escape(w[i..i + n]) == Escape(y) && w[i..i + n] != y
    ensures Twin(w, w[..i] + y + w[i + n..])
  {
    var x := w[i..i + n];
    assert w == w[..i] + x + w[i + n..];
    Exchange(w[..i], x, y, w[i + n..]);
  }

  lemma RawReading(b: Byte)
    requires Reserved(b)
    ensures Escape([b]) == Escape(Code(b)) && |Code(b)| == ESCAPE_SIZE && [b] != Code(b)
  {
    CodeShape(b);
    EscapeRaw(b);
    EscapeOne(b);
  }

  lemma ReadRaw(w: seq<Byte>, i: nat) returns (v: seq<Byte>)
    requires i < |w| && Reserved(w[i])
    ensures Twin(w, v) && |v| == |w| + 9
  {
    v := WriteRaw(w, i, w[i], Code(w[i]));
  }

  lemma WriteRaw(w: seq<Byte>, i: nat, b: Byte, code: seq<Byte>) returns (v: seq<Byte>)
    requires i < |w| && Reserved(b) && w[i] == b && code == Code(b)
    ensures Twin(w, v) && |v| == |w| + 9
  {
    RawReading(b);
    assert w[i..i + 1] == [b];
    Replaced(w, i, 1, code);
    v := w[..i] + code + w[i + 1..];
  }

  lemma ReadEscaped(w: seq<Byte>, i: nat, b: Byte) returns (v: seq<Byte>)
    requires RawCodeAt(w, i, b)
    ensures Twin(w, v) && |v| + 9 == |w|
  {
    v := w[..i] + [b] + w[i + ESCAPE_SIZE..];
    EscapeRaw(b);
    EscapeOne(b);
    Replaced(w, i, ESCAPE_SIZE, [b]);
  }

  lemma ReadShifted(w: seq<Byte>) returns (v: seq<Byte>)
    requires HasShift(w)
    ensures Twin(w, v) && |v| == |w|
  {
    if i: nat, b :| TailAt(w, i, b) {
      v := ShiftTail(w, i, b);
    } else {
      var i: nat, b :| FrontAt(w, i, b);
      v := ShiftFront(w, i, b);
    }
  }

  lemma ShiftTail(w: seq<Byte>, i: nat, b: Byte) returns (v: seq<Byte>)
    requires TailAt(w, i, b)
    ensures Twin(w, v) && |v| == |w|
  {
    var y := Code(w[i])[..9] + [b];
    v := w[..i] + y + w[i + ESCAPE_SIZE..];
    CodeShape(w[i]);
    Shifted(w[i], b);
    assert w[i..i + ESCAPE_SIZE] == [w[i]] + Code(b)[1..];
    assert y[0] == SLASH;
    Replaced(w, i, ESCAPE_SIZE, y);
  }

  lemma ShiftFront(w: seq<Byte>, i: nat, b: Byte) returns (v: seq<Byte>)
    requires FrontAt(w, i, b)
    ensures Twin(w, v) && |v| == |w|
  {
    var y := [b] + Code(w[i + 9])[1..];
    v := w[..i] + y + w[i + ESCAPE_SIZE..];
    CodeShape(w[i + 9]);
    CodeShape(b);
    Shifted(b, w[i + 9]);
    assert w[i..i + ESCAPE_SIZE] == Code(b)[..9] + [w[i + 9]];
    assert w[i..i + ESCAPE_SIZE][0] == SLASH;
    Replaced(w, i, ESCAPE_SIZE, y);
  }

  // ---------- the condition is necessary ----------

  lemma EscapeEmpty(w: seq<Byte>)
    ensures Escape(w) == [] <==> w == []
  {
    if w != [] {
      EscapeHead(w);
    }
  }

  /** A part of a key without '/' stands for itself. */
  lemma {:induction false} RawPrefix(z: seq<Byte>, text: seq<Byte>)
    requires text <= Escape(z) && SLASH !in text
    ensures text <= z && Escape(z[|text|..]) == Escape(z)[|text|..]
    decreases |text|
  {
    if text == [] {
      assert z[0..] == z;
    } else {
      EscapeEmpty(z);
      EscapeHead(z);
      assert Code(z[0])[0] == text[0] != SLASH;
      assert Escape(z)[1..] == Escape(z[1..]);
      RawPrefix(z[1..], text[1..]);
      assert z[1..][|text| - 1..] == z[|text|..] && Escape(z)[1..][|text| - 1..] == Escape(z)[|text|..];
      assert text == [text[0]] + text[1..] && z == [z[0]] + z[1..];
    }
  }

  /** What follows where a key goes on with an escape but for its first '/': eight raw bytes, and then a raw
      '/' or one that opens another escape. */
  lemma TailReads(z: seq<Byte>, c: Byte)
    requires Reserved(c) && Code(c)[1..] <= Escape(z)
    ensures |z| >= 9 && z[..8] == Code(c)[1..9] && (z[8] == SLASH || Reserved(z[8]))
    ensures Escape(z[8..]) == Escape(z)[8..]
  {
    CodeShape(c);
    var text := Code(c)[1..9];
    assert Escape(z)[..8] == text;
    RawPrefix(z, text);
    EscapeEmpty(z[8..]);
    EscapeHead(z[8..]);
    assert Escape(z[8..])[0] == Escape(z)[8] == SLASH;
  }

  lemma Lifted(x: seq<Byte>, n: nat)
    requires n <= |x| && (HasRawCode(x[n..]) || HasShift(x[n..]))
    ensures HasRawCode(x) || HasShift(x)
  {
    if i: nat, b :| RawCodeAt(x[n..], i, b) {
      LiftedAt(x, n, i, b);
    } else if i: nat, b :| TailAt(x[n..], i, b) {
      LiftedAt(x, n, i, b);
    } else {
      var i: nat, b :| FrontAt(x[n..], i, b);
      LiftedAt(x, n, i, b);
    }
  }

  lemma LiftedAt(x: seq<Byte>, n: nat, i: nat, b: Byte)
    requires n <= |x|
    ensures RawCodeAt(x[n..], i, b) ==> RawCodeAt(x, n + i, b)
    ensures TailAt(x[n..], i, b) ==> TailAt(x, n + i, b)
    ensures FrontAt(x[n..], i, b) ==> FrontAt(x, n + i, b)
  {
    if i + ESCAPE_SIZE <= |x| - n {
      SamePart(x, n, i, i + ESCAPE_SIZE);
      SamePart(x, n, i + 1, i + ESCAPE_SIZE);
      SamePart(x, n, i, i + 9);
    }
  }

  lemma SamePart(x: seq<Byte>, n: nat, i: nat, j: nat)
    requires i <= j && n + j <= |x|
    ensures x[n..][i..j] == x[n + i..n + j]
  {
  }

  /** A raw '/' where the same key can be read as an escape. */
  lemma RawReads(x: seq<Byte>, c: Byte)
    requires x != [] && x[0] == SLASH && Reserved(c) && Code(c) <= Escape(x)
    ensures RawCodeAt(x, 0, c) || FrontAt(x, 0, c)
  {
    var z := x[1..];
    CodeShape(c);
    EscapeHead(x);
    assert Escape(z) == Escape(x)[1..] && Code(c)[1..] <= Escape(z);
    TailReads(z, c);
    assert x[..9] == [SLASH] + z[..8] == Code(c)[..9];
    if z[8] == SLASH {
      assert x[0..10] == x[..9] + [z[8]] == Code(c);
    } else {
      assert x[0..9] == x[..9] && x[9] == z[8];
    }
  }

  /** The chain x sends an escape where y sends it raw: from there on the escapes either meet again, and y
      has become longer, or keep overlapping until x has one to shift. */
  lemma EscapedReads(x: seq<Byte>, y: seq<Byte>) returns (n: nat, y': seq<Byte>)
    requires x != [] && y != [] && Reserved(x[0]) && y[0] == SLASH && Escape(x) == Escape(y) && |y| <= |x| + 8
    ensures (exists b :: TailAt(x, 0, b)) ||
            (0 < n <= |x| && x[n..] != y' && Escape(x[n..]) == Escape(y') && |y'| <= |x| - n + 8)
  {
    var a := x[0];
    EscapeHead(x);
    CodeShape(a);
    assert Code(a) <= Escape(y);
    RawReads(y, a);
    if RawCodeAt(y, 0, a) {
      n, y' := 1, y[ESCAPE_SIZE..];
      RawMeets(x, y);
    } else {
      n, y' := 9, [SLASH] + y[ESCAPE_SIZE..];
      FrontMeets(x, y);
    }
  }

  lemma RawMeets(x: seq<Byte>, y: seq<Byte>)
    requires x != [] && Reserved(x[0]) && Escape(x) == Escape(y) && RawCodeAt(y, 0, x[0])
    ensures Escape(x[1..]) == Escape(y[ESCAPE_SIZE..])
  {
    var front, rest := y[0..ESCAPE_SIZE], y[ESCAPE_SIZE..];
    EscapeHead(x);
    EscapeRaw(x[0]);
    EscapeConcat(front, rest);
    assert y == front + rest;
    assert Escape(x)[|Code(x[0])|..] == Escape(x[1..]) && Escape(y)[|Code(x[0])|..] == Escape(rest);
  }

  lemma DropFront(front: seq<Byte>, e: seq<Byte>, tail: seq<Byte>, rest: seq<Byte>)
    requires (front + [SLASH]) + e == front + ([SLASH] + tail) + rest
    ensures e == tail + rest
  {
    var n := |front| + 1;
    assert ((front + [SLASH]) + e)[n..] == e;
    assert (front + ([SLASH] + tail) + rest)[n..] == tail + rest;
  }

  lemma FrontCode(y: seq<Byte>, a: Byte)
    requires Reserved(a) && FrontAt(y, 0, a)
    ensures Escape(y) == Code(a)[..9] + Code(y[9]) + Escape(y[ESCAPE_SIZE..])
  {
    EscapeRaw(a);
    EscapeOne(y[9]);
    EscapeSplit(Code(a)[..9], [y[9]], y[ESCAPE_SIZE..]);
    assert y == Code(a)[..9] + [y[9]] + y[ESCAPE_SIZE..];
  }

  /** Behind nine raw bytes y goes on with an escape that shares its '/' with the one of x. */
  lemma FrontSplits(x: seq<Byte>, y: seq<Byte>)
    requires x != [] && Reserved(x[0]) && Escape(x) == Escape(y) && FrontAt(y, 0, x[0])
    ensures Escape(x[1..]) == Code(y[9])[1..] + Escape(y[ESCAPE_SIZE..])
  {
    var a, d := x[0], y[9];
    CodeShape(a);
    CodeShape(d);
    EscapeHead(x);
    FrontCode(y, a);
    assert Code(a) == Code(a)[..9] + [SLASH] && Code(d) == [SLASH] + Code(d)[1..];
    DropFront(Code(a)[..9], Escape(x[1..]), Code(d)[1..], Escape(y[ESCAPE_SIZE..]));
  }

  lemma SlashFirst(rest: seq<Byte>)
    ensures Escape([SLASH] + rest) == [SLASH] + Escape(rest)
  {
    EscapeConcat([SLASH], rest);
    EscapeOne(SLASH);
  }

  lemma LastSlash(tail: seq<Byte>, e: seq<Byte>)
    requires |tail| == 9 && tail[8] == SLASH
    ensures (tail + e)[8..] == [SLASH] + e
  {
  }

  lemma TailEnds(x: seq<Byte>, d: Byte)
    requires ESCAPE_SIZE <= |x| && Reserved(x[0]) && Reserved(d)
    requires |Code(d)| == ESCAPE_SIZE && x[1..9] == Code(d)[1..9] && x[9] == Code(d)[9]
    ensures TailAt(x, 0, d)
  {
    assert x[1..10] == x[1..9] + [x[9]];
    assert Code(d)[1..] == Code(d)[1..9] + [Code(d)[9]];
    assert x[0 + 1..0 + ESCAPE_SIZE] == Code(d)[1..];
  }

  lemma FrontMeets(x: seq<Byte>, y: seq<Byte>)
    requires x != [] && Reserved(x[0]) && Escape(x) == Escape(y) && FrontAt(y, 0, x[0])
    ensures (exists b :: TailAt(x, 0, b)) ||
            (9 < |x| && Reserved(x[9]) && Escape(x[9..]) == Escape([SLASH] + y[ESCAPE_SIZE..]))
  {
    FrontSplits(x, y);
    FrontGoesOn(x, y[9], y[ESCAPE_SIZE..]);
  }

  lemma FrontGoesOn(x: seq<Byte>, d: Byte, rest: seq<Byte>)
    requires x != [] && Reserved(x[0]) && Reserved(d) && Escape(x[1..]) == Code(d)[1..] + Escape(rest)
    ensures (exists b :: TailAt(x, 0, b)) || (9 < |x| && Reserved(x[9]) && Escape(x[9..]) == Escape([SLASH] + rest))
  {
    var z := x[1..];
    CodeShape(d);
    TailReads(z, d);
    assert z[..8] == x[1..9] && z[8] == x[9] && z[8..] == x[9..];
    if x[9] == SLASH {
      TailEnds(x, d);
    } else {
      LastSlash(Code(d)[1..], Escape(rest));
      SlashFirst(rest);
    }
  }

  /** Two readings of one key of which the second is not much longer: the first can be shifted, or has raw
      bytes that read as an escape. */
  lemma {:induction false} Differ(x: seq<Byte>, y: seq<Byte>)
    requires x != y && Escape(x) == Escape(y) && |y| <= |x| + 8
    ensures HasRawCode(x) || HasShift(x)
    decreases |x|
  {
    EscapeEmpty(x);
    EscapeEmpty(y);
    if x[0] == y[0] {
      SameHead(x, y);
      Differ(x[1..], y[1..]);
      Lifted(x, 1);
    } else {
      HeadsDiffer(x, y);
      if x[0] == SLASH {
        RawReads(x, y[0]);
      } else {
        var n, y' := EscapedReads(x, y);
        if !exists b :: TailAt(x, 0, b) {
          Differ(x[n..], y');
          Lifted(x, n);
        }
      }
    }
  }

  lemma SameHead(x: seq<Byte>, y: seq<Byte>)
    requires x != [] && y != [] && x[0] == y[0] && x != y && Escape(x) == Escape(y)
    ensures x[1..] != y[1..] && Escape(x[1..]) == Escape(y[1..])
  {
    EscapeHead(x);
    EscapeHead(y);
    var n := |Code(x[0])|;
    assert Escape(x)[n..] == Escape(x[1..]) && Escape(y)[n..] == Escape(y[1..]);
    assert x == [x[0]] + x[1..] && y == [y[0]] + y[1..];
  }

  /** Where two readings part, one escapes and the other sends '/'. */
  lemma HeadsDiffer(x: seq<Byte>, y: seq<Byte>)
    requires x != [] && y != [] && x[0] != y[0] && Escape(x) == Escape(y)
    ensures (x[0] == SLASH && Reserved(y[0]) && Code(y[0]) <= Escape(x)) || (Reserved(x[0]) && y[0] == SLASH)
  {
    EscapeHead(x);
    EscapeHead(y);
    assert Code(x[0])[0] == Escape(x)[0] == Code(y[0])[0];
    if Reserved(x[0]) && Reserved(y[0]) {
      CodeShape(x[0]);
      CodeShape(y[0]);
      assert Code(x[0]) == Escape(x)[..ESCAPE_SIZE] == Code(y[0]);
      CodeInjective(x[0], y[0]);
    }
  }

  // ---------- the condition is exact ----------

  /** Chains of locks: of 2 to 46 bytes. */
  ghost predicate Fits(w: seq<Byte>) {
    2 <= |w| <= LOCK_SIZE
  }

  lemma RawOnly(w: seq<Byte>)
    requires !HasReserved(w)
    ensures Escape(w) == w
  {
    forall b | b in w
      ensures !Reserved(b)
    {
      var i :| 0 <= i < |w| && w[i] == b;
    }
    RawBytes(w);
  }

  lemma {:induction false} EscapeGrows(w: seq<Byte>)
    ensures |w| <= |Escape(w)| && (|w| == |Escape(w)| ==> Escape(w) == w)
  {
    if w != [] {
      EscapeHead(w);
      EscapeGrows(w[1..]);
      assert w == [w[0]] + w[1..];
    }
  }

  /** A chain without escapes has no twin that is as long or longer. */
  lemma RawTwinsAreShorter(w: seq<Byte>, v: seq<Byte>)
    requires Twin(w, v) && !HasReserved(w)
    ensures |v| < |w|
  {
    RawOnly(w);
    EscapeGrows(v);
  }

  /** Ten raw bytes and nothing else can be read otherwise as a single byte only. */
  lemma TenRawBytes(w: seq<Byte>, v: seq<Byte>)
    requires Twin(w, v) && HasRawCode(w) && |w| < 11
    ensures |v| == 1
  {
    var i: nat, b :| RawCodeAt(w, i, b);
    assert w == w[i..i + ESCAPE_SIZE] == Code(b);
    CodeShape(b);
    EscapeRaw(b);
    EscapeOne(b);
    OneByteTwin(b, v);
  }

  lemma OneByteTwin(b: Byte, v: seq<Byte>)
    requires Reserved(b) && Escape(v) == Code(b) && v != Code(b)
    ensures v == [b]
  {
    CodeShape(b);
    EscapeEmpty(v);
    EscapeHead(v);
    if Reserved(v[0]) {
      CodeShape(v[0]);
      assert Escape(v[1..]) == [];
      EscapeEmpty(v[1..]);
      assert v == [v[0]] + v[1..];
      EscapeOne(v[0]);
      CodeInjective(v[0], b);
    } else {
      assert Escape(v)[1..] == Escape(v[1..]) == Code(b)[1..];
      assert v == [SLASH] + v[1..] && Code(b) == [SLASH] + Code(b)[1..];
      TailReads(v[1..], b);
      NineLeft(v[1..], b);
    }
  }

  lemma NineLeft(z: seq<Byte>, b: Byte)
    requires Reserved(b) && Escape(z) == Code(b)[1..] && |z| >= 9 && z[..8] == Code(b)[1..9]
    ensures z == Code(b)[1..]
  {
    CodeShape(b);
    EscapeGrows(z);
  }

  /** The chains of locks that share their key with the chain of another lock. */
  lemma TwinsExactly(w: seq<Byte>)
    requires Fits(w)
    ensures (exists v :: Fits(v) && Twin(w, v)) <==> Ambiguous(w)
  {
    if Ambiguous(w) {
      var v := AmbiguousHasTwin(w);
      assert Fits(v) && Twin(w, v);
    }
    if v :| Fits(v) && Twin(w, v) {
      TwinIsAmbiguous(w, v);
    }
  }

  lemma AmbiguousHasTwin(w: seq<Byte>) returns (v: seq<Byte>)
    requires Fits(w) && Ambiguous(w)
    ensures Fits(v) && Twin(w, v)
  {
    if HasShift(w) {
      v := ReadShifted(w);
    } else if HasReserved(w) && |w| + 9 <= LOCK_SIZE {
      var i :| 0 <= i < |w| && Reserved(w[i]);
      v := ReadRaw(w, i);
    } else {
      var i: nat, b :| RawCodeAt(w, i, b);
      v := ReadEscaped(w, i, b);
    }
  }

  lemma TwinIsAmbiguous(w: seq<Byte>, v: seq<Byte>)
    requires Fits(w) && Fits(v) && Twin(w, v)
    ensures Ambiguous(w)
  {
    if !HasReserved(w) {
      RawTwinsAreShorter(w, v);
    }
    if !HasReserved(w) || |w| + 9 > LOCK_SIZE {
      Differ(w, v);
      if !HasShift(w) && |w| < 11 {
        TenRawBytes(w, v);
      }
    }
  }

  /** With a chain of the same length: an escape can be shifted, or one is read raw and ten raw bytes are
      read as one. */
  ghost predicate Balanced(w: seq<Byte>) {
    HasShift(w) || (HasReserved(w) && HasRawCode(w))
  }

  lemma EqualTwinsExactly(w: seq<Byte>)
    ensures (exists v :: |v| == |w| && Twin(w, v)) <==> Balanced(w)
  {
    if Balanced(w) {
      var v := BalancedHasTwin(w);
      assert |v| == |w| && Twin(w, v);
    }
    if v :| |v| == |w| && Twin(w, v) {
      Differ(w, v);
      if !HasReserved(w) {
        RawTwinsAreShorter(w, v);
      }
    }
  }

  lemma BalancedHasTwin(w: seq<Byte>) returns (v: seq<Byte>)
    requires Balanced(w)
    ensures |v| == |w| && Twin(w, v)
  {
    if HasShift(w) {
      v := ReadShifted(w);
    } else {
      var i: nat, b :| RawCodeAt(w, i, b);
      var j :| 0 <= j < |w| && Reserved(w[j]);
      v := BothRead(w, i, b, j);
    }
  }

  lemma NotInside(w: seq<Byte>, i: nat, b: Byte, j: nat)
    requires RawCodeAt(w, i, b) && i <= j < i + ESCAPE_SIZE
    ensures !Reserved(w[j])
  {
    CodeShape(b);
    assert w[j] == w[i..i + ESCAPE_SIZE][j - i];
  }

  lemma BothRead(w: seq<Byte>, i: nat, b: Byte, j: nat) returns (v: seq<Byte>)
    requires RawCodeAt(w, i, b) && j < |w| && Reserved(w[j])
    ensures |v| == |w| && Twin(w, v)
  {
    if i <= j < i + ESCAPE_SIZE {
      NotInside(w, i, b, j);
    }
    CodeShape(b);
    EscapeRaw(b);
    EscapeOne(b);
    EscapeOne(w[j]);
    EscapeRaw(w[j]);
    CodeShape(w[j]);
    assert w[j..j + 1] == [w[j]];
    if j < i {
      v := TwoRead(w, j, 1, Code(w[j]), i, ESCAPE_SIZE, [b]);
    } else {
      v := TwoRead(w, i, ESCAPE_SIZE, [b], j, 1, Code(w[j]));
    }
  }

  lemma TwoExchanged(u: seq<Byte>, p: seq<Byte>, x: seq<Byte>, mid: seq<Byte>, q: seq<Byte>, y: seq<Byte>, end: seq<Byte>)
    requires Escape(p) == Escape(x) && Escape(q) == Escape(y) && p != [] && x != [] && p[0] != x[0]
    ensures Twin(u + p + (mid + q + end), u + x + (mid + y + end))
  {
    var before, after := mid + q + end, mid + y + end;
    Exchange(mid, q, y, end);
    EscapeSplit(u, p, before);
    EscapeSplit(u, x, after);
    assert (u + p + before)[|u|] == p[0] && (u + x + after)[|u|] == x[0];
  }

  lemma Pieces(w: seq<Byte>, i: nat, m: nat, j: nat, n: nat)
    requires i + m <= j && j + n <= |w|
    ensures w == w[..i] + w[i..i + m] + (w[i + m..j] + w[j..j + n] + w[j + n..])
  {
    assert w[i + m..] == w[i + m..j] + w[j..j + n] + w[j + n..];
  }

  /** Two stretches exchanged at once. */
  lemma TwoRead(w: seq<Byte>, i: nat, m: nat, x: seq<Byte>, j: nat, n: nat, y: seq<Byte>) returns (v: seq<Byte>)
    requires i + m <= j && j + n <= |w| && 0 < m && x != [] && x[0] != w[i]
    requires Escape(w[i..i + m]) == Escape(x) && Escape(w[j..j + n]) == Escape(y)
    ensures Twin(w, v) && |v| == |w| - m - n + |x| + |y|
  {
    v := w[..i] + x + (w[i + m..j] + y + w[j + n..]);
    Pieces(w, i, m, j, n);
    TwoExchanged(w[..i], w[i..i + m], x, w[i + m..j], w[j..j + n], y, w[j + n..]);
  }

  // ---------- locks ----------

  /** The characters of a lock that count. */
  function Significant(lock: seq<CodePoint>): seq<CodePoint> {
    lock[..Min(|lock|, LOCK_SIZE)]
  }

  /** Another byte-valued lock, of any length, that is answered with the same key. */
  ghost predicate SharesKey(lock: seq<CodePoint>, other: seq<CodePoint>) {
    Below(other, 256) && Significant(other) != Significant(lock) && KeyOf(other) == KeyOf(lock)
  }

  lemma ChainsDiffer(a: seq<CodePoint>, b: seq<CodePoint>)
    requires 2 <= |a| && 2 <= |b| && Below(a, 256) && Below(b, 256)
    ensures Chain(a) == Chain(b) <==> a == b
  {
    UnchainChain(a, |a|);
    UnchainChain(b, |b|);
    assert a[..|a|] == a && b[..|b|] == b;
  }

  lemma UnchainBelow(w: seq<Byte>)
    requires 2 <= |w|
    ensures Below(Unchain(w, |w|), 256)
  {
  }

  lemma SharedIsTwin(lock: seq<CodePoint>, other: seq<CodePoint>)
    requires 2 <= |lock| && Below(lock, 256) && SharesKey(lock, other)
    ensures 2 <= |other| && Twin(Chain(Significant(lock)), Chain(Significant(other)))
  {
    EscapeEmpty(Chain(Significant(lock)));
    ChainsDiffer(Significant(lock), Significant(other));
  }

  lemma TwinIsShared(lock: seq<CodePoint>, v: seq<Byte>)
    requires 2 <= |lock| && Below(lock, 256) && Fits(v) && Twin(Chain(Significant(lock)), v)
    ensures |Unchain(v, |v|)| == |v| && SharesKey(lock, Unchain(v, |v|))
  {
    var other := Unchain(v, |v|);
    KeyOfUnchained(v);
    UnchainBelow(v);
    ChainUnchain(v);
    assert Significant(other) == other;
  }

  /** A byte-valued lock shares its key with a different one if and only if its chain is ambiguous. */
  lemma SharedExactly(lock: seq<CodePoint>)
    requires 2 <= |lock| && Below(lock, 256)
    ensures (exists other :: SharesKey(lock, other)) <==> Ambiguous(Chain(Significant(lock)))
  {
    var w := Chain(Significant(lock));
    TwinsExactly(w);
    if other :| SharesKey(lock, other) {
      SharedIsTwin(lock, other);
      assert Fits(Chain(Significant(other)));
    }
    if v :| Fits(v) && Twin(w, v) {
      TwinIsShared(lock, v);
    }
  }

  /** It shares it with one that has as many significant characters if and only if its chain is balanced. */
  lemma SharedAtLengthExactly(lock: seq<CodePoint>)
    requires 2 <= |lock| && Below(lock, 256)
    ensures (exists other :: SharesKey(lock, other) && |Significant(other)| == |Significant(lock)|) <==>
            Balanced(Chain(Significant(lock)))
  {
    var w := Chain(Significant(lock));
    EqualTwinsExactly(w);
    if other :| SharesKey(lock, other) && |Significant(other)| == |Significant(lock)| {
      SharedIsTwin(lock, other);
      assert |Chain(Significant(other))| == |w|;
    }
    if v :| |v| == |w| && Twin(w, v) {
      TwinIsShared(lock, v);
      assert Significant(Unchain(v, |v|)) == Unchain(v, |v|);
    }
  }

  /** Of two locks with one key, at least one sends a raw '/'. */
  lemma SharedMixesSlash(lock: seq<CodePoint>, other: seq<CodePoint>)
    requires 2 <= |lock| && Below(lock, 256) && SharesKey(lock, other)
    ensures 2 <= |other| && (MixesSlash(Significant(lock)) || MixesSlash(Significant(other)))
  {
    SharedIsTwin(lock, other);
    KeyInverts(lock);
    KeyInverts(other);
  }
}

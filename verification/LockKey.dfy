/** The $Lock / $Key handshake: the client's `lock2key` (dc_common.py) and the hub's
    streaming `VerifyLockKey` (core/utility.cpp).

    Characters are code points (`bv21`); bytes are `bv8`.  The client truncates each XOR to a byte
    before swapping its nibbles. */
module LockKey {
  import opened Sequences

  type CodePoint = bv21
  type Byte = bv8

  datatype Result = Key(bytes: seq<Byte>) | IndexError

  const LOCK_SIZE: nat := 46
  const SLASH: Byte := 0x2F

  // ---------- the byte level ----------

  function Truncate(c: CodePoint): Byte {
    (c & 0xFF) as Byte
  }

  function Swap(v: Byte): Byte {
    ((v << 4) & 0xF0) | ((v >> 4) & 0x0F)
  }

  predicate Reserved(b: Byte) {
    b == 0 || b == 5 || b == 36 || b == 96 || b == 124 || b == 126
  }

  /** The three decimal digits of a reserved byte, as ASCII. */
  function Digits(b: Byte): seq<Byte>
    requires Reserved(b)
  {
    if b == 0 then [0x30, 0x30, 0x30]
    else if b == 5 then [0x30, 0x30, 0x35]
    else if b == 36 then [0x30, 0x33, 0x36]
    else if b == 96 then [0x30, 0x39, 0x36]
    else if b == 124 then [0x31, 0x32, 0x34]
    else [0x31, 0x32, 0x36]
  }

  /** One byte as it is sent: reserved bytes travel as "/%DCNddd%/". */
  function Code(b: Byte): seq<Byte> {
    if Reserved(b)
    then [SLASH, 0x25, 0x44, 0x43, 0x4E] + Digits(b) + [0x25, SLASH]
    else [b]
  }

  function Codes(w: seq<Byte>): seq<seq<Byte>> {
    seq(|w|, i requires 0 <= i < |w| => Code(w[i]))
  }

  function Escape(w: seq<Byte>): seq<Byte> {
    Flatten(Codes(w))
  }

  /** The number three ASCII digits spell. */
  function Spelt(ds: seq<Byte>): int
    requires |ds| == 3
  {
    100 * (ds[0] as int - 0x30) + 10 * (ds[1] as int - 0x30) + (ds[2] as int - 0x30)
  }

  /** A reserved byte is sent as its own number, between "/%DCN" and "%/". */
  lemma CodeSpells(b: Byte)
    requires Reserved(b)
    ensures var code := Code(b);
            && |code| == 10 && code[..5] == [0x2F, 0x25, 0x44, 0x43, 0x4E] && code[8..] == [0x25, 0x2F]
            && (forall i :: 5 <= i < 8 ==> 0x30 <= code[i] <= 0x39) && Spelt(code[5..8]) == b as int
  {
    assert Code(b)[5..8] == Digits(b);
  }

  lemma EscapeHead(w: seq<Byte>)
    requires w != []
    ensures Escape(w) == Code(w[0]) + Escape(w[1..])
  {
    assert Codes(w)[1..] == Codes(w[1..]);
  }

  // ---------- decoding a key ----------

  datatype Parsed = NoByte | OneByte(value: Byte, rest: seq<Byte>)

  /** Reads one transmitted byte.  A '/' must open an escape. */
  function ParseOne(key: seq<Byte>): Parsed
    requires key != []
    ensures ParseOne(key).OneByte? ==> |ParseOne(key).rest| < |key|
  {
    if key[0] != SLASH then OneByte(key[0], key[1..])
    else if |key| < 10 then NoByte
    else if key[..10] == Code(0) then OneByte(0, key[10..])
    else if key[..10] == Code(5) then OneByte(5, key[10..])
    else if key[..10] == Code(36) then OneByte(36, key[10..])
    else if key[..10] == Code(96) then OneByte(96, key[10..])
    else if key[..10] == Code(124) then OneByte(124, key[10..])
    else if key[..10] == Code(126) then OneByte(126, key[10..])
    else NoByte
  }

  datatype Decoded = Malformed | Bytes(values: seq<Byte>)

  function Decode(key: seq<Byte>): Decoded
    decreases |key|
  {
    if key == [] then Bytes([])
    else match ParseOne(key)
      case NoByte => Malformed
      case OneByte(v, rest) =>
        match Decode(rest)
        case Malformed => Malformed
        case Bytes(vs) => Bytes([v] + vs)
  }

  lemma ParseCode(b: Byte, tail: seq<Byte>)
    requires b != SLASH
    ensures ParseOne(Code(b) + tail) == OneByte(b, tail)
  {
    var key := Code(b) + tail;
    if Reserved(b) {
      assert key[..10] == Code(b) && key[10..] == tail;
      assert |Code(b)| == 10;
      assert Code(0)[5..8] == Digits(0) && Code(5)[5..8] == Digits(5) && Code(36)[5..8] == Digits(36);
      assert Code(96)[5..8] == Digits(96) && Code(124)[5..8] == Digits(124) && Code(126)[5..8] == Digits(126);
    } else {
      assert key[0] == b && key[1..] == tail;
    }
  }

  /** The escaping is uniquely readable exactly when no raw '/' is sent. */
  lemma {:induction false} DecodeEscape(w: seq<Byte>)
    ensures Decode(Escape(w)) == Bytes(w) <==> SLASH !in w
  {
    if w != [] {
      EscapeHead(w);
      DecodeEscape(w[1..]);
      assert w == [w[0]] + w[1..];
      if w[0] == SLASH {
        NoSlashDecoded(Escape(w));
      } else {
        DecodeCode(w[0], Escape(w[1..]));
        var rest := Decode(Escape(w[1..]));
        assert rest.Bytes? ==> ([w[0]] + rest.values)[1..] == rest.values;
      }
    }
  }

  lemma DecodeCode(b: Byte, tail: seq<Byte>)
    requires b != SLASH
    ensures Decode(Code(b) + tail) == match Decode(tail) case Malformed => Malformed case Bytes(vs) => Bytes([b] + vs)
  {
    ParseCode(b, tail);
  }

  /** No decoding starts with a '/'. */
  lemma NoSlashDecoded(key: seq<Byte>)
    ensures Decode(key).Bytes? && Decode(key).values != [] ==> Decode(key).values[0] != SLASH
  {
  }

  // ---------- the XOR chain ----------

  /** The i-th byte before the nibble swap. */
  function Mix(lock: seq<CodePoint>, i: nat): Byte
    requires 2 <= |lock| && i < |lock|
  {
    if i == 0 then Truncate(lock[0] ^ lock[|lock| - 1] ^ lock[|lock| - 2] ^ 5)
    else Truncate(lock[i] ^ lock[i - 1])
  }

  function Chain(lock: seq<CodePoint>): (w: seq<Byte>)
    requires 2 <= |lock|
    ensures |w| == |lock|
    ensures forall i :: 0 <= i < |w| ==> w[i] == Swap(Mix(lock, i))
  {
    seq(|lock|, i requires 0 <= i < |lock| => Swap(Mix(lock, i)))
  }

  /** The key a lock is answered with: only the first 46 characters count, and a lock of one
      character makes the client index out of range. */
  function KeyOf(lock: seq<CodePoint>): Result {
    var lock46 := lock[..Min(|lock|, LOCK_SIZE)];
    if |lock46| == 0 then Key([])
    else if |lock46| == 1 then IndexError
    else Key(Escape(Chain(lock46)))
  }

  lemma EscapeNext(w: seq<Byte>, i: nat)
    requires i < |w|
    ensures Escape(w[..i + 1]) == Escape(w[..i]) + Code(w[i])
  {
    FlattenAppend(Codes(w[..i]), Code(w[i]));
    assert Codes(w[..i]) + [Code(w[i])] == Codes(w[..i + 1]);
  }

  method Lock2Key(lock: seq<CodePoint>) returns (r: Result)
    ensures r == KeyOf(lock)
  {
    var lock46 := lock[..Min(|lock|, LOCK_SIZE)];
    var result: seq<Byte> := [];
    for i := 0 to |lock46|
      invariant i == 0 ==> result == []
      invariant i > 0 ==> |lock46| >= 2 && result == Escape(Chain(lock46)[..i])
    {
      var v: Byte;
      if i == 0 {
        if |lock46| < 2 {
          return IndexError;
        }
        v := Truncate(lock46[0] ^ lock46[|lock46| - 1] ^ lock46[|lock46| - 2] ^ 5);
      } else {
        v := Truncate(lock46[i] ^ lock46[i - 1]);
      }
      v := ((v << 4) & 0xF0) | ((v >> 4) & 0x0F);
      assert v == Chain(lock46)[i];
      EscapeNext(Chain(lock46), i);
      result := result + Code(v);
    }
    if |lock46| > 0 {
      assert Chain(lock46)[..|lock46|] == Chain(lock46);
    }
    r := Key(result);
  }

  // ---------- undoing the chain ----------

  ghost predicate Below(lock: seq<CodePoint>, bound: CodePoint) {
    forall i :: 0 <= i < |lock| ==> lock[i] < bound
  }

  /** The first n characters of the lock whose chain is w: the first one is the XOR of the first
      byte, the last byte and 5, every later one adds its own byte to its predecessor. */
  function Unchain(w: seq<Byte>, n: nat): (lock: seq<CodePoint>)
    requires 2 <= |w| && n <= |w|
    ensures |lock| == n
    ensures forall i :: 0 <= i < n ==> lock[i] < 256
    ensures n > 0 ==> lock[0] == (Swap(w[0]) ^ Swap(w[|w| - 1]) ^ 5) as CodePoint
    ensures forall i :: 0 < i < n ==> lock[i] == lock[i - 1] ^ (Swap(w[i]) as CodePoint)
  {
    if n == 0 then []
    else if n == 1 then [(Swap(w[0]) ^ Swap(w[|w| - 1]) ^ 5) as CodePoint]
    else
      var front := Unchain(w, n - 1);
      XorBelow(front[n - 2], Swap(w[n - 1]));
      front + [front[n - 2] ^ (Swap(w[n - 1]) as CodePoint)]
  }

  lemma XorBelow(a: CodePoint, b: Byte)
    requires a < 256
    ensures a ^ (b as CodePoint) < 256
    ensures Truncate((a ^ (b as CodePoint)) ^ a) == b
  {
  }

  lemma SwapTwice(v: Byte)
    ensures Swap(Swap(v)) == v
  {
  }

  lemma XorChain(a: CodePoint, b: CodePoint)
    requires a < 256 && b < 256
    ensures b ^ (Truncate(a ^ b) as CodePoint) == a
  {
  }

  lemma FirstChar(first: CodePoint, last: CodePoint, prev: CodePoint)
    requires first < 256 && last < 256 && prev < 256
    ensures (Truncate(first ^ last ^ prev ^ 5) ^ Truncate(last ^ prev) ^ 5) as CodePoint == first
  {
  }

  lemma FirstByte(v: Byte, last: CodePoint, prev: CodePoint, step: Byte)
    requires last < 256 && prev < 256 && last == prev ^ (step as CodePoint)
    ensures Truncate(((v ^ step ^ 5) as CodePoint) ^ last ^ prev ^ 5) == v
  {
  }

  lemma {:induction false} UnchainChain(lock: seq<CodePoint>, n: nat)
    requires 2 <= |lock| && n <= |lock| && Below(lock, 256)
    ensures Unchain(Chain(lock), n) == lock[..n]
  {
    var w := Chain(lock);
    if n == 1 {
      var last := |lock| - 1;
      SwapTwice(Mix(lock, 0));
      SwapTwice(Mix(lock, last));
      FirstChar(lock[0], lock[last], lock[last - 1]);
    } else if n > 1 {
      UnchainChain(lock, n - 1);
      SwapTwice(Mix(lock, n - 1));
      XorChain(lock[n - 1], lock[n - 2]);
    }
  }

  lemma MixFirst(w: seq<Byte>)
    requires 2 <= |w|
    ensures Mix(Unchain(w, |w|), 0) == Swap(w[0])
  {
    var lock := Unchain(w, |w|);
    FirstByte(Swap(w[0]), lock[|w| - 1], lock[|w| - 2], Swap(w[|w| - 1]));
  }

  lemma MixLater(w: seq<Byte>, i: nat)
    requires 2 <= |w| && 0 < i < |w|
    ensures Mix(Unchain(w, |w|), i) == Swap(w[i])
  {
    var lock := Unchain(w, |w|);
    var v := Swap(w[i]);
    assert lock[i] == lock[i - 1] ^ (v as CodePoint);
    XorBelow(lock[i - 1], v);
  }

  lemma ChainUnchain(w: seq<Byte>)
    requires 2 <= |w|
    ensures Chain(Unchain(w, |w|)) == w
  {
    forall i | 0 <= i < |w|
      ensures Chain(Unchain(w, |w|))[i] == w[i]
    {
      SwapTwice(w[i]);
      if i == 0 { MixFirst(w); } else { MixLater(w, i); }
    }
  }

  /** The XOR of the first n bytes of a chain. */
  function Sum(w: seq<Byte>, n: nat): Byte
    requires n <= |w|
  {
    if n == 0 then 0 else Sum(w, n - 1) ^ w[n - 1]
  }

  lemma SwapXor(a: Byte, b: Byte)
    ensures Swap(a ^ b) == Swap(a) ^ Swap(b)
  {
  }

  lemma Telescoped(rest: CodePoint, at: CodePoint, next: CodePoint)
    ensures Truncate(at ^ rest) ^ Truncate(next ^ at) == Truncate(next ^ rest)
  {
  }

  /** What a chain adds up to at one of its characters. */
  function Total(lock: seq<CodePoint>, at: CodePoint): Byte
    requires 2 <= |lock|
  {
    Swap(Truncate(at ^ (lock[|lock| - 1] ^ lock[|lock| - 2] ^ 5)))
  }

  lemma TotalStep(lock: seq<CodePoint>, at: CodePoint, next: CodePoint)
    requires 2 <= |lock|
    ensures Total(lock, at) ^ Swap(Truncate(next ^ at)) == Total(lock, next)
  {
    var rest := lock[|lock| - 1] ^ lock[|lock| - 2] ^ 5;
    Telescoped(rest, at, next);
    SwapXor(Truncate(at ^ rest), Truncate(next ^ at));
  }

  lemma TotalFirst(lock: seq<CodePoint>)
    requires 2 <= |lock|
    ensures Total(lock, lock[0]) == Swap(Mix(lock, 0))
  {
    XorAssoc(lock[0], lock[|lock| - 1], lock[|lock| - 2]);
  }

  lemma XorAssoc(a: CodePoint, b: CodePoint, c: CodePoint)
    ensures a ^ (b ^ c ^ 5) == a ^ b ^ c ^ 5
  {
  }

  lemma {:induction false} SumIs(w: seq<Byte>, totals: seq<Byte>, n: nat)
    requires 0 < n <= |w| == |totals| && totals[0] == w[0]
    requires forall i :: 0 <= i < |w| - 1 ==> totals[i + 1] == totals[i] ^ w[i + 1]
    ensures Sum(w, n) == totals[n - 1]
    decreases n
  {
    if n == 1 {
      ZeroXor(w[0]);
    } else {
      SumIs(w, totals, n - 1);
      assert totals[n - 2 + 1] == totals[n - 2] ^ w[n - 2 + 1];
    }
  }

  /** The bytes of a chain add up: the first n of them to the n-th character, the last two, and 5. */
  lemma ChainAdds(lock: seq<CodePoint>, n: nat)
    requires 2 <= |lock| && 0 < n <= |lock|
    ensures Sum(Chain(lock), n) == Total(lock, lock[n - 1])
  {
    var w := Chain(lock);
    var totals := seq(|lock|, i requires 0 <= i < |lock| => Total(lock, lock[i]));
    TotalFirst(lock);
    forall i | 0 <= i < |w| - 1
      ensures totals[i + 1] == totals[i] ^ w[i + 1]
    {
      TotalStep(lock, lock[i], lock[i + 1]);
    }
    SumIs(w, totals, n);
  }

  lemma ZeroXor(b: Byte)
    ensures 0 ^ b == b
  {
  }

  lemma LastCancels(last: CodePoint, prev: CodePoint)
    ensures Truncate(last ^ (last ^ prev ^ 5)) == Truncate(prev) ^ 5
  {
  }

  /** So the bytes of a key before escaping add up to the last character but one, with 5, nibbles swapped. */
  lemma KeyAdds(lock: seq<CodePoint>)
    requires 2 <= |lock|
    ensures Sum(Chain(lock), |lock|) == Swap(Truncate(lock[|lock| - 2]) ^ 5)
  {
    ChainAdds(lock, |lock|);
    LastCancels(lock[|lock| - 1], lock[|lock| - 2]);
  }

  /** Only the first 46 characters count. */
  lemma FirstCharactersCount(lock: seq<CodePoint>)
    ensures |lock| > 46 ==> KeyOf(lock) == KeyOf(lock[..46])
  {
    if |lock| > 46 {
      assert lock[..46][..46] == lock[..46];
    }
  }

  // ---------- when a raw '/' is sent ----------

  lemma SwapSlash(v: Byte)
    ensures Swap(v) == SLASH <==> v == 0xF2
  {
  }

  lemma SevenBitMix(a: CodePoint, b: CodePoint)
    requires a < 128 && b < 128
    ensures Truncate(a ^ b) != 0xF2
  {
  }

  /** The XOR result whose swapped form is '/'. */
  ghost predicate MixesSlash(lock: seq<CodePoint>)
    requires 2 <= |lock|
  {
    exists i :: 0 <= i < |lock| && Mix(lock, i) == 0xF2
  }

  lemma SlashFromMix(lock: seq<CodePoint>)
    requires 2 <= |lock|
    ensures SLASH in Chain(lock) <==> MixesSlash(lock)
  {
    forall i | 0 <= i < |lock|
      ensures Chain(lock)[i] == SLASH <==> Mix(lock, i) == 0xF2
    {
      SwapSlash(Mix(lock, i));
    }
    if SLASH in Chain(lock) {
      var i :| 0 <= i < |lock| && Chain(lock)[i] == SLASH;
      assert Mix(lock, i) == 0xF2;
    }
  }

  lemma SevenBitNeverMixesSlash(lock: seq<CodePoint>)
    requires 2 <= |lock| && Below(lock, 128)
    ensures !MixesSlash(lock)
  {
    forall i | 0 <= i < |lock|
      ensures Mix(lock, i) != 0xF2
    {
      if i == 0 {
        SevenBitMix(lock[0] ^ lock[|lock| - 1], lock[|lock| - 2] ^ 5);
      } else {
        SevenBitMix(lock[i], lock[i - 1]);
      }
    }
  }

  // ---------- main results ----------

  datatype Recovered = Unreadable | Lock(chars: seq<CodePoint>)

  /** Reading a lock back out of a key. */
  function Recover(key: seq<Byte>): Recovered {
    match Decode(key)
    case Malformed => Unreadable
    case Bytes(w) => if |w| < 2 then Unreadable else Lock(Unchain(w, |w|))
  }

  /** For byte-valued characters the key gives back the 46 significant characters of the lock
      exactly when no XOR of the chain is 0xF2. */
  lemma KeyInverts(lock: seq<CodePoint>)
    requires 2 <= |lock| && Below(lock, 256)
    ensures KeyOf(lock).Key?
    ensures var lock46 := lock[..Min(|lock|, LOCK_SIZE)];
            Recover(KeyOf(lock).bytes) == Lock(lock46) <==> !MixesSlash(lock46)
  {
    var lock46 := lock[..Min(|lock|, LOCK_SIZE)];
    DecodeEscape(Chain(lock46));
    SlashFromMix(lock46);
    UnchainChain(lock46, |lock46|);
    assert lock46[..|lock46|] == lock46;
    match Decode(KeyOf(lock).bytes) {
      case Malformed =>
      case Bytes(w) => if |w| >= 2 { ChainUnchain(w); }
    }
  }

  /** Every 7-bit lock is recovered, so different locks are answered with different keys. */
  lemma SevenBitLocksRecovered(lock: seq<CodePoint>, other: seq<CodePoint>)
    requires 2 <= |lock| && Below(lock, 128)
    requires 2 <= |other| && Below(other, 128)
    ensures KeyOf(lock).Key? && Recover(KeyOf(lock).bytes) == Lock(lock[..Min(|lock|, LOCK_SIZE)])
    ensures KeyOf(lock) == KeyOf(other) <==> lock[..Min(|lock|, LOCK_SIZE)] == other[..Min(|other|, LOCK_SIZE)]
  {
    KeyInverts(lock);
    KeyInverts(other);
    SevenBitNeverMixesSlash(lock[..Min(|lock|, LOCK_SIZE)]);
    SevenBitNeverMixesSlash(other[..Min(|other|, LOCK_SIZE)]);
  }

  /** With 8-bit characters two locks can share a key: one sends a raw "/%DCN000%/" where the
      other escapes a zero. */
  lemma EightBitLocksCollide() returns (a: seq<CodePoint>, b: seq<CodePoint>)
    ensures 2 <= |a| <= LOCK_SIZE && 2 <= |b| <= LOCK_SIZE && Below(a, 256) && Below(b, 256)
    ensures a != b && KeyOf(a) == KeyOf(b)
  {
    var wa: seq<Byte>, wb: seq<Byte> := [0x41, 0], [0x41] + Code(0);
    a, b := Unchain(wa, |wa|), Unchain(wb, |wb|);
    KeyOfUnchained(wa);
    KeyOfUnchained(wb);
    EscapesCollide();
  }

  lemma EscapesCollide()
    ensures Escape([0x41, 0]) == Escape([0x41] + Code(0))
  {
    var w: seq<Byte> := [0x41, 0];
    RawBytes([0x41] + Code(0));
    EscapeHead(w);
    EscapeHead([0]);
    assert w[1..] == [0] && [0 as Byte][1..] == [];
  }

  lemma KeyOfUnchained(w: seq<Byte>)
    requires 2 <= |w| <= LOCK_SIZE
    ensures KeyOf(Unchain(w, |w|)) == Key(Escape(w))
  {
    var lock := Unchain(w, |w|);
    ChainUnchain(w);
    assert lock[..Min(|lock|, LOCK_SIZE)] == lock;
  }

  lemma {:induction false} RawBytes(w: seq<Byte>)
    requires forall b :: b in w ==> !Reserved(b)
    ensures Escape(w) == w
  {
    if w != [] {
      EscapeHead(w);
      RawBytes(w[1..]);
    }
  }

  /** No lock at all makes the client send one of the six reserved bytes. */
  lemma NoReservedByteSent(lock: seq<CodePoint>)
    ensures KeyOf(lock).Key? ==> forall b :: b in KeyOf(lock).bytes ==> !Reserved(b)
  {
    if |lock| >= 2 {
      EscapedClean(Chain(lock[..Min(|lock|, LOCK_SIZE)]));
    }
  }

  lemma {:induction false} EscapedClean(w: seq<Byte>)
    ensures forall b :: b in Escape(w) ==> !Reserved(b)
  {
    if w != [] {
      EscapeHead(w);
      EscapedClean(w[1..]);
    }
  }

  // ---------- the hub's side ----------

  /** Where the C string in a buffer ends. */
  function Nul(buffer: seq<Byte>): (n: nat)
    requires 0 in buffer
    ensures n < |buffer| && buffer[n] == 0 && 0 !in buffer[..n]
  {
    if buffer[0] == 0 then 0 else
      var n := 1 + Nul(buffer[1..]);
      assert buffer[..n] == [buffer[0]] + buffer[1..][..n - 1];
      n
  }

  /** Compares the expected form of one byte with the C string at `pos`; a NUL never matches. */
  method MatchAt(received: seq<Byte>, pos: nat, expected: seq<Byte>) returns (matched: bool)
    requires 0 in received && pos <= Nul(received) && 0 !in expected
    ensures matched <==> pos + |expected| <= Nul(received) && received[..Nul(received)][pos..pos + |expected|] == expected
  {
    for k := 0 to |expected|
      invariant pos + k <= Nul(received)
      invariant forall j :: 0 <= j < k ==> received[pos + j] == expected[j]
    {
      if received[pos + k] != expected[k] {
        if pos + |expected| <= Nul(received) {
          assert received[..Nul(received)][pos..pos + |expected|][k] == received[pos + k];
        }
        return false;
      }
    }
    return true;
  }

  /** What the hub expects to receive, one part per lock character. */
  function Expected(lock: seq<CodePoint>): (parts: seq<seq<Byte>>)
    requires |lock| >= LOCK_SIZE
    ensures |parts| == LOCK_SIZE
  {
    Codes(Chain(lock[..LOCK_SIZE]))
  }

  /** One round of the hub's loop: the expected form of character i against the key at `pos`. */
  method MatchByte(lock: seq<CodePoint>, i: nat, received: seq<Byte>, pos: nat) returns (matched: bool, next: nat)
    requires |lock| >= LOCK_SIZE && i < LOCK_SIZE && 0 in received && pos <= Nul(received)
    ensures next == pos + |Expected(lock)[i]|
    ensures matched <==> next <= Nul(received) && received[..Nul(received)][pos..next] == Expected(lock)[i]
  {
    var v: Byte;
    if i == 0 {
      v := Truncate(lock[0] ^ lock[45] ^ lock[44] ^ 5);
    } else {
      v := Truncate(lock[i] ^ lock[i - 1]);
    }
    v := ((v << 4) & 0xF0) | ((v >> 4) & 0x0F);
    var expected := Code(v);
    CodeClean(v);
    matched := MatchAt(received, pos, expected);
    next := pos + |expected|;
    assert v == Chain(lock[..LOCK_SIZE])[i];
  }

  /** The hub compares the received key with the expected one byte by byte, expanding escapes as it
      goes, and accepts exactly the key the client computes from the same 46 characters. */
  method VerifyLockKey(lock: seq<CodePoint>, received: seq<Byte>) returns (ok: bool)
    requires |lock| >= LOCK_SIZE && 0 in received
    ensures ok <==> received[..Nul(received)] == Flatten(Expected(lock))
  {
    ghost var sent := received[..Nul(received)];
    ghost var parts := Expected(lock);
    var pos := 0;
    for i := 0 to LOCK_SIZE
      invariant 0 <= pos <= |sent| && sent[..pos] == Flatten(parts[..i])
    {
      var matched, next := MatchByte(lock, i, received, pos);
      PrefixStep(parts, i, sent, pos);
      if !matched {
        return false;
      }
      pos := next;
    }
    assert parts[..LOCK_SIZE] == parts;
    return received[pos] == 0;
  }

  /** The key the hub accepts is the one the client computes from the same lock. */
  lemma HubAcceptsClientKey(lock: seq<CodePoint>)
    requires |lock| >= LOCK_SIZE
    ensures KeyOf(lock) == Key(Flatten(Expected(lock)))
    ensures Below(lock, 256) && !MixesSlash(lock[..LOCK_SIZE]) ==>
              Recover(Flatten(Expected(lock))) == Lock(lock[..LOCK_SIZE])
  {
    if Below(lock, 256) {
      KeyInverts(lock);
    }
  }

  lemma CodeClean(b: Byte)
    ensures forall k :: 0 <= k < |Code(b)| ==> Code(b)[k] != 0
  {
  }
}

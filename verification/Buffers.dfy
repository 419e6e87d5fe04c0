/** The growable byte buffer behind every shared queue: a vector plus the number of bytes in use
    (CFlyBuffer, core/GlobalDataQueue.h, and its growth in core/GlobalDataQueue.cpp).

    A vector has a capacity and a size.  The hub asks `capacity()` whether data fits but grows with
    `resize()`, which carries over only the first `size()` elements.  `cells` is the whole
    allocation, so `|cells|` is the capacity. */
module Buffers {
  import opened Sequences

  const INITIAL_SIZE: nat := 256

  datatype Buf = Buf(cells: string, size: nat, len: nat) {
    ghost predicate Valid() {
      size <= |cells| && len < |cells|
    }

    function Content(): string
      requires len <= |cells|
    {
      cells[..len]
    }

    /** Nothing in use lies beyond the vector's size. */
    predicate Tight() {
      len < size
    }
  }

  function Zeros(n: nat): (z: string)
    ensures |z| == n && forall i :: 0 <= i < n ==> z[i] == '\0'
  {
    seq(n, _ => '\0')
  }

  /** A new vector of 256 zeros; its capacity is its size. */
  function Empty(): (b: Buf)
    ensures b.Valid() && b.Tight() && b.Content() == ""
  {
    Buf(Zeros(INITIAL_SIZE), INITIAL_SIZE, 0)
  }

  /** `resize(n)` past the capacity: a new allocation of n + spare cells that keeps `size` old ones.
      The amount to spare is the library's choice. */
  function Resize(b: Buf, n: nat, spare: nat): (r: Buf)
    requires b.size <= |b.cells| < n
    ensures r.size == n && |r.cells| == n + spare && r.len == b.len
    ensures forall i :: 0 <= i < |r.cells| ==> r.cells[i] == if i < b.size then b.cells[i] else '\0'
  {
    Buf(b.cells[..b.size] + Zeros(n + spare - b.size), n, b.len)
  }

  function Overwrite(cells: string, pos: nat, data: string): (r: string)
    requires pos + |data| <= |cells|
    ensures |r| == |cells|
    ensures forall i :: 0 <= i < |r| ==> r[i] == if pos <= i < pos + |data| then data[i - pos] else cells[i]
  {
    cells[..pos] + data + cells[pos + |data|..]
  }

  /** Whether appending `szLen` bytes makes the vector grow (`AlignUp` only adds one). */
  predicate Grows(b: Buf, szLen: nat) {
    |b.cells| < b.len + szLen + 1
  }

  /** What `AddDataToQueue` does to the buffer. */
  function Append(b: Buf, data: string, spare: nat): (r: Buf)
    requires b.Valid()
    ensures r.Valid() && r.len == b.len + |data| && r.size == if Grows(b, |data|) then r.len + 1 else b.size
    ensures |r.cells| == if Grows(b, |data|) then r.len + 1 + spare else |b.cells|
  {
    var g := if Grows(b, |data|) then Resize(b, b.len + |data| + 1, spare) else b;
    Buf(Overwrite(Overwrite(g.cells, g.len, data), g.len + |data|, "\0"), g.size, g.len + |data|)
  }

  /** Appending keeps the bytes in use exactly when it does not have to grow a vector whose size was
      overrun; otherwise everything from `size` on is replaced by zeros. */
  lemma AppendContent(b: Buf, data: string, spare: nat)
    requires b.Valid()
    ensures Append(b, data, spare).Content() ==
            if Grows(b, |data|) && b.size < b.len
            then b.Content()[..b.size] + Zeros(b.len - b.size) + data
            else b.Content() + data
  {
    var r := Append(b, data, spare).Content();
    var want := if Grows(b, |data|) && b.size < b.len
                then b.Content()[..b.size] + Zeros(b.len - b.size) + data
                else b.Content() + data;
    assert |r| == |want|;
    forall i | 0 <= i < |r|
      ensures r[i] == want[i]
    {
    }
  }

  /** When the capacity follows the size, as the standard permits, nothing is ever lost. */
  lemma ExactGrowthAppends(b: Buf, data: string)
    requires b.Valid() && b.size == |b.cells|
    ensures var r := Append(b, data, 0);
            r.size == |r.cells| && r.Content() == b.Content() + data
  {
    AppendContent(b, data, 0);
  }

  // ---------- whole runs under an arbitrary growth policy ----------

  /** Extra capacity as a function of the old size, the old capacity and the requested size. */
  type Policy = (nat, nat, nat) -> nat

  function Extend(b: Buf, data: string, policy: Policy): (r: Buf)
    requires b.Valid()
    ensures r.Valid() && r.len == b.len + |data|
  {
    Append(b, data, policy(b.size, |b.cells|, b.len + |data| + 1))
  }

  function Run(b: Buf, chunks: seq<string>, policy: Policy): (r: Buf)
    requires b.Valid()
    ensures r.Valid()
    decreases |chunks|
  {
    if chunks == [] then b else Run(Extend(b, chunks[0], policy), chunks[1..], policy)
  }

  /** Growing the vector would lose bytes in use: some that lie beyond its size are not zero. */
  predicate Overrun(b: Buf)
    requires b.Valid()
  {
    exists i :: b.size <= i < b.len && b.cells[i] != '\0'
  }

  /** Some append of the run grows a buffer that has been overrun. */
  predicate Overruns(b: Buf, chunks: seq<string>, policy: Policy)
    requires b.Valid()
    decreases |chunks|
  {
    chunks != [] &&
    ((Grows(b, |chunks[0]|) && Overrun(b)) || Overruns(Extend(b, chunks[0], policy), chunks[1..], policy))
  }

  lemma ExtendKeeps(b: Buf, data: string, policy: Policy)
    requires b.Valid() && !(Grows(b, |data|) && Overrun(b))
    ensures Extend(b, data, policy).Content() == b.Content() + data
  {
    AppendContent(b, data, policy(b.size, |b.cells|, b.len + |data| + 1));
    if Grows(b, |data|) && b.size < b.len {
      var cut := b.Content()[..b.size] + Zeros(b.len - b.size);
      assert forall i :: 0 <= i < b.len ==> cut[i] == b.Content()[i];
      assert cut == b.Content();
    }
  }

  lemma {:induction false} KeptRun(b: Buf, chunks: seq<string>, policy: Policy)
    requires b.Valid() && !Overruns(b, chunks, policy)
    ensures Run(b, chunks, policy).Content() == b.Content() + Flatten(chunks)
    decreases |chunks|
  {
    if chunks == [] {
      assert b.Content() + [] == b.Content();
    } else {
      ExtendKeeps(b, chunks[0], policy);
      KeptRun(Extend(b, chunks[0], policy), chunks[1..], policy);
      ConcatAssoc(b.Content(), chunks[0], Flatten(chunks[1..]));
    }
  }

  /** A byte of the content changes only by becoming zero. */
  lemma ByteAfter(b: Buf, data: string, policy: Policy, i: nat)
    requires b.Valid() && i < b.len
    ensures Extend(b, data, policy).Content()[i] ==
            if Grows(b, |data|) && b.size <= i then '\0' else b.Content()[i]
  {
    AppendContent(b, data, policy(b.size, |b.cells|, b.len + |data| + 1));
  }

  lemma {:induction false} ZeroStays(b: Buf, chunks: seq<string>, policy: Policy, i: nat)
    requires b.Valid() && i < b.len && b.Content()[i] == '\0'
    ensures i < Run(b, chunks, policy).len && Run(b, chunks, policy).Content()[i] == '\0'
    decreases |chunks|
  {
    if chunks != [] {
      ByteAfter(b, chunks[0], policy, i);
      ZeroStays(Extend(b, chunks[0], policy), chunks[1..], policy, i);
    }
  }

  lemma {:induction false} LossyRun(b: Buf, chunks: seq<string>, policy: Policy)
    requires b.Valid() && Overruns(b, chunks, policy)
    ensures Run(b, chunks, policy).Content() != b.Content() + Flatten(chunks)
    decreases |chunks|
  {
    var c := Extend(b, chunks[0], policy);
    if Grows(b, |chunks[0]|) && Overrun(b) {
      var i :| b.size <= i < b.len && b.cells[i] != '\0';
      ByteAfter(b, chunks[0], policy, i);
      ZeroStays(c, chunks[1..], policy, i);
      assert (b.Content() + Flatten(chunks))[i] == b.Content()[i] != '\0';
    } else {
      LossyRun(c, chunks[1..], policy);
      ExtendKeeps(b, chunks[0], policy);
      ConcatAssoc(b.Content(), chunks[0], Flatten(chunks[1..]));
    }
  }

  /** The buffer holds what was appended exactly when no append grew an overrun buffer: for every growth
      policy, every starting buffer and every list of commands. */
  lemma RunContent(b: Buf, chunks: seq<string>, policy: Policy)
    requires b.Valid()
    ensures Run(b, chunks, policy).Content() == b.Content() + Flatten(chunks) <==> !Overruns(b, chunks, policy)
  {
    if Overruns(b, chunks, policy) {
      LossyRun(b, chunks, policy);
    } else {
      KeptRun(b, chunks, policy);
    }
  }

  /** The same for a single append. */
  lemma ExtendExactly(b: Buf, data: string, policy: Policy)
    requires b.Valid()
    ensures Extend(b, data, policy).Content() == b.Content() + data <==> !(Grows(b, |data|) && Overrun(b))
  {
    var chunks := [data];
    RunContent(b, chunks, policy);
    assert chunks[1..] == [] && Flatten(chunks) == data + [];
    assert Run(b, chunks, policy) == Run(Extend(b, data, policy), [], policy);
  }

  // ---------- what the unused cells hold does not matter ----------

  /** The same bytes in use in vectors of the same measures. */
  ghost predicate Alike(b: Buf, c: Buf) {
    b.Valid() && c.Valid() && b.size == c.size && |b.cells| == |c.cells| && b.Content() == c.Content()
  }

  lemma ExtendAlike(b: Buf, c: Buf, data: string, policy: Policy)
    requires Alike(b, c)
    ensures Alike(Extend(b, data, policy), Extend(c, data, policy))
  {
    assert b.len == |b.Content()| == |c.Content()| == c.len;
    var d, e := Extend(b, data, policy), Extend(c, data, policy);
    assert Grows(b, |data|) == Grows(c, |data|);
    assert d.Content() == e.Content() by {
      AppendContent(b, data, policy(b.size, |b.cells|, b.len + |data| + 1));
      AppendContent(c, data, policy(b.size, |b.cells|, b.len + |data| + 1));
    }
  }

  lemma NothingAdded(b: Buf, policy: Policy)
    requires b.Valid()
    ensures Alike(b, Extend(b, "", policy))
  {
    AppendContent(b, "", policy(b.size, |b.cells|, b.len + 1));
    assert b.Content() + "" == b.Content();
  }

  lemma {:induction false} RunAppend(b: Buf, chunks: seq<string>, data: string, policy: Policy)
    requires b.Valid()
    ensures Run(b, chunks + [data], policy) == Extend(Run(b, chunks, policy), data, policy)
    decreases |chunks|
  {
    if chunks == [] {
      assert [data][1..] == [];
      assert Run(b, [data], policy) == Run(Extend(b, data, policy), [], policy);
    } else {
      assert (chunks + [data])[1..] == chunks[1..] + [data];
      RunAppend(Extend(b, chunks[0], policy), chunks[1..], data, policy);
    }
  }

  lemma RunAppendTwo(b: Buf, chunks: seq<string>, x: string, y: string, policy: Policy)
    requires b.Valid()
    ensures Run(b, chunks + [x, y], policy) == Extend(Extend(Run(b, chunks, policy), x, policy), y, policy)
  {
    assert chunks + [x] + [y] == chunks + [x, y];
    RunAppend(b, chunks, x, policy);
    RunAppend(b, chunks + [x], y, policy);
  }

  // ---------- policies ----------

  /** The capacity follows the size. */
  const EXACT: Policy := (size, capacity, n) => 0

  lemma {:induction false} ExactNeverOverruns(b: Buf, chunks: seq<string>)
    requires b.Valid() && b.size == |b.cells|
    ensures !Overruns(b, chunks, EXACT)
    decreases |chunks|
  {
    if chunks != [] {
      ExactGrowthAppends(b, chunks[0]);
      ExactNeverOverruns(Extend(b, chunks[0], EXACT), chunks[1..]);
    }
  }

  /** Whatever the policy, commands that fit the vector's first allocation are kept. */
  lemma {:induction false} ShortNeverOverruns(b: Buf, chunks: seq<string>, policy: Policy)
    requires b.Valid() && b.len + |Flatten(chunks)| < |b.cells|
    ensures !Overruns(b, chunks, policy)
    decreases |chunks|
  {
    if chunks != [] {
      ShortNeverOverruns(Extend(b, chunks[0], policy), chunks[1..], policy);
    }
  }

  /** The usual doubling vector: max(2 * size, n) cells. */
  const DOUBLING: Policy := (size, capacity, n) => if 2 * size > n then 2 * size - n else 0

  function Repeat(c: char, n: nat): (s: string)
    ensures |s| == n && forall i :: 0 <= i < n ==> s[i] == c
  {
    seq(n, _ => c)
  }

  /** Four ordinary commands are enough to lose bytes with doubling: 200 + 100 bytes grow the vector
      to size 301 and capacity 512, 100 more fit the capacity, and the next growth keeps only 301. */
  lemma DoublingLosesBytes()
    ensures var chunks := [Repeat('x', 200), Repeat('x', 100), Repeat('x', 100), Repeat('x', 200)];
            Run(Empty(), chunks, DOUBLING).Content() != Flatten(chunks)
  {
    var a, c, d := Repeat('x', 200), Repeat('x', 100), Repeat('x', 200);
    var chunks := [a, c, c, d];
    var b1 := Extend(Empty(), a, DOUBLING);
    var b2 := Extend(b1, c, DOUBLING);
    var b3 := Extend(b2, c, DOUBLING);
    assert b1.size == 256 && b2.size == 301 && |b2.cells| == 512 && b3.size == 301 && b3.len == 400;
    assert chunks[1..] == [c, c, d] && chunks[1..][1..] == [c, d] && chunks[1..][1..][1..] == [d];
    assert b3.cells[301] == 'x';
    assert Overruns(b3, [d], DOUBLING);
    assert Overruns(b2, [c, d], DOUBLING);
    assert Overruns(b1, [c, c, d], DOUBLING);
    assert Overruns(Empty(), chunks, DOUBLING);
    RunContent(Empty(), chunks, DOUBLING);
    assert Empty().Content() + Flatten(chunks) == Flatten(chunks);
  }
}

/** The log sink that rotates and compresses its files (core/Log.cpp). */
module RotatingLog {
  import opened Decimals
  import opened Options
  import opened Sequences

  type Bytes = seq<char>

  // ---------- what is on disk ----------

  /** The current file and the generations, newest first; gens[i] is the file number i + 1. */
  datatype Disk = Disk(current: Bytes, gens: seq<Option<Bytes>>)

  function Shifted<T>(gens: seq<Option<T>>, newest: T): (r: seq<Option<T>>)
    ensures |r| == |gens|
    ensures forall i :: 0 <= i < |r| ==> r[i] == if i == 0 then Some(newest) else gens[i - 1]
  {
    if gens == [] then [] else [Some(newest)] + gens[..|gens| - 1]
  }

  /** One message reaches the disk. */
  function Sink(d: Disk, limit: nat, msg: Bytes): Disk {
    if |d.current| + |msg| > limit && d.current != [] then Disk(msg, Shifted(d.gens, d.current))
    else d.(current := d.current + msg)
  }

  // ---------- the same disk, message by message ----------

  type File = seq<Bytes>

  datatype Log = Log(current: File, gens: seq<Option<File>>)

  function Data(f: File): Bytes {
    Flatten(f)
  }

  function Accept(l: Log, limit: nat, msg: Bytes): Log {
    if |Data(l.current)| + |msg| > limit && Data(l.current) != [] then Log([msg], Shifted(l.gens, l.current))
    else l.(current := l.current + [msg])
  }

  function Run(l: Log, limit: nat, msgs: seq<Bytes>): (r: Log)
    ensures |r.gens| == |l.gens|
    decreases |msgs|
  {
    if msgs == [] then l else Run(Accept(l, limit, msgs[0]), limit, msgs[1..])
  }

  function Empty(maxFiles: nat): Log {
    Log([], seq(maxFiles, _ => None))
  }

  function DataOf(f: Option<File>): Option<Bytes> {
    match f case None => None case Some(file) => Some(Data(file))
  }

  /** The bytes of every file. */
  function OnDisk(l: Log): (d: Disk)
    ensures |d.gens| == |l.gens|
  {
    Disk(Data(l.current), seq(|l.gens|, i requires 0 <= i < |l.gens| => DataOf(l.gens[i])))
  }

  /** The disk follows the messages. */
  lemma DiskFollows(l: Log, limit: nat, msg: Bytes)
    ensures OnDisk(Accept(l, limit, msg)) == Sink(OnDisk(l), limit, msg)
  {
    FlattenAppend(l.current, msg);
    assert Data([msg]) == msg by {
      FlattenAppend([], msg);
      assert [] + [msg] == [msg];
    }
    var a, b := OnDisk(Accept(l, limit, msg)).gens, Sink(OnDisk(l), limit, msg).gens;
    assert |a| == |b| && forall i :: 0 <= i < |a| ==> a[i] == b[i];
  }

  function SinkAll(d: Disk, limit: nat, msgs: seq<Bytes>): Disk
    decreases |msgs|
  {
    if msgs == [] then d else SinkAll(Sink(d, limit, msgs[0]), limit, msgs[1..])
  }

  /** So what is proved about the messages of a run is true of the files. */
  lemma {:induction false} DiskFollowsRun(l: Log, limit: nat, msgs: seq<Bytes>)
    ensures SinkAll(OnDisk(l), limit, msgs) == OnDisk(Run(l, limit, msgs))
    decreases |msgs|
  {
    if msgs != [] {
      DiskFollows(l, limit, msgs[0]);
      DiskFollowsRun(Accept(l, limit, msgs[0]), limit, msgs[1..]);
    }
  }

  // ---------- what is kept ----------

  function Older(gens: seq<Option<File>>): File {
    if gens == [] then [] else Older(gens[1..]) + (match gens[0] case None => [] case Some(f) => f)
  }

  /** The messages on disk, oldest file first and the current file last. */
  function Kept(l: Log): File {
    Older(l.gens) + l.current
  }

  /** Cutting off the oldest generation cuts off the front of what is kept. */
  lemma {:induction false} OlderCut(gens: seq<Option<File>>) returns (lost: File)
    requires gens != []
    ensures Older(gens) == lost + Older(gens[..|gens| - 1])
  {
    var init := gens[..|gens| - 1];
    if |gens| == 1 {
      assert init == [] && gens[1..] == [];
      lost := Older(gens);
    } else {
      lost := OlderCut(gens[1..]);
      assert gens[1..][..|gens| - 2] == init[1..] && gens[0] == init[0];
    }
  }

  lemma ShiftKeeps(gens: seq<Option<File>>, newest: File) returns (lost: File)
    ensures Older(gens) + newest == lost + Older(Shifted(gens, newest))
  {
    if gens == [] {
      lost := newest;
    } else {
      lost := OlderCut(gens);
      assert Shifted(gens, newest)[1..] == gens[..|gens| - 1];
    }
  }

  lemma AcceptKeeps(l: Log, limit: nat, msg: Bytes) returns (lost: File)
    ensures Kept(l) + [msg] == lost + Kept(Accept(l, limit, msg))
  {
    if |Data(l.current)| + |msg| > limit && Data(l.current) != [] {
      lost := ShiftKeeps(l.gens, l.current);
    } else {
      lost := [];
    }
  }

  /** After any writes, and from whatever an earlier process left behind, the files read oldest to newest
      hold an end piece of everything ever written, cut between two messages. */
  lemma {:induction false} KeepsSuffix(l: Log, limit: nat, msgs: seq<Bytes>) returns (lost: File)
    ensures Kept(l) + msgs == lost + Kept(Run(l, limit, msgs))
    decreases |msgs|
  {
    if msgs == [] {
      lost := [];
    } else {
      var next := Accept(l, limit, msgs[0]);
      var first := AcceptKeeps(l, limit, msgs[0]);
      var later := KeepsSuffix(next, limit, msgs[1..]);
      lost := first + later;
      assert msgs == [msgs[0]] + msgs[1..];
      Regroup(Kept(l), [msgs[0]], msgs[1..], first, Kept(next), later, Kept(Run(next, limit, msgs[1..])));
    }
  }

  lemma Regroup(a: File, b: File, c: File, first: File, next: File, later: File, end: File)
    requires a + b == first + next && next + c == later + end
    ensures a + (b + c) == (first + later) + end
  {
    ConcatAssoc(a, b, c);
    ConcatAssoc(first, next, c);
    ConcatAssoc(first, later, end);
  }

  // ---------- which files there are ----------

  /** Within the limit, or one message and nothing else. */
  ghost predicate Fits(f: File, limit: nat) {
    |Data(f)| <= limit || (f != [] && Data(f[..|f| - 1]) == [])
  }

  /** The first message of the next file did not fit this one. */
  ghost predicate Full(f: File, next: File, limit: nat) {
    next != [] && Data(f) != [] && |Data(f)| + |next[0]| > limit
  }

  /** Files of which each is as full as it can be. */
  ghost predicate Greedy(files: seq<File>, limit: nat) {
    files != [] && Fits(files[0], limit) &&
    (|files| > 1 ==> Full(files[0], files[1], limit) && Greedy(files[1..], limit))
  }

  /** The files that follow when the current one holds f. */
  ghost function Divide(f: File, limit: nat, msgs: seq<Bytes>): (files: seq<File>)
    ensures files != [] && f <= files[0]
    decreases |msgs|
  {
    if msgs == [] then [f]
    else if |Data(f)| + |msgs[0]| > limit && Data(f) != [] then [f] + Divide([msgs[0]], limit, msgs[1..])
    else Divide(f + [msgs[0]], limit, msgs[1..])
  }

  lemma {:induction false} DividesGreedily(f: File, limit: nat, msgs: seq<Bytes>)
    requires Fits(f, limit)
    ensures Greedy(Divide(f, limit, msgs), limit) && Flatten(Divide(f, limit, msgs)) == f + msgs
    decreases |msgs|
  {
    if msgs == [] {
      assert [f][1..] == [];
    } else {
      var m, rest := msgs[0], msgs[1..];
      assert msgs == [m] + rest;
      if |Data(f)| + |m| > limit && Data(f) != [] {
        OneMessageFits(m, limit);
        DividesGreedily([m], limit, rest);
        assert Divide(f, limit, msgs)[1..] == Divide([m], limit, rest);
      } else {
        MoreFits(f, m, limit);
        DividesGreedily(f + [m], limit, rest);
      }
    }
  }

  lemma OneMessageFits(m: Bytes, limit: nat)
    ensures Fits([m], limit)
  {
    assert [m][..0] == [];
  }

  lemma MoreFits(f: File, m: Bytes, limit: nat)
    requires Fits(f, limit) && (|Data(f)| + |m| <= limit || Data(f) == [])
    ensures Fits(f + [m], limit)
  {
    FlattenAppend(f, m);
    assert (f + [m])[..|f|] == f;
  }

  /** A message of a file that fits did not find the file full. */
  lemma FoundRoom(f: File, k: nat, limit: nat)
    requires k < |f| && Fits(f, limit)
    ensures |Data(f[..k])| + |f[k]| <= limit || Data(f[..k]) == []
  {
    FlattenSplit(f, k);
    var init := f[..|f| - 1];
    FlattenConcat(init[..k], init[k..]);
    assert init == init[..k] + init[k..] && init[..k] == f[..k];
  }

  /** Any division with every file as full as it can be is the one the sink makes. */
  lemma {:induction false} OnlyDivision(f: File, limit: nat, msgs: seq<Bytes>, files: seq<File>)
    requires Greedy(files, limit) && f <= files[0] && Flatten(files) == f + msgs
    ensures files == Divide(f, limit, msgs)
    decreases |msgs|
  {
    var later := files[1..];
    assert f + msgs == files[0] + Flatten(later);
    assert |files| > 1 ==> later[0] == files[1] && |Flatten(later)| >= |later[0]| > 0;
    if msgs == [] {
      assert |files[0]| + |Flatten(later)| == |f|;
      assert files == [files[0]] && files[0] == f;
    } else {
      var m, rest := msgs[0], msgs[1..];
      assert (f + msgs)[|f|] == m;
      if f == files[0] {
        assert msgs == (f + msgs)[|f|..] == Flatten(later);
        assert later != [] && [m] <= later[0] && [m] + rest == msgs;
        OnlyDivision([m], limit, rest, later);
        assert files == [f] + later;
      } else {
        assert files[0][|f|] == m && files[0][..|f|] == f;
        FoundRoom(files[0], |f|, limit);
        OnlyDivision(f + [m], limit, rest, files);
      }
    }
  }

  /** The generations that remain of a list of closed files. */
  function Last(closed: seq<File>, maxFiles: nat): (gens: seq<Option<File>>)
    ensures |gens| == maxFiles
    ensures forall i :: 0 <= i < maxFiles ==>
      gens[i] == if i < |closed| then Some(closed[|closed| - 1 - i]) else None
  {
    seq(maxFiles, i requires 0 <= i < maxFiles => if i < |closed| then Some(closed[|closed| - 1 - i]) else None)
  }

  lemma LastShifted(closed: seq<File>, maxFiles: nat, f: File)
    ensures Shifted(Last(closed, maxFiles), f) == Last(closed + [f], maxFiles)
  {
  }

  /** The log of a process that has closed some files and is writing f. */
  function Holding(closed: seq<File>, f: File, maxFiles: nat): Log {
    Log(f, Last(closed, maxFiles))
  }

  function Closed(files: seq<File>): seq<File>
    requires files != []
  {
    files[..|files| - 1]
  }

  lemma {:induction false} RunDivides(closed: seq<File>, f: File, maxFiles: nat, limit: nat, msgs: seq<Bytes>)
    ensures var files := Divide(f, limit, msgs);
            Run(Holding(closed, f, maxFiles), limit, msgs)
            == Holding(closed + Closed(files), files[|files| - 1], maxFiles)
    decreases |msgs|
  {
    if msgs == [] {
      assert closed + Closed([f]) == closed;
    } else if |Data(f)| + |msgs[0]| > limit && Data(f) != [] {
      LastShifted(closed, maxFiles, f);
      RunDivides(closed + [f], [msgs[0]], maxFiles, limit, msgs[1..]);
      var files := Divide([msgs[0]], limit, msgs[1..]);
      assert closed + [f] + Closed(files) == closed + Closed([f] + files);
    } else {
      RunDivides(closed, f + [msgs[0]], maxFiles, limit, msgs[1..]);
    }
  }

  /** From an empty directory, the disk shows the current file and the last closed files of the only
      division of the messages into files that are as full as they can be. */
  lemma DiskShowsDivision(maxFiles: nat, limit: nat, msgs: seq<Bytes>, files: seq<File>)
    requires Greedy(files, limit) && Flatten(files) == msgs
    ensures Run(Empty(maxFiles), limit, msgs) == Holding(Closed(files), files[|files| - 1], maxFiles)
  {
    OnlyDivision([], limit, msgs, files);
    RunDivides([], [], maxFiles, limit, msgs);
    assert Empty(maxFiles).gens == Last([], maxFiles);
    assert [] + Closed(files) == Closed(files);
  }

  lemma {:induction false} OlderAre(closed: seq<File>, maxFiles: nat)
    ensures Older(Last(closed, maxFiles)) == Flatten(closed[if |closed| < maxFiles then 0 else |closed| - maxFiles..])
    decreases maxFiles
  {
    var n, gens := |closed|, Last(closed, maxFiles);
    if maxFiles == 0 {
      assert closed[n..] == [];
    } else if n == 0 {
      OlderAre([], maxFiles - 1);
      assert gens[1..] == Last([], maxFiles - 1);
    } else {
      var init, k := Closed(closed), if n < maxFiles then 0 else n - maxFiles;
      OlderAre(init, maxFiles - 1);
      assert gens[1..] == Last(init, maxFiles - 1);
      FlattenAppend(init[k..], closed[n - 1]);
      assert init[k..] + [closed[n - 1]] == closed[k..];
    }
  }

  lemma SizeSplit(closed: seq<File>, k: nat)
    requires k <= |closed|
    ensures |Flatten(closed)| == |Flatten(closed[..k])| + |Flatten(closed[k..])|
  {
    FlattenConcat(closed[..k], closed[k..]);
    assert closed == closed[..k] + closed[k..];
  }

  /** What is kept of a log of files: the last closed ones and the current one. */
  lemma KeptOf(closed: seq<File>, last: File, maxFiles: nat)
    ensures var k := if |closed| < maxFiles then 0 else |closed| - maxFiles;
            |Kept(Holding(closed, last, maxFiles))| == |Flatten(closed)| + |last| - |Flatten(closed[..k])|
    ensures |closed| <= maxFiles ==> Kept(Holding(closed, last, maxFiles)) == Flatten(closed) + last
  {
    var k := if |closed| < maxFiles then 0 else |closed| - maxFiles;
    OlderAre(closed, maxFiles);
    SizeSplit(closed, k);
    assert closed[0..] == closed;
  }

  /** Nothing is lost exactly as long as there were no more rotations than generations. */
  lemma LostExactly(maxFiles: nat, limit: nat, msgs: seq<Bytes>, files: seq<File>)
    requires Greedy(files, limit) && Flatten(files) == msgs
    ensures Kept(Run(Empty(maxFiles), limit, msgs)) == msgs <==> |files| - 1 <= maxFiles
  {
    DiskShowsDivision(maxFiles, limit, msgs, files);
    var closed, last := Closed(files), files[|files| - 1];
    KeptOf(closed, last, maxFiles);
    assert msgs == Flatten(closed) + last by {
      FlattenAppend(closed, last);
      assert files == closed + [last];
    }
    if |closed| > maxFiles {
      var lost := closed[..|closed| - maxFiles];
      assert lost[0] == files[0] && Data(files[0]) != [];
      assert |Flatten(lost)| >= |lost[0]| > 0;
    }
  }

  /** The file being written stays within the limit or holds one message. */
  lemma {:induction false} CurrentFits(l: Log, limit: nat, msgs: seq<Bytes>)
    requires Fits(l.current, limit)
    ensures Fits(Run(l, limit, msgs).current, limit)
    decreases |msgs|
  {
    if msgs != [] {
      OneMessageFits(msgs[0], limit);
      if |Data(l.current)| + |msgs[0]| <= limit || Data(l.current) == [] {
        MoreFits(l.current, msgs[0], limit);
      }
      CurrentFits(Accept(l, limit, msgs[0]), limit, msgs[1..]);
    }
  }

  // ---------- file names ----------

  /** The position of the last dot, or the length. */
  function LastDot(s: string): (p: nat)
    ensures p <= |s|
  {
    if s == "" then 0
    else
      var n := |s| - 1;
      if s[n] == '.' then n
      else
        var p := LastDot(s[..n]);
        if p == n then n + 1 else p
  }

  function CalcFilename(base: string, index: nat): string {
    if index == 0 then base
    else
      var dot := LastDot(base);
      if dot < |base| then base[..dot] + "." + Digits(index) + base[dot..]
      else base + "." + Digits(index)
  }

  function Generation(base: string, index: nat): string {
    CalcFilename(base, index) + ".gz"
  }

  lemma {:induction false} LastDotIs(stem: string, ext: string)
    requires '.' !in ext
    ensures LastDot(stem + ("." + ext)) == |stem|
    decreases |ext|
  {
    var s := stem + ("." + ext);
    if ext == "" {
      assert s == stem + ".";
    } else {
      var n := |ext| - 1;
      LastDotIs(stem, ext[..n]);
      assert s[..|s| - 1] == stem + ("." + ext[..n]);
      assert s[|s| - 1] == ext[n] != '.';
    }
  }

  lemma {:induction false} NoDot(s: string)
    requires '.' !in s
    ensures LastDot(s) == |s|
  {
    if s != "" {
      NoDot(s[..|s| - 1]);
    }
  }

  lemma DottedName(base: string, stem: string, rest: string, index: nat)
    requires base == stem + rest && rest != "" && LastDot(base) == |stem| && index >= 1
    ensures CalcFilename(base, index) == stem + "." + Digits(index) + rest
  {
    assert base[..|stem|] == stem && base[|stem|..] == rest;
  }

  /** The number goes before the last dot of the name, in decimal, and a compressed file has ".gz" at its end:
      generation 1 of system.log is system.1.log.gz.  A name without a dot gets the number at its end. */
  lemma GenerationNames(stem: string, ext: string, index: nat)
    requires '.' !in ext && index >= 1
    ensures Generation(stem + ("." + ext), index) == stem + "." + Digits(index) + ("." + ext) + ".gz"
    ensures Generation(ext, index) == ext + "." + Digits(index) + ".gz"
  {
    LastDotIs(stem, ext);
    NoDot(ext);
    DottedName(stem + ("." + ext), stem, "." + ext, index);
  }

  lemma Middle(before: string, x: string, y: string, after: string)
    requires before + x + after == before + y + after
    ensures x == y
  {
    var k, all := |before|, before + x + after;
    assert |x| == |y|;
    assert x == all[k..k + |x|] == (before + y + after)[k..k + |y|] == y;
  }

  lemma Shape(base: string, index: nat) returns (before: string, after: string)
    requires index >= 1
    ensures before == base[..LastDot(base)] + "." && after == base[LastDot(base)..] + ".gz"
    ensures Generation(base, index) == before + Digits(index) + after
    ensures |Generation(base, index)| > |base|
  {
    before, after := base[..LastDot(base)] + ".", base[LastDot(base)..] + ".gz";
  }

  /** No two generations share a file, and none is the current file. */
  lemma NamesDiffer(base: string, i: nat, j: nat)
    requires i >= 1 && j >= 1
    ensures Generation(base, i) != base
    ensures Generation(base, i) == Generation(base, j) ==> i == j
  {
    var before, after := Shape(base, i);
    var before', after' := Shape(base, j);
    if Generation(base, i) == Generation(base, j) {
      Middle(before, Digits(i), Digits(j), after);
      ValueOfDigits(i);
      ValueOfDigits(j);
    }
  }

  // ---------- the sink ----------

  type Directory = map<string, Bytes>

  function FileAt(files: Directory, name: string): Option<Bytes> {
    if name in files then Some(files[name]) else None
  }

  /** The log files of a directory; a compressed file is taken as the text it expands to. */
  function DiskOf(files: Directory, base: string, maxFiles: nat): Disk
    requires base in files
  {
    Disk(files[base], seq(maxFiles, i requires 0 <= i < maxFiles => FileAt(files, Generation(base, i + 1))))
  }

  /** Files of other logs are left alone. */
  ghost predicate OthersKept(before: Directory, after: Directory, base: string, maxFiles: nat) {
    forall name :: name != base && (forall i :: 1 <= i <= maxFiles ==> name != Generation(base, i)) ==>
      FileAt(after, name) == FileAt(before, name)
  }

  /** Where generation i comes from. */
  function CalcSource(base: string, i: nat): string
    requires i >= 1
  {
    if i == 1 then base else Generation(base, i - 1)
  }

  /** Where the files stand when the loop has come down to i: the generations above i are shifted, the
      one at i has been moved away, the others are where they were. */
  ghost predicate ShiftedDownTo(before: Directory, files: Directory, base: string, maxFiles: nat, i: nat) {
    (forall j :: i < j <= maxFiles ==>
      FileAt(files, Generation(base, j)) == FileAt(before, CalcSource(base, j))) &&
    (forall j :: 1 <= j <= maxFiles && (j < i || i == maxFiles) ==>
      FileAt(files, Generation(base, j)) == FileAt(before, Generation(base, j))) &&
    (i > 0 || maxFiles == 0 ==> FileAt(files, base) == FileAt(before, base)) &&
    OthersKept(before, files, base, maxFiles)
  }

  /** The names of the generations, as far as they matter here. */
  ghost predicate NamesApart(base: string, maxFiles: nat) {
    (forall j :: 1 <= j <= maxFiles ==> Generation(base, j) != base) &&
    forall j, k :: 1 <= j <= maxFiles && 1 <= k <= maxFiles && j != k ==> Generation(base, j) != Generation(base, k)
  }

  lemma NamesAreApart(base: string, maxFiles: nat)
    ensures NamesApart(base, maxFiles)
  {
    forall j, k | 1 <= j <= maxFiles && 1 <= k <= maxFiles
      ensures Generation(base, j) != base && (j != k ==> Generation(base, j) != Generation(base, k))
    {
      NamesDiffer(base, j, k);
    }
  }

  /** One round of the loop: clear the target, then move the source there if it exists. */
  function MoveUp(files: Directory, source: string, target: string): (r: Directory)
    ensures source != target ==> FileAt(r, target) == FileAt(files, source) && source !in r
    ensures forall name :: name != source && name != target ==> FileAt(r, name) == FileAt(files, name)
  {
    var cleared := files - {target};
    if source in cleared then cleared[target := cleared[source]] - {source} else cleared
  }

  lemma ShiftStep(before: Directory, files: Directory, base: string, maxFiles: nat, i: nat)
    requires 1 <= i <= maxFiles && ShiftedDownTo(before, files, base, maxFiles, i)
    ensures ShiftedDownTo(before, MoveUp(files, CalcSource(base, i), Generation(base, i)), base, maxFiles, i - 1)
  {
    NamesAreApart(base, maxFiles);
  }

  lemma ShiftedAll(before: Directory, files: Directory, base: string, maxFiles: nat)
    requires base in before && ShiftedDownTo(before, files, base, maxFiles, 0)
    ensures var was, after := DiskOf(before, base, maxFiles), files[base := []];
            DiskOf(after, base, maxFiles) == Disk([], Shifted(was.gens, was.current)) &&
            OthersKept(before, after, base, maxFiles)
  {
    var after := files[base := []];
    NamesAreApart(base, maxFiles);
    ShiftedGens(before, after, base, maxFiles);
  }

  lemma ShiftedGens(before: Directory, after: Directory, base: string, maxFiles: nat)
    requires base in before && base in after
    requires forall j :: 1 <= j <= maxFiles ==> FileAt(after, Generation(base, j)) == FileAt(before, CalcSource(base, j))
    ensures DiskOf(after, base, maxFiles).gens == Shifted(DiskOf(before, base, maxFiles).gens, before[base])
  {
    var a, b := DiskOf(after, base, maxFiles).gens, Shifted(DiskOf(before, base, maxFiles).gens, before[base]);
    forall k | 0 <= k < maxFiles ensures a[k] == b[k] {
      assert a[k] == FileAt(after, Generation(base, k + 1)) == FileAt(before, CalcSource(base, k + 1));
    }
    assert a == b;
  }

  lemma AppendGrows(files: Directory, base: string, maxFiles: nat, msg: Bytes)
    requires base in files
    ensures var was, after := DiskOf(files, base, maxFiles), files[base := files[base] + msg];
            DiskOf(after, base, maxFiles) == was.(current := was.current + msg) &&
            OthersKept(files, after, base, maxFiles)
  {
    NamesAreApart(base, maxFiles);
  }

  class CompressedRotatingFileSink {
    const sBaseFilename: string
    const maxSize: nat
    const maxFiles: nat
    var currentSize: nat
    var files: Directory

    ghost predicate Valid()
      reads this
    {
      sBaseFilename in files && currentSize == |files[sBaseFilename]|
    }

    ghost function Contents(): Disk
      requires Valid()
      reads this
    {
      DiskOf(files, sBaseFilename, maxFiles)
    }

    /** Opens the current file for appending; what is there already stays. */
    constructor (base: string, maxSize: nat, maxFiles: nat, files: Directory)
      ensures Valid() && sBaseFilename == base && this.maxSize == maxSize && this.maxFiles == maxFiles
      ensures this.files == if base in files then files else files[base := []]
    {
      sBaseFilename, this.maxSize, this.maxFiles := base, maxSize, maxFiles;
      var opened_ := if base in files then files else files[base := []];
      this.files, currentSize := opened_, |opened_[base]|;
    }

    /** A limit of zero is refused. */
    static method Open(base: string, maxSize: nat, maxFiles: nat, files: Directory) returns (sink: CompressedRotatingFileSink?)
      ensures sink == null <==> maxSize == 0
      ensures sink != null ==> fresh(sink) && sink.Valid() && sink.sBaseFilename == base && sink.maxSize == maxSize &&
                               sink.maxFiles == maxFiles && sink.files == if base in files then files else files[base := []]
    {
      if maxSize == 0 {
        return null;
      }
      sink := new CompressedRotatingFileSink(base, maxSize, maxFiles, files);
    }

    /** Moves one file to the next generation. */
    method Shift(ghost before: Directory, i: nat)
      requires 1 <= i <= maxFiles && ShiftedDownTo(before, files, sBaseFilename, maxFiles, i)
      modifies this`files
      ensures ShiftedDownTo(before, files, sBaseFilename, maxFiles, i - 1)
    {
      ghost var start := files;
      var target := Generation(sBaseFilename, i);
      var source := CalcSource(sBaseFilename, i);
      files := files - {target};
      if source in files {
        files := files[target := files[source]] - {source};
      }
      assert files == MoveUp(start, source, target);
      ShiftStep(before, start, sBaseFilename, maxFiles, i);
    }

    method Rotate()
      requires Valid()
      modifies this
      ensures Valid() && Contents() == Disk([], Shifted(old(Contents()).gens, old(Contents()).current))
      ensures OthersKept(old(files), files, sBaseFilename, maxFiles)
    {
      ghost var before := files;
      var i := maxFiles;
      while i > 0
        invariant 0 <= i <= maxFiles && ShiftedDownTo(before, files, sBaseFilename, maxFiles, i)
      {
        Shift(before, i);
        i := i - 1;
      }
      ShiftedAll(before, files, sBaseFilename, maxFiles);
      files, currentSize := files[sBaseFilename := []], 0;
    }

    /** One formatted message. */
    method SinkIt(msg: Bytes)
      requires Valid()
      modifies this
      ensures Valid() && Contents() == Sink(old(Contents()), maxSize, msg)
      ensures OthersKept(old(files), files, sBaseFilename, maxFiles)
    {
      var newSize := currentSize + |msg|;
      if newSize > maxSize && currentSize > 0 {
        Rotate();
        newSize := |msg|;
      }
      AppendGrows(files, sBaseFilename, maxFiles, msg);
      files := files[sBaseFilename := files[sBaseFilename] + msg];
      currentSize := newSize;
    }
  }
}

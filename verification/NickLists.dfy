/** The operator list and the user-IP list, two commands that are printed a piece at a time into a
    buffer as users log in (OpListStore and UserIPStore, core/GlobalDataQueue.cpp).

    The code never checks that what it printed fits: `snprintf` is given the rest of the allocation and
    its result, the length of the whole text, is taken as the length stored.  So a buffer may be left
    with a length beyond its allocation, and the next store, or the clearing, has to cope with it. */
module NickLists {
  import opened Sequences
  import opened Buffers

  /** `snprintf` at `pos` with the rest of the allocation as its limit: it writes what fits and a
      NUL, whatever length it reports. */
  function Snprintf(cells: string, pos: nat, text: string): (r: string)
    requires pos < |cells|
    ensures |r| == |cells| && r[..pos] == cells[..pos]
    ensures pos + |text| < |cells| ==> r[pos..pos + |text|] == text && r[pos + |text|] == '\0'
    ensures pos + |text| >= |cells| ==> r[|cells| - 1] == '\0'
  {
    var k := Min(|text|, |cells| - pos - 1);
    Overwrite(Overwrite(cells, pos, text[..k]), pos + k, "\0")
  }

  /** A vector with at least one cell; the length stored may be anything. */
  ghost predicate Sound(b: Buf) {
    b.size <= |b.cells| && 0 < |b.cells|
  }

  /** The buffer holds this text and its terminator. */
  ghost predicate Holds(b: Buf, text: string) {
    b.Valid() && b.Content() == text
  }

  /** What a reader of `len` bytes finds, as far as they lie inside the allocation. */
  function Stored(b: Buf): string {
    b.cells[..Min(b.len, |b.cells|)]
  }

  /** Makes room for `szLen` more bytes and a NUL. */
  function Reserve(b: Buf, szLen: nat, policy: Policy): (g: Buf)
    requires Sound(b)
    ensures g.size <= |g.cells| && g.len == b.len && b.len + szLen + 1 <= |g.cells|
  {
    if Grows(b, szLen) then
      Resize(b, b.len + szLen + 1, policy(b.size, |b.cells|, b.len + szLen + 1))
    else b
  }

  /** Everything but the final '|' survives the reservation: no growth, or nothing before the '|' lies
      beyond the vector's size. */
  predicate FrontKept(b: Buf, szLen: nat) {
    Grows(b, szLen) ==> b.len <= b.size + 1
  }

  ghost predicate NulFree(s: string) {
    '\0' !in s
  }

  lemma ReserveFront(b: Buf, szLen: nat, policy: Policy)
    requires b.Valid() && b.len > 0 && NulFree(b.Content())
    ensures Reserve(b, szLen, policy).cells[..b.len - 1] == b.cells[..b.len - 1] <==> FrontKept(b, szLen)
  {
    var g := Reserve(b, szLen, policy);
    if FrontKept(b, szLen) {
      assert forall i :: 0 <= i < b.len - 1 ==> g.cells[i] == b.cells[i];
    } else {
      assert g.cells[..b.len - 1][b.size] == '\0' != b.Content()[b.size] == b.cells[..b.len - 1][b.size];
    }
  }

  // ---------- the operator list ----------

  const OP_HEAD := "$OpList "

  function StoreOp(b: Buf, nick: string, policy: Policy): (r: Buf)
    requires Sound(b)
    ensures Sound(r)
  {
    if b.len == 0 then
      var text := OP_HEAD + nick + "$$|";
      Buf(Snprintf(b.cells, 0, text), b.size, |text|)
    else
      Continue(Reserve(b, |nick| + 3, policy), nick + "$$|")
  }

  function Terminated(words: seq<string>): seq<string> {
    seq(|words|, i requires 0 <= i < |words| => words[i] + "$$")
  }

  function Body(words: seq<string>): string {
    Flatten(Terminated(words))
  }

  lemma BodyAppend(words: seq<string>, word: string)
    ensures Body(words + [word]) == Body(words) + (word + "$$")
  {
    assert Terminated(words + [word]) == Terminated(words) + [word + "$$"];
    FlattenAppend(Terminated(words), word + "$$");
  }

  /** The command as it would be printed in one go. */
  function PrintOps(nicks: seq<string>): string {
    if nicks == [] then "" else OP_HEAD + Body(nicks) + "|"
  }

  /** The buffer after a piece is printed over its final '|'. */
  function Continue(d: Buf, text: string): (r: Buf)
    requires 0 < d.len <= |d.cells|
    ensures r.size == d.size && |r.cells| == |d.cells|
  {
    Buf(Snprintf(d.cells, d.len - 1, text), d.size, d.len + |text| - 1)
  }

  /** A piece is complete exactly when it and its NUL fit behind what was there. */
  lemma PieceWritten(d: Buf, text: string)
    requires d.size <= |d.cells| && 0 < d.len <= |d.cells|
    ensures Continue(d, text).Valid() <==> d.len - 1 + |text| < |d.cells|
    ensures Continue(d, text).Valid() ==> Continue(d, text).Content() == d.cells[..d.len - 1] + text
  {
    var r := Snprintf(d.cells, d.len - 1, text);
    var end := d.len - 1 + |text|;
    if end < |d.cells| {
      assert r[..end] == r[..d.len - 1] + r[d.len - 1..end];
    }
  }

  lemma Regroup(head: string, body: string, word: string)
    ensures (head + body) + (word + "$$|") == head + (body + (word + "$$")) + "|"
  {
  }

  lemma SameFront(x: string, y: string, tail: string)
    requires |x| == |y|
    ensures x + tail == y + tail <==> x == y
  {
    assert (x + tail)[..|x|] == x && (y + tail)[..|y|] == y;
  }

  /** When storing a nick leaves the list complete. */
  predicate OpFits(b: Buf, nick: string) {
    if b.len == 0 then |nick| + 12 <= |b.cells| else FrontKept(b, |nick| + 3)
  }

  /** For every vector and every growth policy: storing a nick in place gives the printed longer list if
      and only if the first nick fits the allocation and a later one does not grow an overrun vector. */
  lemma StoreOpPrints(b: Buf, nicks: seq<string>, nick: string, policy: Policy)
    requires Holds(b, PrintOps(nicks)) && NulFree(b.Content())
    ensures Holds(StoreOp(b, nick, policy), PrintOps(nicks + [nick])) <==> OpFits(b, nick)
  {
    BodyAppend(nicks, nick);
    if b.len == 0 {
      FirstOpFits(b, nick, policy);
      assert Body([]) == "";
      assert OP_HEAD + nick + "$$|" == OP_HEAD + ("" + (nick + "$$")) + "|";
    } else {
      var g, front := Reserve(b, |nick| + 3, policy), OP_HEAD + Body(nicks);
      assert b.cells[..b.len - 1] == front by {
        assert b.Content()[..b.len - 1] == b.cells[..b.len - 1];
      }
      PieceWritten(g, nick + "$$|");
      ReserveFront(b, |nick| + 3, policy);
      Regroup(OP_HEAD, Body(nicks), nick);
      SameFront(g.cells[..g.len - 1], front, nick + "$$|");
    }
  }

  /** The first nick of a list is cut short exactly when it does not fit the allocation. */
  lemma FirstOpFits(b: Buf, nick: string, policy: Policy)
    requires Sound(b) && b.len == 0
    ensures Holds(StoreOp(b, nick, policy), OP_HEAD + nick + "$$|") <==> |nick| + 12 <= |b.cells|
  {
    var text := OP_HEAD + nick + "$$|";
    var r := Snprintf(b.cells, 0, text);
    if |text| < |b.cells| {
      assert r[..|text|] == r[0..|text|];
    }
  }

  // ---------- the user-IP list ----------

  const IP_HEAD := "$UserIP "

  datatype IpEntry = IpEntry(nick: string, ip: string) {
    function Text(): string {
      nick + " " + ip
    }
  }

  /** The buffer and the flag telling whether the one-entry form was already given its dollars. */
  datatype IpList = IpList(buf: Buf, dollars: bool)

  function Dollars(b: Buf): Buf
    requires 0 < b.len < |b.cells|
  {
    Buf(Overwrite(b.cells, b.len - 1, "$$"), b.size, b.len + 2)
  }

  /** The buffer just before a later entry is printed over its final '|'. */
  function Opened(l: IpList, e: IpEntry, policy: Policy): (d: Buf)
    requires Sound(l.buf) && l.buf.len > 0
    ensures d.size <= |d.cells| && 0 < d.len <= |d.cells|
  {
    var g := Reserve(l.buf, |e.nick| + |e.ip| + 4, policy);
    if l.dollars then g else Dollars(g)
  }

  function StoreIp(l: IpList, e: IpEntry, policy: Policy): (r: IpList)
    requires Sound(l.buf)
    ensures Sound(r.buf)
  {
    if l.buf.len == 0 then
      var text := IP_HEAD + e.Text() + "|";
      IpList(Buf(Snprintf(l.buf.cells, 0, text), l.buf.size, |text|), false)
    else
      IpList(Continue(Opened(l, e, policy), e.Text() + "$$|"), true)
  }

  function Texts(entries: seq<IpEntry>): seq<string> {
    seq(|entries|, i requires 0 <= i < |entries| => entries[i].Text())
  }

  /** One entry is printed bare; two or more are each followed by "$$". */
  function PrintIps(entries: seq<IpEntry>): string {
    if entries == [] then ""
    else if |entries| == 1 then IP_HEAD + entries[0].Text() + "|"
    else IP_HEAD + Body(Texts(entries)) + "|"
  }

  /** The list buffer is the printed list, and the flag tells one entry from more.  While the list is
      empty the flag still says what the list before the last clearing was. */
  ghost predicate Shows(l: IpList, entries: seq<IpEntry>) {
    Holds(l.buf, PrintIps(entries)) && (entries != [] ==> (l.dollars <==> |entries| >= 2))
  }

  /** When storing an entry leaves the list complete.  The reservation does not count the two dollars the
      second entry adds, so that one needs a byte more than was asked for. */
  predicate IpFits(l: IpList, e: IpEntry, policy: Policy)
    requires Sound(l.buf)
  {
    var n := |e.nick| + |e.ip|;
    if l.buf.len == 0 then n + 10 < |l.buf.cells|
    else FrontKept(l.buf, n + 4) && (!l.dollars ==> l.buf.len + n + 6 <= |Reserve(l.buf, n + 4, policy).cells|)
  }

  /** For every vector and every growth policy: storing an entry in place gives the printed longer list if
      and only if it fits. */
  lemma StoreIpPrints(l: IpList, entries: seq<IpEntry>, e: IpEntry, policy: Policy)
    requires Shows(l, entries) && NulFree(l.buf.Content())
    ensures Shows(StoreIp(l, e, policy), entries + [e]) <==> IpFits(l, e, policy)
  {
    if entries == [] {
      FirstIpFits(l, e, policy);
      assert [] + [e] == [e];
    } else {
      assert Texts(entries + [e]) == Texts(entries) + [e.Text()];
      BodyAppend(Texts(entries), e.Text());
      StoreLaterIp(l, entries, e, policy);
    }
  }

  lemma FirstIpFits(l: IpList, e: IpEntry, policy: Policy)
    requires Sound(l.buf) && l.buf.len == 0
    ensures Holds(StoreIp(l, e, policy).buf, IP_HEAD + e.Text() + "|") <==> |e.nick| + |e.ip| + 10 < |l.buf.cells|
  {
    var text := IP_HEAD + e.Text() + "|";
    var r := Snprintf(l.buf.cells, 0, text);
    if |text| < |l.buf.cells| {
      assert r[..|text|] == r[0..|text|];
    }
  }

  lemma BodySingle(word: string)
    ensures Body([word]) == word + "$$"
  {
    assert Terminated([word])[1..] == [];
    assert Flatten(Terminated([word])) == (word + "$$") + [];
  }

  /** The printed list without its final '|', with the dollars a single entry lacks. */
  lemma PrintedFront(entries: seq<IpEntry>)
    requires entries != []
    ensures var front := PrintIps(entries)[..|PrintIps(entries)| - 1];
            IP_HEAD + Body(Texts(entries)) == if |entries| >= 2 then front else front + "$$"
  {
    if |entries| == 1 {
      var text := entries[0].Text();
      assert Texts(entries) == [text];
      BodySingle(text);
      assert PrintIps(entries)[..|PrintIps(entries)| - 1] == IP_HEAD + text;
      assert IP_HEAD + text + "$$" == IP_HEAD + (text + "$$");
    } else {
      assert PrintIps(entries)[..|PrintIps(entries)| - 1] == IP_HEAD + Body(Texts(entries));
    }
  }

  lemma OpenedFront(l: IpList, e: IpEntry, policy: Policy)
    requires Sound(l.buf) && l.buf.len > 0
    ensures var g, d := Reserve(l.buf, |e.nick| + |e.ip| + 4, policy), Opened(l, e, policy);
            d.cells[..d.len - 1] == if l.dollars then g.cells[..g.len - 1] else g.cells[..g.len - 1] + "$$"
  {
  }

  lemma LaterFront(l: IpList, entries: seq<IpEntry>, e: IpEntry, policy: Policy)
    requires Shows(l, entries) && NulFree(l.buf.Content()) && entries != []
    ensures var d := Opened(l, e, policy);
            d.cells[..d.len - 1] == IP_HEAD + Body(Texts(entries)) <==> FrontKept(l.buf, |e.nick| + |e.ip| + 4)
  {
    PrintedBy(l, entries);
    var n, szLen, d := l.buf.len - 1, |e.nick| + |e.ip| + 4, Opened(l, e, policy);
    var g, p := Reserve(l.buf, szLen, policy).cells[..n], l.buf.cells[..n];
    assert d.cells[..d.len - 1] == if l.dollars then g else g + "$$" by {
      OpenedFront(l, e, policy);
    }
    assert g == p <==> FrontKept(l.buf, szLen) by {
      ReserveFront(l.buf, szLen, policy);
    }
    WithDollars(g, p, l.dollars);
  }

  lemma PrintedBy(l: IpList, entries: seq<IpEntry>)
    requires Shows(l, entries) && entries != []
    ensures l.buf.len > 0
    ensures var p := l.buf.cells[..l.buf.len - 1];
            IP_HEAD + Body(Texts(entries)) == if l.dollars then p else p + "$$"
  {
    var printed := PrintIps(entries);
    PrintedFront(entries);
    assert l.buf.len == |printed| && printed[..|printed| - 1] == l.buf.cells[..l.buf.len - 1];
  }

  lemma WithDollars(g: string, p: string, dollars: bool)
    requires |g| == |p|
    ensures (if dollars then g else g + "$$") == (if dollars then p else p + "$$") <==> g == p
  {
    SameFront(g, p, "$$");
  }

  /** A piece printed behind some front gives this command exactly when the front is right and it fits. */
  lemma PieceHolds(d: Buf, front: string, text: string)
    requires d.size <= |d.cells| && 0 < d.len <= |d.cells| && d.len - 1 == |front|
    ensures Holds(Continue(d, text), front + text) <==>
            d.cells[..d.len - 1] == front && d.len - 1 + |text| < |d.cells|
  {
    PieceWritten(d, text);
    SameFront(d.cells[..d.len - 1], front, text);
  }

  lemma StoreLaterIp(l: IpList, entries: seq<IpEntry>, e: IpEntry, policy: Policy)
    requires Shows(l, entries) && NulFree(l.buf.Content()) && entries != []
    ensures Holds(StoreIp(l, e, policy).buf, IP_HEAD + (Body(Texts(entries)) + (e.Text() + "$$")) + "|") <==>
            IpFits(l, e, policy)
  {
    var d, front := Opened(l, e, policy), IP_HEAD + Body(Texts(entries));
    LaterFront(l, entries, e, policy);
    assert d.len - 1 == |front| by {
      PrintedFront(entries);
      assert l.buf.len == |PrintIps(entries)|;
    }
    PieceHolds(d, front, e.Text() + "$$|");
    Regroup(IP_HEAD, Body(Texts(entries)), e.Text());
    RoomLeft(l, e, policy);
  }

  lemma RoomLeft(l: IpList, e: IpEntry, policy: Policy)
    requires Sound(l.buf) && l.buf.len > 0
    ensures var d, n := Opened(l, e, policy), |e.nick| + |e.ip|;
            d.len + n + 3 < |d.cells| <==>
            l.dollars || l.buf.len + n + 6 <= |Reserve(l.buf, n + 4, policy).cells|
  {
  }

  /** With n bytes to come, one byte more is there than the code asks for: unused, or spared when the vector
      grows. */
  predicate SpareByte(b: Buf, n: nat, policy: Policy) {
    if Grows(b, n) then policy(b.size, |b.cells|, b.len + n + 1) > 0 else b.len + n + 2 <= |b.cells|
  }

  /** The second entry on its own: it is complete exactly when one byte more is there than the code asks
      for, so a vector that has to grow must have been given spare capacity. */
  lemma SecondEntryFits(l: IpList, entries: seq<IpEntry>, e: IpEntry, policy: Policy)
    requires |entries| == 1 && Shows(l, entries) && NulFree(l.buf.Content()) && l.buf.len <= l.buf.size + 1
    ensures Shows(StoreIp(l, e, policy), entries + [e]) <==> SpareByte(l.buf, |e.nick| + |e.ip| + 4, policy)
  {
    assert l.buf.len > 0 by {
      PrintedBy(l, entries);
    }
    SecondNeeds(l, e, policy);
    StoreIpPrints(l, entries, e, policy);
  }

  lemma SecondNeeds(l: IpList, e: IpEntry, policy: Policy)
    requires Sound(l.buf) && 0 < l.buf.len <= l.buf.size + 1 && !l.dollars
    ensures IpFits(l, e, policy) <==> SpareByte(l.buf, |e.nick| + |e.ip| + 4, policy)
  {
    RoomForSecond(l.buf, |e.nick| + |e.ip|, policy);
  }

  lemma RoomForSecond(b: Buf, n: nat, policy: Policy)
    requires Sound(b) && b.len <= b.size + 1
    ensures FrontKept(b, n + 4)
    ensures b.len + n + 6 <= |Reserve(b, n + 4, policy).cells| <==> SpareByte(b, n + 4, policy)
  {
  }

  /** Nicks and addresses are C strings. */
  ghost predicate AllClean(nicks: seq<string>, entries: seq<IpEntry>) {
    (forall i :: 0 <= i < |nicks| ==> NulFree(nicks[i])) &&
    (forall i :: 0 <= i < |entries| ==> NulFree(entries[i].Text()))
  }

  lemma {:induction false} BodyNulFree(words: seq<string>)
    requires forall i :: 0 <= i < |words| ==> NulFree(words[i])
    ensures NulFree(Body(words))
  {
    if words != [] {
      assert Terminated(words)[1..] == Terminated(words[1..]);
      assert Body(words) == (words[0] + "$$") + Body(words[1..]);
      BodyNulFree(words[1..]);
    }
  }

  lemma PrintedNulFree(nicks: seq<string>, entries: seq<IpEntry>)
    requires AllClean(nicks, entries)
    ensures NulFree(PrintOps(nicks)) && NulFree(PrintIps(entries))
  {
    BodyNulFree(nicks);
    BodyNulFree(Texts(entries));
  }
}

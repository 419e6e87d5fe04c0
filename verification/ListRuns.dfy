/** The two login lists over whole runs of stores and clearings (core/GlobalDataQueue.cpp). */
module ListRuns {
  import opened Buffers
  import opened NickLists
  import opened ListParsing

  /** What can happen to the two lists: a store, or the clearing at the end of a send loop. */
  datatype ListEvent = OpLoggedIn(nick: string) | UserLoggedIn(entry: IpEntry) | Cleared

  datatype LoginLists = LoginLists(ops: Buf, ips: IpList)

  function Emptied(b: Buf): (r: Buf)
    requires Sound(b)
    ensures r.Valid() && r.Content() == "" && r.size == b.size && |r.cells| == |b.cells|
  {
    Buf(Overwrite(b.cells, 0, "\0"), b.size, 0)
  }

  ghost predicate BothSound(l: LoginLists) {
    Sound(l.ops) && Sound(l.ips.buf)
  }

  function StepLists(l: LoginLists, e: ListEvent, policy: Policy): (r: LoginLists)
    requires BothSound(l)
    ensures BothSound(r)
  {
    match e
    case OpLoggedIn(nick) => l.(ops := StoreOp(l.ops, nick, policy))
    case UserLoggedIn(entry) => l.(ips := StoreIp(l.ips, entry, policy))
    case Cleared => LoginLists(Emptied(l.ops), IpList(Emptied(l.ips.buf), l.ips.dollars))
  }

  function NextNicks(nicks: seq<string>, e: ListEvent): seq<string> {
    match e
    case OpLoggedIn(nick) => nicks + [nick]
    case UserLoggedIn(_) => nicks
    case Cleared => []
  }

  function NextEntries(entries: seq<IpEntry>, e: ListEvent): seq<IpEntry> {
    match e
    case OpLoggedIn(_) => entries
    case UserLoggedIn(entry) => entries + [entry]
    case Cleared => []
  }

  /** The nicks and entries stored since the last clearing. */
  function NicksSince(nicks: seq<string>, events: seq<ListEvent>): seq<string>
    decreases |events|
  {
    if events == [] then nicks else NicksSince(NextNicks(nicks, events[0]), events[1..])
  }

  function EntriesSince(entries: seq<IpEntry>, events: seq<ListEvent>): seq<IpEntry>
    decreases |events|
  {
    if events == [] then entries else EntriesSince(NextEntries(entries, events[0]), events[1..])
  }

  /** Both buffers are the printed lists and lie within their allocations. */
  ghost predicate ListsShow(l: LoginLists, nicks: seq<string>, entries: seq<IpEntry>) {
    Holds(l.ops, PrintOps(nicks)) && Shows(l.ips, entries)
  }

  ghost predicate CleanEvent(e: ListEvent) {
    (e.OpLoggedIn? ==> NulFree(e.nick)) && (e.UserLoggedIn? ==> NulFree(e.entry.Text()))
  }

  /** What the next event needs to leave both lists complete. */
  predicate Fits(l: LoginLists, e: ListEvent, policy: Policy)
    requires BothSound(l)
  {
    match e
    case OpLoggedIn(nick) => OpFits(l.ops, nick)
    case UserLoggedIn(entry) => IpFits(l.ips, entry, policy)
    case Cleared => true
  }

  lemma StepShows(l: LoginLists, nicks: seq<string>, entries: seq<IpEntry>, e: ListEvent, policy: Policy)
    requires ListsShow(l, nicks, entries) && AllClean(nicks, entries)
    ensures ListsShow(StepLists(l, e, policy), NextNicks(nicks, e), NextEntries(entries, e)) <==> Fits(l, e, policy)
  {
    PrintedNulFree(nicks, entries);
    match e {
      case OpLoggedIn(nick) => StoreOpPrints(l.ops, nicks, nick, policy);
      case UserLoggedIn(entry) => StoreIpPrints(l.ips, entries, entry, policy);
      case Cleared =>
    }
  }

  lemma StepClean(nicks: seq<string>, entries: seq<IpEntry>, e: ListEvent)
    requires AllClean(nicks, entries) && CleanEvent(e)
    ensures AllClean(NextNicks(nicks, e), NextEntries(entries, e))
  {
  }

  /** Every store of the run fits. */
  predicate AllFit(l: LoginLists, events: seq<ListEvent>, policy: Policy)
    requires BothSound(l)
    decreases |events|
  {
    events == [] || (Fits(l, events[0], policy) && AllFit(StepLists(l, events[0], policy), events[1..], policy))
  }

  function ListsAfter(l: LoginLists, events: seq<ListEvent>, policy: Policy): (end: LoginLists)
    requires BothSound(l)
    ensures BothSound(end)
    decreases |events|
  {
    if events == [] then l else ListsAfter(StepLists(l, events[0], policy), events[1..], policy)
  }

  /** At every moment of the run both buffers are what printing the entries stored since the last clearing
      gives, within their allocations. */
  ghost predicate AlwaysShow(l: LoginLists, nicks: seq<string>, entries: seq<IpEntry>, events: seq<ListEvent>, policy: Policy)
    requires BothSound(l)
    decreases |events|
  {
    ListsShow(l, nicks, entries) &&
    (events != [] ==> AlwaysShow(StepLists(l, events[0], policy), NextNicks(nicks, events[0]),
                                 NextEntries(entries, events[0]), events[1..], policy))
  }

  /** Over every run of stores and clearings, with nicks of any length and whatever the growth policy: the
      lists are the printed ones throughout if and only if every store fits. */
  lemma {:induction false} RunLists(l: LoginLists, nicks: seq<string>, entries: seq<IpEntry>, events: seq<ListEvent>, policy: Policy)
    requires ListsShow(l, nicks, entries) && AllClean(nicks, entries)
    requires forall i :: 0 <= i < |events| ==> CleanEvent(events[i])
    ensures AlwaysShow(l, nicks, entries, events, policy) <==> AllFit(l, events, policy)
    decreases |events|
  {
    if events != [] {
      var e := events[0];
      var next, nicks', entries' := StepLists(l, e, policy), NextNicks(nicks, e), NextEntries(entries, e);
      StepShows(l, nicks, entries, e, policy);
      assert AlwaysShow(l, nicks, entries, events, policy) <==> AlwaysShow(next, nicks', entries', events[1..], policy);
      if Fits(l, e, policy) {
        StepClean(nicks, entries, e);
        RunLists(next, nicks', entries', events[1..], policy);
      } else {
        assert !AlwaysShow(next, nicks', entries', events[1..], policy);
      }
    }
  }

  lemma {:induction false} EndShows(l: LoginLists, nicks: seq<string>, entries: seq<IpEntry>, events: seq<ListEvent>, policy: Policy)
    requires BothSound(l) && AlwaysShow(l, nicks, entries, events, policy)
    ensures ListsShow(ListsAfter(l, events, policy), NicksSince(nicks, events), EntriesSince(entries, events))
    decreases |events|
  {
    if events != [] {
      var e := events[0];
      EndShows(StepLists(l, e, policy), NextNicks(nicks, e), NextEntries(entries, e), events[1..], policy);
    }
  }

  const FRESH := LoginLists(Empty(), IpList(Empty(), false))

  /** And when every store fits, each buffer reads back as exactly the entries since the last clearing. */
  lemma RunReadsBack(events: seq<ListEvent>, policy: Policy)
    requires forall i :: 0 <= i < |events| ==> CleanEvent(events[i])
    requires AllFit(FRESH, events, policy)
    requires Clean(NicksSince([], events)) && Clean(Texts(EntriesSince([], events)))
    requires forall i :: 0 <= i < |EntriesSince([], events)| ==> ' ' !in EntriesSince([], events)[i].ip
    ensures var end := ListsAfter(FRESH, events, policy);
            ParseOps(Stored(end.ops)) == Good(NicksSince([], events)) &&
            ParseIps(Stored(end.ips.buf)) == Good(EntriesSince([], events))
  {
    RunLists(FRESH, [], [], events, policy);
    EndShows(FRESH, [], [], events, policy);
    OpsRoundTrip(NicksSince([], events));
    IpsRoundTrip(EntriesSince([], events));
  }

  // ---------- when every store fits ----------

  const MAX_NICK: nat := 64
  const MAX_IP: nat := 39

  /** The default limits of the hub: a nick of at most 64 bytes and a printed address. */
  ghost predicate Ordinary(e: ListEvent) {
    (e.OpLoggedIn? ==> |e.nick| <= MAX_NICK) &&
    (e.UserLoggedIn? ==> |e.entry.nick| <= MAX_NICK && |e.entry.ip| <= MAX_IP)
  }

  /** The vectors have no spare capacity and were never smaller than at first; a list with a single entry
      was put into an empty buffer. */
  ghost predicate Full(l: LoginLists) {
    && l.ops.size == |l.ops.cells| >= INITIAL_SIZE
    && l.ips.buf.size == |l.ips.buf.cells| >= INITIAL_SIZE
    && l.ops.len <= |l.ops.cells| && l.ips.buf.len <= |l.ips.buf.cells|
    && (l.ips.buf.len > 0 && !l.ips.dollars ==> l.ips.buf.len <= MAX_NICK + MAX_IP + 10)
  }

  lemma OrdinaryStep(l: LoginLists, e: ListEvent)
    requires Full(l) && Ordinary(e)
    ensures Fits(l, e, EXACT) && Full(StepLists(l, e, EXACT))
  {
    if e.UserLoggedIn? && l.ips.buf.len > 0 {
      RoomForSecond(l.ips.buf, |e.entry.nick| + |e.entry.ip|, EXACT);
      RoomLeft(l.ips, e.entry, EXACT);
    }
  }

  /** With ordinary sizes and a capacity that follows the size, every store of every run fits. */
  lemma {:induction false} OrdinaryFit(l: LoginLists, events: seq<ListEvent>)
    requires Full(l)
    requires forall i :: 0 <= i < |events| ==> Ordinary(events[i])
    ensures AllFit(l, events, EXACT)
    decreases |events|
  {
    if events != [] {
      assert Ordinary(events[0]);
      OrdinaryStep(l, events[0]);
      OrdinaryFit(StepLists(l, events[0], EXACT), events[1..]);
    }
  }

  /** `n` operators with nicks of the usual greatest length. */
  function Operators(n: nat): (events: seq<ListEvent>)
    ensures |events| == n && forall i :: 0 <= i < n ==> Ordinary(events[i]) && CleanEvent(events[i])
  {
    if n == 0 then [] else [OpLoggedIn(Repeat('x', MAX_NICK))] + Operators(n - 1)
  }

  lemma LaterOpMeasures(b: Buf, nick: string, policy: Policy)
    requires Sound(b) && b.len > 0
    ensures var r, n := StoreOp(b, nick, policy), b.len + |nick| + 4;
            && r.len == n - 2
            && r.size == (if |b.cells| < n then n else b.size)
            && |r.cells| == if |b.cells| < n then n + policy(b.size, |b.cells|, n) else |b.cells|
  {
  }

  /** The measures of the vector after k nicks. */
  predicate DoubledTo(b: Buf, k: nat) {
    b.len == 9 + 66 * k && b.size == (if k <= 3 then 256 else 275) && |b.cells| == (if k <= 3 then 256 else 512)
  }

  lemma DoubledStep(b: Buf, nick: string, k: nat)
    requires 1 <= k <= 7 && DoubledTo(b, k) && |nick| == MAX_NICK
    ensures OpFits(b, nick) <==> k < 7
    ensures k < 7 ==> DoubledTo(StoreOp(b, nick, DOUBLING), k + 1)
  {
    LaterOpMeasures(b, nick, DOUBLING);
  }

  lemma NextOperator(l: LoginLists, n: nat, policy: Policy)
    requires BothSound(l) && n > 0
    ensures var nick := Repeat('x', MAX_NICK);
            AllFit(l, Operators(n), policy) <==>
            OpFits(l.ops, nick) && AllFit(l.(ops := StoreOp(l.ops, nick, policy)), Operators(n - 1), policy)
  {
    var events := Operators(n);
    assert events[0] == OpLoggedIn(Repeat('x', MAX_NICK)) && events[1..] == Operators(n - 1);
  }

  lemma {:induction false} DoublingFrom(l: LoginLists, k: nat, n: nat)
    requires BothSound(l) && 1 <= k <= 7 && DoubledTo(l.ops, k)
    ensures AllFit(l, Operators(n), DOUBLING) <==> k + n < 8
    decreases n
  {
    if n > 0 {
      var nick := Repeat('x', MAX_NICK);
      NextOperator(l, n, DOUBLING);
      DoubledStep(l.ops, nick, k);
      if k < 7 {
        DoublingFrom(l.(ops := StoreOp(l.ops, nick, DOUBLING)), k + 1, n - 1);
      }
    }
  }

  /** With a vector that doubles, operators with nicks of 64 bytes spoil the list from the eighth on. */
  lemma DoublingCutsList(n: nat)
    ensures AllFit(FRESH, Operators(n), DOUBLING) <==> n < 8
  {
    if n > 0 {
      NextOperator(FRESH, n, DOUBLING);
      DoublingFrom(FRESH.(ops := StoreOp(FRESH.ops, Repeat('x', MAX_NICK), DOUBLING)), 1, n - 1);
    }
  }
}

/** Who gets what in a broadcast, and which users share a prepared queue
    (ProcessQueues, core/GlobalDataQueue.cpp).

    A user's feature bits select one of 144 slots.  The first user of a slot filters all queued items
    with its own bits; everybody else mapped to that slot is handed the same bytes.  How the slot's
    vector grows while it is filled is up to the library: a parameter. */
module FanOut {
  import opened Sequences
  import opened Buffers

  const SLOTS: nat := 144

  // ---------- users ----------

  /** What ProcessQueues reads of a user, with the profile and setting checks already answered. */
  datatype View = View(
    sharing: bool,
    ipv6: bool, ipv4: bool, ipv6Active: bool, ipv4Active: bool,
    fullMyInfos: bool,
    noHello: bool,
    operator: bool,
    userIps: bool,
    extJson: bool)

  datatype Search =
    | NoSearches
    | All4 | All6 | All64
    | Active4 | Active6 | Active64
    | All6Active4 | Active6All4

  /** The queue bits. */
  datatype Bits = Bits(long: bool, search: Search, hello: bool, operator: bool, userIp: bool)

  /** Everything a built queue depends on. */
  datatype Profile = Profile(bits: Bits, extJson: bool)

  function SearchOf(v: View): Search {
    if !v.sharing then NoSearches
    else if v.ipv6 then
      if v.ipv4 then
        if v.ipv6Active then (if v.ipv4Active then All64 else All6Active4)
        else (if v.ipv4Active then Active6All4 else Active64)
      else (if v.ipv6Active then All6 else Active6)
    else (if v.ipv4Active then All4 else Active4)
  }

  function ProfileOf(v: View): Profile {
    Profile(Bits(v.fullMyInfos, SearchOf(v), !v.noHello, v.operator, v.userIps), v.extJson)
  }

  function Offset(s: Search): nat {
    match s
    case NoSearches => 0
    case All4 => 2
    case All6 => 4
    case All64 => 6
    case Active4 => 8
    case Active6 => 10
    case Active64 => 12
    case All6Active4 => 14
    case Active6All4 => 16
  }

  function Digit(b: bool): nat {
    if b then 1 else 0
  }

  function SlotIndex(b: Bits): (i: nat)
    ensures i < SLOTS
  {
    Digit(b.long) + Offset(b.search) + 14 * Digit(b.hello) + 28 * Digit(b.operator) + 56 * Digit(b.userIp)
  }

  // ---------- items ----------

  datatype Cmd =
    | HUBNAME | CHAT | HELLO | MYINFO | QUIT | OPS | LUA
    | ACTIVE_SEARCH_V6 | ACTIVE_SEARCH_V64 | ACTIVE_SEARCH_V4
    | PASSIVE_SEARCH_V6 | PASSIVE_SEARCH_V64 | PASSIVE_SEARCH_V4
    | PASSIVE_SEARCH_V4_ONLY | PASSIVE_SEARCH_V6_ONLY
    | EXTJSON

  /** A queued command; MyINFO carries its short and its long form. */
  datatype Item = Item(cmd: Cmd, first: string, second: string)

  const EXT_JSON_PREFIX := "$ExtJSON "

  predicate WantsSearch(cmd: Cmd, s: Search) {
    match cmd
    case ACTIVE_SEARCH_V6 => s in {All6, All64, Active6, Active64, All6Active4, Active6All4}
    case ACTIVE_SEARCH_V64 => !s.NoSearches?
    case ACTIVE_SEARCH_V4 => s in {All4, All64, Active4, Active64, All6Active4, Active6All4}
    case PASSIVE_SEARCH_V6 => s in {All6, All64, All6Active4}
    case PASSIVE_SEARCH_V64 => s in {All4, All6, All64, All6Active4, Active6All4}
    case PASSIVE_SEARCH_V4 => s in {All4, All64, Active6All4}
    case PASSIVE_SEARCH_V4_ONLY => s.All4?
    case PASSIVE_SEARCH_V6_ONLY => s.All6?
    case _ => false
  }

  /** The bytes of one item that a user of this profile must get. */
  function Wanted(item: Item, p: Profile): string {
    match item.cmd
    case HELLO => if p.bits.hello then item.first else ""
    case EXTJSON => if p.extJson then item.first else ""
    case MYINFO => if p.bits.long then item.second else item.first
    case OPS => if p.bits.operator && (EXT_JSON_PREFIX <= item.first ==> p.extJson) then item.first else ""
    case HUBNAME => item.first
    case CHAT => item.first
    case QUIT => item.first
    case LUA => item.first
    case _ => if WantsSearch(item.cmd, p.bits.search) then item.first else ""
  }

  /** What is waiting in one cycle. */
  datatype Traffic = Traffic(items: seq<Item>, ops: string, ips: string)

  function WantedAll(items: seq<Item>, p: Profile): seq<string> {
    seq(|items|, i requires 0 <= i < |items| => Wanted(items[i], p))
  }

  /** The direct filter: all items by the user's own bits, the op list, and the user-IP list. */
  function Direct(t: Traffic, p: Profile): string {
    Flatten(WantedAll(t.items, p)) + t.ops + (if p.bits.userIp then t.ips else "")
  }

  // ---------- what a slot is filled with ----------

  /** What the first user of a slot appends to it: every item it wants, then the lists. */
  function Chunks(t: Traffic, p: Profile): seq<string> {
    WantedAll(t.items, p) + [t.ops, if p.bits.userIp then t.ips else ""]
  }

  /** What the slot then holds. */
  function Filled(t: Traffic, p: Profile, policy: Policy): string {
    Run(Empty(), Chunks(t, p), policy).Content()
  }

  /** Filling the slot grows no overrun vector. */
  predicate Kept(t: Traffic, p: Profile, policy: Policy) {
    !Overruns(Empty(), Chunks(t, p), policy)
  }

  lemma ChunksAreDirect(t: Traffic, p: Profile)
    ensures Flatten(Chunks(t, p)) == Direct(t, p)
  {
    var wanted, ips := WantedAll(t.items, p), if p.bits.userIp then t.ips else "";
    FlattenAppend(wanted, t.ops);
    FlattenAppend(wanted + [t.ops], ips);
    assert wanted + [t.ops] + [ips] == Chunks(t, p);
  }

  /** The filling in the order of the code. */
  lemma FillSteps(t: Traffic, p: Profile, policy: Policy)
    ensures Run(Empty(), Chunks(t, p), policy) ==
            Extend(Extend(Run(Empty(), WantedAll(t.items, p), policy), t.ops, policy),
                   if p.bits.userIp then t.ips else "", policy)
  {
    RunAppendTwo(Empty(), WantedAll(t.items, p), t.ops, if p.bits.userIp then t.ips else "", policy);
  }

  /** A filled slot is the direct filter exactly when filling it kept every byte. */
  lemma FilledIsDirectExactly(t: Traffic, p: Profile, policy: Policy)
    ensures Filled(t, p, policy) == Direct(t, p) <==> Kept(t, p, policy)
  {
    RunContent(Empty(), Chunks(t, p), policy);
    ChunksAreDirect(t, p);
    assert Empty().Content() + Direct(t, p) == Direct(t, p);
  }

  /** It does so whenever the capacity follows the size, and, whatever the policy, for anything that fits
      the first allocation. */
  lemma KeptWhen(t: Traffic, p: Profile, policy: Policy)
    ensures Kept(t, p, EXACT)
    ensures |Direct(t, p)| < INITIAL_SIZE ==> Kept(t, p, policy)
  {
    ExactNeverOverruns(Empty(), Chunks(t, p));
    ChunksAreDirect(t, p);
    if |Direct(t, p)| < INITIAL_SIZE {
      ShortNeverOverruns(Empty(), Chunks(t, p), policy);
    }
  }

  // ---------- when slots collide ----------

  /** The three high digits of the index. */
  function High(b: Bits): nat {
    Digit(b.hello) + 2 * Digit(b.operator) + 4 * Digit(b.userIp)
  }

  /** The two mixed dual-stack classes exceed their digit: they reach the slot of a non-sharing, or
      IPv4-only active, user whose (hello, operator, userip) number is one higher. */
  predicate Carries(a: Bits, b: Bits) {
    a.long == b.long && High(b) == High(a) + 1 &&
    ((a.search == All6Active4 && b.search == NoSearches) || (a.search == Active6All4 && b.search == All4))
  }

  lemma HighInjective(a: Bits, b: Bits)
    ensures High(a) == High(b) <==> a.hello == b.hello && a.operator == b.operator && a.userIp == b.userIp
  {
  }

  /** Two sets of bits share a slot exactly when they are equal or one carries into the other. */
  lemma SlotCollisions(a: Bits, b: Bits)
    ensures SlotIndex(a) == SlotIndex(b) <==> a == b || Carries(a, b) || Carries(b, a)
  {
    HighInjective(a, b);
    assert SlotIndex(a) == Digit(a.long) + Offset(a.search) + 14 * High(a);
    assert SlotIndex(b) == Digit(b.long) + Offset(b.search) + 14 * High(b);
    OffsetEven(a.search);
    OffsetEven(b.search);
    if a.search == b.search {
    } else {
      OffsetsDiffer(a.search, b.search);
    }
  }

  lemma OffsetEven(s: Search)
    ensures Offset(s) % 2 == 0 && Offset(s) <= 16
  {
  }

  lemma OffsetsDiffer(s: Search, t: Search)
    requires s != t
    ensures Offset(s) != Offset(t)
    ensures Offset(s) == Offset(t) + 14 <==> (s == All6Active4 && t == NoSearches) || (s == Active6All4 && t == All4)
  {
  }

  /** Without the two mixed classes the index is a proper mixed radix. */
  lemma ProperRadix(a: Bits, b: Bits)
    requires Offset(a.search) <= 12 && Offset(b.search) <= 12
    ensures SlotIndex(a) == SlotIndex(b) <==> a == b
  {
    SlotCollisions(a, b);
  }

  predicate Clash(p: Profile, q: Profile) {
    p != q && SlotIndex(p.bits) == SlotIndex(q.bits)
  }

  /** Two different profiles share a slot exactly when they differ in ExtJSON support only, or when a
      mixed dual-stack class carries. */
  lemma ClashExactly(p: Profile, q: Profile)
    ensures Clash(p, q) <==>
            (p.bits == q.bits && p.extJson != q.extJson) || Carries(p.bits, q.bits) || Carries(q.bits, p.bits)
  {
    SlotCollisions(p.bits, q.bits);
  }

  // ---------- different profiles want different bytes ----------

  function Single(cmd: Cmd): Traffic {
    Traffic([Item(cmd, "a", "b")], "", "")
  }

  lemma DirectSingle(cmd: Cmd, p: Profile)
    ensures Direct(Single(cmd), p) == Wanted(Item(cmd, "a", "b"), p)
  {
    var w := WantedAll(Single(cmd).items, p);
    assert w == [Wanted(Item(cmd, "a", "b"), p)] && w[1..] == [];
    assert Flatten(w) == w[0] + [];
  }

  /** A command, if any, that tells two profiles apart. */
  function ProbeCmd(p: Profile, q: Profile): Cmd {
    if p.extJson != q.extJson then EXTJSON
    else if p.bits.long != q.bits.long then MYINFO
    else if p.bits.hello != q.bits.hello then HELLO
    else if p.bits.operator != q.bits.operator then OPS
    else if WantsSearch(ACTIVE_SEARCH_V4, p.bits.search) != WantsSearch(ACTIVE_SEARCH_V4, q.bits.search) then ACTIVE_SEARCH_V4
    else if WantsSearch(ACTIVE_SEARCH_V6, p.bits.search) != WantsSearch(ACTIVE_SEARCH_V6, q.bits.search) then ACTIVE_SEARCH_V6
    else if WantsSearch(PASSIVE_SEARCH_V4, p.bits.search) != WantsSearch(PASSIVE_SEARCH_V4, q.bits.search) then PASSIVE_SEARCH_V4
    else PASSIVE_SEARCH_V6
  }

  lemma SearchesDiffer(s: Search, t: Search)
    requires s != t
    ensures WantsSearch(ACTIVE_SEARCH_V4, s) != WantsSearch(ACTIVE_SEARCH_V4, t) ||
            WantsSearch(ACTIVE_SEARCH_V6, s) != WantsSearch(ACTIVE_SEARCH_V6, t) ||
            WantsSearch(PASSIVE_SEARCH_V4, s) != WantsSearch(PASSIVE_SEARCH_V4, t) ||
            WantsSearch(PASSIVE_SEARCH_V6, s) != WantsSearch(PASSIVE_SEARCH_V6, t)
  {
  }

  lemma ProbeTells(p: Profile, q: Profile)
    requires p.(bits := p.bits.(userIp := true)) != q.(bits := q.bits.(userIp := true))
    ensures Wanted(Item(ProbeCmd(p, q), "a", "b"), p) != Wanted(Item(ProbeCmd(p, q), "a", "b"), q)
  {
    assert "a"[0] != "b"[0] && |EXT_JSON_PREFIX| > |"a"|;
    if p.bits.search != q.bits.search {
      SearchesDiffer(p.bits.search, q.bits.search);
    }
  }

  /** Two different profiles are told apart by some traffic, of at most one byte. */
  lemma ProfilesDiffer(p: Profile, q: Profile) returns (t: Traffic)
    requires p != q
    ensures Direct(t, p) != Direct(t, q) && forall r: Profile :: |Direct(t, r)| <= 1
  {
    if p.bits.userIp != q.bits.userIp {
      t := Traffic([], "", "a");
      assert forall r :: WantedAll([], r) == [];
    } else {
      var cmd := ProbeCmd(p, q);
      t := Single(cmd);
      DirectSingle(cmd, p);
      DirectSingle(cmd, q);
      ProbeTells(p, q);
      forall r: Profile
        ensures |Direct(t, r)| <= 1
      {
        DirectSingle(cmd, r);
      }
    }
  }

  // ---------- one cycle of the cache ----------

  type Cache = map<nat, string>

  /** One user of a cycle: a missing slot is built by that user's own bits. */
  function Serve(cache: Cache, t: Traffic, p: Profile, policy: Policy): Cache {
    var i := SlotIndex(p.bits);
    if i in cache then cache else cache[i := Filled(t, p, policy)]
  }

  function ServeAll(cache: Cache, t: Traffic, ps: seq<Profile>, policy: Policy): Cache
    decreases |ps|
  {
    if ps == [] then cache else Serve(ServeAll(cache, t, ps[..|ps| - 1], policy), t, ps[|ps| - 1], policy)
  }

  lemma {:induction false} Unasked(t: Traffic, ps: seq<Profile>, i: nat, policy: Policy)
    requires forall j :: 0 <= j < |ps| ==> SlotIndex(ps[j].bits) != i
    ensures i !in ServeAll(map[], t, ps, policy)
    decreases |ps|
  {
    if ps != [] {
      Unasked(t, ps[..|ps| - 1], i, policy);
    }
  }

  /** A slot holds what the first user of the cycle mapped to it asked for. */
  lemma {:induction false} FirstBuilds(t: Traffic, ps: seq<Profile>, f: nat, policy: Policy)
    requires f < |ps| && forall j :: 0 <= j < f ==> SlotIndex(ps[j].bits) != SlotIndex(ps[f].bits)
    ensures var i, cache := SlotIndex(ps[f].bits), ServeAll(map[], t, ps, policy);
            i in cache && cache[i] == Filled(t, ps[f], policy)
    decreases |ps|
  {
    var front := ps[..|ps| - 1];
    if f == |ps| - 1 {
      Unasked(t, front, SlotIndex(ps[f].bits), policy);
    } else {
      assert front[f] == ps[f];
      FirstBuilds(t, front, f, policy);
    }
  }

  /** Everybody served in the cycle gets the bytes the direct filter gives for its own bits. */
  ghost predicate AllServedRight(t: Traffic, ps: seq<Profile>, policy: Policy) {
    forall k :: 0 <= k < |ps| ==> ServedRight(t, ps, k, policy)
  }

  ghost predicate ServedRight(t: Traffic, ps: seq<Profile>, k: nat, policy: Policy)
    requires k < |ps|
  {
    var i, cache := SlotIndex(ps[k].bits), ServeAll(map[], t, ps, policy);
    i in cache && cache[i] == Direct(t, ps[k])
  }

  ghost predicate NoClash(ps: seq<Profile>) {
    forall j, k :: 0 <= j < |ps| && 0 <= k < |ps| ==> !Clash(ps[j], ps[k])
  }

  ghost predicate AllKept(t: Traffic, ps: seq<Profile>, policy: Policy) {
    forall k :: 0 <= k < |ps| ==> Kept(t, ps[k], policy)
  }

  /** The first position whose slot is i. */
  function FirstUser(ps: seq<Profile>, i: nat): (k: nat)
    requires exists k :: 0 <= k < |ps| && SlotIndex(ps[k].bits) == i
    ensures k < |ps| && SlotIndex(ps[k].bits) == i
    ensures forall j :: 0 <= j < k ==> SlotIndex(ps[j].bits) != i
  {
    if SlotIndex(ps[0].bits) == i then 0
    else
      assert forall k :: 0 < k < |ps| ==> ps[k] == ps[1..][k - 1];
      1 + FirstUser(ps[1..], i)
  }

  /** Without clashes every user is served its own direct filter, whoever built the slot, if and only if
      no slot of the cycle lost bytes while it was filled. */
  lemma NoClashServesRight(t: Traffic, ps: seq<Profile>, policy: Policy)
    requires NoClash(ps)
    ensures AllServedRight(t, ps, policy) <==> AllKept(t, ps, policy)
  {
    forall k | 0 <= k < |ps|
      ensures ServedRight(t, ps, k, policy) <==> Kept(t, ps[k], policy)
    {
      var f := FirstUser(ps, SlotIndex(ps[k].bits));
      FirstBuilds(t, ps, f, policy);
      assert !Clash(ps[f], ps[k]);
      FilledIsDirectExactly(t, ps[k], policy);
    }
  }

  lemma ClashServesWrong(ps: seq<Profile>, policy: Policy) returns (t: Traffic)
    requires !NoClash(ps)
    ensures AllKept(t, ps, policy) && !AllServedRight(t, ps, policy)
  {
    var j, k :| 0 <= j < |ps| && 0 <= k < |ps| && Clash(ps[j], ps[k]);
    var f := FirstUser(ps, SlotIndex(ps[j].bits));
    var u := if ps[f] == ps[j] then k else j;
    t := ProfilesDiffer(ps[f], ps[u]);
    forall m | 0 <= m < |ps|
      ensures Kept(t, ps[m], policy)
    {
      KeptWhen(t, ps[m], policy);
    }
    FirstBuilds(t, ps, f, policy);
    FilledIsDirectExactly(t, ps[f], policy);
    assert !ServedRight(t, ps, u, policy);
  }

  /** Under every growth policy: sharing is right for all traffic that the buffers keep exactly when no two
      users of the cycle clash. */
  lemma SharingIsRightExactly(ps: seq<Profile>, policy: Policy)
    ensures (forall t: Traffic :: AllKept(t, ps, policy) ==> AllServedRight(t, ps, policy)) <==> NoClash(ps)
  {
    if NoClash(ps) {
      forall t: Traffic | AllKept(t, ps, policy)
        ensures AllServedRight(t, ps, policy)
      {
        NoClashServesRight(t, ps, policy);
      }
    } else {
      var t := ClashServesWrong(ps, policy);
    }
  }

  /** In particular it is right whenever no user is in a mixed dual-stack class and ExtJSON support is
      the same for equal bits. */
  lemma OrdinaryCyclesAreRight(t: Traffic, ps: seq<Profile>, policy: Policy)
    requires forall k :: 0 <= k < |ps| ==> Offset(ps[k].bits.search) <= 12
    requires forall j, k :: 0 <= j < |ps| && 0 <= k < |ps| && ps[j].bits == ps[k].bits ==> ps[j].extJson == ps[k].extJson
    ensures AllServedRight(t, ps, policy) <==> AllKept(t, ps, policy)
    ensures AllServedRight(t, ps, EXACT)
  {
    forall j, k | 0 <= j < |ps| && 0 <= k < |ps|
      ensures !Clash(ps[j], ps[k])
    {
      ProperRadix(ps[j].bits, ps[k].bits);
    }
    NoClashServesRight(t, ps, policy);
    NoClashServesRight(t, ps, EXACT);
    forall k | 0 <= k < |ps|
      ensures Kept(t, ps[k], EXACT)
    {
      KeptWhen(t, ps[k], EXACT);
    }
  }
}

/** The table of wrong passwords per address ($MyPass, core/DcCommands.cpp). */
module BruteForce {

  /** The 16 bytes of an address. */
  type IpHash = string

  datatype Entry = Entry(ip: IpHash, count: int)

  datatype Attempt =
    | Good(ip: IpHash)
    | Bad(ip: IpHash, fullBan: bool)  // whether a full ban of the address is already in force

  datatype Outcome = LetIn | BadPass | Banned | AlreadyBanned

  // ---------- the table as a value ----------

  function IndexOf(es: seq<Entry>, ip: IpHash): (i: nat)
    ensures i <= |es| && (i < |es| ==> es[i].ip == ip) && forall j :: 0 <= j < i ==> es[j].ip != ip
  {
    if es == [] || es[0].ip == ip then 0 else 1 + IndexOf(es[1..], ip)
  }

  function Without(es: seq<Entry>, i: nat): seq<Entry>
    requires i < |es|
  {
    es[..i] + es[i + 1..]
  }

  /** What an attempt does to the table; banType 0 switches the protection off. */
  function Step(es: seq<Entry>, banType: int, a: Attempt): (seq<Entry>, Outcome) {
    var i := IndexOf(es, a.ip);
    match a
    case Good(_) => (if i < |es| then Without(es, i) else es, LetIn)
    case Bad(ip, fullBan) =>
      if banType == 0 then (es, BadPass)
      else if i == |es| then ([Entry(ip, 1)] + es, BadPass)
      else if es[i].count != 2 then (es[i := Entry(ip, es[i].count + 1)], BadPass)
      else if fullBan then (es, AlreadyBanned)
      else (Without(es, i), Banned)
  }

  /** The table after all attempts so far, latest last. */
  function Run(banType: int, h: seq<Attempt>): seq<Entry> {
    if h == [] then [] else Step(Run(banType, h[..|h| - 1]), banType, h[|h| - 1]).0
  }

  // ---------- what it means ----------

  function CountOf(es: seq<Entry>, ip: IpHash): int {
    var i := IndexOf(es, ip);
    if i < |es| then es[i].count else 0
  }

  /** One entry per address, and every count is 1 or 2. */
  ghost predicate Proper(es: seq<Entry>) {
    (forall i, j :: 0 <= i < j < |es| ==> es[i].ip != es[j].ip) &&
    forall i :: 0 <= i < |es| ==> 1 <= es[i].count <= 2
  }

  lemma IndexIs(es: seq<Entry>, ip: IpHash, i: nat)
    requires i <= |es| && (i < |es| ==> es[i].ip == ip) && forall j :: 0 <= j < i ==> es[j].ip != ip
    ensures IndexOf(es, ip) == i
  {
  }

  lemma WithoutCounts(es: seq<Entry>, i: nat, q: IpHash)
    requires Proper(es) && i < |es|
    ensures Proper(Without(es, i))
    ensures CountOf(Without(es, i), q) == if q == es[i].ip then 0 else CountOf(es, q)
  {
    var r, k := Without(es, i), IndexOf(es, q);
    assert forall j :: 0 <= j < i ==> r[j] == es[j];
    assert forall j :: i <= j < |r| ==> r[j] == es[j + 1];
    if q == es[i].ip {
      IndexIs(r, q, |r|);
    } else {
      IndexIs(r, q, if k < i then k else k - 1);
    }
  }

  lemma UpdateCounts(es: seq<Entry>, i: nat, count: int, q: IpHash)
    requires Proper(es) && i < |es| && 1 <= count <= 2
    ensures var r := es[i := Entry(es[i].ip, count)];
            Proper(r) && CountOf(r, q) == if q == es[i].ip then count else CountOf(es, q)
  {
    var r := es[i := Entry(es[i].ip, count)];
    IndexIs(r, q, IndexOf(es, q));
  }

  lemma PushCounts(es: seq<Entry>, ip: IpHash, q: IpHash)
    requires Proper(es) && CountOf(es, ip) == 0
    ensures var r := [Entry(ip, 1)] + es; Proper(r) && CountOf(r, q) == if q == ip then 1 else CountOf(es, q)
  {
    var r, k := [Entry(ip, 1)] + es, IndexOf(es, q);
    assert IndexOf(es, ip) == |es|;
    IndexIs(r, q, if q == ip then 0 else k + 1);
  }

  /** The count of one address, by itself. */
  function Next(count: int, banType: int, a: Attempt): int {
    match a
    case Good(_) => 0
    case Bad(_, fullBan) =>
      if banType == 0 then count
      else if count != 2 then count + 1
      else if fullBan then 2
      else 0
  }

  /** An attempt keeps the table proper, moves the count of its own address and no other, and bans exactly
      when it is the third and no full ban is in force. */
  lemma StepCounts(es: seq<Entry>, banType: int, a: Attempt, q: IpHash)
    requires Proper(es)
    ensures Proper(Step(es, banType, a).0)
    ensures CountOf(Step(es, banType, a).0, q)
         == if q == a.ip then Next(CountOf(es, q), banType, a) else CountOf(es, q)
    ensures Step(es, banType, a).1 == Banned <==> a.Bad? && banType != 0 && CountOf(es, a.ip) == 2 && !a.fullBan
  {
    var i := IndexOf(es, a.ip);
    if i < |es| {
      WithoutCounts(es, i, q);
      if es[i].count == 1 {
        UpdateCounts(es, i, 2, q);
      }
    } else {
      PushCounts(es, a.ip, q);
    }
  }

  /** Failures of an address since its last success. */
  function Consecutive(h: seq<Attempt>, ip: IpHash): nat {
    if h == [] then 0
    else
      var a, before := h[|h| - 1], Consecutive(h[..|h| - 1], ip);
      if a.ip != ip then before else if a.Good? then 0 else before + 1
  }

  /** No failure of this address met a full ban. */
  ghost predicate NeverBanned(h: seq<Attempt>, ip: IpHash) {
    forall i :: 0 <= i < |h| && h[i].ip == ip && h[i].Bad? ==> !h[i].fullBan
  }

  ghost predicate AlwaysBanned(h: seq<Attempt>, ip: IpHash) {
    forall i :: 0 <= i < |h| && h[i].ip == ip && h[i].Bad? ==> h[i].fullBan
  }

  function Counter(banType: int, h: seq<Attempt>, ip: IpHash): int {
    if h == [] then 0
    else
      var a, before := h[|h| - 1], Counter(banType, h[..|h| - 1], ip);
      if a.ip == ip then Next(before, banType, a) else before
  }

  /** Over any interleaving of attempts from any addresses there is one entry per address, every count is
      1 or 2, and each address is counted as if it were alone. */
  lemma {:induction false} RunCounts(banType: int, h: seq<Attempt>, ip: IpHash)
    ensures Proper(Run(banType, h)) && CountOf(Run(banType, h), ip) == Counter(banType, h, ip)
    decreases |h|
  {
    if h != [] {
      RunCounts(banType, h[..|h| - 1], ip);
      StepCounts(Run(banType, h[..|h| - 1]), banType, h[|h| - 1], ip);
    }
  }

  /** The count of an address is its number of consecutive failures modulo 3, unless its failures meet a
      full ban: then it stays at 2. */
  lemma {:induction false} CountsConsecutive(banType: int, h: seq<Attempt>, ip: IpHash)
    requires banType != 0
    ensures var n, count := Consecutive(h, ip), Counter(banType, h, ip);
            (NeverBanned(h, ip) ==> count == n % 3) && (AlwaysBanned(h, ip) ==> count == if n < 2 then n else 2)
    decreases |h|
  {
    if h != [] {
      CountsConsecutive(banType, h[..|h| - 1], ip);
    }
  }

  /** A ban is issued at each third consecutive failure and at no other attempt. */
  lemma BannedEachThird(banType: int, h: seq<Attempt>)
    requires banType != 0 && h != [] && NeverBanned(h, h[|h| - 1].ip)
    ensures var a, before := h[|h| - 1], h[..|h| - 1];
            Step(Run(banType, before), banType, a).1 == Banned <==> a.Bad? && Consecutive(h, a.ip) % 3 == 0
  {
    var a, before := h[|h| - 1], h[..|h| - 1];
    RunCounts(banType, before, a.ip);
    assert Counter(banType, before, a.ip) == Consecutive(before, a.ip) % 3 by {
      CountsConsecutive(banType, before, a.ip);
    }
    BannedAtTwo(Run(banType, before), banType, a);
  }

  lemma BannedAtTwo(es: seq<Entry>, banType: int, a: Attempt)
    requires Proper(es)
    ensures Step(es, banType, a).1 == Banned <==> a.Bad? && banType != 0 && CountOf(es, a.ip) == 2 && !a.fullBan
  {
    StepCounts(es, banType, a, a.ip);
  }

  // ---------- failures with and without full bans ----------

  /** What the last attempt led to. */
  function LastOutcome(banType: int, h: seq<Attempt>): Outcome
    requires h != []
  {
    Step(Run(banType, h[..|h| - 1]), banType, h[|h| - 1]).1
  }

  /** Failures of an address since it was last let in or banned. */
  function SinceReleased(banType: int, h: seq<Attempt>, ip: IpHash): nat {
    if h == [] then 0
    else
      var before := SinceReleased(banType, h[..|h| - 1], ip);
      if h[|h| - 1].ip != ip then before
      else if LastOutcome(banType, h) in {LetIn, Banned} then 0
      else before + 1
  }

  lemma StepOutcome(es: seq<Entry>, banType: int, a: Attempt)
    requires Proper(es) && banType != 0
    ensures Step(es, banType, a).1 ==
            if a.Good? then LetIn
            else if CountOf(es, a.ip) < 2 then BadPass
            else if a.fullBan then AlreadyBanned
            else Banned
  {
  }

  /** Over any interleaving, whichever failures meet a full ban: the count of an address is its number of
      failures since it was last let in or banned, up to 2. */
  lemma {:induction false} CountsSinceReleased(banType: int, h: seq<Attempt>, ip: IpHash)
    requires banType != 0
    ensures var n := SinceReleased(banType, h, ip); Counter(banType, h, ip) == if n < 2 then n else 2
    decreases |h|
  {
    if h != [] {
      var front := h[..|h| - 1];
      CountsSinceReleased(banType, front, ip);
      RunCounts(banType, front, ip);
      StepOutcome(Run(banType, front), banType, h[|h| - 1]);
    }
  }

  /** The first two failures since then are told off; from the third on the address is banned, or found
      banned. */
  lemma OutcomeExactly(banType: int, h: seq<Attempt>)
    requires banType != 0 && h != []
    ensures var a := h[|h| - 1];
            var n := SinceReleased(banType, h[..|h| - 1], a.ip);
            LastOutcome(banType, h) ==
            if a.Good? then LetIn else if n < 2 then BadPass else if a.fullBan then AlreadyBanned else Banned
  {
    var a, before := h[|h| - 1], h[..|h| - 1];
    RunCounts(banType, before, a.ip);
    CountsSinceReleased(banType, before, a.ip);
    StepOutcome(Run(banType, before), banType, a);
  }

  /** With the protection off nothing is ever stored. */
  lemma {:induction false} OffStoresNothing(h: seq<Attempt>)
    ensures Run(0, h) == []
    decreases |h|
  {
    if h != [] {
      OffStoresNothing(h[..|h| - 1]);
    }
  }

  // ---------- the list ----------

  class PassBf {
    const ip: IpHash
    var count: int

    constructor (ip: IpHash)
      ensures this.ip == ip && count == 1
    {
      this.ip, count := ip, 1;
    }
  }

  class DcCommands {
    var items: seq<PassBf>

    constructor ()
      ensures Valid() && items == []
    {
      items := [];
    }

    ghost predicate Valid()
      reads this
    {
      forall i, j :: 0 <= i < j < |items| ==> items[i] != items[j]
    }

    ghost function Entries(): (es: seq<Entry>)
      reads this, items
      ensures |es| == |items|
    {
      seq(|items|, i requires 0 <= i < |items| reads this, items => Entry(items[i].ip, items[i].count))
    }

    method Find(ip: IpHash) returns (item: PassBf?, ghost at: nat)
      ensures at == IndexOf(Entries(), ip)
      ensures item == if IndexOf(Entries(), ip) < |items| then items[IndexOf(Entries(), ip)] else null
    {
      var i := 0;
      while i < |items|
        invariant i <= |items| && forall j :: 0 <= j < i ==> items[j].ip != ip
      {
        if items[i].ip == ip {
          IndexIs(Entries(), ip, i);
          return items[i], i;
        }
        i := i + 1;
      }
      IndexIs(Entries(), ip, i);
      return null, i;
    }

    method Remove(item: PassBf, ghost at: nat)
      requires Valid() && at < |items| && items[at] == item
      modifies `items
      ensures Valid() && items == old(items[..at] + items[at + 1..])
    {
      var i := 0;
      while i < |items|
        invariant i <= at && items == old(items)
      {
        if items[i] == item {
          items := items[..i] + items[i + 1..];
          return;
        }
        i := i + 1;
      }
    }

    /** The part of $MyPass that deals with a wrong password. */
    method BadPassword(ip: IpHash, banType: int, fullBan: bool) returns (outcome: Outcome)
      requires Valid()
      modifies this, items
      ensures Valid() && (Entries(), outcome) == Step(old(Entries()), banType, Bad(ip, fullBan))
      ensures forall p :: p in items ==> p in old(items) || fresh(p)
    {
      if banType == 0 {
        return BadPass;
      }
      var item, at := Find(ip);
      if item == null {
        item := new PassBf(ip);
        items := [item] + items;
        assert Entries() == [Entry(ip, 1)] + old(Entries());
        return BadPass;
      }
      outcome := Strike(item, fullBan, at);
    }

    /** A further wrong password of an address with an entry. */
    method Strike(item: PassBf, fullBan: bool, ghost at: nat) returns (outcome: Outcome)
      requires Valid() && at < |items| && items[at] == item && at == IndexOf(Entries(), item.ip)
      modifies this, items
      ensures Valid() && (Entries(), outcome) == Step(old(Entries()), 1, Bad(item.ip, fullBan))
      ensures forall p :: p in items ==> p in old(items)
    {
      if item.count != 2 {
        item.count := item.count + 1;
        assert Entries() == old(Entries())[at := Entry(item.ip, item.count)];
        return BadPass;
      }
      if fullBan {
        return AlreadyBanned;
      }
      Remove(item, at);
      assert Entries() == Without(old(Entries()), at);
      return Banned;
    }

    /** A right password clears the record of its address. */
    method GoodPassword(ip: IpHash)
      requires Valid()
      modifies this, items
      ensures Valid() && (Entries(), LetIn) == Step(old(Entries()), 1, Good(ip))
      ensures forall p :: p in items ==> p in old(items)
    {
      var item, at := Find(ip);
      if item != null {
        Remove(item, at);
        assert Entries() == Without(old(Entries()), at);
      }
    }
  }
}

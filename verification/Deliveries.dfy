/** What reaches whom, from the fields of a user alone: which items of a cycle, over which connections
    searches, in which copy, and which of its own searches are cut out (ProcessQueues,
    core/GlobalDataQueue.cpp). */
module Deliveries {
  import opened Options
  import opened Sequences
  import opened Buffers
  import opened FanOut
  import opened QueueCycle
  import opened GlobalDataQueues

  // ---------- one item ----------

  /** Chat, the hub name, quits and what scripts send are for everybody. */
  lemma ForEverybody(item: Item, v: View)
    requires item.cmd in {HUBNAME, CHAT, QUIT, LUA}
    ensures Wanted(item, ProfileOf(v)) == item.first
  {
  }

  /** These depend on what the client supports and on what the user may see. */
  lemma ByFeature(item: Item, v: View)
    ensures item.cmd == HELLO ==> Wanted(item, ProfileOf(v)) == if v.noHello then "" else item.first
    ensures item.cmd == EXTJSON ==> Wanted(item, ProfileOf(v)) == if v.extJson then item.first else ""
    ensures item.cmd == MYINFO ==> Wanted(item, ProfileOf(v)) == if v.fullMyInfos then item.second else item.first
    ensures item.cmd == OPS ==>
              Wanted(item, ProfileOf(v)) == if v.operator && (v.extJson || !("$ExtJSON " <= item.first)) then item.first else ""
  {
  }

  /** The text of a search, if it is to arrive. */
  function Search(arrives: bool, item: Item): string {
    if arrives then item.first else ""
  }

  /** A user who shares gets a search exactly over the connections it has: an active one if it has one of
      the kind, a passive one if it can be connected to there. */
  lemma ByConnection(item: Item, v: View)
    ensures var got := Wanted(item, ProfileOf(v));
            && (item.cmd == ACTIVE_SEARCH_V6 ==> got == Search(v.sharing && v.ipv6, item))
            && (item.cmd == ACTIVE_SEARCH_V4 ==> got == Search(v.sharing && (v.ipv4 || !v.ipv6), item))
            && (item.cmd == ACTIVE_SEARCH_V64 ==> got == Search(v.sharing, item))
            && (item.cmd == PASSIVE_SEARCH_V6 ==> got == Search(v.sharing && v.ipv6 && v.ipv6Active, item))
            && (item.cmd == PASSIVE_SEARCH_V4 ==> got == Search(v.sharing && v.ipv4Active && (v.ipv4 || !v.ipv6), item))
            && (item.cmd == PASSIVE_SEARCH_V64 ==>
                 got == Search(v.sharing && ((v.ipv6 && v.ipv6Active) || (v.ipv4Active && (v.ipv4 || !v.ipv6))), item))
            && (item.cmd == PASSIVE_SEARCH_V4_ONLY ==> got == Search(v.sharing && !v.ipv6 && v.ipv4Active, item))
            && (item.cmd == PASSIVE_SEARCH_V6_ONLY ==> got == Search(v.sharing && v.ipv6 && !v.ipv4 && v.ipv6Active, item))
  {
  }

  // ---------- one item among others ----------

  /** An item's bytes stand between those of the items before it and those of the rest. */
  lemma ItemStands(t: Traffic, p: Profile, k: nat)
    requires k < |t.items|
    ensures Direct(t, p) ==
            Flatten(WantedAll(t.items[..k], p)) + (Wanted(t.items[k], p) + Direct(t.(items := t.items[k + 1..]), p))
  {
    var parts, lists := WantedAll(t.items, p), t.ops + (if p.bits.userIp then t.ips else "");
    FlattenSplit(parts, k);
    assert parts[..k] == WantedAll(t.items[..k], p) && parts[k + 1..] == WantedAll(t.items[k + 1..], p);
    ListsLast(t, p);
    ListsLast(t.(items := t.items[k + 1..]), p);
    Regroup(Flatten(parts[..k]), parts[k], Flatten(parts[k + 1..]), lists);
  }

  lemma ListsLast(t: Traffic, p: Profile)
    ensures Direct(t, p) == Flatten(WantedAll(t.items, p)) + (t.ops + if p.bits.userIp then t.ips else "")
  {
    ConcatAssoc(Flatten(WantedAll(t.items, p)), t.ops, if p.bits.userIp then t.ips else "");
  }

  lemma Regroup(a: string, b: string, c: string, d: string)
    ensures (a + (b + c)) + d == a + (b + (c + d))
  {
  }

  /** The two lists come last, and whole. */
  lemma ListsStand(t: Traffic, v: View)
    ensures Direct(t, ProfileOf(v)) ==
            Flatten(WantedAll(t.items, ProfileOf(v))) + (t.ops + if v.userIps then t.ips else "")
  {
    ListsLast(t, ProfileOf(v));
  }

  // ---------- whole runs ----------

  lemma {:induction false} ReadsRightAt(h: Hub, lib: Platform, events: seq<Event>, n: nat)
    requires WellFormed(h) && AllReadRight(h, lib, events) && n < |events| && events[n].Send?
    ensures var g, u := QueueCycle.Run(h, lib, events[..n]), events[n].user;
            ReadOf(lib, Handed(g, lib, u, events[n].counterZero)) == Direct(TrafficOf(g), ProfileOf(u.view))
    decreases |events|
  {
    if n == 0 {
      assert events[..0] == [];
    } else {
      assert events[..n][0] == events[0] && events[..n][1..] == events[1..][..n - 1];
      ReadsRightAt(QueueCycle.Step(h, lib, events[0]), lib, events[1..], n - 1);
    }
  }

  /** Over every run without clashes in which no slot loses bytes: whoever is served, compressed or not, finds
      its part of every item of the cycle where it belongs. */
  lemma PartIsRead(h: Hub, lib: Platform, events: seq<Event>, n: nat, k: nat)
    requires lib.Contract() && Phased(events, false) && ClashFree(events, []) && ServedBy(h, lib, [])
    requires FillsKept(h, lib, events) && n < |events| && events[n].Send?
    requires k < |QueueCycle.Run(h, lib, events[..n]).live|
    ensures var g, u := QueueCycle.Run(h, lib, events[..n]), events[n].user;
            var p := ProfileOf(u.view);
            ReadOf(lib, Handed(g, lib, u, events[n].counterZero)) ==
            Flatten(WantedAll(g.live[..k], p)) +
            (Wanted(g.live[k], p) + Direct(Traffic(g.live[k + 1..], g.ops, g.ips), p))
  {
    var g := QueueCycle.Run(h, lib, events[..n]);
    RunsReadRight(h, lib, events, false, []);
    ReadsRightAt(h, lib, events, n);
    ItemStands(TrafficOf(g), ProfileOf(events[n].user.view), k);
  }

  /** So every chat message, hub name, quit and script command of the cycle stands in full in what every
      user reads. */
  lemma EverybodyReads(h: Hub, lib: Platform, events: seq<Event>, n: nat, k: nat)
    requires lib.Contract() && Phased(events, false) && ClashFree(events, []) && ServedBy(h, lib, [])
    requires FillsKept(h, lib, events) && n < |events| && events[n].Send?
    requires k < |QueueCycle.Run(h, lib, events[..n]).live|
    requires QueueCycle.Run(h, lib, events[..n]).live[k].cmd in {HUBNAME, CHAT, QUIT, LUA}
    ensures var g := QueueCycle.Run(h, lib, events[..n]);
            exists before, after ::
              ReadOf(lib, Handed(g, lib, events[n].user, events[n].counterZero)) == before + (g.live[k].first + after)
  {
    PartIsRead(h, lib, events, n, k);
    ForEverybody(QueueCycle.Run(h, lib, events[..n]).live[k], events[n].user.view);
  }

  // ---------- whether there is anything to send ----------

  ghost predicate Something(h: Hub) {
    h.live != [] || h.ops != "" || h.ips != ""
  }

  lemma CycleFlag(h: Hub, lib: Platform, e: Event, sending: bool)
    requires WellFormed(h) && Phased([e], sending) && (h.haveItems <==> sending && Something(h))
    ensures var next := QueueCycle.Step(h, lib, e);
            next.haveItems <==> QueueCycle.Sending(e, sending) && Something(next)
  {
    if e.Send? {
      ProcessFrame(h, lib, e.user, e.counterZero);
    }
  }

  /** Whether a run ends inside a cycle. */
  function EndsSending(events: seq<Event>, sending: bool): bool {
    if events == [] then sending else EndsSending(events[1..], QueueCycle.Sending(events[0], sending))
  }

  /** Over every alternating run the flag is set if and only if a cycle is under way that has something to
      send. */
  lemma {:induction false} FlagExactly(h: Hub, lib: Platform, events: seq<Event>, sending: bool)
    requires WellFormed(h) && Phased(events, sending) && (h.haveItems <==> sending && Something(h))
    ensures var g := QueueCycle.Run(h, lib, events);
            g.haveItems <==> EndsSending(events, sending) && Something(g)
    decreases |events|
  {
    if events != [] {
      var e := events[0];
      assert [e][1..] == [];
      CycleFlag(h, lib, e, sending);
      FlagExactly(QueueCycle.Step(h, lib, e), lib, events[1..], QueueCycle.Sending(e, sending));
    }
  }

  /** So a service loop that serves nobody while the flag is down keeps nothing from anybody. */
  lemma NothingMissed(h: Hub, p: Profile)
    requires !Something(h)
    ensures Direct(TrafficOf(h), p) == ""
  {
    assert WantedAll(h.live, p) == [];
  }

  // ---------- which copy ----------

  /** When there is a compressed copy. */
  lemma ZPipeExactly(lib: Platform, text: string)
    ensures ZPipe(lib, text) != "" <==>
            |text| >= 128 && lib.deflate(text).Some? && |lib.deflate(text).value| + 5 < |text|
    ensures ZPipe(lib, text) != "" ==> ZPipe(lib, text) == "$ZOn|" + lib.deflate(text).value
  {
    if |text| >= Z_MIN_LEN && lib.deflate(text).Some? {
      assert |Z_ON + lib.deflate(text).value| == 5 + |lib.deflate(text).value|;
    }
  }

  /** What the wrapping difference decides. */
  lemma DifferenceExactly(z: nat, text: nat, held: nat)
    requires z < text < TWO_64 && z + held < TWO_64
    ensures held == 0 || z <= SubU64(text, held) <==> z + held <= text || held > text
  {
    if held <= text {
      assert SubU64(text, held) == text - held;
    } else {
      assert SubU64(text, held) == text - held + TWO_64;
    }
  }

  lemma ZippedIs(h: Hub, lib: Platform, u: Receiver, counterZero: bool)
    requires Consistent(h, lib)
    ensures var s := Process(h, lib, u, counterZero).slots[Slotted(u)];
            s.text != "" && u.zpipe ==> s.zipped == ZPipe(lib, s.text)
  {
    var after := Process(h, lib, u, counterZero);
    ProcessKeeps(h, lib, u, counterZero);
    Zlined(h, lib, u, counterZero);
    assert SlotConsistent(after.slots[Slotted(u)], lib);
  }

  lemma Zlined(h: Hub, lib: Platform, u: Receiver, counterZero: bool)
    requires WellFormed(h)
    ensures var s := Process(h, lib, u, counterZero).slots[Slotted(u)]; s.text != "" && u.zpipe ==> s.zlined
  {
  }

  lemma ChosenExactly(u: Receiver, counterZero: bool, s: Slot, z: string, held: nat)
    requires held == SearchesHeld(u, counterZero) && (s.text != "" && u.zpipe ==> s.zipped == z)
    requires z == "" || |z| < |s.text|
    requires |s.text| < TWO_64 && |z| + held < TWO_64
    ensures var p := Choose(u, counterZero, s);
            (p.Zipped? <==> s.text != "" && u.zpipe && z != "" && (|z| + held <= |s.text| || held > |s.text|)) &&
            (p.Zipped? ==> p.data == z) && (p.Raw? ==> p.data == s.text)
  {
    if z != "" {
      DifferenceExactly(|z|, |s.text|, held);
    }
  }

  /** A user is sent the compressed copy if and only if it takes compressed data, there is one, and it is no
      longer than the raw one would be without the user's own searches; searches longer than the text
      count as none, because the difference wraps. */
  lemma CompressedExactly(h: Hub, lib: Platform, u: Receiver, counterZero: bool)
    requires Consistent(h, lib)
    requires |Process(h, lib, u, counterZero).slots[Slotted(u)].text| < TWO_64
    requires |ZPipe(lib, Process(h, lib, u, counterZero).slots[Slotted(u)].text)| + SearchesHeld(u, counterZero) < TWO_64
    ensures var p, text := Handed(h, lib, u, counterZero), Process(h, lib, u, counterZero).slots[Slotted(u)].text;
            var z, held := ZPipe(lib, text), SearchesHeld(u, counterZero);
            (p.Zipped? <==> text != "" && u.zpipe && z != "" && (|z| + held <= |text| || held > |text|)) &&
            (p.Zipped? ==> p.data == z) && (p.Raw? ==> p.data == text)
  {
    var s := Process(h, lib, u, counterZero).slots[Slotted(u)];
    ZippedIs(h, lib, u, counterZero);
    ShorterZipped(lib, s.text);
    ChosenExactly(u, counterZero, s, ZPipe(lib, s.text), SearchesHeld(u, counterZero));
  }

  lemma ShorterZipped(lib: Platform, text: string)
    ensures ZPipe(lib, text) == "" || |ZPipe(lib, text)| < |text|
  {
  }

  // ---------- the user's own searches ----------

  /** Which of its pending searches a call cuts out of a raw copy, and which it leaves with the user. */
  lemma PendingSearches(u: Receiver, counterZero: bool)
    ensures var own6, own4, left := Own6(u, counterZero), Own4(u, counterZero), PendingLeft(u, counterZero);
            && (!counterZero ==> own6 == own4 == None && left == (u.active6, u.active4))
            && (counterZero && !u.view.sharing ==> own6 == own4 == None && left == (None, None))
            && (counterZero && u.view.sharing && u.view.ipv6 ==>
                 own6 == u.active6 && own4 == u.active4 && left == (None, None))
            && (counterZero && u.view.sharing && !u.view.ipv6 ==>
                 own6 == None && own4 == u.active4 && left == (u.active6, None))
  {
  }

  ghost predicate FirstAt(text: string, s: string, k: nat) {
    k + |s| <= |text| && text[k..k + |s|] == s && forall j :: 0 <= j < k ==> !(s <= text[j..])
  }

  /** The cut takes out the first copy of the search, and nothing else. */
  lemma CutOut(text: string, s: string)
    ensures forall k: nat :: FirstAt(text, s, k) ==> Without(text, s) == text[..k] + text[k + |s|..]
    ensures (forall k :: 0 <= k <= |text| ==> !(s <= text[k..])) ==> Without(text, s) == text
  {
    WithoutFound(text, s);
    FindFirst(text, s);
    forall k: nat | FirstAt(text, s, k)
      ensures Find(text, s) == Some(k)
    {
      assert s <= text[k..] by {
        assert text[k..][..|s|] == text[k..k + |s|];
      }
      if Find(text, s).Some? {
        var j := Find(text, s).value;
        assert s <= text[j..] by {
          assert text[j..][..|s|] == text[j..j + |s|];
        }
      }
    }
  }
}

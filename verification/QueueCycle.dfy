/** The send loop as a state machine: items are queued, a cycle takes over everything queued so far,
    users are served from the shared slots, and the cycle is cleared (core/GlobalDataQueue.cpp). */
module QueueCycle {
  import opened Options
  import opened Sequences
  import opened Buffers
  import opened FanOut

  // ---------- compression ----------

  /** What the hub leaves to its libraries.  `deflate` may fail, and what it returns inflates back; how
      much a growing vector spares is anybody's choice. */
  datatype Platform = Platform(deflate: string -> Option<string>, inflate: string -> string, spare: Policy) {
    ghost predicate Contract() {
      forall d :: deflate(d).Some? ==> inflate(deflate(d).value) == d
    }
  }

  const Z_ON := "$ZOn|"
  const Z_MIN_LEN: nat := 128

  /** What CreateZPipe leaves in a cleared slot: nothing for short data, on failure, or when
      compressing does not pay. */
  function ZPipe(lib: Platform, text: string): string {
    if |text| < Z_MIN_LEN then ""
    else match lib.deflate(text)
      case None => ""
      case Some(d) => if |Z_ON + d| >= |text| then "" else Z_ON + d
  }

  /** A client's view of a compressed command. */
  function Unzip(lib: Platform, data: string): string
    requires |Z_ON| <= |data|
  {
    lib.inflate(data[|Z_ON|..])
  }

  lemma ZPipeInverts(lib: Platform, text: string)
    requires lib.Contract() && ZPipe(lib, text) != ""
    ensures |Z_ON| <= |ZPipe(lib, text)| < |text| && Unzip(lib, ZPipe(lib, text)) == text
  {
    var d := lib.deflate(text).value;
    assert (Z_ON + d)[|Z_ON|..] == d;
  }

  // ---------- states ----------

  datatype Slot = Slot(built: bool, text: string, zlined: bool, zipped: string, zipCalls: nat)

  const PRISTINE := Slot(false, "", false, "", 0)

  datatype Hub = Hub(
    waiting: seq<Item>,      // queued, not yet in a cycle
    live: seq<Item>,         // the items of this cycle
    ops: string, ips: string,
    haveItems: bool,
    slots: seq<Slot>,
    created: seq<nat>,       // the built slots, latest first
    saved: nat)              // bytes spared by compression

  function TrafficOf(h: Hub): Traffic {
    Traffic(h.live, h.ops, h.ips)
  }

  /** A user being served: its features, the ZPipe support bit and its own pending searches. */
  datatype Receiver = Receiver(view: View, zpipe: bool, active6: Option<string>, active4: Option<string>)

  function Slotted(u: Receiver): nat {
    SlotIndex(ProfileOf(u.view).bits)
  }

  ghost predicate WellFormed(h: Hub) {
    |h.slots| == SLOTS
  }

  /** The created list names exactly the built slots, once each; an unbuilt slot is pristine; a slot is
      compressed at most once and then holds the compressed form of its text. */
  ghost predicate Consistent(h: Hub, lib: Platform) {
    && WellFormed(h)
    && (forall i :: 0 <= i < SLOTS ==> (h.slots[i].built <==> i in h.created))
    && (forall j, k :: 0 <= j < k < |h.created| ==> h.created[j] != h.created[k])
    && (forall k :: 0 <= k < |h.created| ==> h.created[k] < SLOTS)
    && (forall i :: 0 <= i < SLOTS && !h.slots[i].built ==> h.slots[i] == PRISTINE)
    && (forall i :: 0 <= i < SLOTS ==> SlotConsistent(h.slots[i], lib))
  }

  ghost predicate SlotConsistent(s: Slot, lib: Platform) {
    s.zipCalls == Digit(s.zlined) && s.zipped == if s.zlined then ZPipe(lib, s.text) else ""
  }

  // ---------- steps ----------

  function Add(h: Hub, item: Item): Hub {
    h.(waiting := h.waiting + [item])
  }

  function Prepare(h: Hub): Hub {
    h.(live := h.waiting, waiting := [], haveItems := h.haveItems || h.waiting != [] || h.ops != "" || h.ips != "")
  }

  function Clear(h: Hub): Hub
    requires WellFormed(h)
  {
    h.(live := [], ops := "", ips := "", haveItems := false, created := [],
       slots := seq(SLOTS, i requires 0 <= i < SLOTS => if i in h.created then PRISTINE else h.slots[i]))
  }

  function Build(h: Hub, lib: Platform, p: Profile): Hub
    requires WellFormed(h)
  {
    var i := SlotIndex(p.bits);
    if h.slots[i].built then h
    else Built(h, i, Filled(TrafficOf(h), p, lib.spare))
  }

  function Built(h: Hub, i: nat, text: string): Hub
    requires WellFormed(h) && i < SLOTS
  {
    h.(slots := h.slots[i := h.slots[i].(built := true, text := text)], created := [i] + h.created)
  }

  function Compress(h: Hub, lib: Platform, i: nat): Hub
    requires WellFormed(h) && i < SLOTS
  {
    var s := h.slots[i];
    if s.zlined then h
    else
      var d := ZPipe(lib, s.text);
      h.(slots := h.slots[i := s.(zlined := true, zipped := if d == "" then s.zipped else d, zipCalls := s.zipCalls + 1)])
  }

  /** What one call passes to the user's send buffer. */
  datatype Payload = Nothing | Raw(data: string) | Zipped(data: string)

  const TWO_64: nat := 0x1_0000_0000_0000_0000

  /** `szLen - szSearchLens` on unsigned 64-bit operands. */
  function SubU64(a: nat, b: nat): nat {
    (a - b) % TWO_64
  }

  function LenOf(o: Option<string>): nat {
    match o case None => 0 case Some(s) => |s|
  }

  /** The pending searches a call has to deal with: every time the search counter is at zero, a sharing
      user's own ones, the IPv6 one only on an IPv6 connection. */
  function Own6(u: Receiver, counterZero: bool): Option<string> {
    if counterZero && u.view.sharing && u.view.ipv6 then u.active6 else None
  }

  function Own4(u: Receiver, counterZero: bool): Option<string> {
    if counterZero && u.view.sharing then u.active4 else None
  }

  function SearchesHeld(u: Receiver, counterZero: bool): nat {
    LenOf(Own6(u, counterZero)) + LenOf(Own4(u, counterZero))
  }

  /** Whether the compressed copy is the one to send. */
  predicate PrefersZipped(zpipe: bool, held: nat, s: Slot) {
    zpipe && s.zipped != "" && (held == 0 || |s.zipped| <= SubU64(|s.text|, held))
  }

  function Choose(u: Receiver, counterZero: bool, s: Slot): Payload {
    if s.text == "" then Nothing
    else if PrefersZipped(u.zpipe, SearchesHeld(u, counterZero), s) then Zipped(s.zipped)
    else Raw(s.text)
  }

  /** The slot is compressed if the user takes compressed data, and the choice is accounted for. */
  function Account(h: Hub, lib: Platform, i: nat, zpipe: bool, held: nat): Hub
    requires WellFormed(h) && i < SLOTS
  {
    if !zpipe then h
    else
      var c := Compress(h, lib, i);
      if PrefersZipped(zpipe, held, c.slots[i]) then c.(saved := c.saved + Spared(c.slots[i])) else c
  }

  function Spared(s: Slot): nat {
    if |s.zipped| <= |s.text| then |s.text| - |s.zipped| else 0
  }

  /** One call of ProcessQueues on the shared state. */
  function Process(h: Hub, lib: Platform, u: Receiver, counterZero: bool): Hub
    requires WellFormed(h)
  {
    var b := Build(h, lib, ProfileOf(u.view));
    if b.slots[Slotted(u)].text == "" then b
    else Account(b, lib, Slotted(u), u.zpipe, SearchesHeld(u, counterZero))
  }

  function Handed(h: Hub, lib: Platform, u: Receiver, counterZero: bool): Payload
    requires WellFormed(h)
  {
    Choose(u, counterZero, Process(h, lib, u, counterZero).slots[Slotted(u)])
  }

  // ---------- every step keeps the slots consistent ----------

  lemma BuildKeeps(h: Hub, lib: Platform, p: Profile)
    requires Consistent(h, lib)
    ensures Consistent(Build(h, lib, p), lib)
  {
    var i, b := SlotIndex(p.bits), Build(h, lib, p);
    if !h.slots[i].built {
      forall j | 0 <= j < SLOTS
        ensures b.slots[j].built <==> j in b.created
      {
        assert j in b.created <==> j == i || j in h.created;
      }
    }
  }

  lemma CompressKeeps(h: Hub, lib: Platform, i: nat)
    requires Consistent(h, lib) && i < SLOTS && h.slots[i].built
    ensures Consistent(Compress(h, lib, i), lib)
  {
  }

  lemma ProcessKeeps(h: Hub, lib: Platform, u: Receiver, counterZero: bool)
    requires Consistent(h, lib)
    ensures Consistent(Process(h, lib, u, counterZero), lib)
  {
    BuildKeeps(h, lib, ProfileOf(u.view));
    CompressKeeps(Build(h, lib, ProfileOf(u.view)), lib, Slotted(u));
  }

  /** After Clear every slot is as new. */
  lemma ClearResets(h: Hub, lib: Platform)
    requires Consistent(h, lib)
    ensures Consistent(Clear(h), lib)
    ensures Clear(h).created == [] && forall i :: 0 <= i < SLOTS ==> Clear(h).slots[i] == PRISTINE
  {
  }

  // ---------- one call hands over exactly one copy ----------

  /** The bytes as the client reads them. */
  function Received(lib: Platform, payload: Payload): string
    requires payload.Zipped? ==> |Z_ON| <= |payload.data|
  {
    match payload
    case Nothing => ""
    case Raw(d) => d
    case Zipped(d) => Unzip(lib, d)
  }

  /** Every call hands over one copy of the slot, raw or compressed; the copy reads as the slot's text;
      what was handed over and what was saved add up to the slot; and the slot has been compressed at
      most once since it was cleared. */
  lemma OneCopyHandedOver(h: Hub, lib: Platform, u: Receiver, counterZero: bool)
    requires Consistent(h, lib) && lib.Contract()
    ensures var after, p := Process(h, lib, u, counterZero), Handed(h, lib, u, counterZero);
            var text := after.slots[Slotted(u)].text;
            && (p.Nothing? <==> text == "")
            && (p.Zipped? ==> |Z_ON| <= |p.data| && u.zpipe)
            && Received(lib, p) == text
            && (!p.Nothing? ==> |p.data| + (after.saved - h.saved) == |text|)
            && (p.Nothing? ==> after.saved == h.saved)
            && after.slots[Slotted(u)].zipCalls <= 1
  {
    var after := Process(h, lib, u, counterZero);
    ProcessKeeps(h, lib, u, counterZero);
    var s := after.slots[Slotted(u)];
    assert SlotConsistent(s, lib);
    if s.zipped != "" {
      ZPipeInverts(lib, s.text);
    }
  }

  /** A slot that is already built is not built again, and no other slot is touched. */
  lemma ProcessFrame(h: Hub, lib: Platform, u: Receiver, counterZero: bool)
    requires WellFormed(h)
    ensures var after := Process(h, lib, u, counterZero);
            && WellFormed(after) && after.waiting == h.waiting && TrafficOf(after) == TrafficOf(h)
            && (forall j :: 0 <= j < SLOTS && j != Slotted(u) ==> after.slots[j] == h.slots[j])
            && after.slots[Slotted(u)].built
            && (h.slots[Slotted(u)].built ==> after.slots[Slotted(u)].text == h.slots[Slotted(u)].text)
  {
  }

  // ---------- whole runs ----------

  datatype Event =
    | Queue(item: Item)
    | Lists(ops: string, ips: string)
    | StartCycle
    | Send(user: Receiver, counterZero: bool)
    | EndCycle

  function Step(h: Hub, lib: Platform, e: Event): (r: Hub)
    requires WellFormed(h)
    ensures WellFormed(r)
  {
    match e
    case Queue(item) => Add(h, item)
    case Lists(ops, ips) => h.(ops := ops, ips := ips)
    case StartCycle => Prepare(h)
    case Send(u, c) => Process(h, lib, u, c)
    case EndCycle => Clear(h)
  }

  function Run(h: Hub, lib: Platform, events: seq<Event>): (r: Hub)
    requires WellFormed(h)
    ensures WellFormed(r)
    decreases |events|
  {
    if events == [] then h else Run(Step(h, lib, events[0]), lib, events[1..])
  }

  lemma {:induction false} RunKeeps(h: Hub, lib: Platform, events: seq<Event>)
    requires Consistent(h, lib)
    ensures Consistent(Run(h, lib, events), lib)
    decreases |events|
  {
    if events != [] {
      match events[0] {
        case Send(u, c) => ProcessKeeps(h, lib, u, c);
        case EndCycle => ClearResets(h, lib);
        case _ =>
      }
      RunKeeps(Step(h, lib, events[0]), lib, events[1..]);
    }
  }

  /** Cycles alternate: StartCycle and EndCycle take turns, users are served inside a cycle, and the two
      lists change between cycles.  Items may be queued at any time. */
  predicate Phased(events: seq<Event>, sending: bool)
    decreases |events|
  {
    events == [] ||
    match events[0]
    case Queue(_) => Phased(events[1..], sending)
    case Lists(_, _) => !sending && Phased(events[1..], sending)
    case StartCycle => !sending && Phased(events[1..], true)
    case Send(_, _) => sending && Phased(events[1..], sending)
    case EndCycle => sending && Phased(events[1..], false)
  }

  /** Everything queued by a run, in order. */
  function Queued(events: seq<Event>): seq<Item> {
    if events == [] then []
    else (if events[0].Queue? then [events[0].item] else []) + Queued(events[1..])
  }

  /** The items taken over at each StartCycle. */
  function Taken(h: Hub, lib: Platform, events: seq<Event>): seq<seq<Item>>
    requires WellFormed(h)
    decreases |events|
  {
    if events == [] then []
    else (if events[0].StartCycle? then [h.waiting] else []) + Taken(Step(h, lib, events[0]), lib, events[1..])
  }

  lemma WaitingAfter(h: Hub, lib: Platform, e: Event)
    requires WellFormed(h)
    ensures Step(h, lib, e).waiting ==
            if e.StartCycle? then [] else if e.Queue? then h.waiting + [e.item] else h.waiting
  {
    if e.Send? {
      ProcessFrame(h, lib, e.user, e.counterZero);
    }
  }

  lemma FlattenCons<T>(x: seq<T>, rest: seq<seq<T>>)
    ensures Flatten([x] + rest) == x + Flatten(rest)
  {
    assert ([x] + rest)[1..] == rest;
  }

  /** Conservation: the cycles' items, in cycle order, followed by what still waits, are exactly what was
      queued, so each item belongs to one cycle and items queued during a cycle wait for the next. */
  lemma {:induction false} EachItemInOneCycle(h: Hub, lib: Platform, events: seq<Event>)
    requires WellFormed(h)
    ensures Flatten(Taken(h, lib, events)) + Run(h, lib, events).waiting == h.waiting + Queued(events)
    decreases |events|
  {
    if events != [] {
      var e, next := events[0], Step(h, lib, events[0]);
      var rest, queued, left := Taken(next, lib, events[1..]), Queued(events[1..]), Run(h, lib, events).waiting;
      assert left == Run(next, lib, events[1..]).waiting;
      EachItemInOneCycle(next, lib, events[1..]);
      WaitingAfter(h, lib, e);
      if e.StartCycle? {
        assert Taken(h, lib, events) == [h.waiting] + rest && Queued(events) == [] + queued;
        FlattenCons(h.waiting, rest);
        ConcatAssoc(h.waiting, Flatten(rest), left);
      } else {
        assert Taken(h, lib, events) == [] + rest == rest;
        if e.Queue? {
          ConcatAssoc(h.waiting, [e.item], queued);
        } else {
          assert Queued(events) == [] + queued;
        }
      }
    }
  }

  /** No user served in a cycle clashes with one served earlier in it. */
  predicate ClashFree(events: seq<Event>, served: seq<Profile>)
    decreases |events|
  {
    events == [] ||
    match events[0]
    case Send(u, _) =>
      (forall k :: 0 <= k < |served| ==> !Clash(served[k], ProfileOf(u.view))) &&
      ClashFree(events[1..], served + [ProfileOf(u.view)])
    case EndCycle => ClashFree(events[1..], [])
    case _ => ClashFree(events[1..], served)
  }

  /** Each served user reads the direct filter of the cycle's items by its own bits and the two lists. */
  ghost predicate AllReadRight(h: Hub, lib: Platform, events: seq<Event>)
    requires WellFormed(h)
    decreases |events|
  {
    events == [] ||
    ((events[0].Send? ==>
        var p := Handed(h, lib, events[0].user, events[0].counterZero);
        (p.Zipped? ==> |Z_ON| <= |p.data|) &&
        Received(lib, p) == Direct(TrafficOf(h), ProfileOf(events[0].user.view))) &&
     AllReadRight(Step(h, lib, events[0]), lib, events[1..]))
  }

  /** No slot of the run loses bytes while it is filled. */
  predicate FillsKept(h: Hub, lib: Platform, events: seq<Event>)
    requires WellFormed(h)
    decreases |events|
  {
    events == [] ||
    ((events[0].Send? && !h.slots[Slotted(events[0].user)].built ==>
        Kept(TrafficOf(h), ProfileOf(events[0].user.view), lib.spare)) &&
     FillsKept(Step(h, lib, events[0]), lib, events[1..]))
  }

  /** The built slots are those of the profiles served in this cycle, each filled for its profile. */
  ghost predicate ServedBy(h: Hub, lib: Platform, served: seq<Profile>) {
    Consistent(h, lib) &&
    (forall k :: 0 <= k < |served| ==>
       h.slots[SlotIndex(served[k].bits)].built &&
       h.slots[SlotIndex(served[k].bits)].text == Filled(TrafficOf(h), served[k], lib.spare)) &&
    (forall i :: 0 <= i < SLOTS && h.slots[i].built ==>
       exists k :: 0 <= k < |served| && SlotIndex(served[k].bits) == i)
  }

  ghost predicate Unclashing(served: seq<Profile>, p: Profile) {
    forall k :: 0 <= k < |served| ==> !Clash(served[k], p)
  }

  lemma SlotHoldsFilled(h: Hub, lib: Platform, served: seq<Profile>, u: Receiver, counterZero: bool)
    requires ServedBy(h, lib, served) && Unclashing(served, ProfileOf(u.view))
    ensures Process(h, lib, u, counterZero).slots[Slotted(u)].text == Filled(TrafficOf(h), ProfileOf(u.view), lib.spare)
    ensures h.slots[Slotted(u)].built ==> ProfileOf(u.view) in served
  {
    var p, i := ProfileOf(u.view), Slotted(u);
    ProcessFrame(h, lib, u, counterZero);
    if h.slots[i].built {
      var k :| 0 <= k < |served| && SlotIndex(served[k].bits) == i;
      assert !Clash(served[k], p);
    }
  }

  /** A user without a clash is handed bytes that read as the direct filter if and only if its slot was
      filled without a loss. */
  lemma SendRight(h: Hub, lib: Platform, served: seq<Profile>, u: Receiver, counterZero: bool)
    requires ServedBy(h, lib, served) && Unclashing(served, ProfileOf(u.view)) && lib.Contract()
    ensures var p := Handed(h, lib, u, counterZero);
            (p.Zipped? ==> |Z_ON| <= |p.data|) &&
            (Received(lib, p) == Direct(TrafficOf(h), ProfileOf(u.view)) <==>
             Kept(TrafficOf(h), ProfileOf(u.view), lib.spare))
  {
    SlotHoldsFilled(h, lib, served, u, counterZero);
    OneCopyHandedOver(h, lib, u, counterZero);
    FilledIsDirectExactly(TrafficOf(h), ProfileOf(u.view), lib.spare);
  }

  lemma ServedExtends(h: Hub, after: Hub, lib: Platform, served: seq<Profile>, p: Profile)
    requires ServedBy(h, lib, served) && Consistent(after, lib) && TrafficOf(after) == TrafficOf(h)
    requires forall j :: 0 <= j < SLOTS && j != SlotIndex(p.bits) ==> after.slots[j] == h.slots[j]
    requires after.slots[SlotIndex(p.bits)].built
    requires after.slots[SlotIndex(p.bits)].text == Filled(TrafficOf(h), p, lib.spare)
    requires Unclashing(served, p)
    ensures ServedBy(after, lib, served + [p])
  {
    var i, all := SlotIndex(p.bits), served + [p];
    forall j | 0 <= j < SLOTS && after.slots[j].built
      ensures exists k :: 0 <= k < |all| && SlotIndex(all[k].bits) == j
    {
      if j == i {
        assert SlotIndex(all[|served|].bits) == i;
      } else {
        var k :| 0 <= k < |served| && SlotIndex(served[k].bits) == j;
        assert all[k] == served[k];
      }
    }
    forall k | 0 <= k < |all|
      ensures after.slots[SlotIndex(all[k].bits)].built
      ensures after.slots[SlotIndex(all[k].bits)].text == Filled(TrafficOf(after), all[k], lib.spare)
    {
      if k < |served| {
        assert all[k] == served[k] && !Clash(served[k], p);
      }
    }
  }

  lemma SendServes(h: Hub, lib: Platform, served: seq<Profile>, u: Receiver, counterZero: bool)
    requires ServedBy(h, lib, served) && Unclashing(served, ProfileOf(u.view))
    ensures ServedBy(Process(h, lib, u, counterZero), lib, served + [ProfileOf(u.view)])
    ensures TrafficOf(Process(h, lib, u, counterZero)) == TrafficOf(h)
  {
    SlotHoldsFilled(h, lib, served, u, counterZero);
    ProcessKeeps(h, lib, u, counterZero);
    ProcessFrame(h, lib, u, counterZero);
    ServedExtends(h, Process(h, lib, u, counterZero), lib, served, ProfileOf(u.view));
  }

  lemma BuiltWasKept(h: Hub, lib: Platform, served: seq<Profile>, u: Receiver, counterZero: bool)
    requires ServedBy(h, lib, served) && Unclashing(served, ProfileOf(u.view))
    requires AllKept(TrafficOf(h), served, lib.spare)
    ensures h.slots[Slotted(u)].built ==> Kept(TrafficOf(h), ProfileOf(u.view), lib.spare)
  {
    SlotHoldsFilled(h, lib, served, u, counterZero);
  }

  lemma SendKeepsAll(h: Hub, lib: Platform, served: seq<Profile>, u: Receiver, counterZero: bool)
    requires ServedBy(h, lib, served) && Unclashing(served, ProfileOf(u.view))
    requires AllKept(TrafficOf(h), served, lib.spare) && Kept(TrafficOf(h), ProfileOf(u.view), lib.spare)
    ensures var after := Process(h, lib, u, counterZero);
            ServedBy(after, lib, served + [ProfileOf(u.view)]) &&
            AllKept(TrafficOf(after), served + [ProfileOf(u.view)], lib.spare)
  {
    SendServes(h, lib, served, u, counterZero);
  }

  /** Over every alternating run without clashes inside a cycle, every user is handed bytes that read as
      the direct filter, whoever built the slot, in whatever order users are served, compressed or not, if
      and only if no slot lost bytes while it was filled.  That is a question of the growth policy only. */
  lemma {:induction false} RunsReadRight(h: Hub, lib: Platform, events: seq<Event>, sending: bool, served: seq<Profile>)
    requires lib.Contract() && Phased(events, sending) && ClashFree(events, served)
    requires ServedBy(h, lib, served) && AllKept(TrafficOf(h), served, lib.spare) && (!sending ==> served == [])
    ensures AllReadRight(h, lib, events) <==> FillsKept(h, lib, events)
    decreases |events|
  {
    if events != [] {
      var next := Step(h, lib, events[0]);
      match events[0] {
        case Send(u, c) =>
          SendRight(h, lib, served, u, c);
          BuiltWasKept(h, lib, served, u, c);
          if Kept(TrafficOf(h), ProfileOf(u.view), lib.spare) {
            SendKeepsAll(h, lib, served, u, c);
            RunsReadRight(next, lib, events[1..], sending, served + [ProfileOf(u.view)]);
          }
        case EndCycle =>
          ClearResets(h, lib);
          RunsReadRight(next, lib, events[1..], false, []);
        case StartCycle =>
          RunsReadRight(next, lib, events[1..], true, []);
        case _ =>
          RunsReadRight(next, lib, events[1..], sending, served);
      }
    }
  }

  /** Vectors whose capacity follows their size lose nothing. */
  lemma {:induction false} ExactFillsKept(h: Hub, lib: Platform, events: seq<Event>)
    requires WellFormed(h) && lib.spare == EXACT
    ensures FillsKept(h, lib, events)
    decreases |events|
  {
    if events != [] {
      if events[0].Send? {
        KeptWhen(TrafficOf(h), ProfileOf(events[0].user.view), EXACT);
      }
      ExactFillsKept(Step(h, lib, events[0]), lib, events[1..]);
    }
  }

  // ---------- what a whole run delivers ----------

  /** The item bytes a profile is owed in each of a list of cycles. */
  function PerCycle(cycles: seq<seq<Item>>, p: Profile): seq<string> {
    seq(|cycles|, i requires 0 <= i < |cycles| => Flatten(WantedAll(cycles[i], p)))
  }

  /** Filtering cycle by cycle loses, repeats and reorders nothing: the cycles' filtered items together
      are the filtered list of all items. */
  lemma {:induction false} CyclesDeliverAll(cycles: seq<seq<Item>>, p: Profile)
    ensures Flatten(PerCycle(cycles, p)) == Flatten(WantedAll(Flatten(cycles), p))
  {
    if cycles == [] {
      assert WantedAll([], p) == [];
    } else {
      CyclesDeliverAll(cycles[1..], p);
      assert PerCycle(cycles, p)[1..] == PerCycle(cycles[1..], p);
      FilterConcat(cycles[0], Flatten(cycles[1..]), p);
    }
  }

  lemma FilterConcat(a: seq<Item>, b: seq<Item>, p: Profile)
    ensures Flatten(WantedAll(a + b, p)) == Flatten(WantedAll(a, p)) + Flatten(WantedAll(b, p))
  {
    assert WantedAll(a + b, p) == WantedAll(a, p) + WantedAll(b, p);
    FlattenConcat(WantedAll(a, p), WantedAll(b, p));
  }

  /** The list bytes a profile is owed in each cycle: what the lists hold when it starts. */
  function ListsPerCycle(h: Hub, lib: Platform, events: seq<Event>, p: Profile): seq<string>
    requires WellFormed(h)
    decreases |events|
  {
    if events == [] then []
    else (if events[0].StartCycle? then [h.ops + (if p.bits.userIp then h.ips else "")] else []) +
         ListsPerCycle(Step(h, lib, events[0]), lib, events[1..], p)
  }

  /** The events marked as one user's own are calls for a user of this profile, exactly one in each cycle.
      The user may have been served in the current cycle already. */
  predicate OncePerCycle(events: seq<Event>, own: seq<bool>, p: Profile, sending: bool, done: bool)
    requires |own| == |events|
    decreases |events|
  {
    if events == [] then sending ==> done
    else match events[0]
      case StartCycle => !own[0] && OncePerCycle(events[1..], own[1..], p, true, false)
      case EndCycle => !own[0] && (sending ==> done) && OncePerCycle(events[1..], own[1..], p, false, false)
      case Send(u, _) =>
        if own[0] then !done && ProfileOf(u.view) == p && OncePerCycle(events[1..], own[1..], p, sending, true)
        else OncePerCycle(events[1..], own[1..], p, sending, done)
      case _ => !own[0] && OncePerCycle(events[1..], own[1..], p, sending, done)
  }

  /** What the marked calls hand over, as the client reads it. */
  function Reads(h: Hub, lib: Platform, events: seq<Event>, own: seq<bool>): seq<string>
    requires WellFormed(h) && |own| == |events|
    decreases |events|
  {
    if events == [] then []
    else (if own[0] && events[0].Send? then [ReadOf(lib, Handed(h, lib, events[0].user, events[0].counterZero))] else []) +
         Reads(Step(h, lib, events[0]), lib, events[1..], own[1..])
  }

  function ReadOf(lib: Platform, payload: Payload): string {
    if payload.Zipped? && |payload.data| < |Z_ON| then "" else Received(lib, payload)
  }

  function Zip(xs: seq<string>, ys: seq<string>): seq<string>
    requires |xs| == |ys|
  {
    seq(|xs|, i requires 0 <= i < |xs| => xs[i] + ys[i])
  }

  lemma ListsMatch(h: Hub, lib: Platform, events: seq<Event>, p: Profile)
    requires WellFormed(h)
    ensures |ListsPerCycle(h, lib, events, p)| == |Taken(h, lib, events)|
    decreases |events|
  {
    if events != [] {
      ListsMatch(Step(h, lib, events[0]), lib, events[1..], p);
    }
  }

  /** What a profile is owed over a run: in each cycle its items, then the lists. */
  function Owed(h: Hub, lib: Platform, events: seq<Event>, p: Profile): seq<string>
    requires WellFormed(h)
  {
    ListsMatch(h, lib, events, p);
    Zip(PerCycle(Taken(h, lib, events), p), ListsPerCycle(h, lib, events, p))
  }

  lemma OwedStep(h: Hub, lib: Platform, events: seq<Event>, p: Profile)
    requires WellFormed(h) && events != []
    ensures var rest := Owed(Step(h, lib, events[0]), lib, events[1..], p);
            Owed(h, lib, events, p) ==
            if events[0].StartCycle? then [Direct(Traffic(h.waiting, h.ops, h.ips), p)] + rest else rest
  {
    var next := Step(h, lib, events[0]);
    ListsMatch(next, lib, events[1..], p);
    var taken, lists := Taken(next, lib, events[1..]), ListsPerCycle(next, lib, events[1..], p);
    if events[0].StartCycle? {
      var own := h.ops + (if p.bits.userIp then h.ips else "");
      assert Taken(h, lib, events) == [h.waiting] + taken;
      assert ListsPerCycle(h, lib, events, p) == [own] + lists;
      ZipCons(h.waiting, taken, own, lists, p);
      ConcatAssoc(Flatten(WantedAll(h.waiting, p)), h.ops, if p.bits.userIp then h.ips else "");
    }
  }

  lemma ZipCons(items: seq<Item>, taken: seq<seq<Item>>, own: string, lists: seq<string>, p: Profile)
    requires |taken| == |lists|
    ensures Zip(PerCycle([items] + taken, p), [own] + lists) ==
            [Flatten(WantedAll(items, p)) + own] + Zip(PerCycle(taken, p), lists)
  {
  }

  lemma ReadsStep(h: Hub, lib: Platform, events: seq<Event>, own: seq<bool>)
    requires WellFormed(h) && |own| == |events| && events != [] && AllReadRight(h, lib, events)
    ensures var rest := Reads(Step(h, lib, events[0]), lib, events[1..], own[1..]);
            Reads(h, lib, events, own) ==
            if own[0] && events[0].Send? then [Direct(TrafficOf(h), ProfileOf(events[0].user.view))] + rest else rest
    ensures AllReadRight(Step(h, lib, events[0]), lib, events[1..])
  {
    var e := events[0];
    var rest := Reads(Step(h, lib, e), lib, events[1..], own[1..]);
    if own[0] && e.Send? {
      var d := Handed(h, lib, e.user, e.counterZero);
      assert ReadOf(lib, d) == Received(lib, d);
      assert Reads(h, lib, events, own) == [ReadOf(lib, d)] + rest;
    } else {
      assert Reads(h, lib, events, own) == [] + rest == rest;
    }
  }

  lemma TrafficAfter(h: Hub, lib: Platform, e: Event)
    requires WellFormed(h) && (e.Queue? || e.Send? || e.StartCycle?)
    ensures TrafficOf(Step(h, lib, e)) == if e.StartCycle? then Traffic(h.waiting, h.ops, h.ips) else TrafficOf(h)
  {
    if e.Send? {
      ProcessFrame(h, lib, e.user, e.counterZero);
    }
  }

  /** What a user still has to read of the cycle that is under way. */
  function Due(h: Hub, p: Profile, sending: bool, done: bool): seq<string> {
    if sending && !done then [Direct(TrafficOf(h), p)] else []
  }

  function Sending(e: Event, sending: bool): bool {
    if e.StartCycle? then true else if e.EndCycle? then false else sending
  }

  function Done(e: Event, own: bool, done: bool): bool {
    if e.StartCycle? || e.EndCycle? then false else done || (e.Send? && own)
  }

  function OwnRead(h: Hub, own: bool, p: Profile): seq<string> {
    if own then [Direct(TrafficOf(h), p)] else []
  }

  function Starts(h: Hub, e: Event, p: Profile): seq<string> {
    if e.StartCycle? then [Direct(Traffic(h.waiting, h.ops, h.ips), p)] else []
  }

  lemma DueStep(h: Hub, lib: Platform, e: Event, own: bool, p: Profile, sending: bool, done: bool)
    requires WellFormed(h) && (own ==> e.Send? && !done)
    requires match e
             case StartCycle => !sending
             case EndCycle => sending && done
             case Lists(_, _) => !sending
             case Send(_, _) => sending
             case Queue(_) => true
    ensures Due(h, p, sending, done) + Starts(h, e, p) ==
            OwnRead(h, own, p) + Due(Step(h, lib, e), p, Sending(e, sending), Done(e, own, done))
  {
    if e.Queue? || e.Send? || e.StartCycle? {
      TrafficAfter(h, lib, e);
    }
  }

  /** If everybody reads right, a user served once in every cycle reads, cycle by cycle, what it is owed. */
  lemma {:induction false} ReadsOwed(h: Hub, lib: Platform, events: seq<Event>, own: seq<bool>, p: Profile, sending: bool, done: bool)
    requires WellFormed(h) && |own| == |events|
    requires Phased(events, sending) && AllReadRight(h, lib, events) && OncePerCycle(events, own, p, sending, done)
    ensures Reads(h, lib, events, own) == Due(h, p, sending, done) + Owed(h, lib, events, p)
    decreases |events|
  {
    if events == [] {
      assert Owed(h, lib, events, p) == [];
    } else {
      var e := events[0];
      var next, sending', done' := Step(h, lib, e), Sending(e, sending), Done(e, own[0], done);
      assert Phased(events[1..], sending') && OncePerCycle(events[1..], own[1..], p, sending', done');
      ReadsStep(h, lib, events, own);
      ReadsOwed(next, lib, events[1..], own[1..], p, sending', done');
      OwedStep(h, lib, events, p);
      DueStep(h, lib, e, own[0], p, sending, done);
      var rest, read, starts := Owed(next, lib, events[1..], p), OwnRead(h, own[0], p), Starts(h, e, p);
      ConcatAssoc(read, Due(next, p, sending', done'), rest);
      ConcatAssoc(Due(h, p, sending, done), starts, rest);
      assert Owed(h, lib, events, p) == starts + rest;
      assert Reads(h, lib, events, own) == read + Reads(next, lib, events[1..], own[1..]);
    }
  }

  /** The bytes a user is handed over a whole run.  In every cycle it reads its part of that cycle's items
      and then the lists; the parts of all cycles, in order, together with what it is still owed of the
      items that wait, are exactly the filter of everything queued: nothing is lost, repeated or reordered. */
  lemma RunDelivers(h: Hub, lib: Platform, events: seq<Event>, own: seq<bool>, p: Profile)
    requires lib.Contract() && Phased(events, false) && ClashFree(events, []) && ServedBy(h, lib, [])
    requires FillsKept(h, lib, events)
    requires |own| == |events| && OncePerCycle(events, own, p, false, false)
    ensures Reads(h, lib, events, own) == Owed(h, lib, events, p)
    ensures Flatten(PerCycle(Taken(h, lib, events), p)) + Flatten(WantedAll(Run(h, lib, events).waiting, p)) ==
            Flatten(WantedAll(h.waiting + Queued(events), p))
  {
    RunsReadRight(h, lib, events, false, []);
    ReadsOwed(h, lib, events, own, p, false, false);
    var taken, left := Taken(h, lib, events), Run(h, lib, events).waiting;
    EachItemInOneCycle(h, lib, events);
    CyclesDeliverAll(taken, p);
    FilterConcat(Flatten(taken), left, p);
  }
}

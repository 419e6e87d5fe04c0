/** The imperative broadcast queue: 144 slots with in-place buffers, the item lists, and the two login
    lists (core/GlobalDataQueue.h and core/GlobalDataQueue.cpp).  Every method is proved to do one step
    of the machine in QueueCycle. */
module GlobalDataQueues {
  import opened Options
  import opened Sequences
  import opened Buffers
  import opened NickLists
  import opened FanOut
  import opened QueueCycle

  /** A vector as it is when nothing was ever put into it. */
  ghost predicate Unused(b: Buf) {
    b.len == 0 && b.size == |b.cells| == INITIAL_SIZE
  }

  lemma UnusedAlike(b: Buf)
    requires Unused(b)
    ensures Alike(b, Empty())
  {
  }

  /** One shared queue.  How its vector grows is up to the library. */
  class GlobalQueue {
    var buf: Buf
    var created: bool
    var zlined: bool
    var zbuffer: string
    var zlen: nat
    ghost var zipCalls: nat

    ghost predicate Valid()
      reads this
    {
      && buf.Valid() && zlen <= |zbuffer|
      && (buf.size == |buf.cells| == INITIAL_SIZE || |buf.cells| > INITIAL_SIZE)
    }

    ghost function State(): Slot
      reads this
      requires Valid()
    {
      Slot(created, buf.Content(), zlined, zbuffer[..zlen], zipCalls)
    }

    constructor ()
      ensures Valid() && State() == PRISTINE && Unused(buf)
    {
      buf := Empty();
      created, zlined := false, false;
      zbuffer, zlen := Zeros(INITIAL_SIZE), 0;
      zipCalls := 0;
    }

    /** Appends the data, unless growing the vector loses bytes it held beyond its size. */
    method AddDataToQueue(data: string, policy: Policy)
      requires Valid()
      modifies this`buf
      ensures Valid() && buf == Extend(old(buf), data, policy)
      ensures buf.Content() == old(buf).Content() + data <==> !(Grows(old(buf), |data|) && Overrun(old(buf)))
    {
      ghost var was := buf;
      if |buf.cells| < buf.len + |data| + 1 {
        buf := Resize(buf, buf.len + |data| + 1, policy(buf.size, |buf.cells|, buf.len + |data| + 1));
      }
      buf := Buf(Overwrite(buf.cells, buf.len, data), buf.size, buf.len + |data|);
      buf := Buf(Overwrite(buf.cells, buf.len, "\0"), buf.size, buf.len);
      assert buf == Extend(was, data, policy);
      ExtendExactly(was, data, policy);
    }

    method AddDataToQueueStr(data: string, policy: Policy)
      requires Valid()
      modifies this`buf
      ensures Valid() && Alike(buf, Extend(old(buf), data, policy))
    {
      if data != "" {
        AddDataToQueue(data, policy);
      } else {
        NothingAdded(buf, policy);
      }
    }

    /** Compresses the slot into its own buffer, which only ever grows. */
    method CreateZPipe(lib: Platform)
      requires Valid()
      modifies this`zbuffer, this`zlen, this`zipCalls
      ensures Valid()
      ensures var d := ZPipe(lib, old(State().text));
              State() == old(State()).(zipped := if d == "" then old(State().zipped) else d, zipCalls := old(zipCalls) + 1)
    {
      zipCalls := zipCalls + 1;
      var text := buf.Content();
      if |text| < Z_MIN_LEN {
        return;
      }
      match lib.deflate(text) {
        case None => return;
        case Some(body) =>
          var out := Z_ON + body;
          if |out| >= |text| {
            return;
          }
          if |zbuffer| < |out| {
            var n := |out| + 1;
            zbuffer := zbuffer + Zeros(n + n / 2 + 1 - |zbuffer|);
          }
          zlen := |out|;
          zbuffer := Overwrite(zbuffer, 0, out);
          assert zbuffer[..zlen] == out;
      }
    }

    /** What ClearQueues does to each created slot; a grown buffer is given back. */
    method Reset()
      requires Valid()
      modifies this
      ensures Valid() && State() == PRISTINE && Unused(buf)
    {
      buf := Buf(buf.cells, buf.size, 0);
      if buf.len == 0 && |buf.cells| > INITIAL_SIZE {
        buf := Buf(Zeros(INITIAL_SIZE), INITIAL_SIZE, 0);
      }
      zlen := 0;
      created, zlined := false, false;
      zipCalls := 0;
    }
  }

  // ---------- users ----------

  /** The first place a text occurs, as `strstr` finds it. */
  function Find(text: string, s: string): Option<nat> {
    if s <= text then Some(0)
    else if text == "" then None
    else match Find(text[1..], s)
      case None => None
      case Some(k) => Some(k + 1)
  }

  /** A text without the first occurrence of another. */
  function Without(text: string, s: string): string {
    match Find(text, s)
    case None => text
    case Some(k) => if k + |s| <= |text| then text[..k] + text[k + |s|..] else text
  }

  lemma {:induction false} FindFirst(text: string, s: string)
    ensures match Find(text, s)
            case None => forall k :: 0 <= k <= |text| ==> !(s <= text[k..])
            case Some(k) => k + |s| <= |text| && text[k..k + |s|] == s && forall j :: 0 <= j < k ==> !(s <= text[j..])
  {
    if s <= text {
      assert text[0..] == text;
    } else {
      assert text[0..] == text;
      if text != "" {
        FindFirst(text[1..], s);
        assert forall k :: 0 < k <= |text| ==> text[k..] == text[1..][k - 1..];
        if Find(text[1..], s).Some? {
          var k := Find(text[1..], s).value;
          assert text[k + 1..k + 1 + |s|] == text[1..][k..k + |s|];
        }
      }
    }
  }

  function WithoutPending(text: string, pending: Option<string>): string {
    match pending
    case None => text
    case Some(s) => Without(text, s)
  }

  lemma CutAfter(buf: string, start: nat, k: nat, n: nat)
    requires start + k + n <= |buf|
    ensures buf[..start + k] + buf[start + k + n..] == buf[..start] + (buf[start..][..k] + buf[start..][k + n..])
  {
    assert buf[start..][k + n..] == buf[start + k + n..];
    assert buf[start..][..k] == buf[start..start + k];
    assert buf[..start + k] == buf[..start] + buf[start..start + k];
  }

  lemma WithoutFound(text: string, s: string)
    ensures match Find(text, s)
            case None => Without(text, s) == text
            case Some(k) => k + |s| <= |text| && Without(text, s) == text[..k] + text[k + |s|..]
  {
    FindFirst(text, s);
  }

  class User {
    const view: View
    const zpipe: bool
    var active6: Option<string>
    var active4: Option<string>
    var sendBuf: string

    constructor (view: View, zpipe: bool)
      ensures this.view == view && this.zpipe == zpipe && active6 == None && active4 == None && sendBuf == ""
    {
      this.view, this.zpipe := view, zpipe;
      active6, active4, sendBuf := None, None, "";
    }

    ghost function AsReceiver(): Receiver
      reads this
    {
      Receiver(view, zpipe, active6, active4)
    }

    method PutInSendBuf(text: string)
      modifies this`sendBuf
      ensures sendBuf == old(sendBuf) + text
    {
      sendBuf := sendBuf + text;
    }

    /** Removes the first occurrence after `start`, if there is one. */
    method RemFromSendBuf(data: string, start: nat)
      requires start <= |sendBuf|
      modifies this`sendBuf
      ensures sendBuf == old(sendBuf)[..start] + Without(old(sendBuf)[start..], data)
    {
      var rest := sendBuf[start..];
      WithoutFound(rest, data);
      match Find(rest, data) {
        case None =>
          assert sendBuf == sendBuf[..start] + rest;
        case Some(k) =>
          CutAfter(sendBuf, start, k, |data|);
          sendBuf := sendBuf[..start + k] + sendBuf[start + k + |data|..];
      }
    }
  }

  /** The pending searches a call on an empty, or on any other, slot leaves behind. */
  function PendingAfter(u: Receiver, counterZero: bool, payload: Payload): (Option<string>, Option<string>) {
    if counterZero && payload.Nothing? then (None, None) else PendingLeft(u, counterZero)
  }

  function PendingLeft(u: Receiver, counterZero: bool): (Option<string>, Option<string>) {
    if !counterZero then (u.active6, u.active4)
    else if !u.view.sharing || u.view.ipv6 then (None, None)
    else (u.active6, None)
  }

  /** The bytes the user is sent: a raw copy loses one copy of each of the user's own searches. */
  function SentBytes(u: Receiver, counterZero: bool, payload: Payload): string {
    match payload
    case Nothing => ""
    case Zipped(d) => d
    case Raw(text) => WithoutPending(WithoutPending(text, Own6(u, counterZero)), Own4(u, counterZero))
  }

  // ---------- the login lists ----------

  class OpsQueue {
    var buf: Buf
    ghost var nicks: seq<string>

    ghost predicate Valid()
      reads this
    {
      Sound(buf)
    }

    /** The buffer is the printed list of the nicks stored since it was cleared. */
    ghost predicate Complete()
      reads this
    {
      Holds(buf, PrintOps(nicks)) && AllClean(nicks, [])
    }

    constructor ()
      ensures Valid() && nicks == [] && buf == Empty()
    {
      buf, nicks := Empty(), [];
    }

    method Store(nick: string, policy: Policy)
      requires Valid()
      modifies this
      ensures Valid() && nicks == old(nicks) + [nick] && buf == StoreOp(old(buf), nick, policy)
      ensures NulFree(nick) && old(Complete()) ==> (Complete() <==> OpFits(old(buf), nick))
    {
      if Complete() {
        PrintedNulFree(nicks, []);
        StoreOpPrints(buf, nicks, nick, policy);
      }
      Print(nick, policy);
      nicks := nicks + [nick];
    }

    method MakeRoom(szNickLen: nat, policy: Policy)
      requires Valid()
      modifies this`buf
      ensures buf == Reserve(old(buf), szNickLen, policy)
    {
      if |buf.cells| < buf.len + szNickLen + 1 {
        var n := buf.len + szNickLen + 1;
        buf := Resize(buf, n, policy(buf.size, |buf.cells|, n));
      }
    }

    /** The printing itself: the new nick goes over the final '|'. */
    method Print(nick: string, policy: Policy)
      requires Valid()
      modifies this`buf
      ensures buf == StoreOp(old(buf), nick, policy)
    {
      if buf.len == 0 {
        var text := OP_HEAD + nick + "$$|";
        buf := Buf(Snprintf(buf.cells, 0, text), buf.size, |text|);
      } else {
        MakeRoom(|nick| + 3, policy);
        var text := nick + "$$|";
        buf := Buf(Snprintf(buf.cells, buf.len - 1, text), buf.size, buf.len + |text| - 1);
      }
    }

    method Clear()
      requires Valid()
      modifies this
      ensures Valid() && nicks == [] && Complete() && buf.len == 0
    {
      buf := Buf(Overwrite(buf.cells, 0, "\0"), buf.size, 0);
      nicks := [];
    }
  }

  class IPsQueue {
    var buf: Buf
    var haveDollars: bool
    ghost var entries: seq<IpEntry>

    ghost predicate Valid()
      reads this
    {
      Sound(buf)
    }

    /** The buffer is the printed list of the entries stored since it was cleared. */
    ghost predicate Complete()
      reads this
    {
      Shows(IpList(buf, haveDollars), entries) && AllClean([], entries)
    }

    constructor ()
      ensures Valid() && entries == [] && buf == Empty()
    {
      buf, haveDollars, entries := Empty(), false, [];
    }

    method Store(e: IpEntry, policy: Policy)
      requires Valid()
      modifies this
      ensures Valid() && entries == old(entries) + [e]
      ensures IpList(buf, haveDollars) == StoreIp(IpList(old(buf), old(haveDollars)), e, policy)
      ensures NulFree(e.Text()) && old(Complete()) ==>
              (Complete() <==> IpFits(IpList(old(buf), old(haveDollars)), e, policy))
    {
      if Complete() {
        PrintedNulFree([], entries);
        StoreIpPrints(IpList(buf, haveDollars), entries, e, policy);
      }
      Print(e, policy);
      entries := entries + [e];
    }

    /** The printing itself: the new entry goes over the final '|'. */
    method Print(e: IpEntry, policy: Policy)
      requires Valid()
      modifies this`buf, this`haveDollars
      ensures IpList(buf, haveDollars) == StoreIp(IpList(old(buf), old(haveDollars)), e, policy)
    {
      if buf.len == 0 {
        var text := IP_HEAD + e.Text() + "|";
        buf := Buf(Snprintf(buf.cells, 0, text), buf.size, |text|);
        haveDollars := false;
      } else {
        MakeRoom(e, policy);
        var text := e.Text() + "$$|";
        buf := Buf(Snprintf(buf.cells, buf.len - 1, text), buf.size, buf.len + |text| - 1);
      }
    }

    /** The allocation grows, and a first entry gets the dollars it was printed without. */
    method MakeRoom(e: IpEntry, policy: Policy)
      requires Valid() && buf.len > 0
      modifies this`buf, this`haveDollars
      ensures haveDollars && buf == Opened(IpList(old(buf), old(haveDollars)), e, policy)
    {
      var szLen := |e.nick| + |e.ip| + 4;
      if |buf.cells| < buf.len + szLen + 1 {
        var n := buf.len + szLen + 1;
        buf := Resize(buf, n, policy(buf.size, |buf.cells|, n));
      }
      if !haveDollars {
        buf := Buf(Overwrite(buf.cells, buf.len - 1, "$$"), buf.size, buf.len + 2);
        haveDollars := true;
      }
    }

    method Clear()
      requires Valid()
      modifies this
      ensures Valid() && entries == [] && Complete() && buf.len == 0
    {
      buf := Buf(Overwrite(buf.cells, 0, "\0"), buf.size, 0);
      entries := [];
    }
  }

  // ---------- the queue ----------

  lemma NextPart(was: Buf, now: Buf, parts: seq<string>, k: nat, policy: Policy)
    requires k < |parts| && Alike(was, Buffers.Run(Empty(), parts[..k], policy))
    requires now.Valid() && Alike(now, Extend(was, parts[k], policy))
    ensures Alike(now, Buffers.Run(Empty(), parts[..k + 1], policy))
  {
    var ref, data := Buffers.Run(Empty(), parts[..k], policy), parts[k];
    assert Buffers.Run(Empty(), parts[..k + 1], policy) == Extend(ref, data, policy) by {
      RunAppend(Empty(), parts[..k], data, policy);
      assert parts[..k + 1] == parts[..k] + [data];
    }
    ExtendAlike(was, ref, data, policy);
  }

  ghost predicate Distinct(slots: seq<GlobalQueue>) {
    |slots| == SLOTS && forall i, j :: 0 <= i < j < SLOTS ==> slots[i] != slots[j]
  }

  method NewSlots() returns (qs: seq<GlobalQueue>)
    ensures Distinct(qs) && fresh(qs)
    ensures forall i :: 0 <= i < SLOTS ==> qs[i].Valid() && qs[i].State() == PRISTINE && Unused(qs[i].buf)
  {
    qs := [];
    for n := 0 to SLOTS
      invariant |qs| == n && fresh(qs)
      invariant forall i, j :: 0 <= i < j < n ==> qs[i] != qs[j]
      invariant forall i :: 0 <= i < n ==> qs[i].Valid() && qs[i].State() == PRISTINE && Unused(qs[i].buf)
    {
      var q := new GlobalQueue();
      qs := qs + [q];
    }
  }

  /** Clears the created slots, front to back. */
  method ResetAll(ghost slots: seq<GlobalQueue>, created: seq<GlobalQueue>, ghost indexes: seq<nat>)
    requires Distinct(slots) && |created| == |indexes|
    requires forall k :: 0 <= k < |indexes| ==> indexes[k] < SLOTS && created[k] == slots[indexes[k]]
    requires forall i :: 0 <= i < SLOTS ==> slots[i].Valid()
    requires forall i :: 0 <= i < SLOTS && i !in indexes ==> Unused(slots[i].buf)
    modifies slots
    ensures forall i :: 0 <= i < SLOTS ==> slots[i].Valid() && Unused(slots[i].buf)
    ensures forall i :: 0 <= i < SLOTS ==> slots[i].State() == if i in indexes then PRISTINE else old(slots[i].State())
  {
    for k := 0 to |created|
      invariant forall i :: 0 <= i < SLOTS ==> slots[i].Valid()
      invariant forall i :: 0 <= i < SLOTS && i in indexes[..k] ==>
        slots[i].State() == PRISTINE && Unused(slots[i].buf)
      invariant forall i :: 0 <= i < SLOTS && i !in indexes[..k] ==>
        slots[i].State() == old(slots[i].State()) && slots[i].buf == old(slots[i].buf)
    {
      created[k].Reset();
      assert indexes[..k + 1] == indexes[..k] + [indexes[k]];
    }
    assert indexes[..|created|] == indexes;
  }

  class GlobalDataQueue {
    const slots: seq<GlobalQueue>
    const opList: OpsQueue
    const userIps: IPsQueue
    const lib: Platform
    var createdQueues: seq<GlobalQueue>
    var newItems: seq<Item>
    var items: seq<Item>
    var haveItems: bool
    var bytesSaved: nat

    ghost var model: Hub

    ghost predicate Valid()
      reads this, slots, opList, userIps
    {
      && SlotsValid() && ListsValid()
      && model.waiting == newItems && model.live == items && model.haveItems == haveItems && model.saved == bytesSaved
    }

    ghost predicate SlotsValid()
      reads this, slots
    {
      && Distinct(slots) && WellFormed(model)
      && (forall i :: 0 <= i < SLOTS ==> slots[i].Valid() && slots[i].State() == model.slots[i])
      && (forall i :: 0 <= i < SLOTS && i !in model.created ==> Unused(slots[i].buf))
      && |createdQueues| == |model.created|
      && (forall k :: 0 <= k < |createdQueues| ==> model.created[k] < SLOTS && createdQueues[k] == slots[model.created[k]])
    }

    ghost predicate ListsValid()
      reads this, opList, userIps
    {
      && opList.Valid() && userIps.Valid()
      && model.ops == Stored(opList.buf) && model.ips == Stored(userIps.buf)
    }

    constructor (lib: Platform)
      ensures Valid() && this.lib == lib && fresh(slots) && fresh(opList) && fresh(userIps)
      ensures model == Hub([], [], "", "", false, seq(SLOTS, _ => PRISTINE), [], 0)
    {
      var qs := NewSlots();
      this.lib, slots := lib, qs;
      opList := new OpsQueue();
      userIps := new IPsQueue();
      createdQueues, newItems, items := [], [], [];
      haveItems, bytesSaved := false, 0;
      model := Hub([], [], "", "", false, seq(SLOTS, _ => PRISTINE), [], 0);
    }

    method AddQueueItem(item: Item)
      requires Valid()
      modifies this`newItems, this`model
      ensures Valid() && model == Add(old(model), item)
    {
      newItems := newItems + [item];
      model := Add(model, item);
    }

    method OpListStore(nick: string)
      requires Valid()
      modifies opList, this`model
      ensures Valid() && opList.nicks == old(opList.nicks) + [nick]
      ensures opList.buf == StoreOp(old(opList.buf), nick, lib.spare)
      ensures model == old(model).(ops := Stored(opList.buf))
      ensures NulFree(nick) && old(opList.Complete()) ==>
              (opList.Complete() <==> OpFits(old(opList.buf), nick)) &&
              (opList.Complete() ==> model.ops == PrintOps(opList.nicks))
    {
      opList.Store(nick, lib.spare);
      model := model.(ops := Stored(opList.buf));
    }

    method UserIPStore(e: IpEntry)
      requires Valid()
      modifies userIps, this`model
      ensures Valid() && userIps.entries == old(userIps.entries) + [e]
      ensures IpList(userIps.buf, userIps.haveDollars) ==
              StoreIp(IpList(old(userIps.buf), old(userIps.haveDollars)), e, lib.spare)
      ensures model == old(model).(ips := Stored(userIps.buf))
      ensures NulFree(e.Text()) && old(userIps.Complete()) ==>
              (userIps.Complete() <==> IpFits(IpList(old(userIps.buf), old(userIps.haveDollars)), e, lib.spare)) &&
              (userIps.Complete() ==> model.ips == PrintIps(userIps.entries))
    {
      userIps.Store(e, lib.spare);
      model := model.(ips := Stored(userIps.buf));
    }

    method PrepareQueueItems()
      requires Valid()
      modifies this`items, this`newItems, this`haveItems, this`model
      ensures Valid() && model == Prepare(old(model))
    {
      items := newItems;
      newItems := [];
      if items != [] || opList.buf.len != 0 || userIps.buf.len != 0 {
        haveItems := true;
      }
      model := Prepare(model);
    }

    method ClearQueues()
      requires Valid()
      modifies this`haveItems, this`createdQueues, this`items, this`model, slots, opList, userIps
      ensures Valid() && model == QueueCycle.Clear(old(model))
    {
      haveItems := false;
      ResetAll(slots, createdQueues, model.created);
      createdQueues := [];
      opList.Clear();
      userIps.Clear();
      items := [];
      model := QueueCycle.Clear(model);
    }

    /** Search commands go to sharing users only. */
    method AddSearchDataToQueue(v: View, queue: GlobalQueue, cur: Item)
      requires queue.Valid()
      modifies queue`buf
      ensures queue.Valid()
      ensures Alike(queue.buf, Extend(old(queue.buf), if v.sharing then cur.first else "", lib.spare))
    {
      if v.sharing {
        queue.AddDataToQueueStr(cur.first, lib.spare);
      } else {
        NothingAdded(queue.buf, lib.spare);
      }
    }

    /** The switch of the building loop: whether the item is sent as it is, or as a search. */
    method Decide(v: View, bits: Bits, cur: Item) returns (want: bool, search: bool)
      requires bits == ProfileOf(v).bits
      ensures Wanted(cur, ProfileOf(v)) ==
              if want then (if cur.cmd.MYINFO? && bits.long then cur.second else cur.first)
              else if search && v.sharing then cur.first
              else ""
    {
      var s := bits.search;
      want, search := false, false;
      match cur.cmd {
        case HELLO => want := bits.hello;
        case EXTJSON => want := |cur.first| != 0 && v.extJson;
        case MYINFO => want := true;
        case OPS =>
          if bits.operator {
            if EXT_JSON_PREFIX <= cur.first {
              want := v.extJson;
            } else {
              want := true;
            }
          }
        case ACTIVE_SEARCH_V6 => search := v.sharing && s != All4 && s != Active4;
        case ACTIVE_SEARCH_V64 =>
          if v.sharing && s != All4 && s != Active4 {
            search := true;
          } else if s != All6 && s != Active6 {
            search := true;
          }
        case ACTIVE_SEARCH_V4 => search := v.sharing && s != All6 && s != Active6;
        case PASSIVE_SEARCH_V6 => search := v.sharing && (s == All6 || s == All64 || s == All6Active4);
        case PASSIVE_SEARCH_V64 =>
          search := v.sharing && (s == All64 || s == All6 || s == All4 || s == Active6All4 || s == All6Active4);
        case PASSIVE_SEARCH_V4 => search := v.sharing && (s == All4 || s == All64 || s == Active6All4);
        case PASSIVE_SEARCH_V4_ONLY => search := v.sharing && s == All4;
        case PASSIVE_SEARCH_V6_ONLY => search := v.sharing && s == All6;
        case CHAT => want := true;
        case HUBNAME => want := true;
        case QUIT => want := true;
        case LUA => want := true;
      }
    }

    /** One item, filtered by the bits of the user being served. */
    method AddItem(v: View, bits: Bits, queue: GlobalQueue, cur: Item)
      requires queue.Valid() && bits == ProfileOf(v).bits
      modifies queue`buf
      ensures queue.Valid()
      ensures Alike(queue.buf, Extend(old(queue.buf), Wanted(cur, ProfileOf(v)), lib.spare))
    {
      var want, search := Decide(v, bits, cur);
      if want {
        var text := if cur.cmd.MYINFO? && bits.long then cur.second else cur.first;
        queue.AddDataToQueueStr(text, lib.spare);
      } else if search {
        AddSearchDataToQueue(v, queue, cur);
      } else {
        NothingAdded(queue.buf, lib.spare);
      }
    }

    /** The building loop. */
    method AddItems(v: View, bits: Bits, queue: GlobalQueue)
      requires Valid() && queue in slots && bits == ProfileOf(v).bits && Unused(queue.buf)
      modifies queue`buf
      ensures queue.Valid()
      ensures Alike(queue.buf, Buffers.Run(Empty(), WantedAll(items, ProfileOf(v)), lib.spare))
    {
      ghost var parts := WantedAll(items, ProfileOf(v));
      UnusedAlike(queue.buf);
      for k := 0 to |items|
        invariant queue.Valid() && Alike(queue.buf, Buffers.Run(Empty(), parts[..k], lib.spare))
      {
        ghost var was := queue.buf;
        AddItem(v, bits, queue, items[k]);
        NextPart(was, queue.buf, parts, k, lib.spare);
      }
      assert parts[..|items|] == parts;
    }

    /** Appends one of the two lists, if it has anything and the user gets it. */
    method AddList(list: Buf, wanted: bool, queue: GlobalQueue, ghost ref: Buf)
      requires queue.Valid() && Sound(list) && Alike(queue.buf, ref)
      modifies queue`buf
      ensures queue.Valid()
      ensures Alike(queue.buf, Extend(ref, if wanted then Stored(list) else "", lib.spare))
    {
      ghost var was, text := queue.buf, if wanted then Stored(list) else "";
      ExtendAlike(was, ref, text, lib.spare);
      if list.len != 0 && wanted {
        queue.AddDataToQueue(Stored(list), lib.spare);
      } else {
        NothingAdded(was, lib.spare);
      }
    }

    /** The first user of a slot fills it: every item in turn, then the two lists. */
    method BuildQueue(v: View, bits: Bits, queue: GlobalQueue)
      requires Valid() && queue in slots && bits == ProfileOf(v).bits && Unused(queue.buf)
      modifies queue`buf, queue`created
      ensures queue.Valid()
      ensures queue.State() == old(queue.State()).(built := true, text := Filled(TrafficOf(model), ProfileOf(v), lib.spare))
    {
      ghost var wanted := Buffers.Run(Empty(), WantedAll(items, ProfileOf(v)), lib.spare);
      AddItems(v, bits, queue);
      AddList(opList.buf, true, queue, wanted);
      AddList(userIps.buf, bits.userIp, queue, Extend(wanted, model.ops, lib.spare));
      FillSteps(TrafficOf(model), ProfileOf(v), lib.spare);
      queue.created := true;
    }

    /** The search class and what it adds to the slot index. */
    method SearchType(v: View) returns (offset: nat, search: Search)
      ensures search == SearchOf(v) && offset == Offset(search)
    {
      if !v.sharing {
        return 0, NoSearches;
      }
      if v.ipv6 {
        if v.ipv4 {
          if v.ipv6Active {
            if v.ipv4Active {
              return 6, All64;
            } else {
              return 14, All6Active4;
            }
          } else if v.ipv4Active {
            return 16, Active6All4;
          } else {
            return 12, Active64;
          }
        } else if v.ipv6Active {
          return 4, All6;
        } else {
          return 10, Active6;
        }
      } else if v.ipv4Active {
        return 2, All4;
      } else {
        return 8, Active4;
      }
    }

    /** The slot index and the queue bits, accumulated together. */
    method QueueType(v: View) returns (queueType: nat, bits: Bits)
      ensures bits == ProfileOf(v).bits && queueType == SlotIndex(bits)
    {
      queueType, bits := 0, Bits(false, NoSearches, false, false, false);
      if v.fullMyInfos {
        queueType, bits := 1, bits.(long := true);
      }
      var offset, search := SearchType(v);
      queueType, bits := queueType + offset, bits.(search := search);
      if !v.noHello {
        queueType, bits := queueType + 14, bits.(hello := true);
      }
      if v.operator {
        queueType, bits := queueType + 28, bits.(operator := true);
      }
      if v.userIps {
        queueType, bits := queueType + 56, bits.(userIp := true);
      }
    }

    /** Everything but the freshly built slot i agrees with the model. */
    ghost predicate ValidButBuilt(i: nat, text: string)
      reads this, slots, opList, userIps
    {
      && Distinct(slots) && WellFormed(model) && i < SLOTS
      && (forall j :: 0 <= j < SLOTS ==> slots[j].Valid())
      && (forall j :: 0 <= j < SLOTS && j != i && j !in model.created ==> Unused(slots[j].buf))
      && (forall j :: 0 <= j < SLOTS ==>
            slots[j].State() == if j == i then model.slots[j].(built := true, text := text) else model.slots[j])
      && |createdQueues| == |model.created|
      && (forall k :: 0 <= k < |createdQueues| ==> model.created[k] < SLOTS && createdQueues[k] == slots[model.created[k]])
      && ListsValid()
      && model.waiting == newItems && model.live == items && model.haveItems == haveItems && model.saved == bytesSaved
    }

    /** Enters a freshly built slot in the created list. */
    method NoteCreated(i: nat, ghost text: string)
      requires ValidButBuilt(i, text)
      modifies this`createdQueues, this`model
      ensures Valid() && model == Built(old(model), i, text)
    {
      createdQueues := [slots[i]] + createdQueues;
      model := Built(model, i, text);
    }

    /** Builds the slot unless an earlier user of the cycle already did. */
    method Ensure(v: View, i: nat, bits: Bits)
      requires Valid() && Consistent(model, lib) && bits == ProfileOf(v).bits && i == SlotIndex(bits)
      modifies this`createdQueues, this`model, slots[i]
      ensures Valid() && model == Build(old(model), lib, ProfileOf(v))
    {
      if !slots[i].created {
        BuildQueue(v, bits, slots[i]);
        NoteCreated(i, slots[i].State().text);
      }
    }

    /** Compression is memoised in the slot. */
    method CompressOnce(i: nat)
      requires Valid() && i < SLOTS
      modifies this`model, slots[i]
      ensures Valid() && model == Compress(old(model), lib, i)
    {
      var queue := slots[i];
      if !queue.zlined {
        queue.zlined := true;
        queue.CreateZPipe(lib);
        model := Compress(model, lib, i);
      }
    }

    /** Whether the compressed copy of a slot is the one to send. */
    method Pays(queue: GlobalQueue, held: nat) returns (pays: bool)
      requires queue.Valid()
      ensures pays <==> PrefersZipped(true, held, queue.State())
    {
      pays := queue.zlen != 0 && (held == 0 || queue.zlen <= SubU64(queue.buf.len, held));
    }

    /** Hands over the compressed copy and notes what that saved. */
    method SendZipped(i: nat, user: User)
      requires Valid() && i < SLOTS && |model.slots[i].zipped| <= |model.slots[i].text|
      modifies user`sendBuf, this`bytesSaved, this`model
      ensures Valid() && model == old(model).(saved := old(model.saved) + Spared(model.slots[i]))
      ensures user.sendBuf == old(user.sendBuf) + model.slots[i].zipped
    {
      var queue := slots[i];
      user.PutInSendBuf(queue.zbuffer[..queue.zlen]);
      bytesSaved := bytesSaved + (queue.buf.len - queue.zlen);
      model := model.(saved := bytesSaved);
    }

    lemma ZippedIsShorter(s: Slot)
      requires SlotConsistent(s, lib)
      ensures |s.zipped| <= |s.text|
    {
    }

    /** Hands over the compressed copy if the user takes one and it is small enough. */
    method TryZipped(i: nat, user: User, held: nat) returns (sent: bool)
      requires Valid() && Consistent(model, lib) && i < SLOTS && slots[i].created
      modifies user`sendBuf, this`bytesSaved, this`model, slots[i]
      ensures Valid() && model == Account(old(model), lib, i, user.zpipe, held)
      ensures model.slots[i].text == old(model.slots[i].text)
      ensures sent <==> PrefersZipped(user.zpipe, held, model.slots[i])
      ensures user.sendBuf == old(user.sendBuf) + if sent then model.slots[i].zipped else ""
    {
      assert user.sendBuf == user.sendBuf + "";
      if !user.zpipe {
        return false;
      }
      ghost var c := Compress(model, lib, i);
      assert SlotConsistent(c.slots[i], lib) by {
        CompressKeeps(model, lib, i);
      }
      ZippedIsShorter(c.slots[i]);
      CompressOnce(i);
      sent := Pays(slots[i], held);
      if sent {
        SendZipped(i, user);
      }
    }

    /** Hands over the raw copy and cuts the user's own searches out of it. */
    method SendRaw(i: nat, user: User, own6: Option<string>, own4: Option<string>)
      requires Valid() && i < SLOTS && slots[i].buf.len != 0
      modifies user`sendBuf
      ensures user.sendBuf == old(user.sendBuf) + WithoutPending(WithoutPending(model.slots[i].text, own6), own4)
    {
      var sbLen := |user.sendBuf|;
      ghost var before, text := user.sendBuf, model.slots[i].text;
      user.PutInSendBuf(slots[i].buf.Content());
      if |user.sendBuf| <= sbLen {
        sbLen := 0;
      }
      assert user.sendBuf[..sbLen] == before && user.sendBuf[sbLen..] == text;
      if own6.Some? {
        user.RemFromSendBuf(own6.value, sbLen);
      }
      ghost var text6 := WithoutPending(text, own6);
      assert user.sendBuf == before + text6;
      assert user.sendBuf[..sbLen] == before && user.sendBuf[sbLen..] == text6;
      if own4.Some? {
        user.RemFromSendBuf(own4.value, sbLen);
      }
    }

    /** One copy: compressed if that is allowed and pays, raw otherwise. */
    method HandOver(i: nat, user: User, held: nat, own6: Option<string>, own4: Option<string>)
      requires Valid() && Consistent(model, lib) && i < SLOTS && slots[i].buf.len != 0 && slots[i].created
      modifies user`sendBuf, this`bytesSaved, this`model, slots[i]
      ensures Valid() && model == Account(old(model), lib, i, user.zpipe, held)
      ensures model.slots[i].text == old(model.slots[i].text) != ""
      ensures user.sendBuf == old(user.sendBuf) +
              if PrefersZipped(user.zpipe, held, model.slots[i]) then model.slots[i].zipped
              else WithoutPending(WithoutPending(model.slots[i].text, own6), own4)
    {
      assert |model.slots[i].text| == slots[i].buf.len;
      var sent := TryZipped(i, user, held);
      if !sent {
        assert user.sendBuf == old(user.sendBuf);
        SendRaw(i, user, own6, own4);
      }
    }

    /** Which pending searches the call takes into account, and which it leaves with the user. */
    method PendingPlan(user: User, counterZero: bool)
      returns (own6: Option<string>, own4: Option<string>, left6: Option<string>, left4: Option<string>)
      ensures own6 == Own6(user.AsReceiver(), counterZero) && own4 == Own4(user.AsReceiver(), counterZero)
      ensures (left6, left4) == PendingLeft(user.AsReceiver(), counterZero)
    {
      own6, own4, left6, left4 := None, None, user.active6, user.active4;
      if counterZero {
        if !user.view.sharing {
          left6, left4 := None, None;
        } else if user.view.ipv6 {
          own6, own4, left6, left4 := user.active6, user.active4, None, None;
        } else if user.active4.Some? {
          own4, left4 := user.active4, None;
        }
      }
    }

    static lemma ChoiceMeans(u: Receiver, counterZero: bool, s: Slot)
      requires s.text != ""
      ensures var p := Choose(u, counterZero, s);
              && PendingAfter(u, counterZero, p) == PendingLeft(u, counterZero)
              && SentBytes(u, counterZero, p) ==
                 if PrefersZipped(u.zpipe, SearchesHeld(u, counterZero), s) then s.zipped
                 else WithoutPending(WithoutPending(s.text, Own6(u, counterZero)), Own4(u, counterZero))
    {
    }

    /** The sending half of ProcessQueues, for a slot that holds something. */
    method Deliver(i: nat, user: User, counterZero: bool)
      requires Valid() && Consistent(model, lib) && i < SLOTS && slots[i].buf.len != 0 && slots[i].created
      modifies this`bytesSaved, this`model, slots[i], user
      ensures Valid()
      ensures var u := old(user.AsReceiver());
              var p := Choose(u, counterZero, model.slots[i]);
              && model == Account(old(model), lib, i, u.zpipe, SearchesHeld(u, counterZero))
              && user.sendBuf == old(user.sendBuf) + SentBytes(u, counterZero, p)
              && (user.active6, user.active4) == PendingAfter(u, counterZero, p)
    {
      ghost var u := user.AsReceiver();
      var own6, own4, left6, left4 := PendingPlan(user, counterZero);
      var held := LenOf(own6) + LenOf(own4);
      assert held == SearchesHeld(u, counterZero);
      HandOver(i, user, held, own6, own4);
      ChoiceMeans(u, counterZero, model.slots[i]);
      user.active6, user.active4 := left6, left4;
    }

    static lemma ProcessInTwo(h: Hub, lib: Platform, u: Receiver, counterZero: bool)
      requires Consistent(h, lib)
      ensures var b, after := Build(h, lib, ProfileOf(u.view)), Process(h, lib, u, counterZero);
              && Consistent(b, lib) && Consistent(after, lib)
              && after == if b.slots[Slotted(u)].text == "" then b
                          else Account(b, lib, Slotted(u), u.zpipe, SearchesHeld(u, counterZero))
    {
      ProcessKeeps(h, lib, u, counterZero);
      BuildKeeps(h, lib, ProfileOf(u.view));
    }

    method ProcessQueues(user: User, counterZero: bool)
      requires Valid() && Consistent(model, lib)
      modifies this`createdQueues, this`bytesSaved, this`model, slots, user
      ensures Valid() && Consistent(model, lib)
      ensures var u := old(user.AsReceiver());
              var p := Choose(u, counterZero, model.slots[Slotted(u)]);
              && model == Process(old(model), lib, u, counterZero)
              && user.sendBuf == old(user.sendBuf) + SentBytes(u, counterZero, p)
              && (user.active6, user.active4) == PendingAfter(u, counterZero, p)
    {
      ProcessInTwo(model, lib, user.AsReceiver(), counterZero);
      var i, bits := QueueType(user.view);
      Ensure(user.view, i, bits);
      Serve(i, user, counterZero);
    }

    /** What happens once the slot is built. */
    method Serve(i: nat, user: User, counterZero: bool)
      requires Valid() && Consistent(model, lib) && i < SLOTS && slots[i].created
      modifies this`bytesSaved, this`model, slots[i], user
      ensures Valid()
      ensures var u, h := old(user.AsReceiver()), old(model);
              var p := Choose(u, counterZero, model.slots[i]);
              && model == (if h.slots[i].text == "" then h else Account(h, lib, i, u.zpipe, SearchesHeld(u, counterZero)))
              && user.sendBuf == old(user.sendBuf) + SentBytes(u, counterZero, p)
              && (user.active6, user.active4) == PendingAfter(u, counterZero, p)
    {
      assert |model.slots[i].text| == slots[i].buf.len;
      if slots[i].buf.len == 0 {
        NothingToSend(user, counterZero, model.slots[i]);
      } else {
        Deliver(i, user, counterZero);
      }
    }

    /** An empty slot: the user's pending searches are dropped all the same. */
    static method NothingToSend(user: User, counterZero: bool, ghost s: Slot)
      requires s.text == ""
      modifies user`active6, user`active4
      ensures var u := old(user.AsReceiver());
              var p := Choose(u, counterZero, s);
              && user.sendBuf == user.sendBuf + SentBytes(u, counterZero, p)
              && (user.active6, user.active4) == PendingAfter(u, counterZero, p)
    {
      if counterZero {
        user.active6, user.active4 := None, None;
      }
      assert user.sendBuf == user.sendBuf + "";
    }
  }

  // ---------- inserting a blank item ----------

  /** Where InsertBlankQueueItem puts a new node in the list of node addresses. */
  method InsertBlankQueueItem(nodes: seq<nat>, anchor: Option<nat>, blank: nat) returns (r: seq<nat>)
    requires forall i, j :: 0 <= i < j < |nodes| ==> nodes[i] != nodes[j]
    ensures anchor == None || anchor.value !in nodes || anchor.value == nodes[0] ==>
              r == if anchor.Some? && anchor.value !in nodes then nodes + [blank] else [blank] + nodes
    ensures forall k :: 0 < k < |nodes| && anchor == Some(nodes[k]) ==> r == nodes[..k + 1] + [blank] + nodes[k + 1..]
  {
    if anchor == None || (nodes != [] && anchor.value == nodes[0]) {
      return [blank] + nodes;
    }
    for k := 0 to |nodes|
      invariant anchor.value !in nodes[..k]
    {
      if nodes[k] == anchor.value {
        return nodes[..k + 1] + [blank] + nodes[k + 1..];
      }
    }
    return nodes + [blank];
  }
}

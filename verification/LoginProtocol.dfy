/** The login of ordinary (non-pinger) connections: states, nick table, passwords, ghosts and clones
    (core/DcCommands.cpp, User::Close and User::AddMeOrIPv4Check in core/User.cpp, core/hashUsrManager.cpp,
    and the state changes of core/serviceLoop.cpp).  Any number of connections interleave. */
module LoginProtocol {
  import opened Options

  datatype State =
    | Accepted | KeyOrSup | Validate | VersionOrMyPass | GetNickListOrMyInfo
    | Ipv4Check | AddMe | AddMe1Loop | AddMe2Loop | Added | Closing | Remme

  function Rank(s: State): nat {
    match s
    case Accepted => 0 case KeyOrSup => 1 case Validate => 2 case VersionOrMyPass => 3 case GetNickListOrMyInfo => 4
    case Ipv4Check => 5 case AddMe => 6 case AddMe1Loop => 7 case AddMe2Loop => 8 case Added => 9
    case Closing => 10 case Remme => 11
  }

  predicate IsPastLogin(s: State) {
    Rank(s) >= 10
  }

  datatype Bit = Hashed | WaitingForPass | HaveSupports | HaveKey | QuickList | Ipv4Probe

  /** What has happened to a connection; the code does not store this. */
  datatype Fact = Validated | WasRegistered | Passed | Offered

  /** logon, probe: the seconds at which the connection came and at which it was last asked to connect over
      IPv4 as well. */
  datatype Conn = Conn(state: State, nick: string, ip: string, bits: set<Bit>, myInfo: Option<string>,
                       facts: set<Fact>, logon: nat, probe: nat)

  type Id = nat

  /** conns: the connections; table: the nick hash; reg: passwords of the nicks that count as registered;
      tick: the seconds since the start. */
  datatype Hub = Hub(conns: map<Id, Conn>, table: map<string, Id>, reg: map<string, string>, next: Id, tick: nat)

  /** What the environment decides while a nick is validated: refusals by reserved nicks, bans, limits and
      reconnect times; whether the socket of the holder of the nick turns out to be gone; whether the hub
      takes unregistered users with such a nick; whether clones are removed. */
  datatype Check = Check(refused: bool, holderGone: bool, publicOk: bool, removeClones: bool)

  /** What an added user's buffer holds when it sends a password: nothing, a profile that no longer exists,
      or the profile it was offered. */
  datatype Offer = NoProfile | UnknownProfile | KnownProfile

  /** What flood control says to a $MyINFO. */
  datatype Gate = Pass | Dropped | ClosedByFlood

  // ---------- pieces ----------

  predicate Live(h: Hub, id: Id) {
    id in h.conns && !IsPastLogin(h.conns[id].state)
  }

  function Put(h: Hub, id: Id, c: Conn): Hub {
    h.(conns := h.conns[id := c])
  }

  function Close(h: Hub, id: Id): (r: Hub)
    requires id in h.conns
    ensures r.conns.Keys == h.conns.Keys
  {
    var c := h.conns[id];
    if IsPastLogin(c.state) then h
    else Put(h, id, c.(state := Closing)).(table := if Hashed in c.bits then h.table - {c.nick} else h.table)
  }

  /** Adds to the nick table and notes that it is there. */
  function Hash(h: Hub, id: Id): (r: Hub)
    requires id in h.conns
    ensures r.conns.Keys == h.conns.Keys
  {
    var c := h.conns[id];
    Put(h, id, c.(bits := c.bits + {Hashed})).(table := h.table[c.nick := id])
  }

  function Admitted(c: Conn, tick: nat): Conn {
    if Ipv4Probe in c.bits then c.(state := Ipv4Check, probe := tick) else c.(state := AddMe)
  }

  /** AddMeOrIPv4Check: the login is complete. */
  function Admit(h: Hub, id: Id): (r: Hub)
    requires id in h.conns
    ensures r.conns.Keys == h.conns.Keys
  {
    var c := h.conns[id];
    Put(h, id, Admitted(c, h.tick))
  }

  predicate IllegalChar(c: char) {
    c == ' ' || c == '$' || c == '|' || c < ' '
  }

  predicate Illegal(nick: string) {
    exists i :: 0 <= i < |nick| && IllegalChar(nick[i])
  }

  /** A connection whose nick needs no password. */
  function Welcomed(c: Conn, byCommand: bool): Conn {
    c.(facts := {Validated}, state := if byCommand then VersionOrMyPass else c.state)
  }

  /** A connection that is asked for the password of its nick. */
  function Asked(c: Conn): Conn {
    c.(facts := {Validated, WasRegistered}, state := VersionOrMyPass, bits := c.bits + {WaitingForPass})
  }

  /** The end of the validation of a nick that nobody else holds any more. */
  function ValidateFinally(h: Hub, id: Id, check: Check, byCommand: bool): (r: (Hub, bool))
    requires id in h.conns
    ensures r.0.conns.Keys == h.conns.Keys
  {
    var c := h.conns[id];
    if c.nick in h.reg then (Hash(Put(h, id, Asked(c)), id), true)
    else if !check.publicOk then (Close(h, id), false)
    else (Hash(Put(h, id, Welcomed(c, byCommand)), id), true)
  }

  /** The validation of a nick that is held by another connection. */
  function ValidateHeld(h: Hub, id: Id, holder: Id, check: Check, byCommand: bool): (r: (Hub, bool))
    requires id in h.conns && holder in h.conns
    ensures r.0.conns.Keys == h.conns.Keys
  {
    var c := h.conns[id];
    if check.holderGone then (Close(h, holder), false)
    else if c.nick in h.reg then
      (Put(h, id, Asked(c)), true)
    else if check.removeClones && h.conns[holder].ip == c.ip then ValidateFinally(Close(h, holder), id, check, byCommand)
    else (Close(h, id), false)
  }

  /** The validation of a nick that is set. */
  function ValidateNamed(h: Hub, id: Id, check: Check, byCommand: bool): (r: (Hub, bool))
    requires id in h.conns
    ensures r.0.conns.Keys == h.conns.Keys
  {
    var nick := h.conns[id].nick;
    if check.refused then (Close(h, id), false)
    else if nick in h.table && Live(h, h.table[nick]) then ValidateHeld(h, id, h.table[nick], check, byCommand)
    else ValidateFinally(h, id, check, byCommand)
  }

  function ValidateUserNick(h: Hub, id: Id, nick: string, check: Check, byCommand: bool): (r: (Hub, bool))
    requires id in h.conns
    ensures r.0.conns.Keys == h.conns.Keys
  {
    if Illegal(nick) then (Close(h, id), false)
    else ValidateNamed(Put(h, id, h.conns[id].(nick := nick)), id, check, byCommand)
  }

  /** Stores a $MyINFO; an identical one is dropped without a word. */
  function StoreMyInfo(h: Hub, id: Id, text: string, accepted: bool): (r: (Hub, bool))
    requires id in h.conns
    ensures r.0.conns.Keys == h.conns.Keys
  {
    var c := h.conns[id];
    if c.myInfo == Some(text) then (h, false)
    else if !accepted then (Close(h, id), false)
    else (Put(h, id, c.(myInfo := Some(text))), true)
  }

  /** The end of $MyINFO in the login states. */
  function MyInfoAndAdmit(h: Hub, id: Id, text: string, accepted: bool): (r: Hub)
    requires id in h.conns
    ensures r.conns.Keys == h.conns.Keys
  {
    var (g, stored) := StoreMyInfo(h, id, text, accepted);
    if !stored || WaitingForPass in g.conns[id].bits then g else Admit(g, id)
  }

  // ---------- commands ----------

  function DoKey(h: Hub, id: Id, good: bool): (r: Hub)
    requires id in h.conns
    ensures r.conns.Keys == h.conns.Keys
  {
    var c := h.conns[id];
    if HaveKey in c.bits || !good then Close(h, id)
    else Put(h, id, c.(bits := c.bits + {HaveKey}, state := Validate))
  }

  function DoSupports(h: Hub, id: Id, good: bool, named: set<Bit>): (r: Hub)
    requires id in h.conns
    ensures r.conns.Keys == h.conns.Keys
  {
    var c := h.conns[id];
    if HaveSupports in c.bits || !good then Close(h, id)
    else Put(h, id, c.(bits := c.bits + {HaveSupports} + (named * {QuickList, Ipv4Probe}), state := Validate))
  }

  function DoValidateNick(h: Hub, id: Id, nick: string, check: Check): (r: Hub)
    requires id in h.conns
    ensures r.conns.Keys == h.conns.Keys
  {
    if QuickList in h.conns[id].bits || nick == "" then Close(h, id)
    else ValidateUserNick(h, id, nick, check, true).0
  }

  /** $MyINFO as the first command of a QuickList client: it carries the nick. */
  function DoQuickMyInfo(h: Hub, id: Id, nick: Option<string>, text: string, gate: Gate, check: Check, accepted: bool): (r: Hub)
    requires id in h.conns
    ensures r.conns.Keys == h.conns.Keys
  {
    if QuickList !in h.conns[id].bits then Close(h, id)
    else match gate
      case Dropped => h
      case ClosedByFlood => Close(h, id)
      case Pass =>
        if nick.None? then Close(h, id)
        else
          var (g, valid) := ValidateUserNick(h, id, nick.value, check, false);
          if valid then MyInfoAndAdmit(g, id, text, accepted) else g
  }

  function DoMyInfo(h: Hub, id: Id, nick: Option<string>, text: string, gate: Gate, accepted: bool): (r: Hub)
    requires id in h.conns
    ensures r.conns.Keys == h.conns.Keys
  {
    var c := h.conns[id];
    match gate
    case Dropped => h
    case ClosedByFlood => Close(h, id)
    case Pass =>
      if nick != Some(c.nick) then Close(h, id)
      else if Rank(c.state) <= Rank(GetNickListOrMyInfo) then MyInfoAndAdmit(h, id, text, accepted)
      else StoreMyInfo(h, id, text, accepted).0
  }

  function DoVersion(h: Hub, id: Id, good: bool): (r: Hub)
    requires id in h.conns
    ensures r.conns.Keys == h.conns.Keys
  {
    if !good then Close(h, id) else Put(h, id, h.conns[id].(state := GetNickListOrMyInfo))
  }

  /** A right password: whoever holds the nick instead is closed, and the nick is taken. */
  function TakeNick(h: Hub, id: Id): (r: Hub)
    requires id in h.conns
    ensures r.conns.Keys == h.conns.Keys
  {
    var c := h.conns[id];
    if Hashed in c.bits then h
    else
      Hash(if c.nick in h.table && h.table[c.nick] in h.conns then Close(h, h.table[c.nick]) else h, id)
  }

  /** The rest of $MyPass once the password is right. */
  function RightPassword(h: Hub, id: Id): (r: Hub)
    requires id in h.conns
    ensures r.conns.Keys == h.conns.Keys
  {
    var c := h.conns[id];
    var k := TakeNick(Put(h, id, c.(facts := c.facts + {Passed})), id);
    if QuickList in c.bits then Admit(k, id) else k
  }

  function DoMyPass(h: Hub, id: Id, good: bool, password: string): (r: Hub)
    requires id in h.conns
    ensures r.conns.Keys == h.conns.Keys
  {
    var c := h.conns[id];
    if c.nick !in h.reg || WaitingForPass !in c.bits then Close(h, id)
    else
      var g := Put(h, id, c.(bits := c.bits - {WaitingForPass}));
      if !good || password != h.reg[c.nick] then Close(g, id) else RightPassword(g, id)
  }

  /** $MyPass of a user in the user list: the answer to an offer to be registered.  The wait ends without
      any check; a password of a bad length is asked for again. */
  function DoAddedPass(h: Hub, id: Id, good: bool, password: string, offer: Offer): (r: Hub)
    requires id in h.conns
    ensures r.conns.Keys == h.conns.Keys
  {
    var c := h.conns[id];
    if WaitingForPass !in c.bits then Close(h, id)
    else if offer == KnownProfile && !good then h
    else
      var g := Put(h, id, c.(bits := c.bits - {WaitingForPass}));
      if offer == KnownProfile && c.nick !in h.reg then g.(reg := h.reg[c.nick := password]) else g
  }

  /** An operator offers to register whoever holds an unregistered nick: from now on the hub waits for a
      password, whatever state the holder is in. */
  function OfferTo(h: Hub, nick: string): Hub {
    if nick !in h.reg && nick in h.table && h.table[nick] in h.conns then
      var c := h.conns[h.table[nick]];
      Put(h, h.table[nick], c.(bits := c.bits + {WaitingForPass}, facts := c.facts + {Offered}))
    else h
  }

  /** The answer of a client that was asked to connect over IPv4 as well; it arrives on its own connection. */
  function DoMyNick(h: Hub, id: Id, target: string, good: bool): (r: Hub)
    requires id in h.conns
    ensures r.conns.Keys == h.conns.Keys
  {
    if good && target in h.table && h.table[target] in h.conns && h.conns[h.table[target]].state == Ipv4Check then
      var other := h.table[target];
      Close(Put(h, other, h.conns[other].(state := AddMe)), id)
    else Close(h, id)
  }

  datatype Command =
    | Key(good: bool)
    | Supports(good: bool, named: set<Bit>)
    | ValidateNick(nick: string, check: Check)
    | Version(good: bool)
    | MyPass(good: bool, password: string, offer: Offer)
    | MyInfo(nickOf: Option<string>, text: string, gate: Gate, checkOf: Check, accepted: bool)
    | GetNickList(closes: bool)
    | MyNick(target: string, good: bool)
    | Other(closes: bool)

  /** Dispatch by state; what a state does not expect closes the connection. */
  function Process(h: Hub, id: Id, cmd: Command): Hub
    requires Live(h, id)
  {
    var c := h.conns[id];
    match cmd
    case Key(good) =>
      if c.state == KeyOrSup || (c.state == Validate && HaveSupports !in c.bits) then DoKey(h, id, good)
      else if c.state == Validate then h
      else Close(h, id)
    case Supports(good, named) => if c.state == KeyOrSup then DoSupports(h, id, good, named) else Close(h, id)
    case ValidateNick(nick, check) => if c.state == Validate then DoValidateNick(h, id, nick, check) else Close(h, id)
    case Version(good) => if c.state == VersionOrMyPass then DoVersion(h, id, good) else Close(h, id)
    case MyPass(good, password, offer) =>
      if c.state == VersionOrMyPass then DoMyPass(h, id, good, password)
      else if c.state == Added then DoAddedPass(h, id, good, password, offer)
      else Close(h, id)
    case MyInfo(nick, text, gate, check, accepted) =>
      if c.state == Validate then DoQuickMyInfo(h, id, nick, text, gate, check, accepted)
      else if Rank(c.state) > Rank(Validate) then DoMyInfo(h, id, nick, text, gate, accepted)
      else Close(h, id)
    case GetNickList(closes) =>
      if closes || Rank(c.state) < Rank(Validate) || (c.state == Validate && QuickList !in c.bits) then Close(h, id) else h
    case MyNick(target, good) => if Rank(c.state) <= Rank(KeyOrSup) then DoMyNick(h, id, target, good) else Close(h, id)
    case Other(closes) => if closes then Close(h, id) else h
  }

  datatype Event =
    | Accept(ip: string)
    | SendLock(id: Id)
    | Command(id: Id, cmd: Command)
    | Drop(id: Id)
    | ProbeTimeout(id: Id)
    | Advance(id: Id)
    | Finish(id: Id)
    | SetReg(reg: map<string, string>)
    | OfferReg(nick: string)
    | Second

  function Advanced(s: State): State {
    match s case AddMe => AddMe1Loop case AddMe1Loop => AddMe2Loop case AddMe2Loop => Added case _ => s
  }

  function Step(h: Hub, e: Event): Hub {
    match e
    case Accept(ip) => Put(h, h.next, Conn(Accepted, "", ip, {}, None, {}, h.tick, 0)).(next := h.next + 1)
    case SendLock(id) => if Live(h, id) && h.conns[id].state == Accepted then Put(h, id, h.conns[id].(state := KeyOrSup)) else h
    case Command(id, cmd) => if Live(h, id) then Process(h, id, cmd) else h
    case Drop(id) => if id in h.conns then Close(h, id) else h
    case ProbeTimeout(id) => if Live(h, id) && h.conns[id].state == Ipv4Check then Put(h, id, h.conns[id].(state := AddMe)) else h
    case Advance(id) => if Live(h, id) then Put(h, id, h.conns[id].(state := Advanced(h.conns[id].state))) else h
    case Finish(id) =>
      if id in h.conns && h.conns[id].state == Closing then Put(h, id, h.conns[id].(state := Remme))
      else if id in h.conns && h.conns[id].state == Remme then h.(conns := h.conns - {id})
      else h
    case SetReg(reg) => h.(reg := reg)
    case OfferReg(nick) => OfferTo(h, nick)
    case Second => h.(tick := h.tick + 1)
  }

  function Run(h: Hub, es: seq<Event>): Hub
    decreases |es|
  {
    if es == [] then h else Run(Step(h, es[0]), es[1..])
  }

  const EMPTY := Hub(map[], map[], map[], 0, 0)

  // ---------- what every run keeps ----------

  /** What each state says about a connection. */
  ghost predicate Good(c: Conn) {
    if Rank(c.state) <= Rank(Validate) then
      c.bits !! {Hashed, WaitingForPass} && c.facts == {} && c.myInfo == None &&
      (Rank(c.state) <= Rank(KeyOrSup) ==> c.bits == {})
    else if Rank(c.state) <= Rank(GetNickListOrMyInfo) then
      Validated in c.facts && (OwesPassword(c) ==> WaitingForPass in c.bits) && (Hashed in c.bits || OwesPassword(c)) &&
      (WaitingForPass in c.bits ==> OwesPassword(c) || Offered in c.facts)
    else if Rank(c.state) <= Rank(Added) then Complete(c)
    else true
  }

  /** The nick was registered when it was validated, and its password has not come. */
  ghost predicate OwesPassword(c: Conn) {
    WasRegistered in c.facts && Passed !in c.facts
  }

  /** Nick validated and in the table, and the password given if the nick was registered; a wait for a
      password, if there is one, comes from an offer to be registered. */
  ghost predicate Complete(c: Conn) {
    Validated in c.facts && Hashed in c.bits && !OwesPassword(c) && (WaitingForPass in c.bits ==> Offered in c.facts)
  }

  /** A QuickList client between its nick and the end of the same $MyINFO. */
  ghost predicate Midway(c: Conn) {
    c.state == Validate && c.facts == {Validated} && Hashed in c.bits && WaitingForPass !in c.bits && c.myInfo == None
  }

  /** The nick table lists exactly the live hashed connections. */
  ghost predicate Linked(h: Hub) {
    (forall id :: id in h.conns && Live(h, id) && Hashed in h.conns[id].bits ==>
      h.conns[id].nick in h.table && h.table[h.conns[id].nick] == id) &&
    (forall nick :: nick in h.table ==>
      Live(h, h.table[nick]) && Hashed in h.conns[h.table[nick]].bits && h.conns[h.table[nick]].nick == nick)
  }

  /** What the service loop subtracts from the clock lies in the past. */
  ghost predicate Timely(c: Conn, tick: nat) {
    c.logon <= tick && (c.state == Ipv4Check ==> c.probe <= tick)
  }

  ghost predicate Healthy(c: Conn, tick: nat) {
    Good(c) && Timely(c, tick)
  }

  ghost predicate Inv(h: Hub) {
    Linked(h) && (forall i :: i in h.conns ==> Healthy(h.conns[i], h.tick)) && forall i :: i in h.conns ==> i < h.next
  }

  // ---------- how one connection may move ----------

  /** The login state never moves backwards, a nick stays once it is validated, nothing that has happened
      is undone, and the wait for the password of a registered nick ends with the right password or with the
      connection. */
  ghost predicate Moves(c: Conn, d: Conn) {
    Rank(c.state) <= Rank(d.state) && c.facts <= d.facts && d.ip == c.ip && d.logon == c.logon &&
    (Rank(c.state) > Rank(Validate) ==> d.nick == c.nick) &&
    (Hashed in c.bits ==> Hashed in d.bits) &&
    (OwesPassword(c) ==> Passed in d.facts || WaitingForPass in d.bits || IsPastLogin(d.state))
  }

  /** Other connections are left alone or closed. */
  ghost predicate OthersKept(h: Hub, g: Hub, id: Id) {
    g.conns.Keys == h.conns.Keys && g.next == h.next && g.tick == h.tick &&
    forall i :: i in h.conns && i != id ==>
      g.conns[i] == h.conns[i] || (!IsPastLogin(h.conns[i].state) && g.conns[i] == h.conns[i].(state := Closing))
  }

  /** The time of the probe is noted when it is sent. */
  ghost predicate Probed(c: Conn, d: Conn, tick: nat) {
    d.state == Ipv4Check ==> d.probe == tick || (c.state == Ipv4Check && d.probe == c.probe)
  }

  /** A command of connection id has done no harm. */
  ghost predicate Kept(h: Hub, g: Hub, id: Id)
    requires id in h.conns
  {
    Linked(g) && OthersKept(h, g, id) && Good(g.conns[id]) && Moves(h.conns[id], g.conns[id]) &&
    Probed(h.conns[id], g.conns[id], h.tick)
  }

  ghost predicate Start(h: Hub, id: Id) {
    Linked(h) && Live(h, id) && Good(h.conns[id])
  }

  lemma CloseLinks(h: Hub, id: Id)
    requires Linked(h) && id in h.conns
    ensures Linked(Close(h, id)) && OthersKept(h, Close(h, id), id)
  {
  }

  lemma CloseKeeps(h: Hub, id: Id)
    requires Linked(h) && id in h.conns
    ensures Kept(h, Close(h, id), id) && IsPastLogin(Close(h, id).conns[id].state)
    ensures h.conns[id].nick in h.table && h.table[h.conns[id].nick] == id ==> h.conns[id].nick !in Close(h, id).table
  {
    CloseLinks(h, id);
  }

  /** A change that leaves nick, table bit and liveness alone. */
  lemma PutLinks(h: Hub, id: Id, c: Conn)
    requires Linked(h) && Live(h, id) && !IsPastLogin(c.state)
    requires c.nick == h.conns[id].nick && (Hashed in c.bits <==> Hashed in h.conns[id].bits)
    ensures Linked(Put(h, id, c)) && OthersKept(h, Put(h, id, c), id)
  {
  }

  /** A change to a connection that is not in the table. */
  lemma PutUnhashed(h: Hub, id: Id, c: Conn)
    requires Linked(h) && Live(h, id) && !IsPastLogin(c.state)
    requires Hashed !in c.bits && Hashed !in h.conns[id].bits
    ensures Linked(Put(h, id, c)) && OthersKept(h, Put(h, id, c), id)
  {
  }

  lemma HashLinks(h: Hub, id: Id)
    requires Linked(h) && Live(h, id) && Hashed !in h.conns[id].bits && h.conns[id].nick !in h.table
    ensures Linked(Hash(h, id)) && OthersKept(h, Hash(h, id), id)
  {
  }

  lemma OthersCompose(h: Hub, g: Hub, k: Hub, id: Id)
    requires OthersKept(h, g, id) && OthersKept(g, k, id)
    ensures OthersKept(h, k, id)
  {
  }

  lemma CloseOther(h: Hub, id: Id, other: Id)
    requires Linked(h) && Live(h, other) && other != id && id in h.conns
    ensures var g := Close(h, other);
            Linked(g) && OthersKept(h, g, id) && g.conns[id] == h.conns[id] && IsPastLogin(g.conns[other].state) &&
            (Hashed in h.conns[other].bits ==> h.conns[other].nick !in g.table)
  {
  }

  // ---------- validation ----------

  ghost predicate Named(h: Hub, c: Conn) {
    Validated in c.facts && (WasRegistered in c.facts <==> c.nick in h.reg)
  }

  /** After a validation: refused connections are closed or as they were; accepted ones are validated, with
      a password to come exactly when the nick is registered. */
  ghost predicate Decided(h: Hub, c: Conn, d: Conn, valid: bool, byCommand: bool) {
    Moves(c, d) &&
    if !valid then Good(d) && d.facts == {}
    else Rank(d.state) <= Rank(VersionOrMyPass) && Named(h, d) && Passed !in d.facts && d.myInfo == None &&
         (Good(d) || (!byCommand && Midway(d)))
  }

  lemma FinallyDecides(h: Hub, id: Id, check: Check, byCommand: bool)
    requires Start(h, id) && h.conns[id].state == Validate && h.conns[id].nick !in h.table
    ensures var (g, valid) := ValidateFinally(h, id, check, byCommand);
            Linked(g) && OthersKept(h, g, id) && Decided(h, h.conns[id], g.conns[id], valid, byCommand)
  {
    var c := h.conns[id];
    if c.nick in h.reg {
      PutHash(h, id, Asked(c));
    } else if !check.publicOk {
      CloseKeeps(h, id);
    } else {
      PutHash(h, id, Welcomed(c, byCommand));
    }
  }

  /** A changed connection enters the table. */
  lemma PutHash(h: Hub, id: Id, d: Conn)
    requires Linked(h) && Live(h, id) && Hashed !in h.conns[id].bits
    requires !IsPastLogin(d.state) && Hashed !in d.bits && d.nick !in h.table
    ensures var g := Hash(Put(h, id, d), id);
            Linked(g) && OthersKept(h, g, id) && g.conns[id] == d.(bits := d.bits + {Hashed})
  {
    PutUnhashed(h, id, d);
    HashLinks(Put(h, id, d), id);
    OthersCompose(h, Put(h, id, d), Hash(Put(h, id, d), id), id);
  }

  lemma HeldDecides(h: Hub, id: Id, holder: Id, check: Check, byCommand: bool)
    requires Start(h, id) && h.conns[id].state == Validate
    requires h.conns[id].nick in h.table && h.table[h.conns[id].nick] == holder
    ensures holder in h.conns
    ensures var (g, valid) := ValidateHeld(h, id, holder, check, byCommand);
            Linked(g) && OthersKept(h, g, id) && Decided(h, h.conns[id], g.conns[id], valid, byCommand)
  {
    var c := h.conns[id];
    if check.holderGone {
      CloseOther(h, id, holder);
    } else if c.nick in h.reg {
      PutUnhashed(h, id, Asked(c));
    } else if check.removeClones && h.conns[holder].ip == c.ip {
      CloseOther(h, id, holder);
      var g := Close(h, holder);
      FinallyDecides(g, id, check, byCommand);
      OthersCompose(h, g, ValidateFinally(g, id, check, byCommand).0, id);
    } else {
      CloseKeeps(h, id);
    }
  }

  lemma NamedDecides(h: Hub, id: Id, check: Check, byCommand: bool)
    requires Start(h, id) && h.conns[id].state == Validate
    ensures var (g, valid) := ValidateNamed(h, id, check, byCommand);
            Linked(g) && OthersKept(h, g, id) && Decided(h, h.conns[id], g.conns[id], valid, byCommand)
  {
    var nick := h.conns[id].nick;
    if check.refused {
      CloseKeeps(h, id);
    } else if nick in h.table {
      HeldDecides(h, id, h.table[nick], check, byCommand);
    } else {
      FinallyDecides(h, id, check, byCommand);
    }
  }

  lemma ValidationDecides(h: Hub, id: Id, nick: string, check: Check, byCommand: bool)
    requires Start(h, id) && h.conns[id].state == Validate
    ensures var (g, valid) := ValidateUserNick(h, id, nick, check, byCommand);
            Linked(g) && OthersKept(h, g, id) && Decided(h, h.conns[id], g.conns[id], valid, byCommand)
  {
    if Illegal(nick) {
      CloseKeeps(h, id);
    } else {
      var c := h.conns[id].(nick := nick);
      var g := Put(h, id, c);
      PutUnhashed(h, id, c);
      NamedDecides(g, id, check, byCommand);
      OthersCompose(h, g, ValidateNamed(g, id, check, byCommand).0, id);
    }
  }

  // ---------- commands ----------

  lemma AdmitKeeps(h: Hub, id: Id)
    requires Linked(h) && Live(h, id) && Complete(h.conns[id]) && Rank(h.conns[id].state) <= Rank(GetNickListOrMyInfo)
    ensures Kept(h, Admit(h, id), id)
  {
    PutLinks(h, id, Admit(h, id).conns[id]);
  }

  /** $MyINFO completes a login only when the nick is in the table and no password is owed. */
  lemma MyInfoKeeps(h: Hub, id: Id, text: string, accepted: bool)
    requires Linked(h) && Live(h, id) && Rank(h.conns[id].state) <= Rank(GetNickListOrMyInfo)
    requires Midway(h.conns[id]) || (Good(h.conns[id]) && Rank(h.conns[id].state) > Rank(Validate))
    ensures Kept(h, MyInfoAndAdmit(h, id, text, accepted), id)
  {
    var c := h.conns[id];
    if c.myInfo != Some(text) {
      if !accepted {
        CloseKeeps(h, id);
      } else {
        var d := c.(myInfo := Some(text));
        var g := Put(h, id, d);
        PutLinks(h, id, d);
        if WaitingForPass !in c.bits {
          AdmitKeeps(g, id);
          OthersCompose(h, g, Admit(g, id), id);
        }
      }
    }
  }

  /** A validation that did not end midway has kept everything. */
  lemma DecidedIsKept(h: Hub, g: Hub, id: Id, valid: bool, byCommand: bool)
    requires id in h.conns && Linked(g) && OthersKept(h, g, id) && Decided(h, h.conns[id], g.conns[id], valid, byCommand)
    requires !valid || byCommand
    ensures Kept(h, g, id)
  {
    var d := g.conns[id];
    if !valid {
      assert d.state != Ipv4Check;
    }
  }

  lemma QuickMyInfoKeeps(h: Hub, id: Id, nick: Option<string>, text: string, gate: Gate, check: Check, accepted: bool)
    requires Start(h, id) && h.conns[id].state == Validate
    ensures Kept(h, DoQuickMyInfo(h, id, nick, text, gate, check, accepted), id)
  {
    if QuickList in h.conns[id].bits && gate == Pass && nick.Some? {
      ValidationDecides(h, id, nick.value, check, false);
      var (g, valid) := ValidateUserNick(h, id, nick.value, check, false);
      if valid {
        ThenMyInfoKeeps(h, g, id, text, accepted);
      } else {
        DecidedIsKept(h, g, id, valid, false);
      }
    } else {
      CloseKeeps(h, id);
    }
  }

  lemma MovesCompose(b: Conn, c: Conn, d: Conn)
    requires Moves(b, c) && Moves(c, d)
    ensures Moves(b, d)
  {
  }

  lemma ThenMyInfoKeeps(h: Hub, g: Hub, id: Id, text: string, accepted: bool)
    requires id in h.conns && Linked(g) && OthersKept(h, g, id) && Decided(h, h.conns[id], g.conns[id], true, false)
    ensures Kept(h, MyInfoAndAdmit(g, id, text, accepted), id)
  {
    var k := MyInfoAndAdmit(g, id, text, accepted);
    assert Kept(g, k, id) by {
      MyInfoKeeps(g, id, text, accepted);
    }
    assert Moves(h.conns[id], g.conns[id]) && g.conns[id].state != Ipv4Check;
    ThenKept(h, g, k, id);
  }

  lemma ThenKept(h: Hub, g: Hub, k: Hub, id: Id)
    requires id in h.conns && OthersKept(h, g, id) && Moves(h.conns[id], g.conns[id]) && g.conns[id].state != Ipv4Check
    requires Kept(g, k, id)
    ensures Kept(h, k, id)
  {
    OthersCompose(h, g, k, id);
    MovesCompose(h.conns[id], g.conns[id], k.conns[id]);
  }

  lemma SameKept(h: Hub, id: Id)
    requires Start(h, id)
    ensures Kept(h, h, id)
  {
  }

  lemma StoreKeeps(h: Hub, id: Id, text: string, accepted: bool)
    requires Start(h, id) && Rank(h.conns[id].state) > Rank(GetNickListOrMyInfo)
    ensures Kept(h, StoreMyInfo(h, id, text, accepted).0, id)
  {
    var c := h.conns[id];
    if c.myInfo == Some(text) {
      SameKept(h, id);
    } else if !accepted {
      CloseKeeps(h, id);
    } else {
      PutLinks(h, id, c.(myInfo := Some(text)));
    }
  }

  lemma LaterMyInfoKeeps(h: Hub, id: Id, nick: Option<string>, text: string, gate: Gate, accepted: bool)
    requires Start(h, id) && Rank(h.conns[id].state) > Rank(Validate)
    ensures Kept(h, DoMyInfo(h, id, nick, text, gate, accepted), id)
  {
    var c := h.conns[id];
    if gate == Dropped {
      SameKept(h, id);
    } else if gate == ClosedByFlood || nick != Some(c.nick) {
      CloseKeeps(h, id);
    } else if Rank(c.state) <= Rank(GetNickListOrMyInfo) {
      MyInfoKeeps(h, id, text, accepted);
    } else {
      StoreKeeps(h, id, text, accepted);
    }
  }

  lemma ValidateNickKeeps(h: Hub, id: Id, nick: string, check: Check)
    requires Start(h, id) && h.conns[id].state == Validate
    ensures Kept(h, DoValidateNick(h, id, nick, check), id)
  {
    if QuickList in h.conns[id].bits || nick == "" {
      CloseKeeps(h, id);
    } else {
      ValidationDecides(h, id, nick, check, true);
      var (g, valid) := ValidateUserNick(h, id, nick, check, true);
      DecidedIsKept(h, g, id, valid, true);
    }
  }

  lemma EarlyKeeps(h: Hub, id: Id, good: bool, named: set<Bit>)
    requires Start(h, id)
    ensures h.conns[id].state in {KeyOrSup, Validate} ==> Kept(h, DoKey(h, id, good), id)
    ensures h.conns[id].state == KeyOrSup ==> Kept(h, DoSupports(h, id, good, named), id)
  {
    var c := h.conns[id];
    CloseKeeps(h, id);
    if c.state in {KeyOrSup, Validate} {
      PutUnhashed(h, id, c.(bits := c.bits + {HaveKey}, state := Validate));
      PutUnhashed(h, id, c.(bits := c.bits + {HaveSupports} + (named * {QuickList, Ipv4Probe}), state := Validate));
    }
  }

  lemma VersionKeeps(h: Hub, id: Id, good: bool)
    requires Start(h, id) && h.conns[id].state == VersionOrMyPass
    ensures Kept(h, DoVersion(h, id, good), id)
  {
    CloseKeeps(h, id);
    PutLinks(h, id, h.conns[id].(state := GetNickListOrMyInfo));
  }

  /** Right password: the nick is in the table and is mine; whoever held it is closed. */
  lemma TakeNickTakes(h: Hub, id: Id)
    requires Linked(h) && Live(h, id)
    ensures var g, c := TakeNick(h, id), h.conns[id];
            Linked(g) && OthersKept(h, g, id) && g.conns[id] == c.(bits := c.bits + {Hashed}) &&
            c.nick in g.table && g.table[c.nick] == id &&
            (c.nick in h.table && h.table[c.nick] != id ==> IsPastLogin(g.conns[h.table[c.nick]].state))
  {
    var c := h.conns[id];
    if Hashed in c.bits {
      assert c.bits + {Hashed} == c.bits;
    } else if c.nick in h.table {
      CloseOther(h, id, h.table[c.nick]);
      var g := Close(h, h.table[c.nick]);
      HashLinks(g, id);
      OthersCompose(h, g, Hash(g, id), id);
    } else {
      HashLinks(h, id);
    }
  }

  lemma MyPassKeeps(h: Hub, id: Id, good: bool, password: string)
    requires Start(h, id) && h.conns[id].state == VersionOrMyPass
    ensures Kept(h, DoMyPass(h, id, good, password), id)
  {
    var c := h.conns[id];
    if c.nick !in h.reg || WaitingForPass !in c.bits {
      CloseKeeps(h, id);
    } else {
      var d := c.(bits := c.bits - {WaitingForPass});
      var g := Put(h, id, d);
      PutLinks(h, id, d);
      if !good || password != h.reg[c.nick] {
        CloseKeeps(g, id);
        OthersCompose(h, g, Close(g, id), id);
      } else {
        RightPasswordKeeps(g, id);
        OthersCompose(h, g, RightPassword(g, id), id);
      }
    }
  }

  lemma AddedPassKeeps(h: Hub, id: Id, good: bool, password: string, offer: Offer)
    requires Start(h, id) && h.conns[id].state == Added
    ensures Kept(h, DoAddedPass(h, id, good, password, offer), id)
  {
    var c := h.conns[id];
    if WaitingForPass !in c.bits {
      CloseKeeps(h, id);
    } else {
      var d := c.(bits := c.bits - {WaitingForPass});
      PutLinks(h, id, d);
      RegKeeps(h, Put(h, id, d), id, h.reg[c.nick := password]);
    }
  }

  /** Registrations play no part in what a command keeps. */
  lemma RegKeeps(h: Hub, g: Hub, id: Id, reg: map<string, string>)
    requires id in h.conns && Kept(h, g, id)
    ensures Kept(h, g.(reg := reg), id)
  {
  }

  /** The nick is this connection's; whoever else held it in h is closed. */
  ghost predicate Took(h: Hub, g: Hub, id: Id)
    requires id in h.conns
  {
    var nick := h.conns[id].nick;
    nick in g.table && g.table[nick] == id &&
    (nick in h.table && h.table[nick] != id ==> h.table[nick] in g.conns && IsPastLogin(g.conns[h.table[nick]].state))
  }

  lemma PassedTakes(h: Hub, id: Id)
    requires Linked(h) && Live(h, id) && h.conns[id].state == VersionOrMyPass
    requires WaitingForPass !in h.conns[id].bits && Validated in h.conns[id].facts
    ensures var c := h.conns[id];
            var k := TakeNick(Put(h, id, c.(facts := c.facts + {Passed})), id);
            Linked(k) && OthersKept(h, k, id) && Took(h, k, id) && Complete(k.conns[id]) &&
            k.conns[id] == c.(facts := c.facts + {Passed}, bits := c.bits + {Hashed})
  {
    var c := h.conns[id];
    var d := c.(facts := c.facts + {Passed});
    var g := Put(h, id, d);
    PutLinks(h, id, d);
    TakeNickTakes(g, id);
    OthersCompose(h, g, TakeNick(g, id), id);
  }

  lemma RightPasswordKeeps(h: Hub, id: Id)
    requires Linked(h) && Live(h, id) && h.conns[id].state == VersionOrMyPass
    requires WaitingForPass !in h.conns[id].bits && Validated in h.conns[id].facts
    ensures var g, c := RightPassword(h, id), h.conns[id];
            Kept(h, g, id) && Took(h, g, id) &&
            g.conns[id].facts == c.facts + {Passed} && !IsPastLogin(g.conns[id].state)
  {
    var c := h.conns[id];
    var k := TakeNick(Put(h, id, c.(facts := c.facts + {Passed})), id);
    PassedTakes(h, id);
    if QuickList in c.bits {
      AdmitKeeps(k, id);
      OthersCompose(h, k, Admit(k, id), id);
      MovesCompose(c, k.conns[id], Admit(k, id).conns[id]);
    }
  }

  // ---------- every step, every run ----------

  /** Every connection that is still there has moved as it may. */
  ghost predicate AllMove(h: Hub, g: Hub) {
    forall i :: i in h.conns && i in g.conns ==> Moves(h.conns[i], g.conns[i])
  }

  lemma ClosedIsFine(c: Conn, tick: nat)
    requires Healthy(c, tick)
    ensures Moves(c, c)
    ensures Healthy(c.(state := Closing), tick) && (!IsPastLogin(c.state) ==> Moves(c, c.(state := Closing)))
  {
  }

  lemma KeptIsFine(h: Hub, g: Hub, id: Id)
    requires Inv(h) && id in h.conns && Kept(h, g, id)
    ensures Inv(g) && AllMove(h, g)
  {
    forall i | i in h.conns ensures Healthy(g.conns[i], g.tick) && Moves(h.conns[i], g.conns[i]) {
      assert Healthy(h.conns[i], h.tick);
      if i != id {
        ClosedIsFine(h.conns[i], h.tick);
      }
    }
    assert forall i :: i in g.conns ==> i in h.conns;
  }

  /** A change of one live connection that stays live, keeps its nick and its place in the table. */
  lemma PutFine(h: Hub, id: Id, d: Conn)
    requires Inv(h) && Live(h, id) && !IsPastLogin(d.state) && Good(d) && Moves(h.conns[id], d)
    requires Probed(h.conns[id], d, h.tick)
    requires d.nick == h.conns[id].nick && (Hashed in d.bits <==> Hashed in h.conns[id].bits)
    ensures Inv(Put(h, id, d)) && AllMove(h, Put(h, id, d))
  {
    PutLinks(h, id, d);
    KeptIsFine(h, Put(h, id, d), id);
  }

  lemma CloseFine(h: Hub, id: Id)
    requires Inv(h) && id in h.conns
    ensures Inv(Close(h, id)) && AllMove(h, Close(h, id))
  {
    CloseKeeps(h, id);
    KeptIsFine(h, Close(h, id), id);
  }

  lemma AllMoveCompose(h: Hub, g: Hub, k: Hub)
    requires AllMove(h, g) && AllMove(g, k) && h.conns.Keys == g.conns.Keys == k.conns.Keys
    ensures AllMove(h, k)
  {
    forall i | i in h.conns ensures Moves(h.conns[i], k.conns[i]) {
      MovesCompose(h.conns[i], g.conns[i], k.conns[i]);
    }
  }

  lemma ThenCloseFine(h: Hub, g: Hub, id: Id)
    requires Inv(g) && AllMove(h, g) && id in g.conns && h.conns.Keys == g.conns.Keys
    ensures Inv(Close(g, id)) && AllMove(h, Close(g, id))
  {
    CloseFine(g, id);
    AllMoveCompose(h, g, Close(g, id));
  }

  lemma MyNickFine(h: Hub, id: Id, target: string, good: bool)
    requires Inv(h) && Live(h, id) && Rank(h.conns[id].state) <= Rank(KeyOrSup)
    ensures Inv(DoMyNick(h, id, target, good)) && AllMove(h, DoMyNick(h, id, target, good))
  {
    if good && target in h.table && h.conns[h.table[target]].state == Ipv4Check {
      var other := h.table[target];
      assert Healthy(h.conns[other], h.tick);
      StateFine(h, other, AddMe);
      ThenCloseFine(h, Put(h, other, h.conns[other].(state := AddMe)), id);
    } else {
      CloseFine(h, id);
    }
  }

  lemma ProcessFine(h: Hub, id: Id, cmd: Command)
    requires Inv(h) && Live(h, id)
    ensures Inv(Process(h, id, cmd)) && AllMove(h, Process(h, id, cmd))
  {
    var c := h.conns[id];
    if cmd.MyNick? && Rank(c.state) <= Rank(KeyOrSup) {
      MyNickFine(h, id, cmd.target, cmd.good);
    } else {
      ProcessKeeps(h, id, cmd);
      KeptIsFine(h, Process(h, id, cmd), id);
    }
  }

  lemma ProcessKeeps(h: Hub, id: Id, cmd: Command)
    requires Start(h, id) && !(cmd.MyNick? && Rank(h.conns[id].state) <= Rank(KeyOrSup))
    ensures Kept(h, Process(h, id, cmd), id)
  {
    var c := h.conns[id];
    CloseKeeps(h, id);
    match cmd {
      case Key(good) => EarlyKeeps(h, id, good, {});
      case Supports(good, named) => EarlyKeeps(h, id, good, named);
      case ValidateNick(nick, check) =>
        if c.state == Validate {
          ValidateNickKeeps(h, id, nick, check);
        }
      case Version(good) =>
        if c.state == VersionOrMyPass {
          VersionKeeps(h, id, good);
        }
      case MyPass(good, password, offer) =>
        if c.state == VersionOrMyPass {
          MyPassKeeps(h, id, good, password);
        } else if c.state == Added {
          AddedPassKeeps(h, id, good, password, offer);
        }
      case MyInfo(nick, text, gate, check, accepted) =>
        if c.state == Validate {
          QuickMyInfoKeeps(h, id, nick, text, gate, check, accepted);
        } else if Rank(c.state) > Rank(Validate) {
          LaterMyInfoKeeps(h, id, nick, text, gate, accepted);
        }
      case _ =>
    }
  }

  /** One step of any connection keeps the invariant, and no connection moves as it may not. */
  lemma StepKeeps(h: Hub, e: Event)
    requires Inv(h)
    ensures Inv(Step(h, e)) && AllMove(h, Step(h, e))
  {
    match e {
      case Command(id, cmd) =>
        if Live(h, id) {
          ProcessFine(h, id, cmd);
        }
      case Drop(id) =>
        if id in h.conns {
          CloseFine(h, id);
        }
      case _ => TimerKeeps(h, e);
    }
  }

  lemma SameFine(h: Hub)
    requires Inv(h)
    ensures AllMove(h, h)
  {
  }

  lemma TimerKeeps(h: Hub, e: Event)
    requires Inv(h) && !e.Command? && !e.Drop?
    ensures Inv(Step(h, e)) && AllMove(h, Step(h, e))
  {
    match e {
      case SendLock(id) => AdvanceKeeps(h, e, id);
      case ProbeTimeout(id) => AdvanceKeeps(h, e, id);
      case Advance(id) => AdvanceKeeps(h, e, id);
      case Finish(id) => FinishKeeps(h, id);
      case OfferReg(nick) => OfferKeeps(h, nick);
      case Accept(ip) => AcceptKeeps(h, ip);
      case _ => SameFine(h);
    }
  }

  /** A live connection moves on to another state of the login. */
  lemma StateFine(h: Hub, id: Id, state: State)
    requires Inv(h) && Live(h, id) && !IsPastLogin(state) && Rank(h.conns[id].state) <= Rank(state)
    requires state == Ipv4Check ==> h.conns[id].state == Ipv4Check
    requires Good(h.conns[id].(state := state))
    ensures Inv(Put(h, id, h.conns[id].(state := state))) && AllMove(h, Put(h, id, h.conns[id].(state := state)))
  {
    var c := h.conns[id];
    var d := c.(state := state);
    assert Healthy(c, h.tick);
    PutFine(h, id, d);
  }

  lemma AdvancedIsGood(c: Conn)
    requires Good(c) && !IsPastLogin(c.state)
    ensures Good(c.(state := Advanced(c.state))) && Rank(c.state) <= Rank(Advanced(c.state)) && !IsPastLogin(Advanced(c.state))
    ensures Advanced(c.state) == Ipv4Check ==> c.state == Ipv4Check
    ensures c.state == Ipv4Check ==> Good(c.(state := AddMe))
    ensures c.state == Accepted ==> Good(c.(state := KeyOrSup))
  {
  }

  lemma AdvanceKeeps(h: Hub, e: Event, id: Id)
    requires Inv(h) && (e == SendLock(id) || e == ProbeTimeout(id) || e == Advance(id))
    ensures Inv(Step(h, e)) && AllMove(h, Step(h, e))
  {
    if Live(h, id) {
      var s := h.conns[id].state;
      assert Healthy(h.conns[id], h.tick);
      AdvancedIsGood(h.conns[id]);
      if e == Advance(id) {
        StateFine(h, id, Advanced(s));
      } else if e == SendLock(id) && s == Accepted {
        StateFine(h, id, KeyOrSup);
      } else if e == ProbeTimeout(id) && s == Ipv4Check {
        StateFine(h, id, AddMe);
      } else {
        SameFine(h);
      }
    } else {
      SameFine(h);
    }
  }

  lemma OfferKeeps(h: Hub, nick: string)
    requires Inv(h)
    ensures Inv(OfferTo(h, nick)) && AllMove(h, OfferTo(h, nick))
  {
    SameFine(h);
    if nick !in h.reg && nick in h.table {
      var id := h.table[nick];
      var c := h.conns[id];
      PutFine(h, id, c.(bits := c.bits + {WaitingForPass}, facts := c.facts + {Offered}));
    }
  }

  lemma FinishKeeps(h: Hub, id: Id)
    requires Inv(h)
    ensures Inv(Step(h, Finish(id))) && AllMove(h, Step(h, Finish(id)))
  {
    SameFine(h);
    if id in h.conns && h.conns[id].state == Closing {
      MarkedFine(h, id);
    } else if id in h.conns && h.conns[id].state == Remme {
      RemovedFine(h, id);
    }
  }

  /** Connections that are out of the login come and go without a trace in the table. */
  lemma RestFine(h: Hub, g: Hub)
    requires Inv(h) && Linked(g) && h.next <= g.next && h.tick == g.tick
    requires forall i :: i in g.conns && i in h.conns && g.conns[i] != h.conns[i] ==>
               Healthy(g.conns[i], g.tick) && Moves(h.conns[i], g.conns[i])
    requires forall i :: i in g.conns && i !in h.conns ==> Healthy(g.conns[i], g.tick) && i < g.next
    ensures Inv(g) && AllMove(h, g)
  {
    SameFine(h);
  }

  lemma MarkedFine(h: Hub, id: Id)
    requires Inv(h) && id in h.conns && h.conns[id].state == Closing
    ensures var g := Put(h, id, h.conns[id].(state := Remme)); Inv(g) && AllMove(h, g)
  {
    var d := h.conns[id].(state := Remme);
    assert Healthy(h.conns[id], h.tick);
    assert Healthy(d, h.tick) && Moves(h.conns[id], d);
    RestFine(h, Put(h, id, d));
  }

  lemma RemovedFine(h: Hub, id: Id)
    requires Inv(h) && id in h.conns && h.conns[id].state == Remme
    ensures var g := h.(conns := h.conns - {id}); Inv(g) && AllMove(h, g)
  {
    RestFine(h, h.(conns := h.conns - {id}));
  }

  lemma AcceptKeeps(h: Hub, ip: string)
    requires Inv(h)
    ensures Inv(Step(h, Accept(ip))) && AllMove(h, Step(h, Accept(ip)))
  {
    RestFine(h, Step(h, Accept(ip)));
  }

  // ---------- main results ----------

  lemma EmptyKeeps()
    ensures Inv(EMPTY)
  {
  }

  /** Over all interleavings of any number of connections the invariant holds. */
  lemma {:induction false} RunKeeps(h: Hub, es: seq<Event>)
    requires Inv(h)
    ensures Inv(Run(h, es))
    decreases |es|
  {
    if es != [] {
      StepKeeps(h, es[0]);
      RunKeeps(Step(h, es[0]), es[1..]);
    }
  }

  /** In every reachable hub live hashed connections have pairwise distinct nicks. */
  lemma ReachableNicksDistinct(es: seq<Event>, i: Id, j: Id)
    ensures var h := Run(EMPTY, es);
            Live(h, i) && Live(h, j) && i != j && Hashed in h.conns[i].bits && Hashed in h.conns[j].bits ==>
            h.conns[i].nick != h.conns[j].nick
  {
    EmptyKeeps();
    RunKeeps(EMPTY, es);
  }

  /** In every reachable hub a connection that got past its $MyINFO has a validated nick, holds it in the
      table, and has given the right password if the nick was registered when validated.  It may be asked for
      a password again only because an operator offered to register it. */
  lemma AdmittedIsVerified(es: seq<Event>, id: Id)
    ensures var h := Run(EMPTY, es);
            Live(h, id) && Rank(h.conns[id].state) >= Rank(Ipv4Check) ==>
            Complete(h.conns[id]) && h.conns[id].nick in h.table && h.table[h.conns[id].nick] == id
  {
    EmptyKeeps();
    RunKeeps(EMPTY, es);
  }

  /** Over every run, whatever the others do: the state of a connection never moves backwards, its nick stays
      once validated, and its wait for the password of a nick that was registered when validated ends only with
      the right password or with its closing. */
  lemma {:induction false} RunMoves(h: Hub, es: seq<Event>, id: Id)
    requires Inv(h) && id in h.conns && id in Run(h, es).conns
    ensures Moves(h.conns[id], Run(h, es).conns[id])
    decreases |es|
  {
    if es == [] {
      assert Moves(h.conns[id], h.conns[id]);
    } else {
      var g, k := Step(h, es[0]), Run(h, es);
      assert k == Run(g, es[1..]);
      FirstMoves(h, es, id, g);
      RunMoves(g, es[1..], id);
      MovesCompose(h.conns[id], g.conns[id], k.conns[id]);
    }
  }

  lemma FirstMoves(h: Hub, es: seq<Event>, id: Id, g: Hub)
    requires Inv(h) && es != [] && g == Step(h, es[0]) && id in h.conns && id in Run(g, es[1..]).conns
    ensures Inv(g) && id in g.conns && Moves(h.conns[id], g.conns[id])
  {
    StepKeeps(h, es[0]);
    StepKeys(h, es[0]);
    NeverBack(g, es[1..], id);
  }

  /** Identities are not used again: who is gone stays gone. */
  lemma {:induction false} NeverBack(h: Hub, es: seq<Event>, id: Id)
    requires Inv(h) && id < h.next
    ensures id in Run(h, es).conns ==> id in h.conns
    decreases |es|
  {
    if es != [] {
      StepKeeps(h, es[0]);
      StepKeys(h, es[0]);
      NeverBack(Step(h, es[0]), es[1..], id);
    }
  }

  lemma StepKeys(h: Hub, e: Event)
    requires Inv(h)
    ensures var g := Step(h, e);
            h.next <= g.next && forall i :: i in g.conns && i < h.next ==> i in h.conns
  {
    if e.Command? && Live(h, e.id) {
      var g := Process(h, e.id, e.cmd);
      if e.cmd.MyNick? && Rank(h.conns[e.id].state) <= Rank(KeyOrSup) {
        assert g.next == h.next && g.conns.Keys == h.conns.Keys;
      } else {
        ProcessKeeps(h, e.id, e.cmd);
      }
    }
  }

  // ---------- the history is true ----------

  /** What is noted about a connection is what its own command has just established. */
  ghost predicate Honest(h: Hub, c: Conn, d: Conn, own: Option<Command>) {
    d.facts == c.facts ||
    (c.facts == {} && Named(h, d) && Passed !in d.facts && own.Some? && (own.value.ValidateNick? || own.value.MyInfo?)) ||
    (d.facts == c.facts + {Passed} && WaitingForPass in c.bits && c.nick in h.reg &&
     own.Some? && own.value.MyPass? && own.value.good && own.value.password == h.reg[c.nick]) ||
    (d.facts == c.facts + {Offered} && own.None? && Hashed in c.bits && c.nick !in h.reg)
  }

  lemma ValidateNickFacts(h: Hub, id: Id, nick: string, check: Check)
    requires Start(h, id) && h.conns[id].state == Validate
    ensures Honest(h, h.conns[id], DoValidateNick(h, id, nick, check).conns[id], Some(ValidateNick(nick, check)))
  {
    if QuickList !in h.conns[id].bits && nick != "" {
      ValidationDecides(h, id, nick, check, true);
    }
  }

  lemma AdmissionFacts(h: Hub, id: Id, text: string, accepted: bool)
    requires id in h.conns
    ensures var c, d := h.conns[id], MyInfoAndAdmit(h, id, text, accepted).conns[id]; d.facts == c.facts && d.nick == c.nick
  {
  }

  lemma QuickFacts(h: Hub, id: Id, cmd: Command)
    requires Start(h, id) && h.conns[id].state == Validate && cmd.MyInfo?
    ensures Honest(h, h.conns[id],
                   DoQuickMyInfo(h, id, cmd.nickOf, cmd.text, cmd.gate, cmd.checkOf, cmd.accepted).conns[id], Some(cmd))
  {
    if QuickList in h.conns[id].bits && cmd.gate == Pass && cmd.nickOf.Some? {
      ValidationDecides(h, id, cmd.nickOf.value, cmd.checkOf, false);
      AdmissionFacts(ValidateUserNick(h, id, cmd.nickOf.value, cmd.checkOf, false).0, id, cmd.text, cmd.accepted);
    }
  }

  lemma PassFacts(h: Hub, id: Id, good: bool, password: string, offer: Offer)
    requires Start(h, id) && h.conns[id].state == VersionOrMyPass
    ensures Honest(h, h.conns[id], DoMyPass(h, id, good, password).conns[id], Some(MyPass(good, password, offer)))
  {
    var c := h.conns[id];
    if c.nick in h.reg && WaitingForPass in c.bits && good && password == h.reg[c.nick] {
      var d := c.(bits := c.bits - {WaitingForPass});
      PutLinks(h, id, d);
      RightPasswordKeeps(Put(h, id, d), id);
    }
  }

  lemma PlainFacts(h: Hub, id: Id, cmd: Command)
    requires Start(h, id) && !cmd.MyNick? && !cmd.MyPass?
    requires h.conns[id].state == Validate ==> !cmd.ValidateNick? && !cmd.MyInfo?
    ensures Process(h, id, cmd).conns[id].facts == h.conns[id].facts
  {
    if cmd.MyInfo? {
      LaterInfoFacts(h, id, cmd);
    }
  }

  lemma LaterInfoFacts(h: Hub, id: Id, cmd: Command)
    requires id in h.conns && cmd.MyInfo?
    ensures DoMyInfo(h, id, cmd.nickOf, cmd.text, cmd.gate, cmd.accepted).conns[id].facts == h.conns[id].facts
  {
    AdmissionFacts(h, id, cmd.text, cmd.accepted);
  }

  lemma MyNickFacts(h: Hub, id: Id, target: string, good: bool, i: Id)
    requires Start(h, id) && i in h.conns && Rank(h.conns[id].state) <= Rank(KeyOrSup)
    ensures var c, d := h.conns[i], DoMyNick(h, id, target, good).conns[i];
            d.facts == c.facts && (i == id || c.state == Ipv4Check || d == c)
  {
  }

  lemma OwnFacts(h: Hub, id: Id, cmd: Command)
    requires Inv(h) && Live(h, id)
    ensures Honest(h, h.conns[id], Process(h, id, cmd).conns[id], Some(cmd))
  {
    var c := h.conns[id];
    if cmd.MyNick? {
      if Rank(c.state) <= Rank(KeyOrSup) {
        MyNickFacts(h, id, cmd.target, cmd.good, id);
      }
    } else if cmd.MyPass? {
      if c.state == VersionOrMyPass {
        PassFacts(h, id, cmd.good, cmd.password, cmd.offer);
      }
    } else if c.state == Validate && cmd.ValidateNick? {
      ValidateNickFacts(h, id, cmd.nick, cmd.check);
    } else if c.state == Validate && cmd.MyInfo? {
      QuickFacts(h, id, cmd);
    } else {
      PlainFacts(h, id, cmd);
    }
  }

  lemma OtherFacts(h: Hub, id: Id, cmd: Command, i: Id)
    requires Inv(h) && Live(h, id) && i in h.conns && i != id
    ensures Process(h, id, cmd).conns[i].facts == h.conns[i].facts
  {
    if cmd.MyNick? && Rank(h.conns[id].state) <= Rank(KeyOrSup) {
      MyNickFacts(h, id, cmd.target, cmd.good, i);
    } else {
      ProcessKeeps(h, id, cmd);
    }
  }

  /** Validated means that the nick was checked, WasRegistered that it was registered at that moment, Passed
      that the right password came while it was asked for, and Offered that an operator offered to register
      the nick. */
  lemma FactsAreTrue(h: Hub, e: Event, id: Id)
    requires Inv(h) && id in h.conns && id in Step(h, e).conns
    ensures Honest(h, h.conns[id], Step(h, e).conns[id], if e.Command? && e.id == id then Some(e.cmd) else None)
  {
    if e.Command? && Live(h, e.id) {
      if e.id == id {
        OwnFacts(h, id, e.cmd);
      } else {
        OtherFacts(h, e.id, e.cmd, id);
      }
    }
  }

  // ---------- who gets a nick ----------

  /** The right password wins the nick: whoever held it is closed. */
  lemma RightPasswordWins(h: Hub, id: Id, password: string, offer: Offer)
    requires Inv(h) && Live(h, id) && h.conns[id].state == VersionOrMyPass && WaitingForPass in h.conns[id].bits
    requires h.conns[id].nick in h.reg && password == h.reg[h.conns[id].nick]
    ensures var g := Process(h, id, MyPass(true, password, offer));
            Live(g, id) && Passed in g.conns[id].facts && Took(h, g, id)
  {
    var c := h.conns[id];
    assert Healthy(c, h.tick);
    var d := c.(bits := c.bits - {WaitingForPass});
    var g := Put(h, id, d);
    assert Linked(g) by {
      PutLinks(h, id, d);
    }
    PasswordTakes(g, id, RightPassword(g, id));
    PasswordIsRight(h, id, password, offer);
  }

  lemma PasswordIsRight(h: Hub, id: Id, password: string, offer: Offer)
    requires Live(h, id) && h.conns[id].state == VersionOrMyPass && WaitingForPass in h.conns[id].bits
    requires h.conns[id].nick in h.reg && password == h.reg[h.conns[id].nick]
    ensures var c := h.conns[id];
            Process(h, id, MyPass(true, password, offer)) == RightPassword(Put(h, id, c.(bits := c.bits - {WaitingForPass})), id)
  {
  }

  lemma PasswordTakes(h: Hub, id: Id, g: Hub)
    requires Linked(h) && Live(h, id) && h.conns[id].state == VersionOrMyPass && g == RightPassword(h, id)
    requires WaitingForPass !in h.conns[id].bits && Validated in h.conns[id].facts
    ensures Live(g, id) && Passed in g.conns[id].facts && Took(h, g, id)
  {
    RightPasswordKeeps(h, id);
  }

  /** The connection is in the table with this nick. */
  ghost predicate Holds(h: Hub, i: Id, nick: string) {
    Live(h, i) && Hashed in h.conns[i].bits && h.conns[i].nick == nick
  }

  /** A check that finds the holder's socket working and does not take it for a clone to be removed. */
  predicate Respects(check: Check, sameIp: bool) {
    !check.holderGone && !(check.removeClones && sameIp)
  }

  /** Nothing happens by which holder i may lose its nick: it is not dropped, no command of its own closes
      it, and whoever else asks for the nick finds a working socket that is no clone. */
  predicate Spares(h: Hub, e: Event, i: Id, nick: string)
    requires i in h.conns
  {
    match e
    case Command(id, cmd) =>
      if id == i then Live(Step(h, e), i)
      else Live(h, id) ==> SparesCommand(cmd, nick, h.conns[i].ip == h.conns[id].ip)
    case Drop(id) => id != i
    case _ => true
  }

  predicate SparesCommand(cmd: Command, nick: string, sameIp: bool) {
    match cmd
    case ValidateNick(n, check) => n == nick ==> Respects(check, sameIp)
    case MyInfo(n, _, _, check, _) => n == Some(nick) ==> Respects(check, sameIp)
    case _ => true
  }

  lemma NamedSpares(h: Hub, id: Id, check: Check, byCommand: bool, i: Id, nick: string)
    requires Linked(h) && Live(h, id) && Holds(h, i, nick) && id != i && nick !in h.reg
    requires h.conns[id].nick == nick ==> Respects(check, h.conns[i].ip == h.conns[id].ip)
    ensures ValidateNamed(h, id, check, byCommand).0.conns[i] == h.conns[i]
  {
    var n := h.conns[id].nick;
    if n in h.table {
      HeldSpares(h, id, h.table[n], check, byCommand, i);
    }
  }

  lemma HeldSpares(h: Hub, id: Id, holder: Id, check: Check, byCommand: bool, i: Id)
    requires id in h.conns && holder in h.conns && i in h.conns && i != id
    requires holder == i ==> h.conns[id].nick !in h.reg && Respects(check, h.conns[i].ip == h.conns[id].ip)
    ensures ValidateHeld(h, id, holder, check, byCommand).0.conns[i] == h.conns[i]
  {
  }

  lemma ValidationSpares(h: Hub, id: Id, n: string, check: Check, byCommand: bool, i: Id, nick: string)
    requires Linked(h) && Live(h, id) && Hashed !in h.conns[id].bits && Holds(h, i, nick) && id != i && nick !in h.reg
    requires n == nick ==> Respects(check, h.conns[i].ip == h.conns[id].ip)
    ensures ValidateUserNick(h, id, n, check, byCommand).0.conns[i] == h.conns[i]
  {
    if !Illegal(n) {
      var c := h.conns[id].(nick := n);
      PutUnhashed(h, id, c);
      NamedSpares(Put(h, id, c), id, check, byCommand, i, nick);
    }
  }

  lemma PasswordSpares(h: Hub, id: Id, good: bool, password: string, i: Id, nick: string)
    requires Linked(h) && Live(h, id) && Holds(h, i, nick) && id != i && nick !in h.reg
    ensures DoMyPass(h, id, good, password).conns[i] == h.conns[i]
  {
    var c := h.conns[id];
    if c.nick in h.reg {
      assert c.nick in h.table ==> h.table[c.nick] != i;
      TakeSpares(Put(h, id, c.(bits := c.bits - {WaitingForPass}, facts := c.facts + {Passed})), id, i);
    }
  }

  lemma TakeSpares(h: Hub, id: Id, i: Id)
    requires id in h.conns && i in h.conns && id != i
    requires h.conns[id].nick in h.table ==> h.table[h.conns[id].nick] != i
    ensures TakeNick(h, id).conns[i] == h.conns[i]
  {
  }

  lemma QuickSpares(h: Hub, id: Id, cmd: Command, i: Id, nick: string)
    requires Inv(h) && Live(h, id) && h.conns[id].state == Validate && Holds(h, i, nick) && id != i && nick !in h.reg
    requires cmd.MyInfo? && SparesCommand(cmd, nick, h.conns[i].ip == h.conns[id].ip)
    ensures DoQuickMyInfo(h, id, cmd.nickOf, cmd.text, cmd.gate, cmd.checkOf, cmd.accepted).conns[i] == h.conns[i]
  {
    if QuickList in h.conns[id].bits && cmd.gate == Pass && cmd.nickOf.Some? {
      ValidationSpares(h, id, cmd.nickOf.value, cmd.checkOf, false, i, nick);
      AdmissionSpares(ValidateUserNick(h, id, cmd.nickOf.value, cmd.checkOf, false).0, id, cmd.text, cmd.accepted, i);
    }
  }

  lemma AdmissionSpares(h: Hub, id: Id, text: string, accepted: bool, i: Id)
    requires id in h.conns && i in h.conns && i != id
    ensures MyInfoAndAdmit(h, id, text, accepted).conns[i] == h.conns[i]
  {
  }

  lemma PlainSpares(h: Hub, id: Id, cmd: Command, i: Id)
    requires Live(h, id) && Live(h, i) && id != i && !cmd.MyPass?
    requires h.conns[id].state == Validate ==> !cmd.ValidateNick? && !cmd.MyInfo?
    ensures i in Process(h, id, cmd).conns && !IsPastLogin(Process(h, id, cmd).conns[i].state)
  {
    if cmd.MyInfo? && Rank(h.conns[id].state) > Rank(Validate) {
      LaterInfoSpares(h, id, cmd, i);
    } else if cmd.MyNick? {
      MyNickSpares(h, id, cmd.target, cmd.good, i);
    }
  }

  lemma LaterInfoSpares(h: Hub, id: Id, cmd: Command, i: Id)
    requires id in h.conns && i in h.conns && id != i && cmd.MyInfo?
    ensures DoMyInfo(h, id, cmd.nickOf, cmd.text, cmd.gate, cmd.accepted).conns[i] == h.conns[i]
  {
    AdmissionSpares(h, id, cmd.text, cmd.accepted, i);
  }

  lemma MyNickSpares(h: Hub, id: Id, target: string, good: bool, i: Id)
    requires id in h.conns && Live(h, i) && id != i
    ensures !IsPastLogin(DoMyNick(h, id, target, good).conns[i].state)
  {
  }

  lemma PassSpares(h: Hub, id: Id, cmd: Command, i: Id, nick: string)
    requires Linked(h) && Live(h, id) && Holds(h, i, nick) && id != i && nick !in h.reg && cmd.MyPass?
    ensures Process(h, id, cmd).conns[i] == h.conns[i]
  {
    PasswordSpares(h, id, cmd.good, cmd.password, i, nick);
  }

  lemma CommandSpares(h: Hub, id: Id, cmd: Command, i: Id, nick: string)
    requires Inv(h) && Live(h, id) && Holds(h, i, nick) && id != i && nick !in h.reg
    requires SparesCommand(cmd, nick, h.conns[i].ip == h.conns[id].ip)
    ensures i in Process(h, id, cmd).conns && !IsPastLogin(Process(h, id, cmd).conns[i].state)
  {
    var validates := h.conns[id].state == Validate;
    if validates && cmd.ValidateNick? {
      ValidationSpares(h, id, cmd.nick, cmd.check, true, i, nick);
    } else if validates && cmd.MyInfo? {
      QuickSpares(h, id, cmd, i, nick);
    } else if cmd.MyPass? {
      PassSpares(h, id, cmd, i, nick);
    } else {
      PlainSpares(h, id, cmd, i);
    }
  }

  lemma StepSpares(h: Hub, e: Event, i: Id, nick: string)
    requires Inv(h) && Holds(h, i, nick) && nick !in h.reg && Spares(h, e, i, nick)
    ensures Holds(Step(h, e), i, nick)
  {
    StepKeeps(h, e);
    if e.Command? && e.id != i && Live(h, e.id) {
      CommandSpares(h, e.id, e.cmd, i, nick);
    }
    assert Live(Step(h, e), i);
    assert Moves(h.conns[i], Step(h, e).conns[i]);
  }

  predicate AllSpare(h: Hub, es: seq<Event>, i: Id, nick: string)
    decreases |es|
  {
    es == [] ||
    (i in h.conns && nick !in h.reg && Spares(h, es[0], i, nick) && AllSpare(Step(h, es[0]), es[1..], i, nick))
  }

  /** Over every run, whatever other connections ask for: as long as its nick is not registered, a holder
      that is spared keeps it, and nobody else gets it. */
  lemma {:induction false} HolderKeepsNick(h: Hub, es: seq<Event>, i: Id, nick: string)
    requires Inv(h) && Holds(h, i, nick) && AllSpare(h, es, i, nick)
    ensures var g := Run(h, es);
            Holds(g, i, nick) && nick in g.table && g.table[nick] == i && forall j :: Holds(g, j, nick) ==> j == i
    decreases |es|
  {
    if es != [] {
      StepKeeps(h, es[0]);
      StepSpares(h, es[0], i, nick);
      HolderKeepsNick(Step(h, es[0]), es[1..], i, nick);
    }
  }

  /** Waiting for a password, whatever began the wait, but past the state in which it is taken. */
  ghost predicate TooEarly(c: Conn) {
    IsPastLogin(c.state) || (c.state == GetNickListOrMyInfo && WaitingForPass in c.bits)
  }

  lemma TooEarlyStays(h: Hub, e: Event, id: Id)
    requires Inv(h) && id in h.conns && id in Step(h, e).conns && TooEarly(h.conns[id])
    ensures TooEarly(Step(h, e).conns[id])
  {
    if e.Command? {
      if Live(h, e.id) && e.id == id {
        TooEarlyCommand(h, id, e.cmd);
      } else if Live(h, e.id) {
        OthersStay(h, e.id, e.cmd, id);
      }
    } else {
      TooEarlyTimer(h, e, id);
    }
  }

  lemma TooEarlyTimer(h: Hub, e: Event, id: Id)
    requires id in h.conns && id in Step(h, e).conns && TooEarly(h.conns[id]) && !e.Command? && id < h.next
    ensures TooEarly(Step(h, e).conns[id])
  {
  }

  lemma TooEarlyCommand(h: Hub, id: Id, cmd: Command)
    requires Live(h, id) && TooEarly(h.conns[id])
    ensures TooEarly(Process(h, id, cmd).conns[id])
  {
    assert h.conns[id].state == GetNickListOrMyInfo;
    if cmd.MyInfo? {
      TooEarlyInfo(h, id, cmd);
    }
  }

  lemma TooEarlyInfo(h: Hub, id: Id, cmd: Command)
    requires id in h.conns && h.conns[id].state == GetNickListOrMyInfo && WaitingForPass in h.conns[id].bits && cmd.MyInfo?
    ensures TooEarly(DoMyInfo(h, id, cmd.nickOf, cmd.text, cmd.gate, cmd.accepted).conns[id])
  {
  }

  lemma OthersStay(h: Hub, id: Id, cmd: Command, i: Id)
    requires Inv(h) && Live(h, id) && i in h.conns && i != id && h.conns[i].state != Ipv4Check
    ensures var d := Process(h, id, cmd).conns[i]; d == h.conns[i] || IsPastLogin(d.state)
  {
    if cmd.MyNick? && Rank(h.conns[id].state) <= Rank(KeyOrSup) {
      MyNickFacts(h, id, cmd.target, cmd.good, i);
    } else {
      ProcessKeeps(h, id, cmd);
      KeptOthers(h, Process(h, id, cmd), id, i);
    }
  }

  lemma KeptOthers(h: Hub, g: Hub, id: Id, i: Id)
    requires id in h.conns && i in h.conns && i != id && Kept(h, g, id)
    ensures i in g.conns && (g.conns[i] == h.conns[i] || IsPastLogin(g.conns[i].state))
  {
  }

  /** A client that sends $Version before the password it is asked for never gets in: it stays outside until
      it is closed, whatever it or anybody else sends.  That includes a client with an unregistered nick to
      whom registration was offered in the middle of its login. */
  lemma {:induction false} VersionBeforePassword(h: Hub, es: seq<Event>, id: Id)
    requires Inv(h) && id in h.conns && TooEarly(h.conns[id])
    ensures id in Run(h, es).conns ==> TooEarly(Run(h, es).conns[id])
    decreases |es|
  {
    if es != [] && id in Run(h, es).conns {
      var g := Step(h, es[0]);
      assert Run(h, es) == Run(g, es[1..]);
      FirstMoves(h, es, id, g);
      TooEarlyStays(h, es[0], id);
      VersionBeforePassword(g, es[1..], id);
    }
  }
}

/** How clients get in: the three ways through the login of LoginProtocol, from the first byte to the user
    list, in a hub in any state and with nothing else changed. */
module LoginScenarios {
  import opened Options
  import opened LoginProtocol

  /** A hub with one more connection. */
  function WithNew(h: Hub, c: Conn): Hub {
    h.(conns := h.conns[h.next := c], next := h.next + 1)
  }

  function Say(id: Id, cmd: Command): Event {
    Event.Command(id, cmd)
  }

  lemma PutNew(h: Hub, c: Conn, d: Conn)
    ensures Put(WithNew(h, c), h.next, d) == WithNew(h, d)
  {
    assert h.conns[h.next := c][h.next := d] == h.conns[h.next := d];
  }

  lemma RunCons(h: Hub, e: Event, rest: seq<Event>)
    ensures Run(h, [e] + rest) == Run(Step(h, e), rest)
  {
    assert ([e] + rest)[0] == e && ([e] + rest)[1..] == rest;
  }

  // ---------- single steps of the new connection ----------

  lemma LockSent(h: Hub, c: Conn)
    requires c.state == Accepted
    ensures Step(WithNew(h, c), SendLock(h.next)) == WithNew(h, c.(state := KeyOrSup))
  {
    PutNew(h, c, c.(state := KeyOrSup));
  }

  lemma SupportsTaken(h: Hub, c: Conn, quick: bool)
    requires c.state == KeyOrSup && c.bits == {}
    ensures Step(WithNew(h, c), Say(h.next, Supports(true, if quick then {QuickList} else {})))
         == WithNew(h, c.(state := Validate, bits := if quick then {HaveSupports, QuickList} else {HaveSupports}))
  {
    var named := if quick then {QuickList} else {};
    assert c.bits + {HaveSupports} + (named * {QuickList, Ipv4Probe})
        == if quick then {HaveSupports, QuickList} else {HaveSupports};
    PutNew(h, c, c.(state := Validate, bits := if quick then {HaveSupports, QuickList} else {HaveSupports}));
  }

  lemma KeyIgnored(h: Hub, c: Conn)
    requires c.state == Validate && HaveSupports in c.bits
    ensures Step(WithNew(h, c), Say(h.next, Key(true))) == WithNew(h, c)
  {
  }

  /** Nothing speaks against the nick, and nobody has it. */
  ghost predicate Free(h: Hub, nick: string, check: Check) {
    nick != "" && !Illegal(nick) && nick !in h.table && !check.refused && check.publicOk
  }

  lemma FreeNickValidated(h: Hub, c: Conn, nick: string, check: Check, byCommand: bool)
    requires Free(h, nick, check) && c.state == Validate
    ensures var d := c.(nick := nick);
            var e := if nick in h.reg then Asked(d) else Welcomed(d, byCommand);
            ValidateUserNick(WithNew(h, c), h.next, nick, check, byCommand)
            == (WithNew(h.(table := h.table[nick := h.next]), e.(bits := e.bits + {Hashed})), true)
  {
    var d := c.(nick := nick);
    var e := if nick in h.reg then Asked(d) else Welcomed(d, byCommand);
    PutNew(h, c, d);
    PutNew(h, d, e);
    PutNew(h, e, e.(bits := e.bits + {Hashed}));
  }

  lemma VersionTaken(h: Hub, c: Conn)
    requires c.state == VersionOrMyPass
    ensures Step(WithNew(h, c), Say(h.next, Version(true))) == WithNew(h, c.(state := GetNickListOrMyInfo))
  {
    PutNew(h, c, c.(state := GetNickListOrMyInfo));
  }

  lemma InfoAdmits(h: Hub, c: Conn, text: string)
    requires !IsPastLogin(c.state) && c.bits !! {WaitingForPass, Ipv4Probe} && c.myInfo == None
    ensures MyInfoAndAdmit(WithNew(h, c), h.next, text, true) == WithNew(h, c.(myInfo := Some(text), state := AddMe))
  {
    var d := c.(myInfo := Some(text));
    PutNew(h, c, d);
    PutNew(h, d, d.(state := AddMe));
  }

  lemma InfoTaken(h: Hub, c: Conn, text: string, check: Check)
    requires c.state == GetNickListOrMyInfo && c.bits !! {WaitingForPass, Ipv4Probe} && c.myInfo == None
    ensures Step(WithNew(h, c), Say(h.next, MyInfo(Some(c.nick), text, Pass, check, true)))
         == WithNew(h, c.(myInfo := Some(text), state := AddMe))
  {
    InfoAdmits(h, c, text);
  }

  /** The first connection of a registered nick gives its password. */
  lemma PasswordTaken(h: Hub, c: Conn)
    requires c.state == VersionOrMyPass && {WaitingForPass, Hashed} <= c.bits && QuickList !in c.bits && c.nick in h.reg
    ensures Step(WithNew(h, c), Say(h.next, MyPass(true, h.reg[c.nick], NoProfile)))
         == WithNew(h, c.(bits := c.bits - {WaitingForPass}, facts := c.facts + {Passed}))
  {
    var d := c.(bits := c.bits - {WaitingForPass});
    PutNew(h, c, d);
    PutNew(h, d, d.(facts := c.facts + {Passed}));
  }

  lemma Passing(h: Hub, c: Conn)
    requires !IsPastLogin(c.state)
    ensures Step(WithNew(h, c), Advance(h.next)) == WithNew(h, c.(state := Advanced(c.state)))
  {
    PutNew(h, c, c.(state := Advanced(c.state)));
  }

  // ---------- the beginning and the end of every login ----------

  function Opening(id: Id, ip: string, quick: bool, rest: seq<Event>): seq<Event> {
    [Accept(ip)] + ([SendLock(id)] +
    ([Say(id, Supports(true, if quick then {QuickList} else {}))] + ([Say(id, Key(true))] + rest)))
  }

  /** A connection whose features are known. */
  function Opened(ip: string, quick: bool, tick: nat): Conn {
    Conn(Validate, "", ip, if quick then {HaveSupports, QuickList} else {HaveSupports}, None, {}, tick, 0)
  }

  lemma Opens(h: Hub, ip: string, quick: bool, rest: seq<Event>)
    ensures Run(h, Opening(h.next, ip, quick, rest)) == Run(WithNew(h, Opened(ip, quick, h.tick)), rest)
  {
    var c := Conn(Accepted, "", ip, {}, None, {}, h.tick, 0);
    var say := Say(h.next, Supports(true, if quick then {QuickList} else {}));
    var three := [Say(h.next, Key(true))] + rest;
    RunCons(h, Accept(ip), [SendLock(h.next)] + ([say] + three));
    LockSent(h, c);
    RunCons(WithNew(h, c), SendLock(h.next), [say] + three);
    SupportsTaken(h, c.(state := KeyOrSup), quick);
    RunCons(WithNew(h, c.(state := KeyOrSup)), say, three);
    KeyIgnored(h, Opened(ip, quick, h.tick));
    RunCons(WithNew(h, Opened(ip, quick, h.tick)), Say(h.next, Key(true)), rest);
  }

  /** The three passes of the service loop after which a user is in the list. */
  function ThreePasses(id: Id): seq<Event> {
    [Advance(id)] + ([Advance(id)] + ([Advance(id)] + []))
  }

  lemma Passes(h: Hub, c: Conn)
    requires c.state == AddMe
    ensures Run(WithNew(h, c), ThreePasses(h.next)) == WithNew(h, c.(state := Added))
  {
    var a := Advance(h.next);
    var d, e, f := c.(state := AddMe1Loop), c.(state := AddMe2Loop), c.(state := Added);
    Passing(h, c);
    RunCons(WithNew(h, c), a, [a] + ([a] + []));
    Passing(h, d);
    RunCons(WithNew(h, d), a, [a] + []);
    Passing(h, e);
    RunCons(WithNew(h, e), a, []);
    assert Run(WithNew(h, f), []) == WithNew(h, f);
  }

  function Entering(id: Id, nick: string, text: string, check: Check): seq<Event> {
    [Say(id, Version(true))] + ([Say(id, MyInfo(Some(nick), text, Pass, check, true))] + ThreePasses(id))
  }

  lemma Enters(h: Hub, c: Conn, text: string, check: Check)
    requires c.state == VersionOrMyPass && c.bits !! {WaitingForPass, Ipv4Probe} && c.myInfo == None
    ensures Run(WithNew(h, c), Entering(h.next, c.nick, text, check)) == WithNew(h, c.(myInfo := Some(text), state := Added))
  {
    var d := c.(state := GetNickListOrMyInfo);
    var say := Say(h.next, MyInfo(Some(c.nick), text, Pass, check, true));
    VersionTaken(h, c);
    RunCons(WithNew(h, c), Say(h.next, Version(true)), [say] + ThreePasses(h.next));
    InfoTaken(h, d, text, check);
    RunCons(WithNew(h, d), say, ThreePasses(h.next));
    Passes(h, d.(myInfo := Some(text), state := AddMe));
  }

  // ---------- the three ways in ----------

  function HavingNick(h: Hub, nick: string): Hub {
    h.(table := h.table[nick := h.next])
  }

  /** What a right nick makes of an opened connection. */
  function WithNick(h: Hub, ip: string, nick: string, quick: bool): Conn {
    if nick in h.reg then
      Conn(VersionOrMyPass, nick, ip, {HaveSupports, WaitingForPass, Hashed}, None, {Validated, WasRegistered}, h.tick, 0)
    else if quick then Conn(Validate, nick, ip, {HaveSupports, QuickList, Hashed}, None, {Validated}, h.tick, 0)
    else Conn(VersionOrMyPass, nick, ip, {HaveSupports, Hashed}, None, {Validated}, h.tick, 0)
  }

  lemma NickTaken(h: Hub, ip: string, nick: string, check: Check, quick: bool)
    requires Free(h, nick, check) && (quick ==> nick !in h.reg)
    ensures ValidateUserNick(WithNew(h, Opened(ip, quick, h.tick)), h.next, nick, check, !quick)
         == (WithNew(HavingNick(h, nick), WithNick(h, ip, nick, quick)), true)
  {
    FreeNickValidated(h, Opened(ip, quick, h.tick), nick, check, !quick);
    assert {HaveSupports} + {WaitingForPass} + {Hashed} == {HaveSupports, WaitingForPass, Hashed};
    assert {HaveSupports} + {Hashed} == {HaveSupports, Hashed};
    assert {HaveSupports, QuickList} + {Hashed} == {HaveSupports, QuickList, Hashed};
  }

  lemma NickSaid(h: Hub, ip: string, nick: string, check: Check)
    requires Free(h, nick, check)
    ensures Step(WithNew(h, Opened(ip, false, h.tick)), Say(h.next, ValidateNick(nick, check)))
         == WithNew(HavingNick(h, nick), WithNick(h, ip, nick, false))
  {
    NickTaken(h, ip, nick, check, false);
  }

  lemma OpensWithNick(h: Hub, ip: string, nick: string, check: Check, rest: seq<Event>)
    requires Free(h, nick, check)
    ensures Run(h, Opening(h.next, ip, false, [Say(h.next, ValidateNick(nick, check))] + rest))
         == Run(WithNew(HavingNick(h, nick), WithNick(h, ip, nick, false)), rest)
  {
    var say := Say(h.next, ValidateNick(nick, check));
    Opens(h, ip, false, [say] + rest);
    RunCons(WithNew(h, Opened(ip, false, h.tick)), say, rest);
    NickSaid(h, ip, nick, check);
  }

  lemma OrdinaryEnters(h: Hub, ip: string, nick: string, text: string, check: Check)
    requires nick !in h.reg
    ensures Run(WithNew(h, WithNick(h, ip, nick, false)), Entering(h.next, nick, text, check))
         == WithNew(h, Conn(Added, nick, ip, {HaveSupports, Hashed}, Some(text), {Validated}, h.tick, 0))
  {
    Enters(h, WithNick(h, ip, nick, false), text, check);
  }

  /** A client with a free, unregistered nick is added by $Supports, $Key, $ValidateNick, $Version, $MyINFO
      and three passes of the service loop; nothing else in the hub changes. */
  lemma OrdinaryLogin(h: Hub, ip: string, nick: string, text: string, check: Check)
    requires Free(h, nick, check) && nick !in h.reg
    ensures Run(h, Opening(h.next, ip, false, [Say(h.next, ValidateNick(nick, check))] + Entering(h.next, nick, text, check)))
         == WithNew(HavingNick(h, nick), Conn(Added, nick, ip, {HaveSupports, Hashed}, Some(text), {Validated}, h.tick, 0))
  {
    OpensWithNick(h, ip, nick, check, Entering(h.next, nick, text, check));
    OrdinaryEnters(HavingNick(h, nick), ip, nick, text, check);
  }

  lemma PasswordSaid(h: Hub, ip: string, nick: string)
    requires nick in h.reg
    ensures Step(WithNew(h, WithNick(h, ip, nick, false)), Say(h.next, MyPass(true, h.reg[nick], NoProfile)))
         == WithNew(h, Conn(VersionOrMyPass, nick, ip, {HaveSupports, Hashed}, None, {Validated, WasRegistered, Passed}, h.tick, 0))
  {
    PasswordTaken(h, WithNick(h, ip, nick, false));
    assert {HaveSupports, WaitingForPass, Hashed} - {WaitingForPass} == {HaveSupports, Hashed};
    assert {Validated, WasRegistered} + {Passed} == {Validated, WasRegistered, Passed};
  }

  lemma PasswordEnters(h: Hub, ip: string, nick: string, text: string, check: Check)
    requires nick in h.reg
    ensures Run(WithNew(h, WithNick(h, ip, nick, false)),
                [Say(h.next, MyPass(true, h.reg[nick], NoProfile))] + Entering(h.next, nick, text, check))
         == WithNew(h, Conn(Added, nick, ip, {HaveSupports, Hashed}, Some(text), {Validated, WasRegistered, Passed}, h.tick, 0))
  {
    var pass := Say(h.next, MyPass(true, h.reg[nick], NoProfile));
    RunCons(WithNew(h, WithNick(h, ip, nick, false)), pass, Entering(h.next, nick, text, check));
    PasswordSaid(h, ip, nick);
    Enters(h, Conn(VersionOrMyPass, nick, ip, {HaveSupports, Hashed}, None, {Validated, WasRegistered, Passed}, h.tick, 0), text, check);
  }

  /** With a registered nick the password comes in between. */
  lemma PasswordLogin(h: Hub, ip: string, nick: string, text: string, check: Check)
    requires Free(h, nick, check) && nick in h.reg
    ensures Run(h, Opening(h.next, ip, false, [Say(h.next, ValidateNick(nick, check))] +
                           ([Say(h.next, MyPass(true, h.reg[nick], NoProfile))] + Entering(h.next, nick, text, check))))
         == WithNew(HavingNick(h, nick),
                    Conn(Added, nick, ip, {HaveSupports, Hashed}, Some(text), {Validated, WasRegistered, Passed}, h.tick, 0))
  {
    OpensWithNick(h, ip, nick, check, [Say(h.next, MyPass(true, h.reg[nick], NoProfile))] + Entering(h.next, nick, text, check));
    PasswordEnters(HavingNick(h, nick), ip, nick, text, check);
  }

  lemma QuickInfoSaid(h: Hub, ip: string, nick: string, text: string, check: Check)
    requires Free(h, nick, check) && nick !in h.reg
    ensures Step(WithNew(h, Opened(ip, true, h.tick)), Say(h.next, MyInfo(Some(nick), text, Pass, check, true)))
         == WithNew(HavingNick(h, nick), WithNick(h, ip, nick, true).(myInfo := Some(text), state := AddMe))
  {
    NickTaken(h, ip, nick, check, true);
    InfoAdmits(HavingNick(h, nick), WithNick(h, ip, nick, true), text);
  }

  /** A QuickList client needs no more than $Supports, $Key and $MyINFO. */
  lemma QuickLogin(h: Hub, ip: string, nick: string, text: string, check: Check)
    requires Free(h, nick, check) && nick !in h.reg
    ensures Run(h, Opening(h.next, ip, true, [Say(h.next, MyInfo(Some(nick), text, Pass, check, true))] + ThreePasses(h.next)))
         == WithNew(HavingNick(h, nick), Conn(Added, nick, ip, {HaveSupports, QuickList, Hashed}, Some(text), {Validated}, h.tick, 0))
  {
    var say, rest := Say(h.next, MyInfo(Some(nick), text, Pass, check, true)), ThreePasses(h.next);
    Opens(h, ip, true, [say] + rest);
    RunCons(WithNew(h, Opened(ip, true, h.tick)), say, rest);
    QuickInfoSaid(h, ip, nick, text, check);
    Passes(HavingNick(h, nick), WithNick(h, ip, nick, true).(myInfo := Some(text), state := AddMe));
  }

  // ---------- a QuickList client with a registered nick ----------

  /** Its nick is taken, its $MyINFO kept, and it is asked for its password. */
  function QuickAsked(ip: string, nick: string, text: string, tick: nat): Conn {
    Conn(VersionOrMyPass, nick, ip, {HaveSupports, QuickList, WaitingForPass, Hashed}, Some(text),
         {Validated, WasRegistered}, tick, 0)
  }

  lemma QuickInfoKept(h: Hub, ip: string, nick: string, text: string, check: Check)
    requires Free(h, nick, check) && nick in h.reg
    ensures Step(WithNew(h, Opened(ip, true, h.tick)), Say(h.next, MyInfo(Some(nick), text, Pass, check, true)))
         == WithNew(HavingNick(h, nick), QuickAsked(ip, nick, text, h.tick))
  {
    FreeNickValidated(h, Opened(ip, true, h.tick), nick, check, false);
    assert {HaveSupports, QuickList} + {WaitingForPass} + {Hashed} == {HaveSupports, QuickList, WaitingForPass, Hashed};
    var c := QuickAsked(ip, nick, text, h.tick);
    InfoKept(HavingNick(h, nick), c.(myInfo := None), text);
  }

  lemma InfoKept(h: Hub, c: Conn, text: string)
    requires WaitingForPass in c.bits && c.myInfo == None
    ensures MyInfoAndAdmit(WithNew(h, c), h.next, text, true) == WithNew(h, c.(myInfo := Some(text)))
  {
    PutNew(h, c, c.(myInfo := Some(text)));
  }

  lemma QuickPasswordTaken(h: Hub, ip: string, nick: string, text: string)
    requires nick in h.reg
    ensures Step(WithNew(h, QuickAsked(ip, nick, text, h.tick)), Say(h.next, MyPass(true, h.reg[nick], NoProfile)))
         == WithNew(h, Conn(AddMe, nick, ip, {HaveSupports, QuickList, Hashed}, Some(text),
                            {Validated, WasRegistered, Passed}, h.tick, 0))
  {
    var c := QuickAsked(ip, nick, text, h.tick);
    var d := c.(bits := c.bits - {WaitingForPass});
    var e := d.(facts := d.facts + {Passed});
    assert d.bits == {HaveSupports, QuickList, Hashed};
    assert e.facts == {Validated, WasRegistered, Passed};
    PutNew(h, c, d);
    PutNew(h, d, e);
    PutNew(h, e, e.(state := AddMe));
  }

  /** A QuickList client with a registered nick is in with its $MyINFO and its password. */
  lemma QuickPasswordLogin(h: Hub, ip: string, nick: string, text: string, check: Check)
    requires Free(h, nick, check) && nick in h.reg
    ensures Run(h, Opening(h.next, ip, true, [Say(h.next, MyInfo(Some(nick), text, Pass, check, true))] +
                           ([Say(h.next, MyPass(true, h.reg[nick], NoProfile))] + ThreePasses(h.next))))
         == WithNew(HavingNick(h, nick),
                    Conn(Added, nick, ip, {HaveSupports, QuickList, Hashed}, Some(text),
                         {Validated, WasRegistered, Passed}, h.tick, 0))
  {
    var info, pass := Say(h.next, MyInfo(Some(nick), text, Pass, check, true)), Say(h.next, MyPass(true, h.reg[nick], NoProfile));
    var k := HavingNick(h, nick);
    Opens(h, ip, true, [info] + ([pass] + ThreePasses(h.next)));
    RunCons(WithNew(h, Opened(ip, true, h.tick)), info, [pass] + ThreePasses(h.next));
    QuickInfoKept(h, ip, nick, text, check);
    RunCons(WithNew(k, QuickAsked(ip, nick, text, h.tick)), pass, ThreePasses(h.next));
    QuickPasswordTaken(k, ip, nick, text);
    Passes(k, Conn(AddMe, nick, ip, {HaveSupports, QuickList, Hashed}, Some(text), {Validated, WasRegistered, Passed}, h.tick, 0));
  }
}

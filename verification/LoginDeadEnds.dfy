/** Who can still get in: exactly which connections of LoginProtocol have a way into the user list left, how
    the others come about, and what an offer to register does to a client that is not in yet. */
module LoginDeadEnds {
  import opened Options
  import opened LoginProtocol
  import opened LoginScenarios

  // ---------- a way in ----------

  /** The events bring the connection into the user list. */
  ghost predicate Reaches(h: Hub, es: seq<Event>, id: Id) {
    id in Run(h, es).conns && Run(h, es).conns[id].state == Added
  }

  /** Registrations do not change meanwhile. */
  ghost predicate Calm(h: Hub, es: seq<Event>)
    decreases |es|
  {
    es == [] || (Step(h, es[0]).reg == h.reg && Calm(Step(h, es[0]), es[1..]))
  }

  ghost predicate HasWay(h: Hub, id: Id) {
    exists es :: Reaches(h, es, id)
  }

  ghost predicate HasCalmWay(h: Hub, id: Id) {
    exists es :: Calm(h, es) && Reaches(h, es, id)
  }

  lemma AfterStep(h: Hub, e: Event, id: Id)
    requires HasWay(Step(h, e), id)
    ensures HasWay(h, id)
  {
    var es :| Reaches(Step(h, e), es, id);
    RunCons(h, e, es);
    assert Reaches(h, [e] + es, id);
  }

  lemma AfterCalmStep(h: Hub, e: Event, id: Id)
    requires Step(h, e).reg == h.reg && HasCalmWay(Step(h, e), id)
    ensures HasCalmWay(h, id)
  {
    var es :| Calm(Step(h, e), es) && Reaches(Step(h, e), es, id);
    RunCons(h, e, es);
    assert ([e] + es)[0] == e && ([e] + es)[1..] == es;
    assert Calm(h, [e] + es) && Reaches(h, [e] + es, id);
  }

  // ---------- from each state to the next ----------

  lemma PassesIn(h: Hub, id: Id)
    requires Live(h, id) && Rank(AddMe) <= Rank(h.conns[id].state)
    ensures HasCalmWay(h, id)
    decreases Rank(Added) - Rank(h.conns[id].state)
  {
    if h.conns[id].state == Added {
      assert Calm(h, []) && Reaches(h, [], id);
    } else {
      PassesIn(Step(h, Advance(id)), id);
      AfterCalmStep(h, Advance(id), id);
    }
  }

  /** An admitted connection gets in, whether or not its probe is answered. */
  lemma AdmittedGetsIn(h: Hub, id: Id)
    requires Live(h, id) && Rank(Ipv4Check) <= Rank(h.conns[id].state)
    ensures HasCalmWay(h, id)
  {
    if h.conns[id].state == Ipv4Check {
      PassesIn(Step(h, ProbeTimeout(id)), id);
      AfterCalmStep(h, ProbeTimeout(id), id);
    } else {
      PassesIn(h, id);
    }
  }

  /** Nothing speaks against the nick. */
  const EASY := Check(false, false, true, false)

  /** A text that is not the stored one. */
  function NewText(c: Conn): string {
    if c.myInfo == Some("") then "." else ""
  }

  lemma InfoIsAdmitted(h: Hub, id: Id)
    requires Live(h, id) && WaitingForPass !in h.conns[id].bits
    ensures var g := MyInfoAndAdmit(h, id, NewText(h.conns[id]), true);
            g.reg == h.reg && Live(g, id) && Rank(Ipv4Check) <= Rank(g.conns[id].state)
  {
  }

  /** Past its nick, with no password to give. */
  ghost predicate Nicked(h: Hub, id: Id) {
    Live(h, id) && Rank(Validate) < Rank(h.conns[id].state) && WaitingForPass !in h.conns[id].bits
  }

  /** Without a password to give, $MyINFO is enough. */
  lemma NickedGetsIn(h: Hub, id: Id)
    requires Nicked(h, id)
    ensures HasCalmWay(h, id)
  {
    var c := h.conns[id];
    if Rank(c.state) <= Rank(GetNickListOrMyInfo) {
      var say := Say(id, MyInfo(Some(c.nick), NewText(c), Pass, EASY, true));
      InfoIsAdmitted(h, id);
      assert Step(h, say) == MyInfoAndAdmit(h, id, NewText(c), true);
      AdmittedGetsIn(Step(h, say), id);
      AfterCalmStep(h, say, id);
    } else {
      AdmittedGetsIn(h, id);
    }
  }

  lemma TakenNick(h: Hub, id: Id)
    requires Linked(h) && Live(h, id)
    ensures var g := TakeNick(h, id);
            g.reg == h.reg && Live(g, id) && g.conns[id].state == h.conns[id].state &&
            g.conns[id].bits == h.conns[id].bits + {Hashed}
  {
    TakeNickTakes(h, id);
  }

  lemma AdmitLeaves(h: Hub, id: Id)
    requires Nicked(h, id)
    ensures Admit(h, id).reg == h.reg && Nicked(Admit(h, id), id)
  {
  }

  lemma PasswordTakesNick(h: Hub, id: Id, d: Conn)
    requires Linked(h) && Nicked(h, id) && d == h.conns[id].(facts := h.conns[id].facts + {Passed})
    ensures var k := TakeNick(Put(h, id, d), id); k.reg == h.reg && Nicked(k, id)
  {
    PutLinks(h, id, d);
    TakenNick(Put(h, id, d), id);
  }

  lemma PasswordLeaves(h: Hub, id: Id)
    requires Linked(h) && Nicked(h, id)
    ensures RightPassword(h, id).reg == h.reg && Nicked(RightPassword(h, id), id)
  {
    var d := h.conns[id].(facts := h.conns[id].facts + {Passed});
    PasswordTakesNick(h, id, d);
    AdmitLeaves(TakeNick(Put(h, id, d), id), id);
  }

  lemma PasswordSettles(h: Hub, id: Id)
    requires Linked(h) && Live(h, id) && h.conns[id].state == VersionOrMyPass
    requires WaitingForPass in h.conns[id].bits && h.conns[id].nick in h.reg
    ensures var g := Process(h, id, MyPass(true, h.reg[h.conns[id].nick], NoProfile)); g.reg == h.reg && Nicked(g, id)
  {
    var c := h.conns[id];
    var d := c.(bits := c.bits - {WaitingForPass});
    PasswordIsRight(h, id, h.reg[c.nick], NoProfile);
    PutLinks(h, id, d);
    PasswordLeaves(Put(h, id, d), id);
  }

  /** With a password to give, it is the first thing to send, as long as it is taken. */
  lemma AskedGetsIn(h: Hub, id: Id)
    requires Linked(h) && Live(h, id) && h.conns[id].state == VersionOrMyPass && h.conns[id].nick in h.reg
    ensures HasCalmWay(h, id)
  {
    if WaitingForPass in h.conns[id].bits {
      var say := Say(id, MyPass(true, h.reg[h.conns[id].nick], NoProfile));
      PasswordSettles(h, id);
      NickedGetsIn(Step(h, say), id);
      AfterCalmStep(h, say, id);
    } else {
      NickedGetsIn(h, id);
    }
  }

  // ---------- a nick that nobody has ----------

  lemma Longer(used: set<string>) returns (n: nat)
    ensures forall s :: s in used ==> |s| < n
    decreases |used|
  {
    if used == {} {
      n := 0;
    } else {
      var s :| s in used;
      n := Longer(used - {s});
      n := if |s| < n then n else |s| + 1;
    }
  }

  function Filled(n: nat): (s: string)
    ensures |s| == n && !Illegal(s)
  {
    seq(n, _ => 'x')
  }

  lemma NewNick(used: set<string>) returns (nick: string)
    ensures nick !in used && nick != "" && !Illegal(nick)
  {
    var n := Longer(used);
    nick := Filled(n + 1);
  }

  lemma NewNickTaken(h: Hub, id: Id, nick: string, byCommand: bool)
    requires Live(h, id) && h.conns[id].state == Validate && WaitingForPass !in h.conns[id].bits
    requires nick !in h.table && nick !in h.reg && !Illegal(nick)
    ensures var (g, valid) := ValidateUserNick(h, id, nick, EASY, byCommand);
            valid && g.reg == h.reg && Live(g, id) && WaitingForPass !in g.conns[id].bits &&
            g.conns[id].state == if byCommand then VersionOrMyPass else Validate
  {
  }

  lemma UnnamedGetsIn(h: Hub, id: Id)
    requires Live(h, id) && h.conns[id].state == Validate && WaitingForPass !in h.conns[id].bits
    ensures HasCalmWay(h, id)
  {
    var nick := NewNick(h.table.Keys + h.reg.Keys);
    if QuickList in h.conns[id].bits {
      var g := ValidateUserNick(h, id, nick, EASY, false).0;
      NewNickTaken(h, id, nick, false);
      InfoIsAdmitted(g, id);
      var say := Say(id, MyInfo(Some(nick), NewText(g.conns[id]), Pass, EASY, true));
      assert Step(h, say) == MyInfoAndAdmit(g, id, NewText(g.conns[id]), true);
      AdmittedGetsIn(Step(h, say), id);
      AfterCalmStep(h, say, id);
    } else {
      var say := Say(id, ValidateNick(nick, EASY));
      NewNickTaken(h, id, nick, true);
      assert Step(h, say) == ValidateUserNick(h, id, nick, EASY, true).0;
      NickedGetsIn(Step(h, say), id);
      AfterCalmStep(h, say, id);
    }
  }

  lemma LockedGetsIn(h: Hub, id: Id)
    requires Live(h, id) && h.conns[id].state == KeyOrSup && h.conns[id].bits == {}
    ensures HasCalmWay(h, id)
  {
    var say := Say(id, Supports(true, {}));
    assert Step(h, say).conns[id].bits == {HaveSupports};
    UnnamedGetsIn(Step(h, say), id);
    AfterCalmStep(h, say, id);
  }

  lemma EarlyGetsIn(h: Hub, id: Id)
    requires Live(h, id) && Good(h.conns[id]) && Rank(h.conns[id].state) <= Rank(Validate)
    ensures HasCalmWay(h, id)
  {
    match h.conns[id].state {
      case Accepted =>
        LockedGetsIn(Step(h, SendLock(id)), id);
        AfterCalmStep(h, SendLock(id), id);
      case KeyOrSup => LockedGetsIn(h, id);
      case _ => UnnamedGetsIn(h, id);
    }
  }

  // ---------- who can get in ----------

  lemma CalmWayIsWay(h: Hub, id: Id)
    requires HasCalmWay(h, id)
    ensures HasWay(h, id)
  {
    var es :| Calm(h, es) && Reaches(h, es, id);
  }

  /** Somebody whose password is still taken gets in once its nick is registered. */
  lemma StillAskedGetsIn(h: Hub, id: Id)
    requires Linked(h) && Live(h, id) && h.conns[id].state == VersionOrMyPass
    ensures HasWay(h, id)
  {
    var nick := h.conns[id].nick;
    if nick in h.reg {
      AskedGetsIn(h, id);
      CalmWayIsWay(h, id);
    } else {
      var g := Step(h, SetReg(h.reg[nick := "p"]));
      AskedGetsIn(g, id);
      CalmWayIsWay(g, id);
      AfterStep(h, SetReg(h.reg[nick := "p"]), id);
    }
  }

  /** A live connection can still get in if and only if it is not asked for a password in the state that
      $Version leads to. */
  lemma CanGetInExactly(h: Hub, id: Id)
    requires Inv(h) && Live(h, id)
    ensures HasWay(h, id) <==> !TooEarly(h.conns[id])
  {
    var c := h.conns[id];
    assert Healthy(c, h.tick);
    if TooEarly(c) {
      forall es
        ensures !Reaches(h, es, id)
      {
        VersionBeforePassword(h, es, id);
      }
    } else if Rank(c.state) <= Rank(Validate) {
      EarlyGetsIn(h, id);
      CalmWayIsWay(h, id);
    } else if c.state == VersionOrMyPass {
      StillAskedGetsIn(h, id);
    } else {
      LateGetsIn(h, id);
    }
  }

  lemma LateGetsIn(h: Hub, id: Id)
    requires Live(h, id) && Rank(VersionOrMyPass) < Rank(h.conns[id].state) && !TooEarly(h.conns[id])
    ensures HasWay(h, id)
  {
    if h.conns[id].state == GetNickListOrMyInfo {
      NickedGetsIn(h, id);
    } else {
      AdmittedGetsIn(h, id);
    }
    CalmWayIsWay(h, id);
  }

  /** In particular in every hub that can arise. */
  lemma ReachableCanGetInExactly(es: seq<Event>, id: Id)
    requires Live(Run(EMPTY, es), id)
    ensures HasWay(Run(EMPTY, es), id) <==> !TooEarly(Run(EMPTY, es).conns[id])
  {
    EmptyKeeps();
    RunKeeps(EMPTY, es);
    CanGetInExactly(Run(EMPTY, es), id);
  }

  // ---------- while the nick stays unregistered ----------

  ghost predicate Unregistered(h: Hub, es: seq<Event>, nick: string)
    decreases |es|
  {
    nick !in h.reg && (es == [] || Unregistered(Step(h, es[0]), es[1..], nick))
  }

  /** Asked for a password that nothing can be right for. */
  ghost predicate Trapped(c: Conn) {
    IsPastLogin(c.state) || (c.state in {VersionOrMyPass, GetNickListOrMyInfo} && WaitingForPass in c.bits)
  }

  lemma TrappedCommand(h: Hub, id: Id, cmd: Command)
    requires Live(h, id) && Trapped(h.conns[id]) && h.conns[id].nick !in h.reg
    ensures Trapped(Process(h, id, cmd).conns[id])
  {
    if cmd.MyInfo? {
      TrappedInfo(h, id, cmd);
    }
  }

  lemma TrappedInfo(h: Hub, id: Id, cmd: Command)
    requires Live(h, id) && Trapped(h.conns[id]) && cmd.MyInfo?
    ensures Trapped(DoMyInfo(h, id, cmd.nickOf, cmd.text, cmd.gate, cmd.accepted).conns[id])
  {
  }

  lemma TrappedTimer(h: Hub, e: Event, id: Id)
    requires id in h.conns && id in Step(h, e).conns && Trapped(h.conns[id]) && !e.Command? && id < h.next
    ensures Trapped(Step(h, e).conns[id])
  {
  }

  lemma TrappedStays(h: Hub, e: Event, id: Id)
    requires Inv(h) && id in h.conns && id in Step(h, e).conns && Trapped(h.conns[id])
    requires !IsPastLogin(h.conns[id].state) ==> h.conns[id].nick !in h.reg
    ensures Trapped(Step(h, e).conns[id])
  {
    if e.Command? {
      if Live(h, e.id) && e.id == id {
        TrappedCommand(h, id, e.cmd);
      } else if Live(h, e.id) {
        OthersStay(h, e.id, e.cmd, id);
      }
    } else {
      TrappedTimer(h, e, id);
    }
  }

  lemma {:induction false} TrappedNeverGetsIn(h: Hub, es: seq<Event>, id: Id, nick: string)
    requires Inv(h) && id in h.conns && Trapped(h.conns[id]) && Unregistered(h, es, nick)
    requires IsPastLogin(h.conns[id].state) || h.conns[id].nick == nick
    ensures !Reaches(h, es, id)
    decreases |es|
  {
    if es != [] && id in Run(h, es).conns {
      var g := Step(h, es[0]);
      assert Run(h, es) == Run(g, es[1..]);
      FirstMoves(h, es, id, g);
      TrappedStays(h, es[0], id);
      TrappedNeverGetsIn(g, es[1..], id, nick);
    }
  }

  lemma {:induction false} CalmStaysUnregistered(h: Hub, es: seq<Event>, nick: string)
    requires Calm(h, es) && nick !in h.reg
    ensures Unregistered(h, es, nick)
    decreases |es|
  {
    if es != [] {
      CalmStaysUnregistered(Step(h, es[0]), es[1..], nick);
    }
  }

  /** A connection with a validated, unregistered nick can get in while the nick stays unregistered if and
      only if it is not asked for a password during its login: an offer to register it shuts it out. */
  lemma UnregisteredGetsInExactly(h: Hub, id: Id)
    requires Inv(h) && Live(h, id) && Rank(Validate) < Rank(h.conns[id].state) && h.conns[id].nick !in h.reg
    ensures (exists es :: Unregistered(h, es, h.conns[id].nick) && Reaches(h, es, id)) <==> !Trapped(h.conns[id])
  {
    var c := h.conns[id];
    if Trapped(c) {
      forall es | Unregistered(h, es, c.nick)
        ensures !Reaches(h, es, id)
      {
        TrappedNeverGetsIn(h, es, id, c.nick);
      }
    } else {
      UntrappedGetsIn(h, id);
      var es :| Calm(h, es) && Reaches(h, es, id);
      CalmStaysUnregistered(h, es, c.nick);
    }
  }

  lemma UntrappedGetsIn(h: Hub, id: Id)
    requires Live(h, id) && Rank(Validate) < Rank(h.conns[id].state) && !Trapped(h.conns[id])
    ensures HasCalmWay(h, id)
  {
    if Rank(h.conns[id].state) <= Rank(GetNickListOrMyInfo) {
      NickedGetsIn(h, id);
    } else {
      AdmittedGetsIn(h, id);
    }
  }

  // ---------- how they come about ----------

  /** A client with a registered nick that sends $Version first. */
  lemma VersionFirst(h: Hub, ip: string, nick: string, check: Check)
    requires Free(h, nick, check) && nick in h.reg
    ensures Run(h, Opening(h.next, ip, false, [Say(h.next, ValidateNick(nick, check))] + ([Say(h.next, Version(true))] + [])))
         == WithNew(HavingNick(h, nick),
                    Conn(GetNickListOrMyInfo, nick, ip, {HaveSupports, WaitingForPass, Hashed}, None,
                         {Validated, WasRegistered}, h.tick, 0))
  {
    var c, g := WithNick(h, ip, nick, false), HavingNick(h, nick);
    var version := Say(h.next, Version(true));
    OpensWithNick(h, ip, nick, check, [version] + []);
    RunCons(WithNew(g, c), version, []);
    VersionTaken(g, c);
    assert Run(WithNew(g, c.(state := GetNickListOrMyInfo)), []) == WithNew(g, c.(state := GetNickListOrMyInfo));
  }

  lemma OfferTaken(h: Hub, c: Conn)
    requires c.nick !in h.reg && c.nick in h.table && h.table[c.nick] == h.next
    ensures Step(WithNew(h, c), OfferReg(c.nick))
         == WithNew(h, c.(bits := c.bits + {WaitingForPass}, facts := c.facts + {Offered}))
  {
    PutNew(h, c, c.(bits := c.bits + {WaitingForPass}, facts := c.facts + {Offered}));
  }

  /** A client with an unregistered nick to whom registration is offered before it is in. */
  lemma OfferedEarly(h: Hub, ip: string, nick: string, check: Check)
    requires Free(h, nick, check) && nick !in h.reg
    ensures Run(h, Opening(h.next, ip, false, [Say(h.next, ValidateNick(nick, check))] + ([OfferReg(nick)] + [])))
         == WithNew(HavingNick(h, nick),
                    Conn(VersionOrMyPass, nick, ip, {HaveSupports, Hashed, WaitingForPass}, None, {Validated, Offered}, h.tick, 0))
  {
    var c, g := WithNick(h, ip, nick, false), HavingNick(h, nick);
    OpensWithNick(h, ip, nick, check, [OfferReg(nick)] + []);
    RunCons(WithNew(g, c), OfferReg(nick), []);
    OfferTaken(g, c);
    assert {HaveSupports, Hashed} + {WaitingForPass} == {HaveSupports, Hashed, WaitingForPass};
    var d := Conn(VersionOrMyPass, nick, ip, {HaveSupports, Hashed, WaitingForPass}, None, {Validated, Offered}, h.tick, 0);
    assert {Validated} + {Offered} == {Validated, Offered};
    assert Run(WithNew(g, d), []) == WithNew(g, d);
  }

  /** Both happen in hubs that can arise: a live connection that can never get in, and one that cannot while
      its nick stays unregistered. */
  lemma DeadEndsAreReachable(ip: string) returns (late: seq<Event>, offered: seq<Event>, id: Id)
    ensures var h := Run(EMPTY, late); Live(h, id) && TooEarly(h.conns[id]) && !HasWay(h, id)
    ensures var h := Run(EMPTY, offered);
            Live(h, id) && h.conns[id].state == VersionOrMyPass && Trapped(h.conns[id]) && h.conns[id].nick !in h.reg
  {
    var nick := "n";
    var reg := SetReg(map[nick := "p"]);
    var g := Step(EMPTY, reg);
    var rest := Opening(0, ip, false, [Say(0, ValidateNick(nick, EASY))] + ([Say(0, Version(true))] + []));
    id := 0;
    VersionFirst(g, ip, nick, EASY);
    RunCons(EMPTY, reg, rest);
    late := [reg] + rest;
    ReachableCanGetInExactly(late, id);
    OfferedEarly(EMPTY, ip, nick, EASY);
    offered := Opening(0, ip, false, [Say(0, ValidateNick(nick, EASY))] + ([OfferReg(nick)] + []));
  }
}

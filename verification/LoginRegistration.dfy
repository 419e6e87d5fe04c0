/** How a user comes to be registered: what an accepted offer stores, that nothing else changes a password,
    and what the password is good for afterwards (PreProcessData, core/DcCommands.cpp, and RegNewUser,
    core/HubCommands-RZ.cpp). */
module LoginRegistration {
  import opened Options
  import opened LoginProtocol
  import opened LoginScenarios
  import opened LoginRefusals

  // ---------- what changes a registration ----------

  /** A user in the user list answers an offer of a known profile with a password, and its nick is not
      registered by then. */
  ghost predicate Registers(h: Hub, e: Event) {
    e.Command? && Live(h, e.id) && h.conns[e.id].state == Added && WaitingForPass in h.conns[e.id].bits &&
    e.cmd.MyPass? && e.cmd.good && e.cmd.offer == KnownProfile && h.conns[e.id].nick !in h.reg
  }

  lemma ValidationLeavesReg(h: Hub, id: Id, nick: string, check: Check, byCommand: bool)
    requires id in h.conns
    ensures ValidateUserNick(h, id, nick, check, byCommand).0.reg == h.reg
  {
  }

  lemma NickLeavesReg(h: Hub, id: Id, nick: string, check: Check)
    requires Live(h, id)
    ensures Process(h, id, ValidateNick(nick, check)).reg == h.reg
  {
    ValidationLeavesReg(h, id, nick, check, true);
  }

  lemma AdmissionLeavesReg(h: Hub, id: Id, text: string, accepted: bool)
    requires id in h.conns
    ensures MyInfoAndAdmit(h, id, text, accepted).reg == h.reg && StoreMyInfo(h, id, text, accepted).0.reg == h.reg
  {
  }

  lemma QuickLeavesReg(h: Hub, id: Id, cmd: Command)
    requires id in h.conns && cmd.MyInfo?
    ensures DoQuickMyInfo(h, id, cmd.nickOf, cmd.text, cmd.gate, cmd.checkOf, cmd.accepted).reg == h.reg
  {
    if cmd.nickOf.Some? {
      ValidationLeavesReg(h, id, cmd.nickOf.value, cmd.checkOf, false);
      AdmissionLeavesReg(ValidateUserNick(h, id, cmd.nickOf.value, cmd.checkOf, false).0, id, cmd.text, cmd.accepted);
    }
  }

  lemma InfoLeavesReg(h: Hub, id: Id, cmd: Command)
    requires Live(h, id) && cmd.MyInfo?
    ensures Process(h, id, cmd).reg == h.reg
  {
    QuickLeavesReg(h, id, cmd);
    AdmissionLeavesReg(h, id, cmd.text, cmd.accepted);
  }

  lemma TakingLeavesReg(h: Hub, id: Id, good: bool, password: string)
    requires id in h.conns
    ensures DoMyPass(h, id, good, password).reg == h.reg
  {
  }

  lemma ProbeLeavesReg(h: Hub, id: Id, target: string, good: bool)
    requires id in h.conns
    ensures DoMyNick(h, id, target, good).reg == h.reg
  {
  }

  lemma PlainLeavesReg(h: Hub, id: Id, cmd: Command)
    requires Live(h, id) && !cmd.ValidateNick? && !cmd.MyInfo? && !(cmd.MyPass? && h.conns[id].state == Added)
    ensures Process(h, id, cmd).reg == h.reg
  {
    if cmd.MyPass? {
      TakingLeavesReg(h, id, cmd.good, cmd.password);
    } else if cmd.MyNick? {
      ProbeLeavesReg(h, id, cmd.target, cmd.good);
    }
  }

  lemma OthersLeaveReg(h: Hub, id: Id, cmd: Command)
    requires Live(h, id) && !(cmd.MyPass? && h.conns[id].state == Added)
    ensures Process(h, id, cmd).reg == h.reg
  {
    match cmd {
      case ValidateNick(nick, check) => NickLeavesReg(h, id, nick, check);
      case MyInfo(_, _, _, _, _) => InfoLeavesReg(h, id, cmd);
      case _ => PlainLeavesReg(h, id, cmd);
    }
  }

  /** The sent password is stored for the user's own nick, and in no other way does an event change what
      passwords there are, except that registrations are set from outside. */
  lemma RegistersExactly(h: Hub, e: Event)
    ensures Step(h, e).reg ==
            if e.SetReg? then e.reg
            else if Registers(h, e) then h.reg[h.conns[e.id].nick := e.cmd.password]
            else h.reg
  {
    if e.Command? && Live(h, e.id) {
      if !(e.cmd.MyPass? && h.conns[e.id].state == Added) {
        OthersLeaveReg(h, e.id, e.cmd);
      }
    }
  }

  predicate NoneSet(es: seq<Event>) {
    forall i :: 0 <= i < |es| ==> !es[i].SetReg?
  }

  /** Over every run: a password that is stored stays, whatever users send and operators offer. */
  lemma {:induction false} PasswordStays(h: Hub, es: seq<Event>, nick: string)
    requires NoneSet(es) && nick in h.reg
    ensures nick in Run(h, es).reg && Run(h, es).reg[nick] == h.reg[nick]
    decreases |es|
  {
    if es != [] {
      RegistersExactly(h, es[0]);
      PasswordStays(Step(h, es[0]), es[1..], nick);
    }
  }

  // ---------- an offer is accepted ----------

  /** The hub after an offer to a user and its answer. */
  function Answered(h: Hub, id: Id, password: string): Hub
    requires id in h.conns
  {
    Step(Step(h, OfferReg(h.conns[id].nick)), Say(id, MyPass(true, password, KnownProfile)))
  }

  /** The user is in the list under a nick that is not registered. */
  ghost predicate Offerable(h: Hub, id: Id) {
    Inv(h) && Live(h, id) && h.conns[id].state == Added && h.conns[id].nick !in h.reg
  }

  lemma ListedHolds(h: Hub, id: Id)
    requires Offerable(h, id)
    ensures h.conns[id].nick in h.table && h.table[h.conns[id].nick] == id
  {
    assert Healthy(h.conns[id], h.tick);
  }

  /** A user who has been offered registration. */
  function Offered(c: Conn): Conn {
    c.(bits := c.bits + {WaitingForPass}, facts := c.facts + {LoginProtocol.Offered})
  }

  lemma OfferIs(h: Hub, id: Id)
    requires Offerable(h, id)
    ensures Step(h, OfferReg(h.conns[id].nick)) == Put(h, id, Offered(h.conns[id]))
  {
    ListedHolds(h, id);
  }

  lemma AnswerIs(h: Hub, id: Id, good: bool, password: string, offer: Offer)
    requires Live(h, id) && h.conns[id].state == Added && WaitingForPass in h.conns[id].bits && h.conns[id].nick !in h.reg
    ensures var c := h.conns[id];
            var g := Put(h, id, c.(bits := c.bits - {WaitingForPass}));
            Process(h, id, MyPass(good, password, offer)) ==
            if offer != KnownProfile then g else if good then g.(reg := h.reg[c.nick := password]) else h
  {
  }

  lemma AnsweredIs(h: Hub, id: Id, password: string)
    requires Offerable(h, id)
    ensures var c := Offered(h.conns[id]);
            Answered(h, id, password) ==
            Put(Put(h, id, c), id, c.(bits := c.bits - {WaitingForPass})).(reg := h.reg[c.nick := password])
  {
    OfferIs(h, id);
    AnswerIs(Put(h, id, Offered(h.conns[id])), id, true, password, KnownProfile);
  }

  /** The user is registered with the password it sent, and stays in the list; nobody else's password, and
      no other connection, changes. */
  lemma OfferRegisters(h: Hub, id: Id, password: string)
    requires Offerable(h, id)
    ensures var g := Answered(h, id, password);
            && g.reg == h.reg[h.conns[id].nick := password]
            && Live(g, id) && g.conns[id].state == Added && WaitingForPass !in g.conns[id].bits
            && forall i :: i in h.conns && i != id ==> i in g.conns && g.conns[i] == h.conns[i]
  {
    AnsweredIs(h, id, password);
  }

  /** Without a profile that exists, or with a password of a bad length, nobody is registered. */
  lemma OfferFails(h: Hub, id: Id, good: bool, password: string, offer: Offer)
    requires Offerable(h, id) && !(good && offer == KnownProfile)
    ensures var k := Step(h, OfferReg(h.conns[id].nick));
            Live(k, id) &&
            var g := Process(k, id, MyPass(good, password, offer));
            g.reg == h.reg && Live(g, id) && g.conns[id].state == Added &&
            (WaitingForPass in g.conns[id].bits <==> offer == KnownProfile)
  {
    OfferIs(h, id);
    AnswerIs(Put(h, id, Offered(h.conns[id])), id, good, password, offer);
  }

  // ---------- the next login ----------

  lemma PassSaidCloses(h: Hub, ip: string, nick: string, good: bool, other: string)
    requires nick in h.reg && !(good && other == h.reg[nick])
    ensures var g := Step(WithNew(h, WithNick(h, ip, nick, false)), Say(h.next, MyPass(good, other, NoProfile)));
            h.next in g.conns && g.conns[h.next].state == Closing
  {
  }

  /** What a client with a registered nick says up to its password. */
  function Asking(id: Id, ip: string, nick: string, check: Check, rest: seq<Event>): seq<Event> {
    Opening(id, ip, false, [Say(id, ValidateNick(nick, check))] + rest)
  }

  lemma WrongPasswordCloses(h: Hub, ip: string, nick: string, check: Check, good: bool, other: string)
    requires Free(h, nick, check) && nick in h.reg && !(good && other == h.reg[nick])
    ensures var g := Run(h, Asking(h.next, ip, nick, check, [Say(h.next, MyPass(good, other, NoProfile))] + []));
            h.next in g.conns && g.conns[h.next].state == Closing
  {
    var k, pass := HavingNick(h, nick), Say(h.next, MyPass(good, other, NoProfile));
    var now := WithNew(k, WithNick(h, ip, nick, false));
    OpensWithNick(h, ip, nick, check, [pass] + []);
    RunCons(now, pass, []);
    assert WithNick(k, ip, nick, false) == WithNick(h, ip, nick, false);
    PassSaidCloses(k, ip, nick, good, other);
    assert Run(Step(now, pass), []) == Step(now, pass);
  }

  /** After an accepted offer, however long afterwards and whatever happens in between, as long as nobody sets
      registrations: when the nick is free, a client that gives the password is let in under it, and one
      that gives any other text is closed. */
  lemma RegisteredLogin(h: Hub, id: Id, password: string, es: seq<Event>, ip: string, text: string, check: Check,
                        good: bool, other: string)
    requires Offerable(h, id) && NoneSet(es)
    requires Free(Run(Answered(h, id, password), es), h.conns[id].nick, check)
    ensures var k, nick := Run(Answered(h, id, password), es), h.conns[id].nick;
            var rest := [Say(k.next, MyPass(true, password, NoProfile))] + Entering(k.next, nick, text, check);
            Run(k, Asking(k.next, ip, nick, check, rest)) ==
            WithNew(HavingNick(k, nick),
                    Conn(Added, nick, ip, {HaveSupports, Hashed}, Some(text), {Validated, WasRegistered, Passed}, k.tick, 0))
    ensures !good || other != password ==>
              var k, nick := Run(Answered(h, id, password), es), h.conns[id].nick;
              var g := Run(k, Asking(k.next, ip, nick, check, [Say(k.next, MyPass(good, other, NoProfile))] + []));
              k.next in g.conns && g.conns[k.next].state == Closing
  {
    var g, nick := Answered(h, id, password), h.conns[id].nick;
    OfferRegisters(h, id, password);
    PasswordStays(g, es, nick);
    var k := Run(g, es);
    assert k.reg[nick] == password;
    PasswordLogin(k, ip, nick, text, check);
    if !good || other != password {
      WrongPasswordCloses(k, ip, nick, check, good, other);
    }
  }
}

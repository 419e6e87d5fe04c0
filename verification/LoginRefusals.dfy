/** What each state of the login admits: exactly which commands close their sender, what becomes of a nick
    that somebody else holds, and which nicks there can be (core/DcCommands.cpp). */
module LoginRefusals {
  import opened Options
  import opened LoginProtocol

  // ---------- a nick that is asked for ----------

  /** Somebody else is logged in, or logging in, with the nick. */
  ghost predicate Held(h: Hub, nick: string) {
    nick in h.table && Live(h, h.table[nick])
  }

  /** The holder is taken for an earlier connection of the same user. */
  ghost predicate IsClone(h: Hub, id: Id, nick: string, check: Check)
    requires id in h.conns
  {
    Held(h, nick) && check.removeClones && h.conns[h.table[nick]].ip == h.conns[id].ip
  }

  /** A nick with a forbidden character, a nick the environment refuses, an unregistered nick that somebody
      else holds, or one that this hub does not take. */
  ghost predicate NickRefused(h: Hub, id: Id, nick: string, check: Check)
    requires id in h.conns
  {
    (exists i :: 0 <= i < |nick| && (nick[i] == ' ' || nick[i] == '$' || nick[i] == '|' || nick[i] < ' ')) ||
    check.refused ||
    (nick !in h.reg &&
      if Held(h, nick) then !check.holderGone && !(IsClone(h, id, nick, check) && check.publicOk) else !check.publicOk)
  }

  lemma ValidationCloses(h: Hub, id: Id, nick: string, check: Check, byCommand: bool)
    requires Start(h, id) && h.conns[id].state == Validate
    ensures var (g, valid) := ValidateUserNick(h, id, nick, check, byCommand);
            && (IsPastLogin(g.conns[id].state) <==> NickRefused(h, id, nick, check))
            && (valid <==> !NickRefused(h, id, nick, check) && !(Held(h, nick) && check.holderGone))
            && (valid ==> g.conns[id].myInfo == None)
  {
    if !Illegal(nick) {
      var c := h.conns[id].(nick := nick);
      PutUnhashed(h, id, c);
      NamedCloses(Put(h, id, c), id, check, byCommand);
      assert Held(Put(h, id, c), nick) <==> Held(h, nick);
    }
  }

  lemma FinallyCloses(h: Hub, id: Id, check: Check, byCommand: bool)
    requires Live(h, id) && h.conns[id].state == Validate
    ensures var (g, valid) := ValidateFinally(h, id, check, byCommand);
            && (IsPastLogin(g.conns[id].state) <==> h.conns[id].nick !in h.reg && !check.publicOk)
            && (valid <==> !IsPastLogin(g.conns[id].state)) && g.conns[id].myInfo == h.conns[id].myInfo
  {
  }

  lemma HeldCloses(h: Hub, id: Id, holder: Id, check: Check, byCommand: bool)
    requires Live(h, id) && h.conns[id].state == Validate && Live(h, holder) && holder != id
    ensures var (g, valid) := ValidateHeld(h, id, holder, check, byCommand);
            var clone := check.removeClones && h.conns[holder].ip == h.conns[id].ip;
            && (IsPastLogin(g.conns[id].state) <==>
                 !check.holderGone && h.conns[id].nick !in h.reg && !(clone && check.publicOk))
            && (valid <==> !IsPastLogin(g.conns[id].state) && !check.holderGone)
            && g.conns[id].myInfo == h.conns[id].myInfo
  {
    FinallyCloses(Close(h, holder), id, check, byCommand);
  }

  lemma NamedCloses(h: Hub, id: Id, check: Check, byCommand: bool)
    requires Start(h, id) && h.conns[id].state == Validate && !Illegal(h.conns[id].nick)
    ensures var nick := h.conns[id].nick;
            var (g, valid) := ValidateNamed(h, id, check, byCommand);
            && (IsPastLogin(g.conns[id].state) <==> NickRefused(h, id, nick, check))
            && (valid <==> !NickRefused(h, id, nick, check) && !(Held(h, nick) && check.holderGone))
            && (valid ==> g.conns[id].myInfo == None)
  {
    var nick := h.conns[id].nick;
    assert forall i :: 0 <= i < |nick| ==> !IllegalChar(nick[i]);
    FinallyCloses(h, id, check, byCommand);
    if nick in h.table {
      HeldCloses(h, id, h.table[nick], check, byCommand);
    }
  }

  /** A dead socket gives the nick up: its connection is closed, and asking again gets the nick. */
  lemma DeadHolderYields(h: Hub, id: Id, nick: string, check: Check, again: Check)
    requires Inv(h) && Live(h, id) && h.conns[id].state == Validate && QuickList !in h.conns[id].bits
    requires nick != "" && !Illegal(nick) && Held(h, nick) && !check.refused && check.holderGone
    requires !again.refused && (again.publicOk || nick in h.reg)
    ensures var holder, g := h.table[nick], Process(h, id, ValidateNick(nick, check));
            var k := Process(g, id, ValidateNick(nick, again));
            && IsPastLogin(g.conns[holder].state) && nick !in g.table
            && Live(g, id) && g.conns[id].state == Validate
            && nick in k.table && k.table[nick] == id && k.conns[id].state == VersionOrMyPass
  {
    var c := h.conns[id].(nick := nick);
    var g := Process(h, id, ValidateNick(nick, check));
    PutUnhashed(h, id, c);
    assert g == Close(Put(h, id, c), h.table[nick]);
    CloseOther(Put(h, id, c), id, h.table[nick]);
    FreeTaken(g, id, nick, again);
  }

  lemma FreeTaken(h: Hub, id: Id, nick: string, check: Check)
    requires Live(h, id) && h.conns[id].state == Validate && QuickList !in h.conns[id].bits
    requires nick != "" && !Illegal(nick) && nick !in h.table && !check.refused && (check.publicOk || nick in h.reg)
    ensures var k := Process(h, id, ValidateNick(nick, check));
            nick in k.table && k.table[nick] == id && k.conns[id].state == VersionOrMyPass
  {
  }

  lemma FinallyTakes(h: Hub, id: Id, check: Check)
    requires id in h.conns && h.conns[id].nick !in h.reg && check.publicOk && WaitingForPass !in h.conns[id].bits
    ensures var g, nick := ValidateFinally(h, id, check, true).0, h.conns[id].nick;
            && nick in g.table && g.table[nick] == id && id in g.conns && g.conns[id].state == VersionOrMyPass
            && WaitingForPass !in g.conns[id].bits
            && forall i :: i in h.conns && i != id ==> i in g.conns && g.conns[i] == h.conns[i]
  {
  }

  lemma CloneIs(h: Hub, id: Id, nick: string, check: Check)
    requires Live(h, id) && h.conns[id].state == Validate && QuickList !in h.conns[id].bits
    requires nick != "" && !Illegal(nick) && IsClone(h, id, nick, check) && nick !in h.reg
    requires !check.refused && !check.holderGone && h.table[nick] != id
    ensures var named := Put(h, id, h.conns[id].(nick := nick));
            Process(h, id, ValidateNick(nick, check)) == ValidateFinally(Close(named, h.table[nick]), id, check, true).0
  {
  }

  /** So does a clone of a client with an unregistered nick, at once. */
  lemma CloneYields(h: Hub, id: Id, nick: string, check: Check)
    requires Inv(h) && Live(h, id) && h.conns[id].state == Validate && QuickList !in h.conns[id].bits
    requires nick != "" && !Illegal(nick) && IsClone(h, id, nick, check) && nick !in h.reg
    requires !check.refused && !check.holderGone && check.publicOk
    ensures var holder, g := h.table[nick], Process(h, id, ValidateNick(nick, check));
            && holder in g.conns && IsPastLogin(g.conns[holder].state)
            && nick in g.table && g.table[nick] == id && id in g.conns && g.conns[id].state == VersionOrMyPass
            && WaitingForPass !in g.conns[id].bits
  {
    var named, holder := Put(h, id, h.conns[id].(nick := nick)), h.table[nick];
    assert Healthy(h.conns[id], h.tick);
    PutUnhashed(h, id, h.conns[id].(nick := nick));
    CloseOther(named, id, holder);
    CloneIs(h, id, nick, check);
    FinallyTakes(Close(named, holder), id, check);
  }

  /** The holder of a registered nick stays until the password comes. */
  lemma GhostStays(h: Hub, id: Id, nick: string, check: Check)
    requires Inv(h) && Live(h, id) && h.conns[id].state == Validate && QuickList !in h.conns[id].bits
    requires nick != "" && !Illegal(nick) && Held(h, nick) && nick in h.reg && !check.refused && !check.holderGone
    ensures var holder, g := h.table[nick], Process(h, id, ValidateNick(nick, check));
            && g.table == h.table && g.conns[holder] == h.conns[holder]
            && g.conns[id].state == VersionOrMyPass && WaitingForPass in g.conns[id].bits && g.conns[id].nick == nick
  {
  }

  // ---------- commands ----------

  ghost predicate KeyRefused(c: Conn, good: bool) {
    !(c.state == KeyOrSup && good) &&
    !(c.state == Validate && (HaveSupports in c.bits || (HaveKey !in c.bits && good)))
  }

  ghost predicate PassRefused(h: Hub, c: Conn, good: bool, password: string) {
    !(c.state == VersionOrMyPass && WaitingForPass in c.bits && c.nick in h.reg && good && password == h.reg[c.nick]) &&
    !(c.state == Added && WaitingForPass in c.bits)
  }

  /** A $MyINFO before its time; one that floods; one with another nick or, from a QuickList client, with one
      that is refused; one with a new text that is not accepted. */
  ghost predicate InfoRefused(h: Hub, id: Id, cmd: Command)
    requires id in h.conns && cmd.MyInfo?
  {
    var c := h.conns[id];
    Rank(c.state) <= Rank(KeyOrSup) || (c.state == Validate && QuickList !in c.bits) || cmd.gate == ClosedByFlood ||
    (cmd.gate == Pass &&
      if c.state == Validate then
        cmd.nickOf == None || NickRefused(h, id, cmd.nickOf.value, cmd.checkOf) ||
        (!cmd.accepted && !(Held(h, cmd.nickOf.value) && cmd.checkOf.holderGone))
      else cmd.nickOf != Some(c.nick) || (!cmd.accepted && c.myInfo != Some(cmd.text)))
  }

  ghost predicate Refused(h: Hub, id: Id, cmd: Command)
    requires id in h.conns
  {
    var c := h.conns[id];
    match cmd
    case Key(good) => KeyRefused(c, good)
    case Supports(good, _) => !(c.state == KeyOrSup && good)
    case ValidateNick(nick, check) =>
      c.state != Validate || QuickList in c.bits || nick == "" || NickRefused(h, id, nick, check)
    case Version(good) => !(c.state == VersionOrMyPass && good)
    case MyPass(good, password, _) => PassRefused(h, c, good, password)
    case MyInfo(_, _, _, _, _) => InfoRefused(h, id, cmd)
    case GetNickList(closes) =>
      closes || Rank(c.state) <= Rank(KeyOrSup) || (c.state == Validate && QuickList !in c.bits)
    case MyNick(_, _) => true
    case Other(closes) => closes
  }

  ghost predicate Closed(g: Hub, id: Id) {
    id in g.conns && IsPastLogin(g.conns[id].state)
  }

  lemma KeyCloses(h: Hub, id: Id, good: bool)
    requires Start(h, id)
    ensures Closed(Process(h, id, Key(good)), id) <==> KeyRefused(h.conns[id], good)
  {
  }

  lemma PassCloses(h: Hub, id: Id, good: bool, password: string, offer: Offer)
    requires Start(h, id)
    ensures Closed(Process(h, id, MyPass(good, password, offer)), id) <==> PassRefused(h, h.conns[id], good, password)
  {
    var c := h.conns[id];
    if c.state == VersionOrMyPass && c.nick in h.reg && WaitingForPass in c.bits && good && password == h.reg[c.nick] {
      var d := c.(bits := c.bits - {WaitingForPass});
      PutLinks(h, id, d);
      RightPasswordKeeps(Put(h, id, d), id);
    }
  }

  lemma AdmissionCloses(h: Hub, id: Id, text: string, accepted: bool)
    requires Live(h, id)
    ensures Closed(MyInfoAndAdmit(h, id, text, accepted), id) <==> !accepted && h.conns[id].myInfo != Some(text)
    ensures Closed(StoreMyInfo(h, id, text, accepted).0, id) <==> !accepted && h.conns[id].myInfo != Some(text)
  {
  }

  lemma QuickCloses(h: Hub, id: Id, cmd: Command)
    requires Start(h, id) && h.conns[id].state == Validate && cmd.MyInfo?
    ensures Closed(Process(h, id, cmd), id) <==> InfoRefused(h, id, cmd)
  {
    if QuickList in h.conns[id].bits && cmd.gate == Pass && cmd.nickOf.Some? {
      ValidationCloses(h, id, cmd.nickOf.value, cmd.checkOf, false);
      var g := ValidateUserNick(h, id, cmd.nickOf.value, cmd.checkOf, false).0;
      if !IsPastLogin(g.conns[id].state) {
        AdmissionCloses(g, id, cmd.text, cmd.accepted);
      }
    }
  }

  lemma InfoDispatched(h: Hub, id: Id, cmd: Command)
    requires Live(h, id) && cmd.MyInfo? && h.conns[id].state != Validate
    ensures Process(h, id, cmd) ==
            if Rank(h.conns[id].state) <= Rank(KeyOrSup) then Close(h, id)
            else DoMyInfo(h, id, cmd.nickOf, cmd.text, cmd.gate, cmd.accepted)
  {
  }

  lemma LaterInfoCloses(h: Hub, id: Id, cmd: Command)
    requires Live(h, id) && cmd.MyInfo? && Rank(h.conns[id].state) > Rank(Validate)
    ensures Closed(DoMyInfo(h, id, cmd.nickOf, cmd.text, cmd.gate, cmd.accepted), id) <==> InfoRefused(h, id, cmd)
  {
    AdmissionCloses(h, id, cmd.text, cmd.accepted);
  }

  lemma InfoCloses(h: Hub, id: Id, cmd: Command)
    requires Live(h, id) && cmd.MyInfo? && h.conns[id].state != Validate
    ensures Closed(Process(h, id, cmd), id) <==> InfoRefused(h, id, cmd)
  {
    InfoDispatched(h, id, cmd);
    if Rank(h.conns[id].state) > Rank(KeyOrSup) {
      LaterInfoCloses(h, id, cmd);
    }
  }

  lemma NickCloses(h: Hub, id: Id, nick: string, check: Check)
    requires Start(h, id)
    ensures Closed(Process(h, id, ValidateNick(nick, check)), id) <==> Refused(h, id, ValidateNick(nick, check))
  {
    if h.conns[id].state == Validate && QuickList !in h.conns[id].bits && nick != "" {
      ValidationCloses(h, id, nick, check, true);
    }
  }

  lemma SupportsCloses(h: Hub, id: Id, good: bool, named: set<Bit>)
    requires Start(h, id)
    ensures Closed(Process(h, id, Supports(good, named)), id) <==> Refused(h, id, Supports(good, named))
  {
  }

  lemma MyNickCloses(h: Hub, id: Id, target: string, good: bool)
    requires Start(h, id)
    ensures Closed(Process(h, id, MyNick(target, good)), id)
  {
  }

  lemma PlainCloses(h: Hub, id: Id, cmd: Command)
    requires Start(h, id) && (cmd.Version? || cmd.GetNickList? || cmd.Other?)
    ensures Closed(Process(h, id, cmd), id) <==> Refused(h, id, cmd)
  {
  }

  /** A command closes its sender if and only if its state, or what it says, does not admit it. */
  lemma ClosesExactly(h: Hub, id: Id, cmd: Command)
    requires Inv(h) && Live(h, id)
    ensures Closed(Process(h, id, cmd), id) <==> Refused(h, id, cmd)
  {
    assert Healthy(h.conns[id], h.tick);
    match cmd {
      case Key(good) => KeyCloses(h, id, good);
      case MyPass(good, password, offer) => PassCloses(h, id, good, password, offer);
      case ValidateNick(nick, check) => NickCloses(h, id, nick, check);
      case MyInfo(_, _, _, _, _) =>
        if h.conns[id].state == Validate {
          QuickCloses(h, id, cmd);
        } else {
          InfoCloses(h, id, cmd);
        }
      case Supports(good, named) => SupportsCloses(h, id, good, named);
      case MyNick(target, good) => MyNickCloses(h, id, target, good);
      case _ => PlainCloses(h, id, cmd);
    }
  }

  /** What a $MyINFO that is heard does between the nick and the user list: one that is not new does
      nothing; a new one is kept, and completes the login unless a password is asked for, over the check of
      the other address family if the client can do that. */
  lemma InfoCompletes(h: Hub, id: Id, cmd: Command)
    requires Live(h, id) && cmd.MyInfo? && cmd.gate == Pass && cmd.nickOf == Some(h.conns[id].nick) && cmd.accepted
    requires h.conns[id].state in {VersionOrMyPass, GetNickListOrMyInfo}
    ensures var c, g := h.conns[id], Process(h, id, cmd);
            if c.myInfo == Some(cmd.text) then g == h
            else
              var d := c.(myInfo := Some(cmd.text));
              g == Put(h, id, if WaitingForPass in c.bits then d
                              else if Ipv4Probe in c.bits then d.(state := Ipv4Check, probe := h.tick)
                              else d.(state := AddMe))
  {
    var c := h.conns[id];
    InfoDispatched(h, id, cmd);
    if c.myInfo != Some(cmd.text) {
      PutTwice(h, id, c.(myInfo := Some(cmd.text)));
    }
  }

  lemma PutTwice(h: Hub, id: Id, c: Conn)
    ensures forall d :: Put(Put(h, id, c), id, d) == Put(h, id, d)
  {
    forall d
      ensures Put(Put(h, id, c), id, d) == Put(h, id, d)
    {
      assert h.conns[id := c][id := d] == h.conns[id := d];
    }
  }

  lemma AnswerIs(h: Hub, id: Id, target: string)
    requires Live(h, id) && Rank(h.conns[id].state) <= Rank(KeyOrSup)
    requires Held(h, target) && h.conns[h.table[target]].state == Ipv4Check
    ensures var other := h.table[target];
            Process(h, id, MyNick(target, true)) == Close(Put(h, other, h.conns[other].(state := AddMe)), id)
  {
  }

  lemma CloseLeaves(h: Hub, id: Id, other: Id)
    requires id in h.conns && other in h.conns && id != other
    ensures Closed(Close(h, id), id) && Close(h, id).conns[other] == h.conns[other]
  {
  }

  /** The answer to a probe lets the probed user go on, and costs its own connection. */
  lemma ProbeAnswered(h: Hub, id: Id, target: string)
    requires Live(h, id) && Rank(h.conns[id].state) <= Rank(KeyOrSup)
    requires Held(h, target) && h.conns[h.table[target]].state == Ipv4Check
    ensures var other, g := h.table[target], Process(h, id, MyNick(target, true));
            Closed(g, id) && other in g.conns && g.conns[other] == h.conns[other].(state := AddMe)
  {
    var other := h.table[target];
    AnswerIs(h, id, target);
    CloseLeaves(Put(h, other, h.conns[other].(state := AddMe)), id, other);
  }

  /** The first commands: $Supports settles the features that the login looks at, $Key that there was one;
      either leads to the nick, and nothing else changes. */
  lemma EarlyCommandsSettle(h: Hub, id: Id, named: set<Bit>)
    requires Live(h, id) && Good(h.conns[id])
    ensures var c := h.conns[id];
            && (c.state == KeyOrSup ==>
                 Process(h, id, Supports(true, named)) ==
                 Put(h, id, c.(bits := {HaveSupports} + (named * {QuickList, Ipv4Probe}), state := Validate)))
            && (c.state == KeyOrSup || (c.state == Validate && c.bits !! {HaveSupports, HaveKey}) ==>
                 Process(h, id, Key(true)) == Put(h, id, c.(bits := c.bits + {HaveKey}, state := Validate)))
  {
    assert {} + {HaveSupports} + (named * {QuickList, Ipv4Probe}) == {HaveSupports} + (named * {QuickList, Ipv4Probe});
  }

  /** Commands that are admitted and change nothing: a $Key after $Supports, a $MyINFO that flood control
      drops, $GetNickList, and whatever else does not close. */
  lemma IdleCommands(h: Hub, id: Id, cmd: Command)
    requires Live(h, id) && Good(h.conns[id]) && !Refused(h, id, cmd)
    requires cmd.GetNickList? || cmd.Other? || (cmd.MyInfo? && cmd.gate == Dropped) ||
             (cmd.Key? && h.conns[id].state == Validate && HaveSupports in h.conns[id].bits)
    ensures Process(h, id, cmd) == h
  {
  }

  // ---------- which nicks there are ----------

  /** A validated nick has no character that the protocol uses. */
  ghost predicate Legal(c: Conn) {
    Validated in c.facts ==>
      forall i :: 0 <= i < |c.nick| ==> c.nick[i] != ' ' && c.nick[i] != '$' && c.nick[i] != '|' && c.nick[i] >= ' '
  }

  lemma NotIllegal(c: Conn)
    requires !Illegal(c.nick)
    ensures Legal(c)
  {
    assert forall i :: 0 <= i < |c.nick| ==> !IllegalChar(c.nick[i]);
  }

  lemma ValidationIsLegal(h: Hub, id: Id, nick: string, check: Check, byCommand: bool)
    requires id in h.conns && h.conns[id].facts == {}
    ensures var d := ValidateUserNick(h, id, nick, check, byCommand).0.conns[id];
            Validated in d.facts ==> d.nick == nick && !Illegal(nick)
  {
  }

  lemma QuickIsLegal(h: Hub, id: Id, cmd: Command)
    requires id in h.conns && h.conns[id].facts == {} && cmd.MyInfo?
    ensures Legal(DoQuickMyInfo(h, id, cmd.nickOf, cmd.text, cmd.gate, cmd.checkOf, cmd.accepted).conns[id])
  {
    if QuickList in h.conns[id].bits && cmd.gate == Pass && cmd.nickOf.Some? {
      var g := ValidateUserNick(h, id, cmd.nickOf.value, cmd.checkOf, false).0;
      ValidationIsLegal(h, id, cmd.nickOf.value, cmd.checkOf, false);
      AdmissionFacts(g, id, cmd.text, cmd.accepted);
      if Validated in g.conns[id].facts {
        NotIllegal(g.conns[id]);
        NotIllegal(MyInfoAndAdmit(g, id, cmd.text, cmd.accepted).conns[id]);
      }
    }
  }

  lemma NickIsLegal(h: Hub, id: Id, nick: string, check: Check)
    requires id in h.conns && h.conns[id].facts == {}
    ensures Legal(DoValidateNick(h, id, nick, check).conns[id])
  {
    ValidationIsLegal(h, id, nick, check, true);
    var d := DoValidateNick(h, id, nick, check).conns[id];
    if Validated in d.facts {
      NotIllegal(d);
    }
  }

  lemma NewlyValidated(h: Hub, id: Id, cmd: Command)
    requires Inv(h) && Live(h, id) && h.conns[id].facts == {}
    ensures Legal(Process(h, id, cmd).conns[id])
  {
    if h.conns[id].state == Validate && cmd.ValidateNick? {
      NickIsLegal(h, id, cmd.nick, cmd.check);
    } else if h.conns[id].state == Validate && cmd.MyInfo? {
      QuickIsLegal(h, id, cmd);
    } else {
      OwnFacts(h, id, cmd);
    }
  }

  lemma LegalStays(h: Hub, e: Event, id: Id)
    requires Inv(h) && Inv(Step(h, e)) && id in h.conns && id in Step(h, e).conns && Legal(h.conns[id])
    requires Moves(h.conns[id], Step(h, e).conns[id])
    ensures IsPastLogin(Step(h, e).conns[id].state) || Legal(Step(h, e).conns[id])
  {
    var c, d := h.conns[id], Step(h, e).conns[id];
    FactsAreTrue(h, e, id);
    assert Healthy(c, h.tick) && Healthy(d, Step(h, e).tick);
    if c.facts == {} && Validated in d.facts {
      assert e.Command? && e.id == id;
      if Live(h, id) {
        NewlyValidated(h, id, e.cmd);
      }
    }
  }

  /** In every reachable hub nobody in the login or in the user list has a nick with a forbidden character. */
  lemma {:induction false} NicksAreLegal(h: Hub, es: seq<Event>, id: Id)
    requires Inv(h) && forall i :: Live(h, i) ==> Legal(h.conns[i])
    ensures Live(Run(h, es), id) ==> Legal(Run(h, es).conns[id])
    decreases |es|
  {
    if es != [] {
      var g := Step(h, es[0]);
      StepKeeps(h, es[0]);
      forall i | Live(g, i)
        ensures Legal(g.conns[i])
      {
        LegalLive(h, es[0], i);
      }
      NicksAreLegal(g, es[1..], id);
    }
  }

  lemma ReachableNicksLegal(es: seq<Event>, id: Id)
    ensures var h := Run(EMPTY, es);
            Live(h, id) && Rank(h.conns[id].state) > Rank(Validate) ==>
              forall c :: c in h.conns[id].nick ==> c != ' ' && c != '$' && c != '|' && c >= ' '
  {
    var h := Run(EMPTY, es);
    EmptyKeeps();
    RunKeeps(EMPTY, es);
    NicksAreLegal(EMPTY, es, id);
    if Live(h, id) && Rank(h.conns[id].state) > Rank(Validate) {
      assert Healthy(h.conns[id], h.tick);
    }
  }

  lemma LegalLive(h: Hub, e: Event, i: Id)
    requires Inv(h) && Inv(Step(h, e)) && AllMove(h, Step(h, e)) && Live(Step(h, e), i)
    requires Live(h, i) ==> Legal(h.conns[i])
    ensures Legal(Step(h, e).conns[i])
  {
    var g := Step(h, e);
    if i in h.conns {
      assert Moves(h.conns[i], g.conns[i]);
      LegalStays(h, e, i);
    } else {
      NewIsUnnamed(h, e, i);
    }
  }

  lemma CommandBringsNobody(h: Hub, id: Id, cmd: Command)
    requires Inv(h)
    ensures Step(h, Event.Command(id, cmd)).conns.Keys == h.conns.Keys
  {
    if Live(h, id) && !(cmd.MyNick? && Rank(h.conns[id].state) <= Rank(KeyOrSup)) {
      ProcessKeeps(h, id, cmd);
    }
  }

  lemma NewIsUnnamed(h: Hub, e: Event, i: Id)
    requires Inv(h) && i !in h.conns && i in Step(h, e).conns
    ensures Step(h, e).conns[i].facts == {}
  {
    if e.Command? {
      CommandBringsNobody(h, e.id, e.cmd);
    }
  }
}

/** The hub's own objects behind LoginProtocol: users whose fields the commands change, and the table that
    maps nicks to them.  What a caller sees are the methods at the end, from PreProcessData on: they keep the
    whole invariant of the protocol.  The methods they call leave it broken in between. */
module LoginHub {
  import opened Options
  import P = LoginProtocol
  import L = LoginLoop

  class User {
    const id: P.Id
    const ip: string
    const logonTick: nat
    var ipv4Tick: nat
    var state: P.State
    var nick: string
    var bits: set<P.Bit>
    var myInfo: Option<string>
    ghost var facts: set<P.Fact>

    constructor (id: P.Id, ip: string, tick: nat)
      ensures this.id == id && Value() == P.Conn(P.Accepted, "", ip, {}, None, {}, tick, 0)
    {
      this.id, this.ip, logonTick, ipv4Tick := id, ip, tick, 0;
      state, nick, bits, myInfo, facts := P.Accepted, "", {}, None, {};
    }

    ghost function Value(): P.Conn
      reads this
    {
      P.Conn(state, nick, ip, bits, myInfo, facts, logonTick, ipv4Tick)
    }
  }

  class Hub {
    var users: map<P.Id, User>
    var nickTable: map<string, User>
    var reg: map<string, string>
    var next: P.Id
    var tick: nat

    ghost predicate Knows(u: User)
      reads this
    {
      u.id in users && users[u.id] == u
    }

    ghost predicate Wired()
      reads this
    {
      (forall i :: i in users ==> users[i].id == i && i < next) && forall nick :: nick in nickTable ==> Knows(nickTable[nick])
    }

    ghost function Conns(): map<P.Id, P.Conn>
      reads this`users, users.Values
    {
      map i | i in users :: users[i].Value()
    }

    ghost function Table(): (t: map<string, P.Id>)
      reads this`nickTable
      ensures t.Keys == nickTable.Keys && forall nick :: nick in t ==> t[nick] == nickTable[nick].id
    {
      map nick | nick in nickTable :: nickTable[nick].id
    }

    ghost function State(): P.Hub
      reads this, users.Values
    {
      P.Hub(Conns(), Table(), reg, next, tick)
    }

    /** The objects are in order, and the hub they make up satisfies the invariant of the protocol. */
    ghost predicate Valid()
      reads this, users.Values
    {
      Wired() && P.Inv(State())
    }

    constructor ()
      ensures Valid() && State() == P.EMPTY
    {
      users, nickTable, reg, next, tick := map[], map[], map[], 0, 0;
    }

    // ---------- changes of one user ----------

    method Become(u: User, state: P.State, bits: set<P.Bit>, ghost facts: set<P.Fact>)
      requires Wired() && Knows(u)
      modifies u
      ensures u.nick == old(u.nick) && u.myInfo == old(u.myInfo) && u.state == state && u.bits == bits && u.facts == facts
      ensures State() == P.Put(old(State()), u.id, old(u.Value()).(state := state, bits := bits, facts := facts))
    {
      u.state, u.bits, u.facts := state, bits, facts;
      assert Conns() == old(Conns())[u.id := u.Value()];
    }

    method SetNick(u: User, nick: string)
      requires Wired() && Knows(u)
      modifies u
      ensures u.nick == nick && u.bits == old(u.bits) && u.state == old(u.state)
      ensures State() == P.Put(old(State()), u.id, old(u.Value()).(nick := nick))
    {
      u.nick := nick;
      assert Conns() == old(Conns())[u.id := u.Value()];
    }

    method SetMyInfoOriginal(u: User, text: string)
      requires Wired() && Knows(u)
      modifies u
      ensures u.bits == old(u.bits)
      ensures State() == P.Put(old(State()), u.id, old(u.Value()).(myInfo := Some(text)))
    {
      u.myInfo := Some(text);
      assert Conns() == old(Conns())[u.id := u.Value()];
    }

    method MoveTo(u: User, state: P.State)
      requires Wired() && Knows(u)
      modifies u
      ensures State() == L.MovedTo(old(State()), u.id, state)
    {
      Become(u, state, u.bits, u.facts);
    }

    // ---------- the nick table ----------

    method FindUser(nick: string) returns (u: User?)
      requires Wired()
      ensures u == null <==> nick !in nickTable
      ensures u != null ==> Knows(u) && nickTable[nick] == u && State().table[nick] == u.id
    {
      if nick in nickTable {
        return nickTable[nick];
      }
      return null;
    }

    /** Adds a user, replacing whoever had the nick. */
    method Insert(u: User)
      requires Wired() && Knows(u)
      modifies this`nickTable
      ensures Wired() && State() == old(State()).(table := old(State()).table[u.nick := u.id])
    {
      nickTable := nickTable[u.nick := u];
      assert Table() == old(Table())[u.nick := u.id];
    }

    /** Removes whoever has the nick of a user. */
    method Remove(u: User)
      requires Wired() && Knows(u)
      modifies this`nickTable
      ensures Wired() && State() == old(State()).(table := old(State()).table - {u.nick})
    {
      nickTable := nickTable - {u.nick};
      assert Table() == old(Table()) - {u.nick};
    }

    /** Adds a user and marks it. */
    method Add(u: User)
      requires Wired() && Knows(u)
      modifies this`nickTable, u
      ensures Wired() && Knows(u) && State() == P.Hash(old(State()), u.id) && u.bits == old(u.bits) + {P.Hashed}
    {
      Insert(u);
      Become(u, u.state, u.bits + {P.Hashed}, u.facts);
    }

    method Close(u: User)
      requires Wired() && Knows(u)
      modifies this`nickTable, u
      ensures Wired() && Knows(u) && State() == P.Close(old(State()), u.id) && u.bits == old(u.bits)
    {
      if P.IsPastLogin(u.state) {
        return;
      }
      Become(u, P.Closing, u.bits, u.facts);
      if P.Hashed in u.bits {
        Remove(u);
      }
    }

    method AddMeOrIPv4Check(u: User)
      requires Wired() && Knows(u)
      modifies u
      ensures Wired() && Knows(u) && State() == P.Admit(old(State()), u.id)
    {
      if P.Ipv4Probe in u.bits {
        u.state, u.ipv4Tick := P.Ipv4Check, tick;
      } else {
        u.state := P.AddMe;
      }
      assert Conns() == old(Conns())[u.id := u.Value()];
    }

    // ---------- validation ----------

    method ValidateUserNickFinally(u: User, check: P.Check, byCommand: bool) returns (valid: bool)
      requires Wired() && Knows(u)
      modifies this`nickTable, u
      ensures Wired() && Knows(u) && (State(), valid) == P.ValidateFinally(old(State()), u.id, check, byCommand)
    {
      if u.nick !in reg {
        if !check.publicOk {
          Close(u);
          return false;
        }
        Become(u, if byCommand then P.VersionOrMyPass else u.state, u.bits, {P.Validated});
        Add(u);
        return true;
      }
      Become(u, P.VersionOrMyPass, u.bits + {P.WaitingForPass}, {P.Validated, P.WasRegistered});
      Add(u);
      return true;
    }

    method ValidateHeld(u: User, other: User, check: P.Check, byCommand: bool) returns (valid: bool)
      requires Wired() && Knows(u) && Knows(other)
      modifies this`nickTable, u, other
      ensures Wired() && Knows(u) && (State(), valid) == P.ValidateHeld(old(State()), u.id, other.id, check, byCommand)
    {
      if check.holderGone {
        Close(other);
        return false;
      }
      if u.nick in reg {
        // a registered nick: the holder may be the user's own ghost
        Become(u, P.VersionOrMyPass, u.bits + {P.WaitingForPass}, {P.Validated, P.WasRegistered});
        return true;
      }
      if check.removeClones && other.ip == u.ip {
        Close(other);
        valid := ValidateUserNickFinally(u, check, byCommand);
        return;
      }
      Close(u);
      return false;
    }

    method ValidateNamed(u: User, check: P.Check, byCommand: bool) returns (valid: bool)
      requires Wired() && Knows(u)
      modifies this`nickTable, users.Values
      ensures Wired() && Knows(u) && (State(), valid) == P.ValidateNamed(old(State()), u.id, check, byCommand)
    {
      if check.refused {
        Close(u);
        return false;
      }
      var other := FindUser(u.nick);
      if other != null && !P.IsPastLogin(other.state) {
        valid := ValidateHeld(u, other, check, byCommand);
      } else {
        valid := ValidateUserNickFinally(u, check, byCommand);
      }
    }

    method ValidateUserNick(u: User, nick: string, check: P.Check, byCommand: bool) returns (valid: bool)
      requires Wired() && Knows(u)
      modifies this`nickTable, users.Values
      ensures Wired() && Knows(u) && (State(), valid) == P.ValidateUserNick(old(State()), u.id, nick, check, byCommand)
    {
      if P.Illegal(nick) {
        Close(u);
        return false;
      }
      SetNick(u, nick);
      valid := ValidateNamed(u, check, byCommand);
    }

    // ---------- commands ----------

    method Key(u: User, good: bool)
      requires Wired() && Knows(u)
      modifies this`nickTable, u
      ensures Wired() && State() == P.DoKey(old(State()), u.id, good)
    {
      if P.HaveKey in u.bits || !good {
        Close(u);
        return;
      }
      Become(u, P.Validate, u.bits + {P.HaveKey}, u.facts);
    }

    method Supports(u: User, good: bool, named: set<P.Bit>)
      requires Wired() && Knows(u)
      modifies this`nickTable, u
      ensures Wired() && State() == P.DoSupports(old(State()), u.id, good, named)
    {
      if P.HaveSupports in u.bits || !good {
        Close(u);
        return;
      }
      Become(u, P.Validate, u.bits + {P.HaveSupports} + (named * {P.QuickList, P.Ipv4Probe}), u.facts);
    }

    method Version(u: User, good: bool)
      requires Wired() && Knows(u)
      modifies this`nickTable, u
      ensures Wired() && State() == P.DoVersion(old(State()), u.id, good)
    {
      if !good {
        Close(u);
        return;
      }
      Become(u, P.GetNickListOrMyInfo, u.bits, u.facts);
    }

    method ValidateNick(u: User, nick: string, check: P.Check)
      requires Wired() && Knows(u)
      modifies this`nickTable, users.Values
      ensures Wired() && State() == P.DoValidateNick(old(State()), u.id, nick, check)
    {
      if P.QuickList in u.bits || nick == "" {
        Close(u);
        return;
      }
      var valid := ValidateUserNick(u, nick, check, true);
    }

    method MyINFO(u: User, text: string, accepted: bool) returns (stored: bool)
      requires Wired() && Knows(u)
      modifies this`nickTable, u
      ensures Wired() && Knows(u) && (State(), stored) == P.StoreMyInfo(old(State()), u.id, text, accepted)
    {
      if u.myInfo == Some(text) {
        return false;
      }
      if !accepted {
        Close(u);
        return false;
      }
      SetMyInfoOriginal(u, text);
      return true;
    }

    method MyInfoAndAdmit(u: User, text: string, accepted: bool)
      requires Wired() && Knows(u)
      modifies this`nickTable, u
      ensures Wired() && State() == P.MyInfoAndAdmit(old(State()), u.id, text, accepted)
    {
      var stored := MyINFO(u, text, accepted);
      if !stored || P.WaitingForPass in u.bits {
        return;
      }
      AddMeOrIPv4Check(u);
    }

    method QuickMyInfo(u: User, nick: Option<string>, text: string, gate: P.Gate, check: P.Check, accepted: bool)
      requires Wired() && Knows(u)
      modifies this`nickTable, users.Values
      ensures Wired() && State() == P.DoQuickMyInfo(old(State()), u.id, nick, text, gate, check, accepted)
    {
      if P.QuickList !in u.bits || gate == P.ClosedByFlood || (gate == P.Pass && nick == None) {
        Close(u);
        return;
      }
      if gate == P.Dropped {
        return;
      }
      var valid := ValidateUserNick(u, nick.value, check, false);
      if valid {
        MyInfoAndAdmit(u, text, accepted);
      }
    }

    method LaterMyInfo(u: User, nick: Option<string>, text: string, gate: P.Gate, accepted: bool)
      requires Wired() && Knows(u)
      modifies this`nickTable, u
      ensures Wired() && State() == P.DoMyInfo(old(State()), u.id, nick, text, gate, accepted)
    {
      if gate == P.Dropped {
        return;
      }
      if gate == P.ClosedByFlood || nick != Some(u.nick) {
        Close(u);
        return;
      }
      if P.Rank(u.state) <= P.Rank(P.GetNickListOrMyInfo) {
        MyInfoAndAdmit(u, text, accepted);
      } else {
        var stored := MyINFO(u, text, accepted);
      }
    }

    /** The right password: the user's own ghost goes, the nick is the user's. */
    method TakeNick(u: User)
      requires Wired() && Knows(u)
      modifies this`nickTable, users.Values
      ensures Wired() && Knows(u) && State() == P.TakeNick(old(State()), u.id)
      ensures P.QuickList in u.bits <==> P.QuickList in old(u.bits)
    {
      if P.Hashed !in u.bits {
        var other := FindUser(u.nick);
        if other != null {
          Close(other);
        }
        Add(u);
      }
    }

    method MyPass(u: User, good: bool, password: string)
      requires Wired() && Knows(u)
      modifies this`nickTable, users.Values
      ensures Wired() && State() == P.DoMyPass(old(State()), u.id, good, password)
    {
      if u.nick !in reg || P.WaitingForPass !in u.bits {
        Close(u);
        return;
      }
      Become(u, u.state, u.bits - {P.WaitingForPass}, u.facts);
      if !good || password != reg[u.nick] {
        Close(u);
        return;
      }
      RightPassword(u);
    }

    /** The answer of a user in the user list to an offer to be registered. */
    method AddedPass(u: User, good: bool, password: string, offer: P.Offer)
      requires Wired() && Knows(u)
      modifies this`nickTable, this`reg, u
      ensures Wired() && State() == P.DoAddedPass(old(State()), u.id, good, password, offer)
    {
      if P.WaitingForPass !in u.bits {
        Close(u);
        return;
      }
      if offer == P.KnownProfile && !good {
        return;
      }
      Become(u, u.state, u.bits - {P.WaitingForPass}, u.facts);
      if offer == P.KnownProfile && u.nick !in reg {
        reg := reg[u.nick := password];
      }
    }

    method RightPassword(u: User)
      requires Wired() && Knows(u)
      modifies this`nickTable, users.Values
      ensures Wired() && State() == P.RightPassword(old(State()), u.id)
    {
      Become(u, u.state, u.bits, u.facts + {P.Passed});
      TakeNick(u);
      if P.QuickList in u.bits {
        AddMeOrIPv4Check(u);
      }
    }

    method MyNick(u: User, target: string, good: bool)
      requires Wired() && Knows(u)
      modifies this`nickTable, users.Values
      ensures Wired() && State() == P.DoMyNick(old(State()), u.id, target, good)
    {
      if good {
        var other := FindUser(target);
        if other != null && other.state == P.Ipv4Check {
          Become(other, P.AddMe, other.bits, other.facts);
        }
      }
      Close(u);
    }

    // ---------- dispatch ----------

    method GetNickList(u: User, closes: bool)
      requires Wired() && Knows(u) && !P.IsPastLogin(u.state)
      modifies this`nickTable, u
      ensures Wired() && State() == P.Process(old(State()), u.id, P.GetNickList(closes))
    {
      if closes || P.Rank(u.state) < P.Rank(P.Validate) || (u.state == P.Validate && P.QuickList !in u.bits) {
        Close(u);
      }
    }

    /** The commands that carry a nick, in the states before one is validated. */
    method EarlyNick(u: User, cmd: P.Command)
      requires Wired() && Knows(u) && P.Rank(u.state) <= P.Rank(P.Validate)
      requires cmd.ValidateNick? || cmd.MyInfo? || cmd.MyNick?
      modifies this`nickTable, users.Values
      ensures Wired() && State() == P.Process(old(State()), u.id, cmd)
    {
      if cmd.MyNick? {
        if u.state == P.Validate {
          Close(u);
        } else {
          MyNick(u, cmd.target, cmd.good);
        }
      } else if u.state != P.Validate {
        Close(u);
      } else if cmd.ValidateNick? {
        ValidateNick(u, cmd.nick, cmd.check);
      } else {
        QuickMyInfo(u, cmd.nickOf, cmd.text, cmd.gate, cmd.checkOf, cmd.accepted);
      }
    }

    /** $Key and $Supports, in the states before a nick is validated. */
    method EarlyFeatures(u: User, cmd: P.Command)
      requires Wired() && Knows(u) && P.Rank(u.state) <= P.Rank(P.Validate) && (cmd.Key? || cmd.Supports?)
      modifies this`nickTable, u
      ensures Wired() && State() == P.Process(old(State()), u.id, cmd)
    {
      if cmd.Supports? {
        if u.state == P.KeyOrSup {
          Supports(u, cmd.good, cmd.named);
        } else {
          Close(u);
        }
      } else if u.state == P.KeyOrSup || (u.state == P.Validate && P.HaveSupports !in u.bits) {
        Key(u, cmd.good);
      } else if u.state != P.Validate {
        Close(u);
      }
    }

    /** Commands of the states before a nick is validated. */
    method Early(u: User, cmd: P.Command)
      requires Wired() && Knows(u) && P.Rank(u.state) <= P.Rank(P.Validate)
      modifies this`nickTable, users.Values
      ensures Wired() && State() == P.Process(old(State()), u.id, cmd)
    {
      if cmd.Key? || cmd.Supports? {
        EarlyFeatures(u, cmd);
      } else if cmd.ValidateNick? || cmd.MyInfo? || cmd.MyNick? {
        EarlyNick(u, cmd);
      } else if cmd.GetNickList? {
        GetNickList(u, cmd.closes);
      } else if !cmd.Other? || cmd.closes {
        Close(u);
      }
    }

    /** Commands of the states after that. */
    method Late(u: User, cmd: P.Command)
      requires Wired() && Knows(u) && !P.IsPastLogin(u.state) && P.Rank(u.state) > P.Rank(P.Validate)
      modifies this`nickTable, this`reg, users.Values
      ensures Wired() && State() == P.Process(old(State()), u.id, cmd)
    {
      match cmd {
        case Version(good) =>
          if u.state == P.VersionOrMyPass {
            Version(u, good);
          } else {
            Close(u);
          }
        case MyPass(good, password, offer) =>
          if u.state == P.VersionOrMyPass {
            MyPass(u, good, password);
          } else if u.state == P.Added {
            AddedPass(u, good, password, offer);
          } else {
            Close(u);
          }
        case MyInfo(nick, text, gate, check, accepted) => LaterMyInfo(u, nick, text, gate, accepted);
        case GetNickList(closes) => GetNickList(u, closes);
        case Other(closes) =>
          if closes {
            Close(u);
          }
        case _ => Close(u);
      }
    }

    method Dispatch(u: User, cmd: P.Command)
      requires Wired() && Knows(u)
      modifies this`nickTable, this`reg, users.Values
      ensures Wired() && State() == P.Step(old(State()), P.Event.Command(u.id, cmd))
    {
      if P.IsPastLogin(u.state) {
        return;
      }
      if P.Rank(u.state) <= P.Rank(P.Validate) {
        Early(u, cmd);
      } else {
        Late(u, cmd);
      }
    }

    method OfferTo(nick: string)
      requires Wired()
      modifies users.Values
      ensures Wired() && State() == P.OfferTo(old(State()), nick)
    {
      if nick !in reg {
        var other := FindUser(nick);
        if other != null {
          Become(other, other.state, other.bits + {P.WaitingForPass}, other.facts + {P.Offered});
        }
      }
    }

    // ---------- users come and go ----------

    method AddUser(ip: string) returns (u: User)
      requires Wired()
      modifies this`users, this`next
      ensures Wired() && Knows(u) && fresh(u) && State() == P.Step(old(State()), P.Accept(ip))
    {
      u := new User(next, ip, tick);
      users, next := users[next := u], next + 1;
      assert Conns() == P.Put(old(State()), u.id, u.Value()).conns;
    }

    method EraseUser(u: User)
      requires Wired() && Knows(u) && u.state == P.Remme
      requires forall nick :: nick in nickTable ==> nickTable[nick] != u
      modifies this`users
      ensures Wired() && State() == P.Step(old(State()), P.Finish(u.id)) && users == old(users) - {u.id}
    {
      users := users - {u.id};
      assert Conns() == old(Conns()) - {u.id};
    }

    // ---------- what the rest of the hub calls ----------

    /** Nicks in the table belong to one user each. */
    lemma NicksDistinct(u: User, v: User)
      requires Valid() && Knows(u) && Knows(v) && u != v
      requires !P.IsPastLogin(u.state) && !P.IsPastLogin(v.state) && P.Hashed in u.bits && P.Hashed in v.bits
      ensures u.nick != v.nick
    {
      assert State().conns[u.id] == u.Value() && State().conns[v.id] == v.Value();
      assert P.Live(State(), u.id) && P.Live(State(), v.id);
    }

    /** Whoever has completed its login is found under its nick, which was validated, and gave the password if
        the nick was registered then. */
    lemma AdmittedIsVerified(u: User)
      requires Valid() && Knows(u) && P.Rank(P.Ipv4Check) <= P.Rank(u.state) <= P.Rank(P.Added)
      ensures u.nick in nickTable && nickTable[u.nick] == u && P.Validated in u.facts && P.Hashed in u.bits
      ensures P.WasRegistered in u.facts ==> P.Passed in u.facts
      ensures P.WaitingForPass in u.bits ==> P.Offered in u.facts
    {
      assert State().conns[u.id] == u.Value();
      assert P.Healthy(State().conns[u.id], tick) && P.Live(State(), u.id);
    }

    /** One command of one connection. */
    method PreProcessData(u: User, cmd: P.Command)
      requires Valid() && Knows(u)
      modifies this`nickTable, this`reg, users.Values
      ensures Valid() && State() == P.Step(old(State()), P.Event.Command(u.id, cmd))
    {
      P.StepKeeps(State(), P.Event.Command(u.id, cmd));
      Dispatch(u, cmd);
    }

    /** A new connection. */
    method AcceptUser(ip: string) returns (u: User)
      requires Valid()
      modifies this`users, this`next
      ensures Valid() && Knows(u) && fresh(u) && State() == P.Step(old(State()), P.Accept(ip))
    {
      P.StepKeeps(State(), P.Accept(ip));
      u := AddUser(ip);
    }

    /** An operator offers a user to be registered. */
    method RegUser(nick: string)
      requires Valid()
      modifies users.Values
      ensures Valid() && State() == P.Step(old(State()), P.OfferReg(nick))
    {
      P.StepKeeps(State(), P.OfferReg(nick));
      OfferTo(nick);
    }

    /** Registrations change from outside the login. */
    method Reregister(registered: map<string, string>)
      requires Valid()
      modifies this`reg
      ensures Valid() && State() == P.Step(old(State()), P.SetReg(registered))
    {
      P.StepKeeps(State(), P.SetReg(registered));
      SetRegistered(registered);
    }

    method SetRegistered(registered: map<string, string>)
      requires Wired()
      modifies this`reg
      ensures Wired() && State() == old(State()).(reg := registered)
    {
      reg := registered;
      assert Conns() == old(Conns()) && Table() == old(Table());
    }

    method OnSecTimer()
      requires Valid()
      modifies this`tick
      ensures Valid() && State() == P.Step(old(State()), P.Second)
    {
      P.StepKeeps(State(), P.Second);
      Tick();
    }

    method Tick()
      requires Wired()
      modifies this`tick
      ensures Wired() && State() == P.Step(old(State()), P.Second)
    {
      tick := tick + 1;
      assert Conns() == old(Conns()) && Table() == old(Table());
    }

    // ---------- the service loop ----------

    /** Forgets a connection that is gone. */
    method RemUser(u: User)
      requires Valid() && Knows(u) && u.state == P.Remme
      modifies this`users
      ensures Valid() && State() == P.Step(old(State()), P.Finish(u.id)) && users == old(users) - {u.id}
    {
      P.StepKeeps(State(), P.Finish(u.id));
      NotInTable(u);
      EraseUser(u);
    }

    lemma NotInTable(u: User)
      requires Wired() && P.Linked(State()) && Knows(u) && u.state == P.Remme
      ensures forall nick :: nick in nickTable ==> nickTable[nick] != u
    {
      forall nick | nick in nickTable ensures nickTable[nick] != u {
        assert P.Live(State(), State().table[nick]);
      }
    }

    /** What a state calls for when the loop comes by. */
    method Decide(u: User, v: L.Visit)
      requires Wired() && Knows(u) && P.Linked(State())
      modifies this`users, this`nickTable, u
      ensures Wired() && State() == L.Decide(old(State()), u.id, v)
      ensures users == old(users) || users == old(users) - {u.id}
    {
      if u.state == P.Remme {
        NotInTable(u);
        EraseUser(u);
      } else if P.Rank(u.state) >= P.Rank(P.Ipv4Check) {
        DecideLate(u, v);
      } else {
        DecideEarly(u, v);
      }
    }

    method DecideEarly(u: User, v: L.Visit)
      requires Wired() && Knows(u) && P.Rank(u.state) < P.Rank(P.Ipv4Check)
      modifies this`nickTable, u
      ensures Wired() && State() == L.Decide(old(State()), u.id, v)
    {
      L.DecideIs(State(), u.id, v);
      if u.state == P.Accepted {
        if tick != u.logonTick {
          if v.lockMade {
            MoveTo(u, P.KeyOrSup);
          } else {
            Close(u);
          }
        }
      } else {
        CloseAfter(u, u.logonTick, if u.state == P.KeyOrSup then 20 else 60);
      }
    }

    method DecideLate(u: User, v: L.Visit)
      requires Wired() && Knows(u) && P.Rank(P.Ipv4Check) <= P.Rank(u.state) < P.Rank(P.Remme)
      modifies this`nickTable, u
      ensures Wired() && State() == L.Decide(old(State()), u.id, v)
    {
      L.DecideIs(State(), u.id, v);
      match u.state {
        case Ipv4Check =>
          if tick - u.ipv4Tick > 10 {
            MoveTo(u, P.AddMe);
          }
        case AddMe => MoveTo(u, P.AddMe1Loop);
        case AddMe1Loop =>
          if v.delayed {
            CloseAfter(u, u.logonTick, 300);
          } else {
            MoveTo(u, P.AddMe2Loop);
          }
        case AddMe2Loop => CloseAfter(u, u.logonTick, 60);
        case Closing =>
          if v.flushed {
            MoveTo(u, P.Remme);
          }
        case _ =>
      }
    }

    method CloseAfter(u: User, since: nat, limit: nat)
      requires Wired() && Knows(u)
      modifies this`nickTable, u
      ensures Wired() && Knows(u) && State() == L.ClosedAfter(old(State()), u.id, since, limit)
    {
      if tick - since > limit {
        Close(u);
      }
    }

    /** One connection's turn: what has arrived, then the state. */
    method VisitUser(u: User, v: L.Visit)
      requires Wired() && Knows(u) && P.Inv(State())
      modifies this`users, this`nickTable, this`reg, users.Values
      ensures Wired() && State() == L.VisitOne(old(State()), u.id, v)
      ensures users == old(users) || users == old(users) - {u.id}
    {
      ghost var h := State();
      L.ReceiveAllKeeps(h, u.id, v.commands);
      TakeCommands(u, v.commands);
      Decide(u, v);
    }

    method TakeCommands(u: User, commands: seq<P.Command>)
      requires Wired() && Knows(u)
      modifies this`nickTable, this`reg, users.Values
      ensures Wired() && State() == L.ReceiveAll(old(State()), u.id, commands)
    {
      for k := 0 to |commands|
        invariant Wired() && State() == L.ReceiveAll(old(State()), u.id, commands[..k])
      {
        Dispatch(u, commands[k]);
        assert commands[..k + 1][..k] == commands[..k];
      }
      assert commands[..|commands|] == commands;
    }

    static ghost function Ids(order: seq<User>): seq<P.Id> {
      seq(|order|, i requires 0 <= i < |order| => order[i].id)
    }

    /** Every known user has its place in the list, and nobody else. */
    ghost predicate Lists(order: seq<User>)
      reads this
    {
      (forall j :: 0 <= j < |order| ==> Knows(order[j])) &&
      (forall j, k :: 0 <= j < k < |order| ==> order[j] != order[k]) &&
      forall i :: i in users ==> users[i] in order
    }

    lemma ListsCover(order: seq<User>)
      requires Wired() && Lists(order)
      ensures forall i :: i in State().conns ==> i in Ids(order)
    {
      forall i | i in State().conns
        ensures i in Ids(order)
      {
        var j :| 0 <= j < |order| && order[j] == users[i];
        assert Ids(order)[j] == i;
      }
    }

    /** All turns, in the order of the list. */
    method VisitAll(order: seq<User>, visits: seq<L.Visit>)
      requires Wired() && P.Inv(State()) && Lists(order) && |order| == |visits|
      modifies this`users, this`nickTable, this`reg, users.Values
      ensures Wired() && State() == L.Pass(old(State()), Ids(order), visits)
    {
      ghost var h, ids, g := State(), Ids(order), State();
      for k := 0 to |order|
        invariant Wired() && State() == g == L.Pass(h, ids[..k], visits[..k])
        invariant forall i :: i in users ==> i in old(users) && users[i] == old(users)[i]
        invariant forall j :: k <= j < |order| ==> Knows(order[j])
      {
        ghost var known := users;
        forall j | k < j < |order|
          ensures order[j].id in known - {order[k].id} && known[order[j].id] == order[j]
        {
          assert Knows(order[j]) && order[k] != order[j];
        }
        assert P.Inv(State()) by {
          L.PassPassesOver(h, ids[..k], visits[..k]);
        }
        VisitUser(order[k], visits[k]);
        L.PassNext(h, ids, visits, k);
        g := L.VisitOne(g, ids[k], visits[k]);
      }
      assert ids[..|order|] == ids && visits[..|order|] == visits;
    }

    /** The receiving pass over all users: afterwards nobody has outstayed its state. */
    method ReceiveLoop(order: seq<User>, visits: seq<L.Visit>)
      requires Valid() && Lists(order) && |order| == |visits|
      modifies this`users, this`nickTable, this`reg, users.Values
      ensures Valid() && State() == L.Pass(old(State()), Ids(order), visits)
      ensures L.DeadlinesKept(old(State()), State())
    {
      ListsCover(order);
      L.PassKeepsDeadlines(State(), Ids(order), visits);
      VisitAll(order, visits);
    }

    method WelcomeUser(u: User)
      requires Wired() && Knows(u)
      modifies u
      ensures Wired() && State() == L.Welcome(old(State()), u.id)
    {
      if u.state == P.AddMe2Loop {
        MoveTo(u, P.Added);
      }
    }

    method WelcomeAll(order: seq<User>)
      requires Wired() && forall j :: 0 <= j < |order| ==> Knows(order[j])
      modifies users.Values
      ensures Wired() && State() == L.SendPass(old(State()), Ids(order))
    {
      ghost var h, ids := State(), Ids(order);
      for k := 0 to |order|
        invariant Wired() && State() == L.SendPass(h, ids[..k])
      {
        WelcomeUser(order[k]);
        L.SendNext(h, ids, k);
      }
      assert ids[..|order|] == ids;
    }

    /** The sending pass, as far as the login goes: who was announced is in. */
    method SendLoop(order: seq<User>)
      requires Valid() && Lists(order)
      modifies users.Values
      ensures Valid() && State() == L.SendPass(old(State()), Ids(order))
      ensures L.AllIn(State())
    {
      ListsCover(order);
      L.SendPassLetsIn(State(), Ids(order));
      WelcomeAll(order);
    }
  }
}

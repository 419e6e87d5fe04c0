/** The passes of the service loop over the connections of LoginProtocol: what it does to each of them, and
    the deadlines it keeps (ReceiveLoop and SendLoop, core/serviceLoop.cpp). */
module LoginLoop {
  import opened Options
  import opened LoginProtocol

  /** What the environment says when the loop comes by a connection: what has arrived from it, whether the
      lock could be put into its send buffer, whether logins are being delayed and the user is no operator,
      and whether a closing connection has nothing left to send or was given enough time to send it. */
  datatype Visit = Visit(commands: seq<Command>, lockMade: bool, delayed: bool, flushed: bool)

  /** What has arrived is processed first. */
  function ReceiveAll(h: Hub, id: Id, commands: seq<Command>): Hub
    decreases |commands|
  {
    if commands == [] then h
    else
      var n := |commands| - 1;
      Step(ReceiveAll(h, id, commands[..n]), Event.Command(id, commands[n]))
  }

  /** Then the state decides.  The differences are those of the code, on a clock that does not run
      backwards. */
  function Due(h: Hub, c: Conn, id: Id, v: Visit): Option<Event> {
    match c.state
    case Accepted => if h.tick == c.logon then None else if v.lockMade then Some(SendLock(id)) else Some(Drop(id))
    case KeyOrSup => if h.tick - c.logon > 20 then Some(Drop(id)) else None
    case Ipv4Check => if h.tick - c.probe > 10 then Some(ProbeTimeout(id)) else None
    case AddMe => Some(Advance(id))
    case AddMe1Loop =>
      if !v.delayed then Some(Advance(id)) else if h.tick - c.logon > 300 then Some(Drop(id)) else None
    case Added => None
    case Closing => if v.flushed then Some(Finish(id)) else None
    case Remme => Some(Finish(id))
    case _ => if h.tick - c.logon > 60 then Some(Drop(id)) else None
  }

  function Decide(h: Hub, id: Id, v: Visit): Hub {
    if id !in h.conns then h
    else match Due(h, h.conns[id], id, v)
      case None => h
      case Some(e) => Step(h, e)
  }

  function VisitOne(h: Hub, id: Id, v: Visit): Hub {
    Decide(ReceiveAll(h, id, v.commands), id, v)
  }

  function ClosedAfter(h: Hub, id: Id, since: nat, limit: nat): Hub
    requires id in h.conns
  {
    if h.tick - since > limit then Close(h, id) else h
  }

  function MovedTo(h: Hub, id: Id, state: State): Hub
    requires id in h.conns
  {
    Put(h, id, h.conns[id].(state := state))
  }

  /** The decisions spelt out. */
  lemma DecideIs(h: Hub, id: Id, v: Visit)
    requires id in h.conns
    ensures var c := h.conns[id];
            Decide(h, id, v) == match c.state
              case Accepted =>
                if h.tick == c.logon then h else if v.lockMade then MovedTo(h, id, KeyOrSup) else Close(h, id)
              case KeyOrSup => ClosedAfter(h, id, c.logon, 20)
              case Ipv4Check => if h.tick - c.probe > 10 then MovedTo(h, id, AddMe) else h
              case AddMe => MovedTo(h, id, AddMe1Loop)
              case AddMe1Loop => if v.delayed then ClosedAfter(h, id, c.logon, 300) else MovedTo(h, id, AddMe2Loop)
              case Closing => if v.flushed then MovedTo(h, id, Remme) else h
              case Added => h
              case Remme => Step(h, Finish(id))
              case _ => ClosedAfter(h, id, c.logon, 60)
  {
  }

  /** One pass over the list of users. */
  function Pass(h: Hub, ids: seq<Id>, visits: seq<Visit>): Hub
    requires |ids| == |visits|
    decreases |ids|
  {
    if ids == [] then h
    else
      var n := |ids| - 1;
      VisitOne(Pass(h, ids[..n], visits[..n]), ids[n], visits[n])
  }

  lemma PassNext(h: Hub, ids: seq<Id>, visits: seq<Visit>, k: nat)
    requires k < |ids| == |visits|
    ensures Pass(h, ids[..k + 1], visits[..k + 1]) == VisitOne(Pass(h, ids[..k], visits[..k]), ids[k], visits[k])
  {
    assert ids[..k + 1][..k] == ids[..k] && visits[..k + 1][..k] == visits[..k];
  }

  // ---------- a pass keeps the invariant ----------

  lemma {:induction false} ReceiveAllKeeps(h: Hub, id: Id, commands: seq<Command>)
    requires Inv(h)
    ensures Inv(ReceiveAll(h, id, commands)) && ReceiveAll(h, id, commands).tick == h.tick
    decreases |commands|
  {
    if commands != [] {
      var n := |commands| - 1;
      var g := ReceiveAll(h, id, commands[..n]);
      ReceiveAllKeeps(h, id, commands[..n]);
      StepKeeps(g, Event.Command(id, commands[n]));
      CommandTick(g, id, commands[n]);
    }
  }

  lemma CommandTick(h: Hub, id: Id, cmd: Command)
    requires Inv(h)
    ensures Step(h, Event.Command(id, cmd)).tick == h.tick
  {
    if Live(h, id) && !(cmd.MyNick? && Rank(h.conns[id].state) <= Rank(KeyOrSup)) {
      ProcessKeeps(h, id, cmd);
    }
  }

  // ---------- the deadlines ----------

  /** A connection has not outstayed its state.  The three states that a pass itself can lead to are given
      until the next pass. */
  ghost predicate InTime(before: State, c: Conn, tick: nat) {
    match c.state
    case Accepted => tick == c.logon
    case KeyOrSup => before == KeyOrSup ==> tick <= c.logon + 20
    case Validate => tick <= c.logon + 60
    case VersionOrMyPass => tick <= c.logon + 60
    case GetNickListOrMyInfo => tick <= c.logon + 60
    case Ipv4Check => tick <= c.probe + 10
    case AddMe => before != AddMe
    case AddMe1Loop => before == AddMe1Loop ==> tick <= c.logon + 300
    case _ => true
  }

  /** The five ways in which the loop moves a connection. */
  ghost predicate Own(e: Event, id: Id) {
    e == SendLock(id) || e == Drop(id) || e == ProbeTimeout(id) || e == Advance(id) || e == Finish(id)
  }

  ghost function StateAfter(e: Event, s: State): State {
    match e
    case SendLock(_) => if s == Accepted then KeyOrSup else s
    case Drop(_) => if IsPastLogin(s) then s else Closing
    case ProbeTimeout(_) => if s == Ipv4Check then AddMe else s
    case Advance(_) => Advanced(s)
    case Finish(_) => if s == Closing then Remme else s
    case _ => s
  }

  lemma OwnStep(h: Hub, e: Event, id: Id)
    requires Own(e, id) && id in h.conns
    ensures var g, c := Step(h, e), h.conns[id];
            && g.tick == h.tick && g.conns.Keys <= h.conns.Keys
            && (forall i :: i in g.conns && i != id ==> g.conns[i] == h.conns[i])
            && (id in g.conns ==> g.conns[id] == c.(state := StateAfter(e, c.state)) && !(e.Finish? && c.state == Remme))
  {
  }

  lemma DecideKeeps(h: Hub, id: Id, v: Visit)
    requires Inv(h)
    ensures Inv(Decide(h, id, v)) && Decide(h, id, v).tick == h.tick
  {
    if id in h.conns && Due(h, h.conns[id], id, v).Some? {
      var e := Due(h, h.conns[id], id, v).value;
      assert Own(e, id);
      OwnStep(h, e, id);
      StepKeeps(h, e);
    }
  }

  lemma DueInTime(before: State, h: Hub, c: Conn, id: Id, v: Visit)
    requires Rank(before) <= Rank(c.state)
    ensures match Due(h, c, id, v)
            case None => c.state != Remme && InTime(before, c, h.tick)
            case Some(e) =>
              var s := StateAfter(e, c.state);
              Own(e, id) && Rank(c.state) <= Rank(s) &&
              ((e.Finish? && c.state == Remme) || InTime(before, c.(state := s), h.tick))
  {
  }

  lemma DueDecides(before: State, h: Hub, id: Id, v: Visit)
    requires id in h.conns && id < h.next && Rank(before) <= Rank(h.conns[id].state)
    ensures var g := Decide(h, id, v);
            id in g.conns ==> InTime(before, g.conns[id], g.tick) && Rank(before) <= Rank(g.conns[id].state)
  {
    var c := h.conns[id];
    DueInTime(before, h, c, id, v);
    if Due(h, c, id, v).Some? {
      OwnStep(h, Due(h, c, id, v).value, id);
    }
  }

  /** What another connection's turn can do to a connection: nothing, close it, or tell that its probe was
      answered. */
  ghost predicate Aside(c: Conn, d: Conn) {
    d == c || (d.state == Closing && c.state != Remme) || (c.state == Ipv4Check && d.state == AddMe)
  }

  lemma AsideStaysInTime(before: State, c: Conn, d: Conn, tick: nat)
    requires Aside(c, d) && InTime(before, c, tick) && Rank(before) <= Rank(c.state)
    ensures InTime(before, d, tick)
  {
  }

  lemma CommandAside(h: Hub, id: Id, cmd: Command, i: Id)
    requires Inv(h) && Live(h, id) && i in h.conns && i != id
    ensures i in Process(h, id, cmd).conns && Aside(h.conns[i], Process(h, id, cmd).conns[i])
  {
    if cmd.MyNick? && Rank(h.conns[id].state) <= Rank(KeyOrSup) {
      assert Process(h, id, cmd) == DoMyNick(h, id, cmd.target, cmd.good);
    } else {
      ProcessKeeps(h, id, cmd);
      assert OthersKept(h, Process(h, id, cmd), id);
    }
  }

  /** The turn of connection id leaves i aside, and brings nobody new. */
  ghost predicate LeavesAside(h: Hub, g: Hub, id: Id) {
    g.conns.Keys <= h.conns.Keys && forall i :: i in g.conns && i != id ==> Aside(h.conns[i], g.conns[i])
  }

  lemma AsideCompose(h: Hub, g: Hub, k: Hub, id: Id)
    requires LeavesAside(h, g, id) && LeavesAside(g, k, id)
    ensures LeavesAside(h, k, id)
  {
    forall i | i in k.conns && i != id
      ensures Aside(h.conns[i], k.conns[i])
    {
      assert Aside(h.conns[i], g.conns[i]) && Aside(g.conns[i], k.conns[i]);
    }
  }

  lemma CommandLeaves(h: Hub, id: Id, cmd: Command)
    requires Inv(h)
    ensures var g := Step(h, Event.Command(id, cmd));
            g.conns.Keys == h.conns.Keys && LeavesAside(h, g, id) && (id in h.conns ==> Rank(h.conns[id].state) <= Rank(g.conns[id].state))
  {
    StepKeeps(h, Event.Command(id, cmd));
    if Live(h, id) {
      var g := Process(h, id, cmd);
      CommandKeys(h, id, cmd);
      forall i | i in g.conns && i != id
        ensures Aside(h.conns[i], g.conns[i])
      {
        CommandAside(h, id, cmd, i);
      }
    }
  }

  lemma CommandKeys(h: Hub, id: Id, cmd: Command)
    requires Inv(h) && Live(h, id)
    ensures Process(h, id, cmd).conns.Keys == h.conns.Keys
  {
    if cmd.MyNick? && Rank(h.conns[id].state) <= Rank(KeyOrSup) {
      assert Process(h, id, cmd) == DoMyNick(h, id, cmd.target, cmd.good);
    } else {
      ProcessKeeps(h, id, cmd);
    }
  }

  lemma {:induction false} ReceiveAllLeaves(h: Hub, id: Id, commands: seq<Command>)
    requires Inv(h)
    ensures var g := ReceiveAll(h, id, commands);
            g.conns.Keys == h.conns.Keys && LeavesAside(h, g, id) && (id in h.conns ==> Rank(h.conns[id].state) <= Rank(g.conns[id].state))
    decreases |commands|
  {
    if commands != [] {
      var n := |commands| - 1;
      var g := ReceiveAll(h, id, commands[..n]);
      ReceiveAllKeeps(h, id, commands[..n]);
      ReceiveAllLeaves(h, id, commands[..n]);
      CommandLeaves(g, id, commands[n]);
      AsideCompose(h, g, ReceiveAll(h, id, commands), id);
    }
  }

  lemma DecideLeaves(h: Hub, id: Id, v: Visit)
    requires Inv(h)
    ensures LeavesAside(h, Decide(h, id, v), id)
  {
    if id in h.conns && Due(h, h.conns[id], id, v).Some? {
      var e := Due(h, h.conns[id], id, v).value;
      assert Own(e, id);
      OwnStep(h, e, id);
    }
  }

  /** One connection's turn: it ends in time itself and does not put others out of time. */
  lemma VisitInTime(before: State, h: Hub, id: Id, v: Visit)
    requires Inv(h) && (id in h.conns ==> Rank(before) <= Rank(h.conns[id].state))
    ensures var g := VisitOne(h, id, v);
            && Inv(g) && g.tick == h.tick && LeavesAside(h, g, id)
            && (id in g.conns ==> InTime(before, g.conns[id], g.tick) && Rank(before) <= Rank(g.conns[id].state))
  {
    var g := ReceiveAll(h, id, v.commands);
    ReceiveAllKeeps(h, id, v.commands);
    ReceiveAllLeaves(h, id, v.commands);
    DecideKeeps(g, id, v);
    DecideLeaves(g, id, v);
    AsideCompose(h, g, Decide(g, id, v), id);
    if id in g.conns {
      DueDecides(before, g, id, v);
    }
  }

  /** What holds after some of the connections had their turn. */
  ghost predicate PassedOver(h: Hub, g: Hub, ids: seq<Id>) {
    && Inv(g) && g.tick == h.tick && g.conns.Keys <= h.conns.Keys
    && (forall i :: i in g.conns ==> Rank(h.conns[i].state) <= Rank(g.conns[i].state))
    && (forall i :: i in g.conns && i in ids ==> InTime(h.conns[i].state, g.conns[i], g.tick))
  }

  lemma NextPassedOver(h: Hub, g: Hub, ids: seq<Id>, id: Id, v: Visit)
    requires PassedOver(h, g, ids)
    ensures PassedOver(h, VisitOne(g, id, v), ids + [id])
  {
    var before := if id in h.conns then h.conns[id].state else Accepted;
    VisitInTime(before, g, id, v);
    ExtendPassedOver(h, g, VisitOne(g, id, v), ids, id);
  }

  lemma ExtendPassedOver(h: Hub, g: Hub, k: Hub, ids: seq<Id>, id: Id)
    requires PassedOver(h, g, ids) && Inv(k) && k.tick == g.tick && LeavesAside(g, k, id)
    requires id in k.conns && id in h.conns ==>
               InTime(h.conns[id].state, k.conns[id], k.tick) && Rank(h.conns[id].state) <= Rank(k.conns[id].state)
    ensures PassedOver(h, k, ids + [id])
  {
    forall i | i in k.conns
      ensures Rank(h.conns[i].state) <= Rank(k.conns[i].state)
      ensures i in ids + [id] ==> InTime(h.conns[i].state, k.conns[i], k.tick)
    {
      if i != id {
        AsideRank(g.conns[i], k.conns[i]);
        if i in ids {
          AsideStaysInTime(h.conns[i].state, g.conns[i], k.conns[i], g.tick);
        }
      }
    }
  }

  lemma AsideRank(c: Conn, d: Conn)
    requires Aside(c, d)
    ensures Rank(c.state) <= Rank(d.state)
  {
  }

  lemma {:induction false} PassPassesOver(h: Hub, ids: seq<Id>, visits: seq<Visit>)
    requires Inv(h) && |ids| == |visits|
    ensures PassedOver(h, Pass(h, ids, visits), ids)
    decreases |ids|
  {
    if ids != [] {
      var n := |ids| - 1;
      PassPassesOver(h, ids[..n], visits[..n]);
      NextPassedOver(h, Pass(h, ids[..n], visits[..n]), ids[..n], ids[n], visits[n]);
      assert ids[..n] + [ids[n]] == ids;
    }
  }

  ghost predicate DeadlinesKept(h: Hub, g: Hub) {
    forall i :: i in g.conns ==> i in h.conns && InTime(h.conns[i].state, g.conns[i], g.tick)
  }

  /** After a pass over all connections, whatever arrived and in whatever order they stand: nobody has
      waited for the lock, nobody waits for $Key or $Supports for more than 20 seconds, nobody is on the way
      to $MyINFO for more than 60 or waits for its probe for more than 10, nobody admitted stays where it was, and no
      delayed login is older than 300; each of them has gone on or was closed. */
  lemma PassKeepsDeadlines(h: Hub, ids: seq<Id>, visits: seq<Visit>)
    requires Inv(h) && |ids| == |visits| && forall i :: i in h.conns ==> i in ids
    ensures Inv(Pass(h, ids, visits)) && DeadlinesKept(h, Pass(h, ids, visits))
  {
    PassPassesOver(h, ids, visits);
  }

  // ---------- nobody is closed early ----------

  /** The limit of a state has been exceeded, or no lock could be made. */
  ghost predicate Overdue(c: Conn, tick: nat, v: Visit) {
    match c.state
    case Accepted => tick != c.logon && !v.lockMade
    case KeyOrSup => tick > c.logon + 20
    case Validate => tick > c.logon + 60
    case VersionOrMyPass => tick > c.logon + 60
    case GetNickListOrMyInfo => tick > c.logon + 60
    case AddMe1Loop => v.delayed && tick > c.logon + 300
    case AddMe2Loop => tick > c.logon + 60
    case _ => false
  }

  /** The decision closes a live connection if and only if it is overdue. */
  lemma DecideClosesExactly(h: Hub, id: Id, v: Visit)
    requires Live(h, id)
    ensures id in Decide(h, id, v).conns
    ensures IsPastLogin(Decide(h, id, v).conns[id].state) <==> Overdue(h.conns[id], h.tick, v)
  {
  }

  lemma QuietVisit(h: Hub, id: Id, v: Visit, i: Id)
    requires v.commands == [] && i in h.conns && i != id
    ensures var g := VisitOne(h, id, v); g.tick == h.tick && i in g.conns && g.conns[i] == h.conns[i]
  {
    if id in h.conns && Due(h, h.conns[id], id, v).Some? {
      var e := Due(h, h.conns[id], id, v).value;
      assert Own(e, id);
      OthersStand(h, e, id, i);
    }
  }

  lemma OthersStand(h: Hub, e: Event, id: Id, i: Id)
    requires Own(e, id) && id in h.conns && i in h.conns && i != id
    ensures var g := Step(h, e); g.tick == h.tick && i in g.conns && g.conns[i] == h.conns[i]
  {
  }

  lemma OwnVisit(h: Hub, id: Id, v: Visit)
    requires v.commands == [] && Live(h, id)
    ensures var g := VisitOne(h, id, v);
            g.tick == h.tick && id in g.conns && (IsPastLogin(g.conns[id].state) <==> Overdue(h.conns[id], h.tick, v))
  {
    DecideClosesExactly(h, id, v);
    if Due(h, h.conns[id], id, v).Some? {
      OwnStep(h, Due(h, h.conns[id], id, v).value, id);
    }
  }

  ghost predicate Distinct(ids: seq<Id>) {
    forall j, k :: 0 <= j < k < |ids| ==> ids[j] != ids[k]
  }

  lemma {:induction false} QuietPass(h: Hub, ids: seq<Id>, visits: seq<Visit>, i: Id)
    requires |ids| == |visits| && i in h.conns && i !in ids
    requires forall k :: 0 <= k < |visits| ==> visits[k].commands == []
    ensures var g := Pass(h, ids, visits); g.tick == h.tick && i in g.conns && g.conns[i] == h.conns[i]
    decreases |ids|
  {
    if ids != [] {
      var n := |ids| - 1;
      QuietPass(h, ids[..n], visits[..n], i);
      QuietVisit(Pass(h, ids[..n], visits[..n]), ids[n], visits[n], i);
    }
  }

  /** A pass over distinct users in which nobody says anything closes exactly those who are overdue when it
      comes by them: nobody is closed early. */
  lemma {:induction false} PassClosesExactly(h: Hub, ids: seq<Id>, visits: seq<Visit>, k: nat)
    requires |ids| == |visits| && Distinct(ids) && k < |ids| && Live(h, ids[k])
    requires forall j :: 0 <= j < |visits| ==> visits[j].commands == []
    ensures var g := Pass(h, ids, visits);
            g.tick == h.tick && ids[k] in g.conns &&
            (IsPastLogin(g.conns[ids[k]].state) <==> Overdue(h.conns[ids[k]], h.tick, visits[k]))
    decreases |ids|
  {
    var n := |ids| - 1;
    var g := Pass(h, ids[..n], visits[..n]);
    if k == n {
      QuietPass(h, ids[..n], visits[..n], ids[k]);
      OwnVisit(g, ids[k], visits[k]);
    } else {
      PassClosesExactly(h, ids[..n], visits[..n], k);
      QuietVisit(g, ids[n], visits[n], ids[k]);
    }
  }

  // ---------- a pass is a run ----------

  lemma {:induction false} RunConcat(h: Hub, es: seq<Event>, fs: seq<Event>)
    ensures Run(h, es + fs) == Run(Run(h, es), fs)
    decreases |es|
  {
    if es == [] {
      assert [] + fs == fs;
    } else {
      assert (es + fs)[0] == es[0] && (es + fs)[1..] == es[1..] + fs;
      RunConcat(Step(h, es[0]), es[1..], fs);
    }
  }

  lemma AndThen(h: Hub, es: seq<Event>, e: Event)
    ensures Run(h, es + [e]) == Step(Run(h, es), e)
  {
    RunConcat(h, es, [e]);
    assert [e][1..] == [];
    assert Run(Run(h, es), [e]) == Run(Step(Run(h, es), e), []);
  }

  lemma {:induction false} ReceiveAllIsRun(h: Hub, id: Id, commands: seq<Command>) returns (es: seq<Event>)
    ensures Run(h, es) == ReceiveAll(h, id, commands)
    decreases |commands|
  {
    if commands == [] {
      es := [];
    } else {
      var n := |commands| - 1;
      var front := ReceiveAllIsRun(h, id, commands[..n]);
      var e := Event.Command(id, commands[n]);
      AndThen(h, front, e);
      es := front + [e];
    }
  }

  lemma VisitIsRun(h: Hub, id: Id, v: Visit) returns (es: seq<Event>)
    ensures Run(h, es) == VisitOne(h, id, v)
  {
    es := ReceiveAllIsRun(h, id, v.commands);
    var g := ReceiveAll(h, id, v.commands);
    if id in g.conns && Due(g, g.conns[id], id, v).Some? {
      var e := Due(g, g.conns[id], id, v).value;
      AndThen(h, es, e);
      es := es + [e];
    }
  }

  /** So everything that is proved about runs holds of passes. */
  lemma {:induction false} PassIsRun(h: Hub, ids: seq<Id>, visits: seq<Visit>) returns (es: seq<Event>)
    requires |ids| == |visits|
    ensures Run(h, es) == Pass(h, ids, visits)
    decreases |ids|
  {
    if ids == [] {
      es := [];
    } else {
      var n := |ids| - 1;
      var front := PassIsRun(h, ids[..n], visits[..n]);
      var last := VisitIsRun(Pass(h, ids[..n], visits[..n]), ids[n], visits[n]);
      RunConcat(h, front, last);
      es := front + last;
    }
  }

  // ---------- the send loop ----------

  /** A user that has been announced gets its lists and is in. */
  function Welcome(h: Hub, id: Id): Hub {
    if id in h.conns && h.conns[id].state == AddMe2Loop then Step(h, Advance(id)) else h
  }

  function SendPass(h: Hub, ids: seq<Id>): Hub
    decreases |ids|
  {
    if ids == [] then h else Welcome(SendPass(h, ids[..|ids| - 1]), ids[|ids| - 1])
  }

  lemma WelcomeKeeps(h: Hub, id: Id)
    requires Inv(h)
    ensures var g := Welcome(h, id);
            && Inv(g) && g.conns.Keys == h.conns.Keys
            && (forall i :: i in h.conns && i != id ==> g.conns[i] == h.conns[i])
            && (id in h.conns ==> g.conns[id] == Welcomed(h.conns[id]))
  {
    if id in h.conns && h.conns[id].state == AddMe2Loop {
      OwnStep(h, Advance(id), id);
      StepKeeps(h, Advance(id));
    }
  }

  function Welcomed(c: Conn): Conn {
    if c.state == AddMe2Loop then c.(state := Added) else c
  }

  /** Nobody is left between two loops, so that the receiving loop never sees the last login state. */
  lemma {:induction false} SendPassAdds(h: Hub, ids: seq<Id>)
    requires Inv(h)
    ensures var g := SendPass(h, ids);
            && Inv(g) && g.conns.Keys == h.conns.Keys
            && forall i :: i in h.conns ==> g.conns[i] == if i in ids then Welcomed(h.conns[i]) else h.conns[i]
    decreases |ids|
  {
    if ids != [] {
      var n := |ids| - 1;
      SendPassAdds(h, ids[..n]);
      WelcomeKeeps(SendPass(h, ids[..n]), ids[n]);
      assert ids == ids[..n] + [ids[n]];
    }
  }

  lemma SendNext(h: Hub, ids: seq<Id>, k: nat)
    requires k < |ids|
    ensures SendPass(h, ids[..k + 1]) == Welcome(SendPass(h, ids[..k]), ids[k])
  {
    assert ids[..k + 1][..k] == ids[..k];
  }

  /** Nobody waits to be let in. */
  ghost predicate AllIn(h: Hub) {
    forall i :: i in h.conns ==> h.conns[i].state != AddMe2Loop
  }

  lemma SendPassLetsIn(h: Hub, ids: seq<Id>)
    requires Inv(h) && forall i :: i in h.conns ==> i in ids
    ensures Inv(SendPass(h, ids)) && AllIn(SendPass(h, ids))
  {
    SendPassAdds(h, ids);
  }
}

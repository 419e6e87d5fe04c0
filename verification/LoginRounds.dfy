/** The service loop over whole runs: passes of both loops with seconds, new connections and registrations
    in between, and how long a login can take (core/serviceLoop.cpp). */
module LoginRounds {
  import opened LoginProtocol
  import opened LoginLoop

  /** What happens before a pass, and what the pass finds. */
  datatype Round = Round(between: seq<Event>, ids: seq<Id>, visits: seq<Visit>)

  function Done(h: Hub, r: Round): Hub
    requires |r.ids| == |r.visits|
  {
    SendPass(LoginLoop.Pass(Run(h, r.between), r.ids, r.visits), r.ids)
  }

  predicate Outside(e: Event) {
    e.Accept? || e.Second? || e.SetReg? || e.OfferReg? || e.Drop?
  }

  function Seconds(es: seq<Event>): nat {
    if es == [] then 0 else (if es[0].Second? then 1 else 0) + Seconds(es[1..])
  }

  /** At most gap seconds go by before the pass, which comes by everybody. */
  ghost predicate Prompt(h: Hub, r: Round, gap: nat) {
    |r.ids| == |r.visits| && Seconds(r.between) <= gap && (forall e :: e in r.between ==> Outside(e)) &&
    forall i :: i in Run(h, r.between).conns ==> i in r.ids
  }

  function Max(a: nat, b: nat): nat {
    if a < b then b else a
  }

  /** The age of a connection when it was asked to connect over IPv4 as well. */
  function ProbeAge(gap: nat): nat {
    Max(60, gap) + gap
  }

  /** The age of a connection that is still in the login. */
  function LoginAge(gap: nat): nat {
    Max(300, ProbeAge(gap) + 10 + 2 * gap)
  }

  /** How old a connection can be in its state, `late` seconds after a pass, when passes are at most gap
      seconds apart. */
  ghost predicate OnTime(c: Conn, tick: nat, gap: nat, late: nat) {
    match c.state
    case Accepted => tick <= c.logon + late
    case KeyOrSup => tick <= c.logon + Max(20, gap) + late
    case Validate => tick <= c.logon + 60 + late
    case VersionOrMyPass => tick <= c.logon + 60 + late
    case GetNickListOrMyInfo => tick <= c.logon + 60 + late
    case Ipv4Check => tick <= c.probe + 10 + late && c.probe <= c.logon + ProbeAge(gap)
    case AddMe => tick <= c.logon + ProbeAge(gap) + 10 + gap + late
    case AddMe1Loop => tick <= c.logon + LoginAge(gap) + late
    case AddMe2Loop => false
    case _ => true
  }

  ghost predicate AllOnTime(h: Hub, gap: nat, late: nat) {
    forall i :: i in h.conns ==> OnTime(h.conns[i], h.tick, gap, late)
  }

  // ---------- between two passes ----------

  /** Nothing that the deadlines speak of has changed, or the connection was closed. */
  ghost predicate SameAge(c: Conn, d: Conn) {
    (d.state == c.state && d.logon == c.logon && d.probe == c.probe) || IsPastLogin(d.state)
  }

  ghost predicate SameAges(h: Hub, g: Hub) {
    forall i :: i in g.conns ==>
      if i in h.conns then SameAge(h.conns[i], g.conns[i]) else g.conns[i].state == Accepted && g.conns[i].logon == h.tick
  }

  lemma CloseAges(h: Hub, id: Id)
    requires id in h.conns
    ensures SameAges(h, Close(h, id)) && Close(h, id).tick == h.tick
  {
  }

  lemma OfferAges(h: Hub, nick: string)
    ensures SameAges(h, OfferTo(h, nick)) && OfferTo(h, nick).tick == h.tick
  {
  }

  lemma AcceptAges(h: Hub, ip: string)
    requires Inv(h)
    ensures SameAges(h, Step(h, Accept(ip))) && Step(h, Accept(ip)).tick == h.tick
  {
  }

  lemma EventAges(h: Hub, e: Event)
    requires Inv(h) && Outside(e)
    ensures var g := Step(h, e); SameAges(h, g) && g.tick == h.tick + if e.Second? then 1 else 0
  {
    match e {
      case Accept(ip) => AcceptAges(h, ip);
      case OfferReg(nick) => OfferAges(h, nick);
      case Drop(id) =>
        if id in h.conns {
          CloseAges(h, id);
        }
      case _ =>
    }
  }

  lemma SameAgeOnTime(c: Conn, d: Conn, tick: nat, gap: nat, late: nat, extra: nat)
    requires SameAge(c, d) && OnTime(c, tick, gap, late)
    ensures OnTime(d, tick + extra, gap, late + extra)
  {
  }

  lemma EventOnTime(h: Hub, e: Event, gap: nat, late: nat)
    requires Inv(h) && AllOnTime(h, gap, late) && Outside(e)
    ensures Inv(Step(h, e)) && AllOnTime(Step(h, e), gap, late + if e.Second? then 1 else 0)
  {
    var g, extra := Step(h, e), if e.Second? then 1 else 0;
    StepKeeps(h, e);
    EventAges(h, e);
    forall i | i in g.conns
      ensures OnTime(g.conns[i], g.tick, gap, late + extra)
    {
      if i in h.conns {
        SameAgeOnTime(h.conns[i], g.conns[i], h.tick, gap, late, extra);
      }
    }
  }

  /** At every moment between two passes nobody is later than the seconds since the first. */
  lemma {:induction false} BetweenOnTime(h: Hub, es: seq<Event>, gap: nat, late: nat)
    requires Inv(h) && AllOnTime(h, gap, late) && forall e :: e in es ==> Outside(e)
    ensures Inv(Run(h, es)) && AllOnTime(Run(h, es), gap, late + Seconds(es))
    decreases |es|
  {
    if es != [] {
      EventOnTime(h, es[0], gap, late);
      BetweenOnTime(Step(h, es[0]), es[1..], gap, late + if es[0].Second? then 1 else 0);
    }
  }

  // ---------- a pass ----------

  lemma ProbeStays(h: Hub, e: Event, id: Id)
    requires Inv(h) && id in h.conns && id in Step(h, e).conns
    requires h.conns[id].state == Ipv4Check && Step(h, e).conns[id].state == Ipv4Check
    ensures Step(h, e).conns[id].probe == h.conns[id].probe
  {
    if e.Command? {
      if Live(h, e.id) && e.id != id {
        OtherProbeStays(h, e.id, e.cmd, id);
      } else if e.id == id {
        OwnProbeStays(h, id, e.cmd);
      }
    }
  }

  lemma OtherProbeStays(h: Hub, id: Id, cmd: Command, i: Id)
    requires Inv(h) && Live(h, id) && i in h.conns && i != id
    requires i in Process(h, id, cmd).conns && h.conns[i].state == Process(h, id, cmd).conns[i].state == Ipv4Check
    ensures Process(h, id, cmd).conns[i].probe == h.conns[i].probe
  {
    CommandAside(h, id, cmd, i);
  }

  lemma OwnProbeStays(h: Hub, id: Id, cmd: Command)
    requires Live(h, id) && h.conns[id].state == Ipv4Check
    ensures Process(h, id, cmd).conns[id].probe == h.conns[id].probe
  {
  }

  lemma RankTells(s: State, t: State)
    requires Rank(s) == Rank(t)
    ensures s == t
  {
  }

  lemma {:induction false} RunProbeStays(h: Hub, es: seq<Event>, id: Id)
    requires Inv(h) && id in h.conns && id in Run(h, es).conns
    requires h.conns[id].state == Ipv4Check && Run(h, es).conns[id].state == Ipv4Check
    ensures Run(h, es).conns[id].probe == h.conns[id].probe
    decreases |es|
  {
    if es != [] {
      var g := Step(h, es[0]);
      assert Run(h, es) == Run(g, es[1..]);
      FirstMoves(h, es, id, g);
      RunMoves(g, es[1..], id);
      RankTells(g.conns[id].state, Ipv4Check);
      ProbeStays(h, es[0], id);
      RunProbeStays(g, es[1..], id);
    }
  }

  /** What a pass does to the age of a connection. */
  ghost predicate Passed(c: Conn, d: Conn, tick: nat) {
    InTime(c.state, d, tick) && Rank(c.state) <= Rank(d.state) && d.logon == c.logon &&
    (d.state == Ipv4Check ==> d.probe <= tick && (c.state == Ipv4Check ==> d.probe == c.probe))
  }

  lemma PassedOnTime(c: Conn, d: Conn, tick: nat, gap: nat, late: nat)
    requires OnTime(c, tick, gap, late) && late <= gap && Passed(c, d, tick)
    ensures d.state == AddMe2Loop || OnTime(d, tick, gap, 0)
  {
  }

  lemma PassAges(h: Hub, ids: seq<Id>, visits: seq<Visit>, i: Id)
    requires Inv(h) && |ids| == |visits| && i in ids && i in LoginLoop.Pass(h, ids, visits).conns
    ensures var g := LoginLoop.Pass(h, ids, visits);
            Inv(g) && g.tick == h.tick && i in h.conns && Passed(h.conns[i], g.conns[i], g.tick)
  {
    var g := LoginLoop.Pass(h, ids, visits);
    PassPassesOver(h, ids, visits);
    var es := PassIsRun(h, ids, visits);
    RunMoves(h, es, i);
    assert Healthy(g.conns[i], g.tick);
    if h.conns[i].state == Ipv4Check && g.conns[i].state == Ipv4Check {
      RunProbeStays(h, es, i);
    }
  }

  /** Nobody but those who are about to be let in is late. */
  ghost predicate OnTimeOrIn(h: Hub, gap: nat) {
    forall i :: i in h.conns ==> h.conns[i].state == AddMe2Loop || OnTime(h.conns[i], h.tick, gap, 0)
  }

  lemma PassOnTime(h: Hub, ids: seq<Id>, visits: seq<Visit>, gap: nat, late: nat)
    requires Inv(h) && |ids| == |visits| && forall i :: i in h.conns ==> i in ids
    requires AllOnTime(h, gap, late) && late <= gap
    ensures var g := LoginLoop.Pass(h, ids, visits);
            Inv(g) && g.tick == h.tick && g.conns.Keys <= h.conns.Keys && OnTimeOrIn(g, gap)
  {
    var g := LoginLoop.Pass(h, ids, visits);
    PassPassesOver(h, ids, visits);
    forall i | i in g.conns
      ensures g.conns[i].state == AddMe2Loop || OnTime(g.conns[i], g.tick, gap, 0)
    {
      PassAges(h, ids, visits, i);
      PassedOnTime(h.conns[i], g.conns[i], g.tick, gap, late);
    }
  }

  lemma SendOnTime(h: Hub, ids: seq<Id>, gap: nat)
    requires Inv(h) && OnTimeOrIn(h, gap) && forall i :: i in h.conns ==> i in ids
    ensures Inv(SendPass(h, ids)) && AllOnTime(SendPass(h, ids), gap, 0)
  {
    SendPassAdds(h, ids);
    SendPassTick(h, ids);
  }

  lemma {:induction false} SendPassTick(h: Hub, ids: seq<Id>)
    ensures SendPass(h, ids).tick == h.tick
    decreases |ids|
  {
    if ids != [] {
      SendPassTick(h, ids[..|ids| - 1]);
    }
  }

  // ---------- whole runs ----------

  lemma RoundOnTime(h: Hub, r: Round, gap: nat)
    requires Inv(h) && AllOnTime(h, gap, 0) && Prompt(h, r, gap)
    ensures Inv(Done(h, r)) && AllOnTime(Done(h, r), gap, 0)
  {
    var g := Run(h, r.between);
    BetweenOnTime(h, r.between, gap, 0);
    PassOnTime(g, r.ids, r.visits, gap, Seconds(r.between));
    SendOnTime(LoginLoop.Pass(g, r.ids, r.visits), r.ids, gap);
  }

  ghost predicate AllPrompt(h: Hub, rs: seq<Round>, gap: nat)
    decreases |rs|
  {
    rs == [] || (Prompt(h, rs[0], gap) && AllPrompt(Done(h, rs[0]), rs[1..], gap))
  }

  ghost function Rounds(h: Hub, rs: seq<Round>, gap: nat): Hub
    requires AllPrompt(h, rs, gap)
    decreases |rs|
  {
    if rs == [] then h else Rounds(Done(h, rs[0]), rs[1..], gap)
  }

  /** Over every run of passes at most gap seconds apart, whatever arrives and whoever comes or is dropped
      in between, every connection is within the limit of its state after each pass. */
  lemma {:induction false} RoundsKeepDeadlines(h: Hub, rs: seq<Round>, gap: nat)
    requires Inv(h) && AllOnTime(h, gap, 0) && AllPrompt(h, rs, gap)
    ensures Inv(Rounds(h, rs, gap)) && AllOnTime(Rounds(h, rs, gap), gap, 0)
    decreases |rs|
  {
    if rs != [] {
      RoundOnTime(h, rs[0], gap);
      RoundsKeepDeadlines(Done(h, rs[0]), rs[1..], gap);
    }
  }

  /** So a login ends: from the start of the hub, whoever is neither in the user list nor closed has come at
      most 300 seconds before the last pass, or Max(60, gap) + 10 + 3 * gap if that is more, and the seconds
      since then are added. */
  lemma LoginsEnd(rs: seq<Round>, es: seq<Event>, gap: nat, id: Id)
    requires AllPrompt(EMPTY, rs, gap) && forall e :: e in es ==> Outside(e)
    ensures var h := Run(Rounds(EMPTY, rs, gap), es);
            Live(h, id) && h.conns[id].state != Added ==>
              h.tick <= h.conns[id].logon + Max(300, Max(60, gap) + 10 + 3 * gap) + Seconds(es)
  {
    EmptyKeeps();
    RoundsKeepDeadlines(EMPTY, rs, gap);
    BetweenOnTime(Rounds(EMPTY, rs, gap), es, gap, 0);
  }
}

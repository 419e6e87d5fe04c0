/** Feature negotiation: parsing $Supports in place and answering it (Supports and ProcessCmds,
    core/DcCommands.cpp). */
module Supports {
  import Sequences

  datatype Feature =
    | NoHello | NoGetINFO | QuickList | HubURL | UserCommand | UserIP2 | ZPipe | ZPipe0 | IP64 | IPv4 | TLS2 | ExtJSON2
    | Pinger | QuackSupports | HaveSupports

  datatype Fault = Flood | TooShort | Quack | Corrupted | PingerRefused

  datatype Status = Open | Closed(fault: Fault)

  /** What a $Supports command changes: the bits of the connection, whether it is closed, and the count of
      connections that compress. */
  datatype Session = Session(bits: set<Feature>, status: Status, zpipes: nat)

  const TEXT: nat := 10
  const SHORTEST: nat := 13

  // ---------- tokens ----------

  /** Space-separated tokens; a trailing space does not start a further one. */
  function Tokens(s: string): seq<string> {
    if s == "" then []
    else
      var p := Sequences.FirstOf(s, ' ');
      if p == |s| then [s] else [s[..p]] + Tokens(s[p + 1..])
  }

  function Join(ts: seq<string>): string {
    if ts == [] then "" else if |ts| == 1 then ts[0] else ts[0] + (" " + Join(ts[1..]))
  }

  lemma FirstSpaceIs(s: string, p: nat)
    requires p <= |s| && (p < |s| ==> s[p] == ' ') && forall j :: 0 <= j < p ==> s[j] != ' '
    ensures Sequences.FirstOf(s, ' ') == p
  {
  }

  /** Splitting undoes joining, for any tokens of which the last is not empty. */
  lemma {:induction false} TokensOfJoin(ts: seq<string>)
    requires forall t :: t in ts ==> ' ' !in t
    requires ts != [] ==> ts[|ts| - 1] != ""
    ensures Tokens(Join(ts)) == ts
  {
    if |ts| == 1 {
      assert ' ' !in ts[0];
      FirstSpaceIs(ts[0], |ts[0]|);
    } else if ts != [] {
      var rest := ts[1..];
      assert rest[|rest| - 1] == ts[|ts| - 1];
      TokensOfJoin(rest);
      FirstToken(ts[0], Join(rest));
      assert [ts[0]] + rest == ts;
    }
  }

  lemma FirstToken(t: string, rest: string)
    requires ' ' !in t
    ensures Tokens(t + (" " + rest)) == [t] + Tokens(rest)
  {
    var s := t + (" " + rest);
    assert s[|t|] == ' ' && s[..|t|] == t && s[|t| + 1..] == rest;
    FirstSpaceIs(s, |t|);
  }

  // ---------- what tokens mean ----------

  /** The features a token names. */
  function Names(t: string): set<Feature> {
    if t == "NoHello" then {NoHello}
    else if t == "NoGetINFO" then {NoGetINFO}
    else if t == "QuickList" then {QuickList, NoHello}
    else if t == "HubURL" then {HubURL}
    else if t == "UserCommand" then {UserCommand}
    else if t == "UserIP2" then {UserIP2}
    else if t == "BotINFO" then {Pinger}
    else if t == "ZPipe0" then {ZPipe0, ZPipe}
    else if t == "ZPipe" then {ZPipe}
    else if t == "IP64" then {IP64}
    else if t == "IPv4" then {IPv4}
    else if t == "TLS2" then {TLS2}
    else if t == "ExtJSON2" then {ExtJSON2}
    else {}
  }

  function FaultOf(t: string, allowPingers: bool): Status {
    if t == "" || t[0] == '\0' then Closed(Corrupted)
    else if Pinger in Names(t) && !allowPingers then Closed(PingerRefused)
    else Open
  }

  /** One token: compression is settled by the first token that names it. */
  function Apply(u: Session, allowPingers: bool, t: string): Session {
    if u.status.Closed? then u
    else if FaultOf(t, allowPingers).Closed? && !(Pinger in Names(t) && Pinger in u.bits) then
      u.(status := FaultOf(t, allowPingers))
    else if ZPipe in Names(t) && ZPipe in u.bits then u
    else Session(u.bits + Names(t), Open, u.zpipes + (if ZPipe in Names(t) then 1 else 0))
  }

  function Fold(u: Session, allowPingers: bool, ts: seq<string>): Session
    decreases |ts|
  {
    if ts == [] then u else Fold(Apply(u, allowPingers, ts[0]), allowPingers, ts[1..])
  }

  /** The whole command, given the text between "$Supports " and the final pipe. */
  function Parse(u: Session, noQuack: bool, allowPingers: bool, len: nat, s: string): Session
    requires len >= SHORTEST ==> |s| == len - 1 - TEXT
  {
    if HaveSupports in u.bits then u.(status := Closed(Flood))
    else
      var v := u.(bits := u.bits + {HaveSupports});
      if len < SHORTEST then v.(status := Closed(TooShort))
      else if s[|s| - 1] == ' ' then
        if noQuack then v.(status := Closed(Quack))
        else Fold(v.(bits := v.bits + {QuackSupports}), allowPingers, Tokens(s))
      else Fold(v, allowPingers, Tokens(s))
  }

  // ---------- what a list of tokens means ----------

  ghost predicate Clean(ts: seq<string>, allowPingers: bool) {
    forall t :: t in ts ==> FaultOf(t, allowPingers).Open?
  }

  /** ZPipe0 is named before any ZPipe. */
  predicate ZPipe0First(ts: seq<string>) {
    ts != [] && (ts[0] == "ZPipe0" || (ts[0] != "ZPipe" && ZPipe0First(ts[1..])))
  }

  /** What the list names, whatever the order. */
  function Named(ts: seq<string>): set<Feature> {
    if ts == [] then {} else Names(ts[0]) + Named(ts[1..])
  }

  lemma ZPipeNames(t: string)
    ensures ZPipe in Names(t) <==> t == "ZPipe" || t == "ZPipe0"
    ensures ZPipe0 in Names(t) <==> t == "ZPipe0"
    ensures t == "ZPipe" || t == "ZPipe0" ==> Names(t) <= {ZPipe, ZPipe0}
  {
  }

  /** A list without faults leaves exactly the features its tokens name, in any order, except that ZPipe0
      counts only when it comes before every ZPipe; the connection is counted once. */
  lemma {:induction false} FoldMeans(u: Session, allowPingers: bool, ts: seq<string>)
    requires u.status.Open? && Clean(ts, allowPingers) && (ZPipe0 in u.bits ==> ZPipe in u.bits)
    ensures var r := Fold(u, allowPingers, ts);
            r.status.Open? &&
            r.bits - {ZPipe0} == u.bits + Named(ts) - {ZPipe0} &&
            (ZPipe0 in r.bits <==> ZPipe0 in u.bits || (ZPipe !in u.bits && ZPipe0First(ts))) &&
            r.zpipes == u.zpipes + (if ZPipe in r.bits && ZPipe !in u.bits then 1 else 0)
    decreases |ts|
  {
    if ts != [] {
      ZPipeNames(ts[0]);
      var next := Apply(u, allowPingers, ts[0]);
      FoldMeans(next, allowPingers, ts[1..]);
      var r := Fold(next, allowPingers, ts[1..]);
      assert ZPipe in r.bits <==> ZPipe in next.bits + Named(ts[1..]) - {ZPipe0} by {
        assert ZPipe in r.bits <==> ZPipe in r.bits - {ZPipe0};
      }
    }
  }

  lemma FoldClosed(u: Session, allowPingers: bool, ts: seq<string>)
    requires u.status.Closed?
    ensures Fold(u, allowPingers, ts) == u
  {
  }

  /** The first faulty token closes the connection, and only a faulty token does. */
  lemma {:induction false} ClosedExactly(u: Session, allowPingers: bool, ts: seq<string>)
    requires u.status.Open? && (Pinger in u.bits ==> allowPingers)
    ensures Fold(u, allowPingers, ts).status.Open? <==> Clean(ts, allowPingers)
    decreases |ts|
  {
    if ts != [] {
      var next := Apply(u, allowPingers, ts[0]);
      if next.status.Closed? {
        FoldClosed(next, allowPingers, ts[1..]);
        assert ts[0] in ts;
      } else {
        ClosedExactly(next, allowPingers, ts[1..]);
        assert forall t :: t in ts <==> t == ts[0] || t in ts[1..];
      }
    }
  }

  /** What every negotiation keeps. */
  ghost predicate Consistent(bits: set<Feature>, allowPingers: bool) {
    (QuickList in bits ==> NoHello in bits) && (ZPipe0 in bits ==> ZPipe in bits) && (Pinger in bits ==> allowPingers)
  }

  lemma {:induction false} FoldConsistent(u: Session, allowPingers: bool, ts: seq<string>)
    requires Consistent(u.bits, allowPingers)
    ensures Consistent(Fold(u, allowPingers, ts).bits, allowPingers)
    decreases |ts|
  {
    if ts != [] {
      FoldConsistent(Apply(u, allowPingers, ts[0]), allowPingers, ts[1..]);
    }
  }

  // ---------- the answer ----------

  /** The order in which the hub answers. */
  const ORDER: seq<Feature> :=
    [ZPipe0, ZPipe, QuickList, NoHello, NoGetINFO, ExtJSON2, HubURL, IP64, IPv4, UserCommand, UserIP2, TLS2, Pinger]

  /** Whether a feature is answered, to a client connected over IPv6 or not. */
  predicate Sent(f: Feature, bits: set<Feature>, ipv6: bool) {
    f in bits && match f
      case ZPipe => ZPipe0 !in bits
      case NoHello => QuickList !in bits
      case NoGetINFO => QuickList !in bits && NoHello !in bits
      case IPv4 => ipv6
      case UserIP2 => QuackSupports !in bits
      case QuackSupports => false
      case HaveSupports => false
      case _ => true
  }

  function WordsOf(f: Feature): seq<string> {
    match f
    case ZPipe0 => ["ZPipe0"]
    case ZPipe => ["ZPipe"]
    case QuickList => ["QuickList"]
    case NoHello => ["NoHello"]
    case NoGetINFO => ["NoGetINFO"]
    case ExtJSON2 => ["ExtJSON2"]
    case HubURL => ["HubURL"]
    case IP64 => ["IP64"]
    case IPv4 => ["IPv4"]
    case UserCommand => ["UserCommand"]
    case UserIP2 => ["UserIP2"]
    case TLS2 => ["TLS2"]
    case Pinger => ["BotINFO", "HubINFO"]
    case _ => []
  }

  function Answers(fs: seq<Feature>, bits: set<Feature>, ipv6: bool): seq<string> {
    if fs == [] then []
    else (if Sent(fs[0], bits, ipv6) then WordsOf(fs[0]) else []) + Answers(fs[1..], bits, ipv6)
  }

  function ReplyTokens(bits: set<Feature>, ipv6: bool): seq<string> {
    Answers(ORDER, bits, ipv6)
  }

  function Spaced(ts: seq<string>): string {
    if ts == [] then "" else " " + (ts[0] + Spaced(ts[1..]))
  }

  /** The line the hub sends. */
  function Reply(bits: set<Feature>, ipv6: bool): string {
    "$Supports" + Spaced(ReplyTokens(bits, ipv6)) + "|"
  }

  lemma {:induction false} SpacedIsJoin(ts: seq<string>)
    requires ts != []
    ensures Spaced(ts) == " " + Join(ts)
  {
    if |ts| > 1 {
      SpacedIsJoin(ts[1..]);
    } else {
      assert Spaced(ts[1..]) == "";
    }
  }

  // ---------- negotiation settles ----------

  ghost predicate Word(t: string, allowPingers: bool) {
    |t| >= 4 && ' ' !in t && FaultOf(t, allowPingers).Open?
  }

  ghost predicate Words(ts: seq<string>, allowPingers: bool) {
    forall t :: t in ts ==> Word(t, allowPingers)
  }

  /** What the words of a feature name. */
  function Closure(f: Feature): set<Feature> {
    match f
    case ZPipe0 => {ZPipe0, ZPipe}
    case QuickList => {QuickList, NoHello}
    case QuackSupports => {}
    case HaveSupports => {}
    case _ => {f}
  }

  lemma NamedOne(w: string)
    ensures Named([w]) == Names(w)
  {
    assert [w][1..] == [];
  }

  lemma WordsOfName(f: Feature)
    ensures Named(WordsOf(f)) == Closure(f)
  {
    var ws := WordsOf(f);
    if f == Pinger {
      assert ws == ["BotINFO"] + ["HubINFO"];
      NamedOne("BotINFO");
      NamedOne("HubINFO");
      assert Names("BotINFO") == {Pinger};
      assert Names("HubINFO") == {};
      assert ws[1..] == ["HubINFO"];
    } else if ws != [] {
      NamedOne(ws[0]);
      assert Names(ws[0]) == Closure(f);
    }
  }

  lemma WordsOfClean(f: Feature, allowPingers: bool)
    requires f == Pinger ==> allowPingers
    ensures Words(WordsOf(f), allowPingers)
  {
    NoPinger(WordsOf(f), allowPingers);
  }

  lemma NoPinger(ws: seq<string>, allowPingers: bool)
    requires forall w :: w in ws ==> |w| >= 4 && ' ' !in w && w[0] != '\0' && (w[0] == 'B' ==> allowPingers)
    ensures Words(ws, allowPingers)
  {
    forall w | w in ws ensures Word(w, allowPingers) {
      NamesByLetter(w);
    }
  }

  lemma {:induction false} NamedConcat(a: seq<string>, b: seq<string>)
    ensures Named(a + b) == Named(a) + Named(b)
  {
    if a == [] {
      assert a + b == b;
    } else {
      NamedConcat(a[1..], b);
      assert (a + b)[0] == a[0] && (a + b)[1..] == a[1..] + b;
    }
  }

  ghost predicate Answering(g: Feature, fs: seq<Feature>, bits: set<Feature>, ipv6: bool) {
    exists f :: f in fs && Sent(f, bits, ipv6) && g in Closure(f)
  }

  lemma AnsweringMore(g: Feature, fs: seq<Feature>, bits: set<Feature>, ipv6: bool)
    requires fs != []
    ensures Answering(g, fs, bits, ipv6) <==>
            (Sent(fs[0], bits, ipv6) && g in Closure(fs[0])) || Answering(g, fs[1..], bits, ipv6)
  {
    assert forall f :: f in fs <==> f == fs[0] || f in fs[1..];
  }

  lemma {:induction false} AnswersName(fs: seq<Feature>, bits: set<Feature>, ipv6: bool, g: Feature)
    ensures g in Named(Answers(fs, bits, ipv6)) <==> Answering(g, fs, bits, ipv6)
  {
    if fs != [] {
      AnswersName(fs[1..], bits, ipv6, g);
      AnsweringMore(g, fs, bits, ipv6);
      if Sent(fs[0], bits, ipv6) {
        WordsOfName(fs[0]);
        NamedConcat(WordsOf(fs[0]), Answers(fs[1..], bits, ipv6));
      } else {
        assert Answers(fs, bits, ipv6) == Answers(fs[1..], bits, ipv6);
      }
    }
  }

  lemma {:induction false} AnswersClean(fs: seq<Feature>, bits: set<Feature>, ipv6: bool, allowPingers: bool)
    requires Pinger in bits ==> allowPingers
    ensures Words(Answers(fs, bits, ipv6), allowPingers)
  {
    if fs != [] {
      AnswersClean(fs[1..], bits, ipv6, allowPingers);
      if Sent(fs[0], bits, ipv6) {
        WordsOfClean(fs[0], allowPingers);
      }
    }
  }

  /** The features an answer names: those sent, and what they imply. */
  predicate Answered(g: Feature, bits: set<Feature>, ipv6: bool) {
    g in bits && match g
      case NoGetINFO => NoHello !in bits
      case IPv4 => ipv6
      case UserIP2 => QuackSupports !in bits
      case QuackSupports => false
      case HaveSupports => false
      case _ => true
  }

  lemma InOrder(f: Feature)
    ensures f in ORDER <==> f != QuackSupports && f != HaveSupports
  {
    assert ORDER[0] == ZPipe0 && ORDER[1] == ZPipe && ORDER[2] == QuickList && ORDER[3] == NoHello;
    assert ORDER[4] == NoGetINFO && ORDER[5] == ExtJSON2 && ORDER[6] == HubURL && ORDER[7] == IP64 && ORDER[8] == IPv4;
    assert ORDER[9] == UserCommand && ORDER[10] == UserIP2 && ORDER[11] == TLS2 && ORDER[12] == Pinger;
  }

  /** The feature whose words name g. */
  function Namer(g: Feature, bits: set<Feature>): Feature {
    if g == ZPipe && ZPipe0 in bits then ZPipe0 else if g == NoHello && QuickList in bits then QuickList else g
  }

  lemma NamerSent(g: Feature, f: Feature, bits: set<Feature>, ipv6: bool, allowPingers: bool)
    requires Consistent(bits, allowPingers)
    ensures Sent(f, bits, ipv6) && g in Closure(f) ==> Answered(g, bits, ipv6)
    ensures Answered(g, bits, ipv6) ==> Sent(Namer(g, bits), bits, ipv6) && g in Closure(Namer(g, bits))
  {
  }

  lemma AnsweringAll(g: Feature, bits: set<Feature>, ipv6: bool, allowPingers: bool)
    requires Consistent(bits, allowPingers)
    ensures Answering(g, ORDER, bits, ipv6) <==> Answered(g, bits, ipv6)
  {
    var fs := ORDER;
    InOrder(Namer(g, bits));
    assert forall f :: Sent(f, bits, ipv6) && g in Closure(f) ==> Answered(g, bits, ipv6) by {
      forall f ensures Sent(f, bits, ipv6) && g in Closure(f) ==> Answered(g, bits, ipv6) {
        NamerSent(g, f, bits, ipv6, allowPingers);
      }
    }
    NamerSent(g, g, bits, ipv6, allowPingers);
  }

  /** What is answered is a part of what is asked for, and is answered alike. */
  lemma SentAgain(f: Feature, bits: set<Feature>, ipv6: bool, allowPingers: bool, now: set<Feature>)
    requires Consistent(bits, allowPingers)
    requires forall g :: g in now <==> Answered(g, bits, ipv6) || g == HaveSupports
    ensures Sent(f, now, ipv6) == Sent(f, bits, ipv6)
  {
  }

  lemma {:induction false} AnswersAgain(fs: seq<Feature>, bits: set<Feature>, ipv6: bool, allowPingers: bool, now: set<Feature>)
    requires Consistent(bits, allowPingers)
    requires forall g :: g in now <==> Answered(g, bits, ipv6) || g == HaveSupports
    ensures Answers(fs, now, ipv6) == Answers(fs, bits, ipv6)
  {
    if fs != [] {
      SentAgain(fs[0], bits, ipv6, allowPingers, now);
      AnswersAgain(fs[1..], bits, ipv6, allowPingers, now);
    }
  }

  /** The text of an answer, as a command of a client: after "$Supports " and before the pipe. */
  function ReplyText(bits: set<Feature>, ipv6: bool): string {
    Join(ReplyTokens(bits, ipv6))
  }

  lemma {:induction false} JoinOfWords(ts: seq<string>, allowPingers: bool)
    requires ts != [] && Words(ts, allowPingers)
    ensures |Join(ts)| >= 4 && Join(ts)[|Join(ts)| - 1] != ' '
  {
    assert Word(ts[0], allowPingers);
    if |ts| > 1 {
      JoinOfWords(ts[1..], allowPingers);
    }
  }

  lemma {:induction false} ZPipe0Named(ts: seq<string>)
    requires ZPipe0First(ts)
    ensures ZPipe0 in Named(ts)
  {
    if ts[0] != "ZPipe0" {
      ZPipe0Named(ts[1..]);
    }
  }

  /** Reading an answer sets exactly the answered bits. */
  lemma FoldOfReply(bits: set<Feature>, ipv6: bool, allowPingers: bool)
    requires Consistent(bits, allowPingers)
    ensures var r := Fold(Session({HaveSupports}, Open, 0), allowPingers, ReplyTokens(bits, ipv6));
            r.status.Open? && forall g :: g in r.bits <==> Answered(g, bits, ipv6) || g == HaveSupports
  {
    var u, ts := Session({HaveSupports}, Open, 0), ReplyTokens(bits, ipv6);
    AnswersClean(ORDER, bits, ipv6, allowPingers);
    FoldMeans(u, allowPingers, ts);
    var r := Fold(u, allowPingers, ts);
    forall g ensures g in r.bits <==> Answered(g, bits, ipv6) || g == HaveSupports {
      AnswersName(ORDER, bits, ipv6, g);
      AnsweringAll(g, bits, ipv6, allowPingers);
      if g == ZPipe0 {
        ZPipe0Settled(bits, ipv6, allowPingers);
      } else {
        assert g in r.bits <==> g in r.bits - {ZPipe0};
        assert g in u.bits + Named(ts) - {ZPipe0} <==> g == HaveSupports || g in Named(ts);
      }
    }
  }

  lemma ZPipe0Settled(bits: set<Feature>, ipv6: bool, allowPingers: bool)
    requires Consistent(bits, allowPingers)
    ensures ZPipe0First(ReplyTokens(bits, ipv6)) <==> ZPipe0 in bits
  {
    var ts := ReplyTokens(bits, ipv6);
    AnswersName(ORDER, bits, ipv6, ZPipe0);
    AnsweringAll(ZPipe0, bits, ipv6, allowPingers);
    if ZPipe0 in bits {
      assert ts[0] == "ZPipe0";
    } else if ZPipe0First(ts) {
      ZPipe0Named(ts);
    }
  }

  lemma ParseOfReply(bits: set<Feature>, ipv6: bool, noQuack: bool, allowPingers: bool)
    requires Consistent(bits, allowPingers) && ReplyTokens(bits, ipv6) != []
    ensures var s := ReplyText(bits, ipv6);
            Reply(bits, ipv6) == "$Supports " + s + "|" &&
            Parse(Session({}, Open, 0), noQuack, allowPingers, TEXT + |s| + 1, s)
            == Fold(Session({HaveSupports}, Open, 0), allowPingers, ReplyTokens(bits, ipv6))
  {
    var ts := ReplyTokens(bits, ipv6);
    AnswersClean(ORDER, bits, ipv6, allowPingers);
    JoinOfWords(ts, allowPingers);
    SpacedIsJoin(ts);
    assert Word(ts[|ts| - 1], allowPingers);
    TokensOfJoin(ts);
    assert {} + {HaveSupports} == {HaveSupports};
  }

  /** Negotiation is a fixpoint: read as a command on a new connection, a non-empty answer leaves a part of
      the user's bits, and what it leaves is answered by the same line. */
  lemma NegotiationSettles(bits: set<Feature>, ipv6: bool, noQuack: bool, allowPingers: bool)
    requires Consistent(bits, allowPingers) && ReplyTokens(bits, ipv6) != []
    ensures var s := ReplyText(bits, ipv6);
            var r := Parse(Session({}, Open, 0), noQuack, allowPingers, TEXT + |s| + 1, s);
            Reply(bits, ipv6) == "$Supports " + s + "|" &&
            r.status.Open? && r.bits <= bits + {HaveSupports} && Reply(r.bits, ipv6) == Reply(bits, ipv6)
  {
    ParseOfReply(bits, ipv6, noQuack, allowPingers);
    FoldOfReply(bits, ipv6, allowPingers);
    var r := Fold(Session({HaveSupports}, Open, 0), allowPingers, ReplyTokens(bits, ipv6));
    AnswersAgain(ORDER, bits, ipv6, allowPingers, r.bits);
  }

  /** Bits that any command can lead to are consistent, so the fixpoint holds for all of them. */
  lemma ParseConsistent(u: Session, noQuack: bool, allowPingers: bool, len: nat, s: string)
    requires len >= SHORTEST ==> |s| == len - 1 - TEXT
    requires Consistent(u.bits, allowPingers)
    ensures Consistent(Parse(u, noQuack, allowPingers, len, s).bits, allowPingers)
  {
    var v := u.(bits := u.bits + {HaveSupports});
    FoldConsistent(v, allowPingers, Tokens(s));
    FoldConsistent(v.(bits := v.bits + {QuackSupports}), allowPingers, Tokens(s));
  }

  /** An empty answer is too short to be a command. */
  lemma EmptyReply(bits: set<Feature>, ipv6: bool)
    requires ReplyTokens(bits, ipv6) == []
    ensures |Reply(bits, ipv6)| < SHORTEST
  {
  }

  lemma {:induction false} AnswersConcat(fs: seq<Feature>, gs: seq<Feature>, bits: set<Feature>, ipv6: bool)
    ensures Answers(fs + gs, bits, ipv6) == Answers(fs, bits, ipv6) + Answers(gs, bits, ipv6)
  {
    if fs == [] {
      assert fs + gs == gs;
    } else {
      AnswersConcat(fs[1..], gs, bits, ipv6);
      assert (fs + gs)[0] == fs[0] && (fs + gs)[1..] == fs[1..] + gs;
      var first := if Sent(fs[0], bits, ipv6) then WordsOf(fs[0]) else [];
      Sequences.ConcatAssoc(first, Answers(fs[1..], bits, ipv6), Answers(gs, bits, ipv6));
    }
  }

  lemma AnswersSnoc(fs: seq<Feature>, f: Feature, bits: set<Feature>, ipv6: bool)
    ensures Spaced(Answers(fs + [f], bits, ipv6))
         == Spaced(Answers(fs, bits, ipv6)) + Spaced(if Sent(f, bits, ipv6) then WordsOf(f) else [])
  {
    AnswersConcat(fs, [f], bits, ipv6);
    assert [f][1..] == [];
    var last := if Sent(f, bits, ipv6) then WordsOf(f) else [];
    assert Answers([f], bits, ipv6) == last + [] == last;
    SpacedConcat(Answers(fs, bits, ipv6), last);
  }

  lemma {:induction false} SpacedConcat(a: seq<string>, b: seq<string>)
    ensures Spaced(a + b) == Spaced(a) + Spaced(b)
  {
    if a == [] {
      assert a + b == b;
    } else {
      SpacedConcat(a[1..], b);
      assert (a + b)[0] == a[0] && (a + b)[1..] == a[1..] + b;
      var x, y := Spaced(a[1..]), Spaced(b);
      Sequences.ConcatAssoc(a[0], x, y);
      Sequences.ConcatAssoc(" ", a[0] + x, y);
    }
  }

  /** The answer up to a feature of the order. */
  ghost function Line(fs: seq<Feature>, bits: set<Feature>, ipv6: bool): string {
    "$Supports" + Spaced(Answers(fs, bits, ipv6))
  }

  lemma LineSnoc(fs: seq<Feature>, f: Feature, bits: set<Feature>, ipv6: bool)
    ensures Line(fs + [f], bits, ipv6)
         == Line(fs, bits, ipv6) + Spaced(if Sent(f, bits, ipv6) then WordsOf(f) else [])
  {
    var a, b := Spaced(Answers(fs, bits, ipv6)), Spaced(if Sent(f, bits, ipv6) then WordsOf(f) else []);
    var c := Spaced(Answers(fs + [f], bits, ipv6));
    assert c == a + b by {
      AnswersSnoc(fs, f, bits, ipv6);
    }
    Sequences.ConcatAssoc("$Supports", a, b);
  }

  /** Appends the word of a feature when it is to be sent. */
  method Put(line: string, send: bool, word: string, ghost f: Feature, ghost fs: seq<Feature>,
             ghost bits: set<Feature>, ghost ipv6: bool) returns (r: string, ghost gs: seq<Feature>)
    requires line == Line(fs, bits, ipv6)
    requires send == Sent(f, bits, ipv6) && (send ==> word == Spaced(WordsOf(f)))
    ensures r == Line(gs, bits, ipv6) && gs == fs + [f]
  {
    LineSnoc(fs, f, bits, ipv6);
    gs := fs + [f];
    if send {
      r := line + word;
    } else {
      r := line;
      assert line + Spaced([]) == line;
    }
  }

  lemma SpacedOne(t: string)
    ensures Spaced([t]) == " " + t
  {
    assert [t][1..] == [];
  }

  /** Compression and the login sequence: at most one word each. */
  method AnswerLogin(bits: set<Feature>, ipv6: bool) returns (line: string, ghost fs: seq<Feature>)
    ensures fs == [ZPipe0, ZPipe, QuickList, NoHello, NoGetINFO] && line == Line(fs, bits, ipv6)
  {
    line, fs := "$Supports", [];
    SpacedOne("ZPipe0");
    line, fs := Put(line, ZPipe0 in bits, " ZPipe0", ZPipe0, fs, bits, ipv6);
    SpacedOne("ZPipe");
    line, fs := Put(line, ZPipe0 !in bits && ZPipe in bits, " ZPipe", ZPipe, fs, bits, ipv6);
    SpacedOne("QuickList");
    line, fs := Put(line, QuickList in bits, " QuickList", QuickList, fs, bits, ipv6);
    SpacedOne("NoHello");
    line, fs := Put(line, QuickList !in bits && NoHello in bits, " NoHello", NoHello, fs, bits, ipv6);
    SpacedOne("NoGetINFO");
    line, fs := Put(line, QuickList !in bits && NoHello !in bits && NoGetINFO in bits, " NoGetINFO", NoGetINFO, fs, bits, ipv6);
  }

  method AnswerOthers(before: string, bits: set<Feature>, ipv6: bool, ghost start: seq<Feature>)
    returns (line: string, ghost fs: seq<Feature>)
    requires before == Line(start, bits, ipv6)
    ensures fs == start + [ExtJSON2, HubURL, IP64, IPv4] && line == Line(fs, bits, ipv6)
  {
    SpacedOne("ExtJSON2");
    line, fs := Put(before, ExtJSON2 in bits, " ExtJSON2", ExtJSON2, start, bits, ipv6);
    SpacedOne("HubURL");
    line, fs := Put(line, HubURL in bits, " HubURL", HubURL, fs, bits, ipv6);
    SpacedOne("IP64");
    line, fs := Put(line, IP64 in bits, " IP64", IP64, fs, bits, ipv6);
    SpacedOne("IPv4");
    line, fs := Put(line, IPv4 in bits && ipv6, " IPv4", IPv4, fs, bits, ipv6);
  }

  method AnswerRest(before: string, bits: set<Feature>, ipv6: bool, ghost start: seq<Feature>)
    returns (line: string, ghost fs: seq<Feature>)
    requires before == Line(start, bits, ipv6)
    ensures fs == start + [UserCommand, UserIP2, TLS2, Pinger] && line == Line(fs, bits, ipv6)
  {
    SpacedOne("UserCommand");
    line, fs := Put(before, UserCommand in bits, " UserCommand", UserCommand, start, bits, ipv6);
    SpacedOne("UserIP2");
    line, fs := Put(line, UserIP2 in bits && QuackSupports !in bits, " UserIP2", UserIP2, fs, bits, ipv6);
    SpacedOne("TLS2");
    line, fs := Put(line, TLS2 in bits, " TLS2", TLS2, fs, bits, ipv6);
    SpacedConcat(["BotINFO"], ["HubINFO"]);
    SpacedOne("BotINFO");
    SpacedOne("HubINFO");
    assert ["BotINFO"] + ["HubINFO"] == ["BotINFO", "HubINFO"];
    line, fs := Put(line, Pinger in bits, " BotINFO HubINFO", Pinger, fs, bits, ipv6);
  }

  /** The answer as it is put together. */
  method Answer(bits: set<Feature>, ipv6: bool) returns (line: string)
    ensures line == Reply(bits, ipv6)
  {
    ghost var fs;
    line, fs := AnswerLogin(bits, ipv6);
    line, fs := AnswerOthers(line, bits, ipv6, fs);
    line, fs := AnswerRest(line, bits, ipv6, fs);
    assert fs == ORDER;
    line := line + "|";
  }

  // ---------- parsing in place ----------

  predicate Is(t: string, head: string, tail: string) {
    |t| == |head| + |tail| && t[..|head|] == head && t[|head|..] == tail
  }

  lemma IsWhole(t: string, head: string, tail: string)
    ensures Is(t, head, tail) <==> t == head + tail
  {
    if |t| == |head| + |tail| {
      assert t == t[..|head|] + t[|head|..];
    }
  }

  /** What is left of a text that ends at end. */
  function From(text: seq<char>, p: nat, end: nat): string
    requires end <= |text|
  {
    if p <= end then text[p..end] else ""
  }

  lemma NextToken(text: seq<char>, p: nat, q: nat, end: nat)
    requires p <= q <= end <= |text| && (if q == end then p < q else text[q] == ' ')
    requires forall j :: p <= j < q ==> text[j] != ' '
    ensures Tokens(From(text, p, end)) == [text[p..q]] + Tokens(From(text, q + 1, end))
  {
    var r, k := text[p..end], q - p;
    assert forall j :: 0 <= j < k ==> r[j] == text[p + j];
    TokensHead(r, k);
    assert r[..k] == text[p..q];
    if q < end {
      assert r[k + 1..] == text[q + 1..end];
    } else {
      assert r == r[..k];
    }
  }

  lemma TokensHead(s: string, k: nat)
    requires k <= |s| && (if k == |s| then k > 0 else s[k] == ' ') && forall j :: 0 <= j < k ==> s[j] != ' '
    ensures Tokens(s) == [s[..k]] + (if k < |s| then Tokens(s[k + 1..]) else [])
  {
    FirstSpaceIs(s, k);
    assert k == |s| ==> s[..k] == s;
  }

  /** The sessions between the tokens of a fold. */
  ghost function Trace(u: Session, allowPingers: bool, ts: seq<string>): (states: seq<Session>)
    ensures |states| == |ts| + 1 && states[0] == u && states[|ts|] == Fold(u, allowPingers, ts)
    decreases |ts|
  {
    if ts == [] then [u] else [u] + Trace(Apply(u, allowPingers, ts[0]), allowPingers, ts[1..])
  }

  ghost predicate IsTrace(states: seq<Session>, ts: seq<string>, allowPingers: bool) {
    |states| == |ts| + 1 &&
    forall i {:trigger Apply(states[i], allowPingers, ts[i])} :: 0 <= i < |ts| ==>
      states[i + 1] == Apply(states[i], allowPingers, ts[i])
  }

  lemma {:induction false} TraceIsTrace(u: Session, allowPingers: bool, ts: seq<string>)
    ensures IsTrace(Trace(u, allowPingers, ts), ts, allowPingers)
    decreases |ts|
  {
    if ts != [] {
      var next := Apply(u, allowPingers, ts[0]);
      TraceIsTrace(next, allowPingers, ts[1..]);
      var states, later := Trace(u, allowPingers, ts), Trace(next, allowPingers, ts[1..]);
      forall i | 0 <= i < |ts| ensures states[i + 1] == Apply(states[i], allowPingers, ts[i]) {
        assert i > 0 ==> later[i] == Apply(later[i - 1], allowPingers, ts[1..][i - 1]);
      }
    }
  }

  /** A closed connection stays as it is. */
  lemma {:induction false} TraceEnds(states: seq<Session>, allowPingers: bool, ts: seq<string>, k: nat)
    requires IsTrace(states, ts, allowPingers) && k <= |ts| && (k == |ts| || states[k].status.Closed?)
    ensures states[k] == states[|ts|]
    decreases |ts| - k
  {
    if k < |ts| {
      assert states[k + 1] == Apply(states[k], allowPingers, ts[k]);
      TraceEnds(states, allowPingers, ts, k + 1);
    }
  }

  /** The tokens that are left at every position of a text. */
  ghost function Left(text: seq<char>, end: nat): (left: seq<seq<string>>)
    requires end <= |text|
    ensures |left| == end + 2 && IsLeft(left, text, end)
  {
    seq(end + 2, (p: nat) => Tokens(From(text, p, end)))
  }

  lemma LeftEnds(text: seq<char>, end: nat)
    requires TEXT <= end <= |text|
    ensures var left := Left(text, end); left[TEXT] == Tokens(text[TEXT..end]) && left[end] == left[end + 1] == []
  {
    assert From(text, TEXT, end) == text[TEXT..end];
    assert From(text, end, end) == From(text, end + 1, end) == "";
  }

  ghost predicate IsLeft(left: seq<seq<string>>, text: seq<char>, end: nat)
    requires |left| == end + 2 <= |text| + 2
  {
    forall p: nat {:trigger Tokens(From(text, p, end))} :: p <= end + 1 ==> left[p] == Tokens(From(text, p, end))
  }

  class User {
    var bits: set<Feature>
    var status: Status
    var zpipes: nat

    ghost function State(): Session
      reads this
    {
      Session(bits, status, zpipes)
    }

    constructor (bits: set<Feature>, zpipes: nat)
      ensures State() == Session(bits, Open, zpipes)
    {
      this.bits, status, this.zpipes := bits, Open, zpipes;
    }

    method Add(fs: set<Feature>)
      modifies `bits
      ensures bits == old(bits) + fs
    {
      bits := bits + fs;
    }

    /** NoHello, NoGetINFO and QuickList. */
    method TakeHello(t: string)
      requires t != "" && t[0] in {'N', 'Q'}
      modifies `bits
      ensures bits == old(bits) + Names(t)
    {
      if t[0] == 'N' {
        IsWhole(t, "No", "Hello");
        IsWhole(t, "No", "GetINFO");
        if NoHello !in bits && Is(t, "No", "Hello") {
          Add({NoHello});
        } else if NoGetINFO !in bits && Is(t, "No", "GetINFO") {
          Add({NoGetINFO});
        }
      } else {
        IsWhole(t, "Q", "uickList");
        if Is(t, "Q", "uickList") {
          Add({QuickList});
          Add({NoHello});
        }
      }
    }

    /** HubURL, UserCommand and UserIP2. */
    method TakeHub(t: string)
      requires t != "" && t[0] in {'H', 'U'}
      modifies `bits
      ensures bits == old(bits) + Names(t)
    {
      if t[0] == 'H' {
        IsWhole(t, "H", "ubURL");
        if HubURL !in bits && Is(t, "H", "ubURL") {
          Add({HubURL});
        }
      } else {
        IsWhole(t, "U", "serCommand");
        IsWhole(t, "U", "serIP2");
        if UserCommand !in bits && Is(t, "U", "serCommand") {
          Add({UserCommand});
        } else if UserIP2 !in bits && Is(t, "U", "serIP2") {
          Add({UserIP2});
        }
      }
    }

    /** IP64, IPv4, TLS2 and ExtJSON2. */
    method TakeOther(t: string)
      requires t != "" && t[0] !in {'N', 'Q', 'H', 'U', 'B', 'Z'}
      modifies `bits
      ensures bits == old(bits) + Names(t)
    {
      if t[0] == 'I' && |t| == 4 {
        if IP64 !in bits && t == "IP64" {
          Add({IP64});
        } else if IPv4 !in bits && t == "IPv4" {
          Add({IPv4});
        }
      } else if t[0] == 'T' && |t| == 4 {
        if TLS2 !in bits && t == "TLS2" {
          Add({TLS2});
        }
      } else if t[0] == 'E' && |t| == 8 {
        IsWhole(t, "E", "xtJSON2");
        if ExtJSON2 !in bits && Is(t, "E", "xtJSON2") {
          Add({ExtJSON2});
        }
      }
    }

    /** ZPipe0 and ZPipe, whichever comes first. */
    method TakeZPipe(t: string)
      requires t != "" && t[0] == 'Z'
      modifies `bits, `zpipes
      ensures (bits, zpipes) == if ZPipe in Names(t) && ZPipe !in old(bits)
                                then (old(bits) + Names(t), old(zpipes) + 1)
                                else (old(bits), old(zpipes))
      ensures ZPipe !in Names(t) ==> Names(t) == {}
    {
      IsWhole(t, "Z", "Pipe0");
      IsWhole(t, "Z", "Pipe");
      if ZPipe !in bits {
        if Is(t, "Z", "Pipe0") {
          Add({ZPipe0});
          Add({ZPipe});
          assert old(bits) + {ZPipe0} + {ZPipe} == old(bits) + {ZPipe0, ZPipe};
          zpipes := zpipes + 1;
        } else if Is(t, "Z", "Pipe") {
          Add({ZPipe});
          zpipes := zpipes + 1;
        }
      }
    }

    method TakePinger(t: string, allowPingers: bool)
      requires t != "" && t[0] == 'B' && status.Open?
      modifies `bits, `status
      ensures Names(t) <= {Pinger} &&
              (bits, status) == if Pinger in Names(t) && Pinger !in old(bits)
                                then (if allowPingers then (old(bits) + {Pinger}, Open) else (old(bits), Closed(PingerRefused)))
                                else (old(bits), Open)
    {
      IsWhole(t, "B", "otINFO");
      if Pinger !in bits && Is(t, "B", "otINFO") {
        if !allowPingers {
          status := Closed(PingerRefused);
          return;
        }
        Add({Pinger});
      }
    }

    /** One support, told apart by its first character. */
    method TakeSupport(t: string, allowPingers: bool)
      requires status.Open?
      modifies this
      ensures State() == Apply(old(State()), allowPingers, t)
    {
      NamesByLetter(t);
      if t == "" || t[0] == '\0' {
        status := Closed(Corrupted);
      } else if t[0] in {'N', 'Q'} {
        TakeHello(t);
      } else if t[0] in {'H', 'U'} {
        TakeHub(t);
      } else if t[0] == 'B' {
        TakePinger(t, allowPingers);
      } else if t[0] == 'Z' {
        TakeZPipe(t);
      } else {
        TakeOther(t);
      }
    }

    method Close(fault: Fault)
      modifies `status
      ensures status == Closed(fault)
    {
      status := Closed(fault);
    }

    /** Takes the support that ends at i, the k-th one. */
    method TakeAt(cmd: array<char>, ghost was: seq<char>, start: nat, i: nat, end: nat, allowPingers: bool,
                  ghost states: seq<Session>, ghost left: seq<seq<string>>, ghost ts: seq<string>, ghost k: nat)
      requires start <= i <= end <= |was| == cmd.Length && status.Open?
      requires if i == end then start < i else was[i] == ' '
      requires cmd[start..i] == was[start..i] && forall j :: start <= j < i ==> was[j] != ' '
      requires |left| == end + 2 && IsLeft(left, was, end) && k <= |ts| && left[start] == ts[k..]
      requires IsTrace(states, ts, allowPingers) && State() == states[k]
      modifies this
      ensures k < |ts| && State() == states[k + 1] && left[i + 1] == ts[k + 1..]
    {
      NextToken(was, start, i, end);
      assert ts[k..] == [was[start..i]] + left[i + 1];
      assert ts[k] == ts[k..][0] == was[start..i] && ts[k + 1..] == ts[k..][1..] == left[i + 1];
      TakeSupport(cmd[start..i], allowPingers);
    }

    /** Whether a support ends here: at a space, which becomes a NUL, or after the last character. */
    method EndOfSupport(cmd: array<char>, ghost was: seq<char>, ghost start: nat, i: nat, end: nat) returns (found: bool, at: nat)
      requires i < end && Scanning(was, cmd[..], start, i, end)
      modifies cmd
      ensures Scanning(was, cmd[..], if found then at + 1 else start, at + 1, end)
      ensures found ==> start <= at <= end && (if at == end then start < at else was[at] == ' ')
      ensures found ==> cmd[start..at] == was[start..at] && forall j :: start <= j < at ==> was[j] != ' '
      ensures found || at == i
    {
      found, at := false, i;
      if cmd[i] == ' ' {
        found := true;
        cmd[i] := '\0';
      } else if i == end - 1 {
        found, at := true, i + 1;
      }
    }

    /** The loop over the command. */
    method TakeSupports(cmd: array<char>, len: nat, allowPingers: bool)
      requires SHORTEST <= len <= cmd.Length && status.Open?
      modifies this, cmd
      ensures State() == Fold(old(State()), allowPingers, Tokens(old(cmd[TEXT..len - 1])))
      ensures OnlyBlanked(old(cmd[..]), cmd[..])
    {
      ghost var ts, left := Tokens(cmd[TEXT..len - 1]), Left(cmd[..], len - 1);
      ghost var states := Trace(State(), allowPingers, ts);
      TraceIsTrace(State(), allowPingers, ts);
      LeftEnds(cmd[..], len - 1);
      ghost var k := TakeTraced(cmd, len - 1, allowPingers, states, left, ts);
      TraceEnds(states, allowPingers, ts, k);
    }

    method TakeTraced(cmd: array<char>, end: nat, allowPingers: bool,
                      ghost states: seq<Session>, ghost left: seq<seq<string>>, ghost ts: seq<string>) returns (ghost k: nat)
      requires TEXT < end <= cmd.Length && status.Open? && |left| == end + 2 && IsLeft(left, cmd[..], end)
      requires left[TEXT] == ts && left[end] == left[end + 1] == []
      requires IsTrace(states, ts, allowPingers) && State() == states[0]
      modifies this, cmd
      ensures k <= |ts| && State() == states[k] && (k == |ts| || status.Closed?)
      ensures OnlyBlanked(old(cmd[..]), cmd[..])
    {
      ghost var was := cmd[..];
      assert ts[0..] == ts;
      var start: nat, i: nat := TEXT, TEXT;
      k := 0;
      while i < end && status.Open?
        invariant Scanning(was, cmd[..], start, i, end)
        invariant 0 <= k <= |ts| && State() == states[k] && left[start] == ts[k..]
      {
        var found, at := EndOfSupport(cmd, was, start, i, end);
        if found {
          TakeAt(cmd, was, start, at, end, allowPingers, states, left, ts, k);
          start, k := at + 1, k + 1;
        }
        i := at + 1;
      }
    }

    /** $Supports, up to the new login state. */
    method Supports(cmd: array<char>, len: nat, noQuack: bool, allowPingers: bool)
      requires len <= cmd.Length && status.Open?
      modifies this, cmd
      ensures State() == Parse(old(State()), noQuack, allowPingers, len,
                               if len < SHORTEST then "" else old(cmd[TEXT..len - 1]))
      ensures OnlyBlanked(old(cmd[..]), cmd[..])
    {
      if HaveSupports in bits {
        Close(Flood);
        return;
      }
      Add({HaveSupports});
      if len < SHORTEST {
        Close(TooShort);
        return;
      }
      if cmd[len - 2] == ' ' {
        if noQuack {
          Close(Quack);
          return;
        }
        Add({QuackSupports});
      }
      TakeSupports(cmd, len, allowPingers);
    }
  }

  /** Nothing in the buffer changes but spaces, which become NULs. */
  ghost predicate OnlyBlanked(was: seq<char>, now: seq<char>) {
    |was| == |now| && forall j :: 0 <= j < |was| ==> now[j] == was[j] || (was[j] == ' ' && now[j] == '\0')
  }

  /** Supports are taken up to start, and no further one ends before i. */
  ghost predicate Scanning(was: seq<char>, now: seq<char>, start: nat, i: nat, end: nat) {
    OnlyBlanked(was, now) && start <= i <= end + 1 && end <= |was| && (i >= end ==> start >= end) &&
    (forall j :: start <= j < end ==> now[j] == was[j]) && forall j :: start <= j < i && j < end ==> was[j] != ' '
  }

  lemma NamesByLetter(t: string)
    ensures t == "" || t[0] !in {'N', 'Q', 'H', 'U', 'B', 'Z', 'I', 'T', 'E'} ==> Names(t) == {}
    ensures t != "" && t[0] != 'B' ==> Pinger !in Names(t)
    ensures t != "" && t[0] != 'Z' ==> ZPipe !in Names(t)
  {
  }
}

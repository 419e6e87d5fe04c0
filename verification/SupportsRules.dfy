/** What the hub takes as a $Supports command and what it makes of it, word by word (Supports,
    core/DcCommands.cpp). */
module SupportsRules {
  import opened Supports

  /** The words that name a feature. */
  lemma NamesAre(t: string)
    ensures NoHello in Names(t) <==> t == "NoHello" || t == "QuickList"
    ensures QuickList in Names(t) <==> t == "QuickList"
    ensures NoGetINFO in Names(t) <==> t == "NoGetINFO"
    ensures HubURL in Names(t) <==> t == "HubURL"
    ensures UserCommand in Names(t) <==> t == "UserCommand"
    ensures UserIP2 in Names(t) <==> t == "UserIP2"
    ensures Pinger in Names(t) <==> t == "BotINFO"
    ensures ZPipe in Names(t) <==> t == "ZPipe" || t == "ZPipe0"
    ensures ZPipe0 in Names(t) <==> t == "ZPipe0"
    ensures IP64 in Names(t) <==> t == "IP64"
    ensures IPv4 in Names(t) <==> t == "IPv4"
    ensures TLS2 in Names(t) <==> t == "TLS2"
    ensures ExtJSON2 in Names(t) <==> t == "ExtJSON2"
    ensures QuackSupports !in Names(t) && HaveSupports !in Names(t)
  {
  }

  /** A word that does not close the connection. */
  predicate Admitted(t: string, allowPingers: bool) {
    t != "" && t[0] != '\0' && (t == "BotINFO" ==> allowPingers)
  }

  lemma AdmittedExactly(t: string, allowPingers: bool)
    ensures FaultOf(t, allowPingers).Open? <==> Admitted(t, allowPingers)
  {
    NamesAre(t);
  }

  lemma CleanExactly(ts: seq<string>, allowPingers: bool)
    ensures Clean(ts, allowPingers) <==> forall t :: t in ts ==> Admitted(t, allowPingers)
  {
    forall t | t in ts
      ensures FaultOf(t, allowPingers).Open? <==> Admitted(t, allowPingers)
    {
      AdmittedExactly(t, allowPingers);
    }
  }

  /** The session in which the words of a command are read. */
  function Begun(u: Session, quacks: bool): Session {
    u.(bits := u.bits + {HaveSupports} + if quacks then {QuackSupports} else {})
  }

  predicate Quacks(s: string) {
    s != "" && s[|s| - 1] == ' '
  }

  /** What is read of a command at all. */
  lemma ReadExactly(u: Session, noQuack: bool, allowPingers: bool, len: nat, s: string)
    requires u.status.Open? && (len >= SHORTEST ==> |s| == len - 1 - TEXT)
    ensures var r := Parse(u, noQuack, allowPingers, len, s);
            if HaveSupports in u.bits || len < 13 || (noQuack && Quacks(s)) then r.status.Closed?
            else r == Fold(Begun(u, Quacks(s)), allowPingers, Tokens(s))
  {
    assert u.bits + {HaveSupports} + {} == u.bits + {HaveSupports};
  }

  /** A command is taken if and only if it is the first one, long enough, does not end in a space where the
      hub minds that, and none of its words is empty or a pinger's that is not allowed. */
  lemma CommandTakenExactly(u: Session, noQuack: bool, allowPingers: bool, len: nat, s: string)
    requires u.status.Open? && (Pinger in u.bits ==> allowPingers) && (len >= SHORTEST ==> |s| == len - 1 - TEXT)
    ensures Parse(u, noQuack, allowPingers, len, s).status.Open? <==>
            HaveSupports !in u.bits && len >= 13 && !(noQuack && Quacks(s)) &&
            forall t :: t in Tokens(s) ==> Admitted(t, allowPingers)
  {
    ReadExactly(u, noQuack, allowPingers, len, s);
    ClosedExactly(Begun(u, Quacks(s)), allowPingers, Tokens(s));
    CleanExactly(Tokens(s), allowPingers);
  }

  /** Of a first command that is taken, the bits: what its words name, that it came, and whether it ended in
      a space; ZPipe0 counts only before every ZPipe. */
  lemma CommandMeans(u: Session, noQuack: bool, allowPingers: bool, len: nat, s: string)
    requires u.status.Open? && u.bits == {} && (len >= SHORTEST ==> |s| == len - 1 - TEXT)
    requires Parse(u, noQuack, allowPingers, len, s).status.Open?
    ensures var bits := Parse(u, noQuack, allowPingers, len, s).bits;
            bits - {ZPipe0} == Begun(u, Quacks(s)).bits + Named(Tokens(s)) - {ZPipe0} &&
            (ZPipe0 in bits <==> ZPipe0First(Tokens(s)))
  {
    var start := Begun(u, Quacks(s));
    ReadExactly(u, noQuack, allowPingers, len, s);
    ClosedExactly(start, allowPingers, Tokens(s));
    FoldMeans(start, allowPingers, Tokens(s));
  }

  /** A feature is named if and only if some word names it. */
  lemma {:induction false} NamedExactly(ts: seq<string>, f: Feature)
    ensures f in Named(ts) <==> exists t :: t in ts && f in Names(t)
  {
    if ts != [] {
      NamedExactly(ts[1..], f);
      assert forall t :: t in ts <==> t == ts[0] || t in ts[1..];
    }
  }
}

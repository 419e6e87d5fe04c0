/** The repeated-text limiter with its callers, which keep the last text: which calls of a run are
    rejected, and who is closed (core/DeFlood.cpp, core/DcCommands.cpp, core/User.cpp). */
module RepeatedTexts {
  import opened DeFlood

  datatype Call = Call(tick: nat, text: string)

  /** The counter, the warnings and the text that was new last. */
  datatype Memory = Memory(state: State, last: string)

  datatype Answer = Answer(rejected: bool, memory: Memory)

  /** One text: a new one is kept, and starts to be counted. */
  function Say(l: Limit, m: Memory, c: Call): Answer {
    if Repeats(l, m.state.anchor, c.tick, c.text, m.last) then
      var v := CheckSame(l, m.state);
      Answer(v.rejected, m.(state := v.state))
    else if c.text == "" && m.last == "" then Answer(false, m)
    else Answer(false, Memory(m.state.(count := 1, anchor := c.tick), c.text))
  }

  function After(l: Limit, m: Memory, calls: seq<Call>): Memory
    decreases |calls|
  {
    if calls == [] then m
    else Say(l, After(l, m, calls[..|calls| - 1]), calls[|calls| - 1]).memory
  }

  /** The verdict on call k. */
  predicate Rejected(l: Limit, m: Memory, calls: seq<Call>, k: nat)
    requires k < |calls|
  {
    Say(l, After(l, m, calls[..k]), calls[k]).rejected
  }

  // ---------- streaks ----------

  /** The call with which the streak of call k began: the same text ever since, within the time. */
  function Start(l: Limit, calls: seq<Call>, k: nat): (o: nat)
    requires k < |calls|
    ensures o <= k && forall i :: o <= i <= k ==> calls[i].text == calls[k].text
    ensures forall i :: o < i <= k ==> calls[i].tick < calls[o].tick + l.time
  {
    if k == 0 || calls[k - 1].text != calls[k].text then k
    else
      var o := Start(l, calls, k - 1);
      if calls[k].tick >= calls[o].tick + l.time then k else o
  }

  ghost predicate InOrder(calls: seq<Call>) {
    forall i, j :: 0 <= i < j < |calls| ==> calls[i].tick <= calls[j].tick
  }

  /** A user who has said nothing yet. */
  ghost predicate Silent(m: Memory) {
    m.state.count == 0 && m.last == ""
  }

  /** Limits whose counter never runs on: the closing actions, and action 2 from two repetitions on. */
  predicate Steady(l: Limit) {
    3 <= l.action <= 6 || (l.action == 2 && l.count >= 2)
  }

  /** The counter can take r more calls without wrapping. */
  ghost predicate Room(l: Limit, r: nat) {
    Steady(l) || r < WRAP
  }

  /** What is remembered r calls into a streak that began at tick. */
  ghost predicate Remembers(l: Limit, m: Memory, text: string, tick: nat, r: nat) {
    m.last == text && (text != "" ==> m.state.anchor == tick && Counts(l, m.state.count, r))
  }

  ghost predicate Counts(l: Limit, count: nat, r: nat) {
    count <= (if 3 <= l.action <= 6 then l.count else if Steady(l) then 2 * l.count else r + 2) && if r < l.count then count == r + 1 else count >= l.count
  }

  lemma CountedOn(l: Limit, s: State, r: nat)
    requires l.Valid() && Counts(l, s.count, r)
    ensures var v := CheckSame(l, s);
            (v.rejected <==> r + 1 >= l.count) && v.state.anchor == s.anchor &&
            (Room(l, r + 3) ==> Counts(l, v.state.count, r + 1))
  {
  }

  lemma Repeated(l: Limit, m: Memory, c: Call, tick: nat, r: nat)
    requires l.Valid() && Remembers(l, m, c.text, tick, r) && c.text != "" && tick <= c.tick < tick + l.time
    ensures var a := Say(l, m, c);
            (a.rejected <==> r + 1 >= l.count) && (Room(l, r + 3) ==> Remembers(l, a.memory, c.text, tick, r + 1))
  {
    assert Repeats(l, m.state.anchor, c.tick, c.text, m.last);
    CountedOn(l, m.state, r);
  }

  lemma Begun(l: Limit, m: Memory, c: Call)
    requires l.Valid() && !Repeats(l, m.state.anchor, c.tick, c.text, m.last)
    ensures var a := Say(l, m, c); !a.rejected && Remembers(l, a.memory, c.text, c.tick, 0)
  {
  }

  ghost predicate StreakIs(l: Limit, m: Memory, calls: seq<Call>, k: nat)
    requires k < |calls|
  {
    var o := Start(l, calls, k); Remembers(l, m, calls[k].text, calls[o].tick, k - o)
  }

  lemma AfterNext(l: Limit, m: Memory, calls: seq<Call>, k: nat)
    requires k < |calls|
    ensures After(l, m, calls[..k + 1]) == Say(l, After(l, m, calls[..k]), calls[k]).memory
  {
    assert calls[..k + 1][..k] == calls[..k];
  }

  lemma {:induction false} StreakRemembered(l: Limit, m: Memory, calls: seq<Call>, k: nat)
    requires l.Valid() && Silent(m) && InOrder(calls) && k < |calls| && Room(l, k + 2)
    ensures StreakIs(l, After(l, m, calls[..k + 1]), calls, k)
    decreases k
  {
    AfterNext(l, m, calls, k);
    if k == 0 {
      assert calls[..0] == [];
      FirstCall(l, m, calls);
    } else {
      StreakRemembered(l, m, calls, k - 1);
      StreakStep(l, After(l, m, calls[..k]), calls, k);
    }
  }

  lemma FirstCall(l: Limit, m: Memory, calls: seq<Call>)
    requires l.Valid() && Silent(m) && calls != []
    ensures StreakIs(l, Say(l, m, calls[0]).memory, calls, 0) && !Say(l, m, calls[0]).rejected
  {
    Begun(l, m, calls[0]);
  }

  lemma StreakStep(l: Limit, was: Memory, calls: seq<Call>, k: nat)
    requires l.Valid() && InOrder(calls) && 0 < k < |calls| && StreakIs(l, was, calls, k - 1)
    ensures var o, a := Start(l, calls, k), Say(l, was, calls[k]);
            (Room(l, k + 2) ==> StreakIs(l, a.memory, calls, k)) &&
            (a.rejected <==> calls[k].text != "" && k - o >= l.count)
  {
    var o, c := Start(l, calls, k - 1), calls[k];
    if c.text == "" {
      Begun(l, was, c);
    } else if calls[k - 1].text == c.text && c.tick < calls[o].tick + l.time {
      Repeated(l, was, c, calls[o].tick, k - 1 - o);
    } else {
      Begun(l, was, c);
    }
  }

  /** A text is rejected if and only if it is not empty and at least n calls before it, without another text
      in between, said the same within the time of the first of them.  This holds over every run if the
      counter is steady, and otherwise for the first 65535 calls, after which it may have wrapped. */
  lemma RejectedExactly(l: Limit, m: Memory, calls: seq<Call>, k: nat)
    requires l.Valid() && Silent(m) && InOrder(calls) && k < |calls| && Room(l, k + 1)
    ensures Rejected(l, m, calls, k) <==> calls[k].text != "" && k - Start(l, calls, k) >= l.count
  {
    if k == 0 {
      assert calls[..0] == [];
      FirstCall(l, m, calls);
    } else {
      StreakRemembered(l, m, calls, k - 1);
      StreakStep(l, After(l, m, calls[..k]), calls, k);
    }
  }

  /** So texts that differ from the one before are never rejected, however fast they come. */
  lemma ChangingTextsPass(l: Limit, m: Memory, calls: seq<Call>, k: nat)
    requires l.Valid() && Silent(m) && InOrder(calls) && k < |calls| && Room(l, k + 1)
    requires k > 0 ==> calls[k - 1].text != calls[k].text
    ensures !Rejected(l, m, calls, k)
  {
    RejectedExactly(l, m, calls, k);
  }

  function Same(text: string, k: nat): (calls: seq<Call>)
    ensures |calls| == k
  {
    seq(k, _ => Call(0, text))
  }

  /** What action 1 makes of k + 1 equal texts. */
  ghost predicate Counted(l: Limit, m: Memory, text: string, k: nat) {
    !m.state.closed && m.last == text && m.state.anchor == 0 &&
    m.state.count == if k < l.count then k + 1 else (k + 2) % WRAP
  }

  lemma SameStep(l: Limit, m: Memory, text: string, k: nat)
    requires l.Valid() && l.action == 1 && l.time >= 1 && text != "" && k + 2 < WRAP && Counted(l, m, text, k)
    ensures Counted(l, Say(l, m, Call(0, text)).memory, text, k + 1)
  {
  }

  lemma {:induction false} SameCounted(l: Limit, m: Memory, text: string, k: nat)
    requires l.Valid() && l.action == 1 && l.time >= 1 && Silent(m) && !m.state.closed && text != "" && k + 1 < WRAP
    ensures Counted(l, After(l, m, Same(text, k + 1)), text, k)
    decreases k
  {
    assert Same(text, k + 1)[..k] == Same(text, k);
    if k > 0 {
      SameCounted(l, m, text, k - 1);
      SameStep(l, After(l, m, Same(text, k)), text, k - 1);
    } else {
      assert Same(text, 1)[..0] == [];
    }
  }

  /** With action 1 one text said 65536 times at once is the input: the last of them is accepted. */
  lemma WrapLetsPass(l: Limit, m: Memory, text: string)
    requires l.Valid() && l.action == 1 && l.time >= 1 && Silent(m) && !m.state.closed && text != ""
    ensures !Rejected(l, m, Same(text, WRAP), WRAP - 1)
  {
    SameCounted(l, m, text, WRAP - 2);
    assert Same(text, WRAP)[..WRAP - 1] == Same(text, WRAP - 1);
  }

  // ---------- who is closed ----------

  ghost predicate AnyRejected(l: Limit, m: Memory, calls: seq<Call>) {
    exists k :: 0 <= k < |calls| && Rejected(l, m, calls, k)
  }

  lemma AnyRejectedStep(l: Limit, m: Memory, calls: seq<Call>)
    requires calls != []
    ensures var n := |calls| - 1;
            AnyRejected(l, m, calls) <==> AnyRejected(l, m, calls[..n]) || Rejected(l, m, calls, n)
  {
    var n := |calls| - 1;
    forall k | 0 <= k < n
      ensures Rejected(l, m, calls, k) <==> Rejected(l, m, calls[..n], k)
    {
      assert calls[..n][..k] == calls[..k];
    }
  }

  lemma {:induction false} CountStays(l: Limit, m: Memory, calls: seq<Call>)
    requires l.Valid() && 3 <= l.action <= 6 && Silent(m) && !m.state.closed
    ensures After(l, m, calls).state.closed || After(l, m, calls).state.count <= l.count
    decreases |calls|
  {
    if calls != [] {
      CountStays(l, m, calls[..|calls| - 1]);
    }
  }

  /** With a closing action, over every run, the connection is closed if and only if some text of it was
      rejected. */
  lemma {:induction false} RepetitionCloses(l: Limit, m: Memory, calls: seq<Call>)
    requires l.Valid() && 3 <= l.action <= 6 && Silent(m) && !m.state.closed
    ensures After(l, m, calls).state.closed <==> AnyRejected(l, m, calls)
    decreases |calls|
  {
    if calls != [] {
      var front := calls[..|calls| - 1];
      RepetitionCloses(l, m, front);
      CountStays(l, m, front);
      AnyRejectedStep(l, m, calls);
    }
  }

  /** Action 1, and whatever is no action, closes nobody. */
  lemma {:induction false} RepetitionOnlyWarns(l: Limit, m: Memory, calls: seq<Call>)
    requires !(2 <= l.action <= 6)
    ensures After(l, m, calls).state.closed == m.state.closed
    decreases |calls|
  {
    if calls != [] {
      RepetitionOnlyWarns(l, m, calls[..|calls| - 1]);
    }
  }
}

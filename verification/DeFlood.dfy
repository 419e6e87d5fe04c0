/** The flood limiters (core/DeFlood.cpp): per-user counters with an anchor tick, the warning ladder of
    action 2, the repeated-text limiter and the interval limiter.

    Counters are 16-bit and wrap; ticks and warning totals are unbounded here. */
module DeFlood {

  const WRAP: nat := 0x1_0000

  /** A limit of `count` calls per `time` ticks.  `action` says what a rejection does, `maxWarnings` and
      the warning ladder apply to action 2. */
  datatype Limit = Limit(action: int, count: nat, time: nat, maxWarnings: nat) {
    /** A positive 16-bit signed count. */
    ghost predicate Valid() {
      1 <= count < 0x8000
    }
  }

  /** A counter, the tick its window is anchored at, and the user's warnings and fate. */
  datatype State = State(count: nat, anchor: nat, warnings: nat, closed: bool) {
    ghost predicate Valid() {
      count < WRAP
    }
  }

  function Bump(count: nat): (r: nat)
    ensures count + 1 < WRAP ==> r == count + 1
    ensures r < WRAP
  {
    (count + 1) % WRAP
  }

  // ---------- what the functions do ----------

  /** DeFloodCheckForWarn: below the limit the user is told off, otherwise closed. */
  function Warn(l: Limit, s: State): State {
    var w := s.warnings + 1;
    s.(warnings := w, closed := s.closed || w >= l.maxWarnings)
  }

  /** DeFloodDoAction for a counter that has just reached its limit. */
  function DoAction(l: Limit, s: State): State {
    if l.action == 1 then s.(count := Bump(s.count))
    else if l.action == 2 then
      var w := Warn(l, s);
      if s.warnings + 1 >= l.maxWarnings then w else w.(count := Bump(s.count))
    else if 3 <= l.action <= 6 then s.(closed := true)
    else s
  }

  datatype Verdict = Verdict(rejected: bool, state: State)

  /** One call of DeFloodCheckForFlood at a tick, case by case. */
  function Check(l: Limit, s: State, tick: nat): Verdict {
    if s.count == 0 || tick >= s.anchor + l.time then
      Verdict(false, s.(count := 1, anchor := tick))
    else if s.count < l.count then
      Verdict(false, s.(count := s.count + 1))
    else if s.count == l.count then
      Verdict(true, DoAction(l, s))
    else if l.action == 2 && s.count == 2 * l.count then
      if s.warnings + 1 >= l.maxWarnings then Verdict(true, Warn(l, s))
      else Verdict(true, Warn(l, s).(count := s.count - l.count + 1))
    else
      Verdict(true, s.(count := Bump(s.count)))
  }

  class Counter {
    var count: nat
    var anchor: nat

    constructor ()
      ensures count == 0
    {
      count, anchor := 0, 0;
    }
  }

  class FloodUser {
    var warnings: nat
    var closed: bool

    constructor ()
      ensures warnings == 0 && !closed
    {
      warnings, closed := 0, false;
    }
  }

  ghost function Read(c: Counter, u: FloodUser): State
    reads c, u
  {
    State(c.count, c.anchor, u.warnings, u.closed)
  }

  method CheckForWarn(l: Limit, u: FloodUser) returns (shut: bool)
    modifies u
    ensures u.warnings == old(u.warnings) && u.closed == (old(u.closed) || u.warnings >= l.maxWarnings)
    ensures shut <==> u.warnings >= l.maxWarnings
  {
    if u.warnings < l.maxWarnings {
      return false;
    }
    u.closed := true;
    return true;
  }

  method Act(l: Limit, c: Counter, u: FloodUser)
    requires c.count < WRAP
    modifies c`count, u
    ensures Read(c, u) == DoAction(l, old(Read(c, u)))
  {
    if l.action == 1 {
      c.count := Bump(c.count);
    } else if l.action == 2 {
      u.warnings := u.warnings + 1;
      var shut := CheckForWarn(l, u);
      if !shut {
        c.count := Bump(c.count);
      }
    } else if 3 <= l.action <= 6 {
      u.closed := true;
    }
  }

  method CheckForFlood(l: Limit, c: Counter, u: FloodUser, tick: nat) returns (rejected: bool)
    requires l.Valid() && c.count < WRAP
    modifies c, u
    ensures Verdict(rejected, Read(c, u)) == Check(l, old(Read(c, u)), tick)
  {
    if c.count == 0 {
      c.anchor := tick;
    } else if c.count == l.count {
      if c.anchor + l.time > tick {
        Act(l, c, u);
        return true;
      }
      c.anchor := tick;
      c.count := 0;
    } else if c.count > l.count {
      if c.anchor + l.time > tick {
        if l.action == 2 && c.count == l.count * 2 {
          u.warnings := u.warnings + 1;
          var shut := CheckForWarn(l, u);
          if shut {
            return true;
          }
          c.count := c.count - l.count;
        }
        c.count := Bump(c.count);
        return true;
      }
      c.anchor := tick;
      c.count := 0;
    } else if c.anchor + l.time <= tick {
      c.anchor := tick;
      c.count := 0;
    }
    c.count := Bump(c.count);
    return false;
  }

  // ---------- the window law both limiters obey ----------

  datatype Window = Window(count: nat, anchor: nat)

  /** One call against a limit of n per t ticks: it opens a window, or is counted in the open one, or is
      rejected because the window is full. */
  ghost predicate Follows(n: nat, t: nat, w: Window, tick: nat, rejected: bool, next: Window) {
    if w.count == 0 || tick >= w.anchor + t then !rejected && next == Window(1, tick)
    else if w.count < n then !rejected && next == Window(w.count + 1, w.anchor)
    else rejected && next.anchor == w.anchor && next.count >= n
  }

  /** A run of calls: the window before each call and after the last one, the ticks, the verdicts. */
  ghost predicate Trace(n: nat, t: nat, ws: seq<Window>, ticks: seq<nat>, rejected: seq<bool>) {
    |ws| == |ticks| + 1 && |rejected| == |ticks| &&
    forall i :: 0 <= i < |ticks| ==> Follows(n, t, ws[i], ticks[i], rejected[i], ws[i + 1])
  }

  ghost predicate NonDecreasing(ticks: seq<nat>) {
    forall i, j :: 0 <= i < j < |ticks| ==> ticks[i] <= ticks[j]
  }

  /** The accepted calls with a < = tick < a + t. */
  function AcceptedIn(ticks: seq<nat>, rejected: seq<bool>, a: nat, t: nat): nat
    requires |ticks| == |rejected|
  {
    if ticks == [] then 0
    else (if !rejected[0] && a <= ticks[0] < a + t then 1 else 0) + AcceptedIn(ticks[1..], rejected[1..], a, t)
  }

  lemma {:induction false} NoneLate(ticks: seq<nat>, rejected: seq<bool>, a: nat, t: nat)
    requires |ticks| == |rejected| && forall i :: 0 <= i < |ticks| ==> ticks[i] >= a + t
    ensures AcceptedIn(ticks, rejected, a, t) == 0
  {
    if ticks != [] {
      NoneLate(ticks[1..], rejected[1..], a, t);
    }
  }

  /** How many more calls can be accepted at ticks in [a, a + t), from a window and the tick of the last
      call. */
  function Room(n: nat, w: Window, now: nat, a: nat): nat {
    var left := if w.count < n then n - w.count else 0;
    if w.count == 0 then 2 * n
    else if w.anchor >= a then left
    else if now >= a then left + n
    else 2 * n
  }

  lemma {:induction false} RateFrom(n: nat, t: nat, ws: seq<Window>, ticks: seq<nat>, rejected: seq<bool>, now: nat, a: nat)
    requires n >= 1 && Trace(n, t, ws, ticks, rejected)
    requires NonDecreasing(ticks) && (ticks != [] ==> now <= ticks[0])
    ensures AcceptedIn(ticks, rejected, a, t) <= Room(n, ws[0], now, a)
    decreases |ticks|
  {
    if ticks != [] {
      assert Follows(n, t, ws[0], ticks[0], rejected[0], ws[1]);
      RateFrom(n, t, ws[1..], ticks[1..], rejected[1..], ticks[0], a);
      if ws[0].count > 0 && ws[0].anchor >= a && ticks[0] >= ws[0].anchor + t {
        NoneLate(ticks, rejected, a, t);
      }
    }
  }

  /** Over every run, at most 2n calls are accepted in any t consecutive ticks. */
  lemma AtMostTwiceTheLimit(n: nat, t: nat, ws: seq<Window>, ticks: seq<nat>, rejected: seq<bool>, a: nat)
    requires n >= 1 && Trace(n, t, ws, ticks, rejected) && NonDecreasing(ticks) && ws[0].count == 0
    ensures AcceptedIn(ticks, rejected, a, t) <= 2 * n
  {
    RateFrom(n, t, ws, ticks, rejected, 0, a);
  }

  /** Call o opens a window: the counter is clear or the old window has expired. */
  ghost predicate Opens(t: nat, ws: seq<Window>, ticks: seq<nat>, o: nat)
    requires o < |ticks| && |ws| == |ticks| + 1
  {
    ws[o].count == 0 || ticks[o] >= ws[o].anchor + t
  }

  /** Whichever call opens a window: of the calls in it, exactly the first n are accepted. */
  lemma {:induction false} FirstNAccepted(n: nat, t: nat, ws: seq<Window>, ticks: seq<nat>, rejected: seq<bool>, o: nat, k: nat)
    requires n >= 1 && Trace(n, t, ws, ticks, rejected) && o <= k < |ticks| && Opens(t, ws, ticks, o)
    requires forall i :: o < i <= k ==> ticks[i] < ticks[o] + t
    ensures rejected[k] <==> k - o >= n
    ensures ws[k + 1].anchor == ticks[o] && if k - o < n then ws[k + 1].count == k - o + 1 else ws[k + 1].count >= n
  {
    assert Follows(n, t, ws[k], ticks[k], rejected[k], ws[k + 1]);
    if k > o {
      FirstNAccepted(n, t, ws, ticks, rejected, o, k - 1);
    }
  }

  // ---------- runs of the flood limiter ----------

  /** The state after a run of calls. */
  function After(l: Limit, s: State, ticks: seq<nat>): State
    decreases |ticks|
  {
    if ticks == [] then s
    else Check(l, After(l, s, ticks[..|ticks| - 1]), ticks[|ticks| - 1]).state
  }

  function Rejections(l: Limit, s: State, ticks: seq<nat>): (r: seq<bool>)
    ensures |r| == |ticks|
  {
    seq(|ticks|, i requires 0 <= i < |ticks| => Check(l, After(l, s, ticks[..i]), ticks[i]).rejected)
  }

  function Windows(l: Limit, s: State, ticks: seq<nat>): (ws: seq<Window>)
    ensures |ws| == |ticks| + 1
  {
    seq(|ticks| + 1, i requires 0 <= i <= |ticks| =>
      Window(After(l, s, ticks[..i]).count, After(l, s, ticks[..i]).anchor))
  }

  /** No call of the run finds the 16-bit counter at its last value in a full window. */
  ghost predicate NeverWraps(l: Limit, s: State, ticks: seq<nat>) {
    forall i :: 0 <= i < |ticks| ==> After(l, s, ticks[..i]).count + 1 < WRAP
  }

  lemma CheckFollows(l: Limit, s: State, tick: nat)
    requires l.Valid() && s.count + 1 < WRAP
    ensures var v := Check(l, s, tick);
            Follows(l.count, l.time, Window(s.count, s.anchor), tick, v.rejected, Window(v.state.count, v.state.anchor))
  {
  }

  lemma RunIsTrace(l: Limit, s: State, ticks: seq<nat>)
    requires l.Valid() && NeverWraps(l, s, ticks)
    ensures Trace(l.count, l.time, Windows(l, s, ticks), ticks, Rejections(l, s, ticks))
  {
    forall i | 0 <= i < |ticks|
      ensures Follows(l.count, l.time, Windows(l, s, ticks)[i], ticks[i], Rejections(l, s, ticks)[i], Windows(l, s, ticks)[i + 1])
    {
      var before, after := After(l, s, ticks[..i]), After(l, s, ticks[..i + 1]);
      assert ticks[..i + 1][..i] == ticks[..i];
      assert after == Check(l, before, ticks[i]).state && before.count + 1 < WRAP;
      CheckFollows(l, before, ticks[i]);
    }
  }

  /** The promise of the limiter over every run that does not wrap: the rate, and for every window that
      opens in the run, its first n calls. */
  lemma FloodRate(l: Limit, s: State, ticks: seq<nat>, a: nat)
    requires l.Valid() && s.count == 0 && NeverWraps(l, s, ticks) && NonDecreasing(ticks)
    ensures AcceptedIn(ticks, Rejections(l, s, ticks), a, l.time) <= 2 * l.count
    ensures forall o, k :: 0 <= o <= k < |ticks| && Opens(l.time, Windows(l, s, ticks), ticks, o) && ticks[k] < ticks[o] + l.time ==>
              (Rejections(l, s, ticks)[k] <==> k - o >= l.count)
  {
    var ws, rejected := Windows(l, s, ticks), Rejections(l, s, ticks);
    RunIsTrace(l, s, ticks);
    AtMostTwiceTheLimit(l.count, l.time, ws, ticks, rejected, a);
    forall o, k | 0 <= o <= k < |ticks| && Opens(l.time, ws, ticks, o) && ticks[k] < ticks[o] + l.time
      ensures rejected[k] <==> k - o >= l.count
    {
      FirstNAccepted(l.count, l.time, ws, ticks, rejected, o, k);
    }
  }

  /** With action 2 the counter stays within twice the limit; with the closing actions it stays at the
      limit; only a bare warning (action 1) lets it run on. */
  lemma {:induction false} CounterBound(l: Limit, s: State, ticks: seq<nat>)
    requires l.Valid() && s.count == 0
    ensures l.action == 2 ==> After(l, s, ticks).count <= 2 * l.count
    ensures l.action != 1 && l.action != 2 ==> After(l, s, ticks).count <= l.count
    ensures After(l, s, ticks).count <= |ticks|
    decreases |ticks|
  {
    if ticks != [] {
      CounterBound(l, s, ticks[..|ticks| - 1]);
    }
  }

  /** So every run is free of wraps unless action 1 is given 65536 calls. */
  lemma WrapsOnlyWithBareWarnings(l: Limit, s: State, ticks: seq<nat>)
    requires l.Valid() && s.count == 0 && (l.action != 1 || |ticks| < WRAP)
    ensures NeverWraps(l, s, ticks)
  {
    forall i | 0 <= i < |ticks|
      ensures After(l, s, ticks[..i]).count + 1 < WRAP
    {
      CounterBound(l, s, ticks[..i]);
    }
  }

  // ---------- who is closed ----------

  /** The verdict on call i. */
  predicate RejectedAt(l: Limit, s: State, ticks: seq<nat>, i: nat)
    requires i < |ticks|
  {
    Check(l, After(l, s, ticks[..i]), ticks[i]).rejected
  }

  ghost predicate AnyRejected(l: Limit, s: State, ticks: seq<nat>) {
    exists i :: 0 <= i < |ticks| && RejectedAt(l, s, ticks, i)
  }

  lemma AnyRejectedStep(l: Limit, s: State, ticks: seq<nat>)
    requires ticks != []
    ensures var n := |ticks| - 1;
            AnyRejected(l, s, ticks) <==> AnyRejected(l, s, ticks[..n]) || RejectedAt(l, s, ticks, n)
  {
    var n := |ticks| - 1;
    forall i | 0 <= i < n
      ensures RejectedAt(l, s, ticks, i) <==> RejectedAt(l, s, ticks[..n], i)
    {
      assert ticks[..n][..i] == ticks[..i];
    }
  }

  lemma ClosingStep(l: Limit, s: State, tick: nat)
    requires l.Valid() && 3 <= l.action <= 6 && s.count <= l.count
    ensures Check(l, s, tick).state.closed <==> s.closed || Check(l, s, tick).rejected
  {
  }

  /** With a closing action, over every run from a clear counter, the connection is closed if and only if
      some call of the run was rejected. */
  lemma {:induction false} ClosingCloses(l: Limit, s: State, ticks: seq<nat>)
    requires l.Valid() && 3 <= l.action <= 6 && s.count == 0 && !s.closed
    ensures After(l, s, ticks).closed <==> AnyRejected(l, s, ticks)
    decreases |ticks|
  {
    if ticks != [] {
      var front := ticks[..|ticks| - 1];
      ClosingCloses(l, s, front);
      AnyRejectedStep(l, s, ticks);
      CounterBound(l, s, front);
      ClosingStep(l, After(l, s, front), ticks[|ticks| - 1]);
    }
  }

  /** In one window that is from call n + 1 on. */
  lemma ClosedFromNext(l: Limit, s: State, ticks: seq<nat>)
    requires l.Valid() && 3 <= l.action <= 6 && s.count == 0 && !s.closed
    requires NonDecreasing(ticks) && forall i :: 0 <= i < |ticks| ==> ticks[i] < ticks[0] + l.time
    ensures After(l, s, ticks).closed <==> |ticks| > l.count
  {
    ClosingCloses(l, s, ticks);
    WrapsOnlyWithBareWarnings(l, s, ticks);
    FloodRate(l, s, ticks, 0);
    var ws, rejected := Windows(l, s, ticks), Rejections(l, s, ticks);
    if ticks != [] {
      assert Opens(l.time, ws, ticks, 0);
      assert forall k :: 0 <= k < |ticks| ==> (rejected[k] <==> k - 0 >= l.count);
      assert forall k :: 0 <= k < |ticks| ==> (RejectedAt(l, s, ticks, k) <==> rejected[k]);
      if |ticks| > l.count {
        assert RejectedAt(l, s, ticks, l.count);
      }
    }
  }

  /** Action 1, and whatever is no action, closes nobody. */
  lemma {:induction false} OthersNeverClose(l: Limit, s: State, ticks: seq<nat>)
    requires !(2 <= l.action <= 6)
    ensures After(l, s, ticks).closed == s.closed && After(l, s, ticks).warnings == s.warnings
    decreases |ticks|
  {
    if ticks != [] {
      OthersNeverClose(l, s, ticks[..|ticks| - 1]);
    }
  }

  /** With action 2 it is the number of warnings that closes, over every run. */
  lemma {:induction false} ClosedByWarnings(l: Limit, s: State, ticks: seq<nat>)
    requires l.action == 2 && s.warnings < l.maxWarnings && !s.closed
    ensures After(l, s, ticks).closed <==> After(l, s, ticks).warnings >= l.maxWarnings
    ensures After(l, s, ticks).warnings >= s.warnings
    decreases |ticks|
  {
    if ticks != [] {
      ClosedByWarnings(l, s, ticks[..|ticks| - 1]);
    }
  }

  // ---------- what wrapping does ----------

  function Burst(tick: nat, k: nat): (b: seq<nat>)
    ensures |b| == k
  {
    seq(k, _ => tick)
  }

  /** Calls accepted among k calls at one tick: n in each full turn of the counter. */
  function BurstAccepted(n: nat, k: nat): nat {
    n * (k / WRAP) + if k % WRAP < n then k % WRAP else n
  }

  function CountAccepted(rejected: seq<bool>): nat {
    if rejected == [] then 0
    else CountAccepted(rejected[..|rejected| - 1]) + if rejected[|rejected| - 1] then 0 else 1
  }

  lemma {:induction false} BurstState(l: Limit, s: State, tick: nat, k: nat)
    requires l.Valid() && l.action == 1 && l.time >= 1 && s.count == 0
    ensures After(l, s, Burst(tick, k)).count == k % WRAP && (k > 0 ==> After(l, s, Burst(tick, k)).anchor == tick)
  {
    if k > 0 {
      BurstState(l, s, tick, k - 1);
      assert Burst(tick, k)[..k - 1] == Burst(tick, k - 1);
    }
  }

  lemma BurstRejections(l: Limit, s: State, tick: nat, k: nat)
    requires l.Valid() && l.action == 1 && l.time >= 1 && s.count == 0
    ensures Rejections(l, s, Burst(tick, k + 1)) == Rejections(l, s, Burst(tick, k)) + [k % WRAP >= l.count]
  {
    var b, c := Burst(tick, k + 1), Burst(tick, k);
    var rb, rc := Rejections(l, s, b), Rejections(l, s, c);
    forall i | 0 <= i < k
      ensures rb[i] == rc[i]
    {
      assert b[..i] == c[..i];
    }
    BurstState(l, s, tick, k);
    assert b[..k] == c;
    assert rb[k] == (k % WRAP >= l.count);
    assert rb == rb[..k] + [rb[k]] && rb[..k] == rc;
  }

  /** With action 1 a burst at a single tick is accepted n calls at a time, once per 65536 calls. */
  lemma {:induction false} BurstLaw(l: Limit, s: State, tick: nat, k: nat)
    requires l.Valid() && l.action == 1 && l.time >= 1 && s.count == 0
    ensures CountAccepted(Rejections(l, s, Burst(tick, k))) == BurstAccepted(l.count, k)
  {
    if k > 0 {
      BurstLaw(l, s, tick, k - 1);
      BurstRejections(l, s, tick, k - 1);
      BurstStep(l.count, k - 1);
      var rc := Rejections(l, s, Burst(tick, k - 1));
      assert (rc + [(k - 1) % WRAP >= l.count])[..k - 1] == rc;
    }
  }

  lemma BurstStep(n: nat, k: nat)
    requires n < WRAP
    ensures BurstAccepted(n, k + 1) == BurstAccepted(n, k) + if k % WRAP < n then 1 else 0
  {
    if k % WRAP == WRAP - 1 {
      assert (k + 1) / WRAP == k / WRAP + 1 && (k + 1) % WRAP == 0;
      assert n * (k / WRAP + 1) == n * (k / WRAP) + n;
    } else {
      assert (k + 1) / WRAP == k / WRAP && (k + 1) % WRAP == k % WRAP + 1;
    }
  }

  lemma BurstBound(n: nat, k: nat, q: nat, m: nat)
    requires 1 <= n && k == q * WRAP + m && m < WRAP
    ensures n * q + (if m < n then m else n) <= 2 * n <==> k <= 2 * WRAP
  {
    if q <= 2 {
      assert n * 0 == 0 && n * 1 == n && n * 2 == 2 * n;
    } else {
      assert n * q >= n * 3;
    }
  }

  // ---------- the warning ladder ----------

  /** q is r / n rounded up. */
  ghost predicate IsCeil(q: nat, r: nat, n: nat) {
    (q - 1) * n < r <= q * n
  }

  /** A fresh window of calls under action 2. */
  ghost predicate LadderRun(l: Limit, s: State, ticks: seq<nat>) {
    l.Valid() && l.action == 2 && s.count == 0 && !s.closed && s.warnings < l.maxWarnings &&
    forall i :: 0 < i < |ticks| ==> ticks[i] < ticks[0] + l.time
  }

  /** The counter q warnings and r rejections into a window. */
  function LadderCount(n: nat, r: nat, q: nat): int {
    if q == 0 then n else n + r - (q - 1) * n
  }

  /** r rejected calls of a window raise exactly ceil(r / n) warnings, as long as the limit allows that
      many; the counter says how far the next warning is. */
  lemma Ladder(l: Limit, s: State, ticks: seq<nat>, q: nat)
    requires LadderRun(l, s, ticks) && |ticks| >= l.count
    requires IsCeil(q, |ticks| - l.count, l.count) && s.warnings + q < l.maxWarnings
    ensures After(l, s, ticks).count == LadderCount(l.count, |ticks| - l.count, q)
    ensures After(l, s, ticks).anchor == ticks[0]
    ensures After(l, s, ticks).warnings == s.warnings + q && !After(l, s, ticks).closed
  {
    assert q * l.count == (q - 1) * l.count + l.count;
    LadderFrom(l, s, ticks, q, (q - 1) * l.count);
  }

  lemma {:induction false} LadderFrom(l: Limit, s: State, ticks: seq<nat>, q: nat, b: int)
    requires LadderRun(l, s, ticks) && |ticks| >= l.count
    requires b == (q - 1) * l.count && b < |ticks| - l.count <= b + l.count && s.warnings + q < l.maxWarnings
    ensures After(l, s, ticks) ==
            State(if q == 0 then l.count else |ticks| - b, ticks[0], s.warnings + q, false)
    decreases |ticks|
  {
    var n, r := l.count, |ticks| - l.count;
    var front := ticks[..|ticks| - 1];
    Products(q, n);
    if r == 0 {
      Climb(l, s, ticks);
    } else if r - 1 > b {
      LadderFrom(l, s, front, q, b);
    } else {
      LadderFrom(l, s, front, q - 1, b - n);
    }
  }

  lemma Products(q: nat, n: nat)
    ensures (q - 2) * n == (q - 1) * n - n && q * n == (q - 1) * n + n
    ensures q >= 2 ==> (q - 1) * n >= n
    ensures q == 0 ==> (q - 1) * n == 0 - n
    ensures q == 1 ==> (q - 1) * n == 0
  {
  }

  /** The first n calls of a window only count. */
  lemma {:induction false} Climb(l: Limit, s: State, ticks: seq<nat>)
    requires LadderRun(l, s, ticks) && 1 <= |ticks| <= l.count
    ensures After(l, s, ticks) == State(|ticks|, ticks[0], s.warnings, false)
    decreases |ticks|
  {
    var front := ticks[..|ticks| - 1];
    if |ticks| > 1 {
      Climb(l, s, front);
    } else {
      assert front == [];
    }
  }

  lemma {:induction false} ClosedStays(l: Limit, s: State, ticks: seq<nat>, k: nat)
    requires k <= |ticks| && After(l, s, ticks[..k]).closed
    ensures After(l, s, ticks).closed
    decreases |ticks| - k
  {
    if k < |ticks| {
      assert ticks[..k + 1][..k] == ticks[..k];
      ClosedStays(l, s, ticks, k + 1);
    } else {
      assert ticks[..k] == ticks;
    }
  }

  lemma {:induction false} CeilExists(r: nat, n: nat) returns (q: nat)
    requires n >= 1
    ensures IsCeil(q, r, n)
  {
    if r == 0 {
      q := 0;
    } else if r <= n {
      q := 1;
    } else {
      var p := CeilExists(r - n, n);
      q := p + 1;
      Products(q, n);
    }
  }

  lemma FewWarnings(q: nat, r: nat, n: nat, w: nat)
    requires 1 <= n && 1 <= w && IsCeil(q, r, n) && r <= (w - 1) * n
    ensures q < w
  {
    Monotone(q - 1, w - 1, n);
  }

  lemma Monotone(a: int, b: int, n: nat)
    ensures a >= b ==> a * n >= b * n
  {
  }

  /** Starting without warnings, a user is closed by the ((W - 1) * n + 1)-th rejection of a window and by
      no earlier one: n accepted calls plus (W - 1) * n rejected ones are survived. */
  lemma ClosedExactly(l: Limit, s: State, ticks: seq<nat>)
    requires LadderRun(l, s, ticks) && s.warnings == 0
    ensures After(l, s, ticks).closed <==> |ticks| > l.count + (l.maxWarnings - 1) * l.count
  {
    var n, w := l.count, l.maxWarnings;
    Products(w, n);
    if ticks == [] {
    } else if |ticks| <= n {
      Climb(l, s, ticks);
    } else if |ticks| - n <= (w - 1) * n {
      var q := CeilExists(|ticks| - n, n);
      FewWarnings(q, |ticks| - n, n, w);
      Ladder(l, s, ticks, q);
    } else {
      OneTooMany(l, s, ticks, n + (w - 1) * n);
      ClosedStays(l, s, ticks, n + (w - 1) * n + 1);
    }
  }

  lemma OneTooMany(l: Limit, s: State, ticks: seq<nat>, last: nat)
    requires LadderRun(l, s, ticks) && s.warnings == 0
    requires last == l.count + (l.maxWarnings - 1) * l.count && last < |ticks|
    ensures After(l, s, ticks[..last + 1]).closed
  {
    var n, w := l.count, l.maxWarnings;
    Products(w, n);
    var front := ticks[..last];
    var b: int := (w - 1) * n;
    LadderFrom(l, s, front, w - 1, b - n);
    assert ticks[..last + 1][..last] == front;
  }

  // ---------- repeated texts ----------

  /** What DeFloodCheckForSameFlood does with a repetition inside its window. */
  function CheckSame(l: Limit, s: State): Verdict {
    if s.count < l.count then Verdict(false, s.(count := s.count + 1))
    else if s.count == l.count then
      var d := DoAction(l, s);
      Verdict(true, if d.closed then d else d.(count := Bump(d.count)))
    else if l.action == 2 && s.count == 2 * l.count then
      if s.warnings + 1 >= l.maxWarnings then Verdict(true, Warn(l, s))
      else Verdict(true, Warn(l, s).(count := s.count - l.count + 1))
    else Verdict(true, s.(count := Bump(s.count)))
  }

  /** Whether a call counts as a repetition of the last text. */
  predicate Repeats(l: Limit, anchor: nat, tick: nat, newData: string, oldData: string) {
    !(newData == "" && oldData == "") && anchor <= tick < anchor + l.time && newData == oldData
  }

  method CheckForSameFlood(l: Limit, c: Counter, u: FloodUser, tick: nat, newData: string, oldData: string)
    returns (rejected: bool, isNew: bool)
    requires l.Valid() && c.count < WRAP
    modifies c`count, u
    ensures Repeats(l, c.anchor, tick, newData, oldData) ==>
              Verdict(rejected, Read(c, u)) == CheckSame(l, old(Read(c, u))) && !isNew
    ensures !Repeats(l, c.anchor, tick, newData, oldData) ==>
              !rejected && Read(c, u) == old(Read(c, u)) && (isNew <==> !(newData == "" && oldData == ""))
  {
    isNew := false;
    if |oldData| == 0 && |newData| == 0 {
      return false, isNew;
    }
    if |oldData| == |newData| && tick >= c.anchor && c.anchor + l.time > tick && newData == oldData {
      if c.count < l.count {
        c.count := Bump(c.count);
        return false, isNew;
      }
      if c.count == l.count {
        Act(l, c, u);
        if !u.closed {
          c.count := Bump(c.count);
        }
        return true, isNew;
      }
      if l.action == 2 && c.count == l.count * 2 {
        u.warnings := u.warnings + 1;
        var shut := CheckForWarn(l, u);
        if shut {
          return true, isNew;
        }
        c.count := c.count - l.count;
      }
      c.count := Bump(c.count);
      return true, isNew;
    }
    return false, true;
  }

  /** The state after r repetitions beyond the limit. */
  function Repeated(l: Limit, s: State, r: nat): State {
    if r == 0 then s else CheckSame(l, Repeated(l, s, r - 1)).state
  }

  /** The first warning moves the counter twice.  For n >= 2 the ladder then goes on as usual: r
      repetitions raise 1 + floor(r / n) warnings. */
  lemma {:induction false} SameLadder(l: Limit, s: State, r: nat, q: nat)
    requires l.Valid() && l.action == 2 && l.count >= 2 && s.count == l.count && !s.closed
    requires r >= 1 && q * l.count <= r < (q + 1) * l.count && s.warnings + 1 + q < l.maxWarnings
    ensures Repeated(l, s, r) == State(l.count + 1 + r - q * l.count, s.anchor, s.warnings + 1 + q, false)
  {
    var n := l.count;
    Products(q + 1, n);
    if r == 1 {
      assert Repeated(l, s, 0) == s;
    } else if r == q * n {
      SameLadder(l, s, r - 1, q - 1);
    } else {
      SameLadder(l, s, r - 1, q);
    }
  }

  /** The warnings of r repetitions, with q = floor(r / n), while the limit on warnings allows that many. */
  ghost predicate SameLadderFor(l: Limit, s: State, r: nat, q: nat) {
    l.Valid() && l.action == 2 && s.count == l.count && !s.closed &&
    r >= 1 && q * l.count <= r < (q + 1) * l.count && s.warnings + 1 + q < l.maxWarnings ==>
      Repeated(l, s, r).warnings == s.warnings + 1 + q && !Repeated(l, s, r).closed
  }

  /** The ladder law holds for a limit of n repetitions if and only if n is at least 2. */
  lemma SameLadderExactly(n: nat)
    requires 1 <= n < 0x8000
    ensures (forall l: Limit, s: State, r: nat, q: nat :: l.count == n ==> SameLadderFor(l, s, r, q)) <==> n >= 2
  {
    if n >= 2 {
      forall l: Limit, s: State, r: nat, q: nat | l.count == n
        ensures SameLadderFor(l, s, r, q)
      {
        if l.Valid() && l.action == 2 && s.count == l.count && !s.closed &&
           r >= 1 && q * l.count <= r < (q + 1) * l.count && s.warnings + 1 + q < l.maxWarnings {
          SameLadder(l, s, r, q);
        }
      }
    } else {
      var l, s := Limit(2, 1, 1, 9), State(1, 0, 0, false);
      SameSingleWarnsOnce(l, s, 1);
      assert !SameLadderFor(l, s, 1, 1);
    }
  }

  /** One way around of the counter at n = 1: at 65534 repetitions it has wrapped, and at 65535 it is 1 again
      without a rejection. */
  const TURN: nat := WRAP - 1

  function SingleCount(j: nat): nat {
    if j == 0 then 1 else if j < TURN - 1 then j + 2 else 0
  }

  /** After j repetitions of a turn, the first of which warns. */
  function SingleState(s: State, k: nat, j: nat): State {
    State(SingleCount(j), s.anchor, s.warnings + k + if j == 0 then 0 else 1, false)
  }

  lemma SingleStep(l: Limit, s: State, k: nat, j: nat)
    requires l.Valid() && l.action == 2 && l.count == 1 && j < TURN && s.warnings + k + 1 < l.maxWarnings
    ensures CheckSame(l, SingleState(s, k, j)).state == if j + 1 < TURN then SingleState(s, k, j + 1) else SingleState(s, k + 1, 0)
  {
  }

  /** For n = 1 the double step jumps over twice the limit: of r = 65535 * k + j repetitions k or k + 1 warn,
      one in 65535. */
  lemma {:induction false} SameSingle(l: Limit, s: State, r: nat, k: nat, j: nat)
    requires l.Valid() && l.action == 2 && l.count == 1 && s.count == 1 && !s.closed
    requires r == TURN * k + j && j < TURN && s.warnings + k + 1 < l.maxWarnings
    ensures Repeated(l, s, r) == SingleState(s, k, j)
    decreases r
  {
    if j > 0 {
      SameSingle(l, s, r - 1, k, j - 1);
      SingleStep(l, s, k, j - 1);
    } else if k > 0 {
      SameSingle(l, s, r - 1, k - 1, TURN - 1);
      SingleStep(l, s, k - 1, TURN - 1);
    }
  }

  /** So after the first warning no repetition warns again until the counter wraps. */
  lemma SameSingleWarnsOnce(l: Limit, s: State, r: nat)
    requires l.Valid() && l.action == 2 && l.count == 1 && s.count == 1 && !s.closed
    requires 1 <= r && r + 2 < WRAP && s.warnings + 1 < l.maxWarnings
    ensures Repeated(l, s, r) == State(r + 2, s.anchor, s.warnings + 1, false)
  {
    SameSingle(l, s, r, 0, r);
  }

  // ---------- the interval limiter ----------

  datatype Interval = Accepted(window: Window) | Wait(ticks: nat, window: Window)

  function Pace(n: nat, t: nat, w: Window, tick: nat): Interval {
    if w.count == 0 || tick >= w.anchor + t then Accepted(Window(1, tick))
    else if w.count < n then Accepted(Window(w.count + 1, w.anchor))
    else Wait(w.anchor + t - tick, Window(Bump(w.count), w.anchor))
  }

  method CheckInterval(n: nat, t: nat, c: Counter, tick: nat) returns (rejected: bool, wait: nat)
    requires 1 <= n < 0x8000 && c.count < WRAP
    modifies c
    ensures (if rejected then Wait(wait, Window(c.count, c.anchor)) else Accepted(Window(c.count, c.anchor)))
            == Pace(n, t, Window(old(c.count), old(c.anchor)), tick)
  {
    wait := 0;
    if c.count == 0 {
      c.anchor := tick;
    } else if c.count >= n {
      if c.anchor + t > tick {
        c.count := Bump(c.count);
        return true, c.anchor + t - tick;
      }
      c.anchor := tick;
      c.count := 0;
    } else if c.anchor + t <= tick {
      c.anchor := tick;
      c.count := 0;
    }
    c.count := Bump(c.count);
    return false, wait;
  }

  /** A reported wait is between one tick and the interval, and it is exact: unless the counter has just
      wrapped, the next call is accepted if and only if it comes after at least that wait. */
  lemma WaitIsExact(n: nat, t: nat, w: Window, tick: nat, later: nat)
    requires 1 <= n < 0x8000 && w.count < WRAP && w.anchor <= tick && Pace(n, t, w, tick).Wait?
    ensures var p := Pace(n, t, w, tick);
            && 1 <= p.ticks <= t
            && (later >= tick + p.ticks ==> Pace(n, t, p.window, later).Accepted?)
            && (p.window.count != 0 ==> (Pace(n, t, p.window, later).Accepted? <==> later >= tick + p.ticks))
  {
  }

  function Paced(n: nat, t: nat, w: Window, ticks: seq<nat>): Window
    decreases |ticks|
  {
    if ticks == [] then w else Pace(n, t, Paced(n, t, w, ticks[..|ticks| - 1]), ticks[|ticks| - 1]).window
  }

  function Waits(n: nat, t: nat, w: Window, ticks: seq<nat>): (r: seq<bool>)
    ensures |r| == |ticks|
  {
    seq(|ticks|, i requires 0 <= i < |ticks| => Pace(n, t, Paced(n, t, w, ticks[..i]), ticks[i]).Wait?)
  }

  /** No call of the run finds the counter at its last value; the counter starts anew in every window. */
  ghost predicate PaceNeverWraps(n: nat, t: nat, w: Window, ticks: seq<nat>) {
    forall i :: 0 <= i < |ticks| ==> Paced(n, t, w, ticks[..i]).count + 1 < WRAP
  }

  function PaceWindows(n: nat, t: nat, w: Window, ticks: seq<nat>): (ws: seq<Window>)
    ensures |ws| == |ticks| + 1
  {
    seq(|ticks| + 1, i requires 0 <= i <= |ticks| => Paced(n, t, w, ticks[..i]))
  }

  /** Over every run that does not wrap the counter, at most 2n calls are accepted in any t consecutive
      ticks, and in every window exactly its first n. */
  lemma IntervalRate(n: nat, t: nat, ticks: seq<nat>, a: nat)
    requires 1 <= n < 0x8000 && PaceNeverWraps(n, t, Window(0, 0), ticks) && NonDecreasing(ticks)
    ensures AcceptedIn(ticks, Waits(n, t, Window(0, 0), ticks), a, t) <= 2 * n
    ensures forall o, k :: 0 <= o <= k < |ticks| && Opens(t, PaceWindows(n, t, Window(0, 0), ticks), ticks, o) && ticks[k] < ticks[o] + t ==>
              (Waits(n, t, Window(0, 0), ticks)[k] <==> k - o >= n)
  {
    var w := Window(0, 0);
    var rejected, ws := Waits(n, t, w, ticks), PaceWindows(n, t, w, ticks);
    forall i | 0 <= i < |ticks|
      ensures Follows(n, t, ws[i], ticks[i], rejected[i], ws[i + 1])
    {
      assert ticks[..i + 1][..i] == ticks[..i];
      assert Paced(n, t, w, ticks[..i]).count + 1 < WRAP;
    }
    AtMostTwiceTheLimit(n, t, ws, ticks, rejected, a);
    forall o, k | 0 <= o <= k < |ticks| && Opens(t, ws, ticks, o) && ticks[k] < ticks[o] + t
      ensures rejected[k] <==> k - o >= n
    {
      FirstNAccepted(n, t, ws, ticks, rejected, o, k);
    }
  }
}

/** When the limiters of DeFlood keep their rate although their 16-bit counters wrap: exact thresholds,
    for the interval limiter and for the flood limiter with action 1 (core/DeFlood.cpp). */
module RateLimits {
  import opened DeFlood

  // ---------- one run, call by call ----------

  /** The accepted calls of a run at ticks in [a, a + t). */
  function Granted(n: nat, t: nat, w: Window, ticks: seq<nat>, a: nat): nat
    decreases |ticks|
  {
    if ticks == [] then 0
    else
      var p := Pace(n, t, w, ticks[0]);
      (if p.Accepted? && a <= ticks[0] < a + t then 1 else 0) + Granted(n, t, p.window, ticks[1..], a)
  }

  /** The calls at ticks in [a, a + t). */
  function CallsIn(ticks: seq<nat>, a: nat, t: nat): (m: nat)
    ensures m <= |ticks|
  {
    if ticks == [] then 0 else (if a <= ticks[0] < a + t then 1 else 0) + CallsIn(ticks[1..], a, t)
  }

  lemma {:induction false} PacedFront(n: nat, t: nat, w: Window, ticks: seq<nat>)
    requires ticks != []
    ensures Paced(n, t, w, ticks) == Paced(n, t, Pace(n, t, w, ticks[0]).window, ticks[1..])
    decreases |ticks|
  {
    var init := ticks[..|ticks| - 1];
    if |ticks| == 1 {
      assert init == [] && ticks[1..] == [];
    } else {
      PacedFront(n, t, w, init);
      assert init[1..] == ticks[1..][..|ticks| - 2];
    }
  }

  lemma {:induction false} GrantedIsAccepted(n: nat, t: nat, w: Window, ticks: seq<nat>, a: nat)
    ensures AcceptedIn(ticks, Waits(n, t, w, ticks), a, t) == Granted(n, t, w, ticks, a)
    decreases |ticks|
  {
    if ticks != [] {
      var next, later := Pace(n, t, w, ticks[0]).window, ticks[1..];
      var rejected := Waits(n, t, w, ticks);
      assert ticks[..0] == [];
      forall i | 0 <= i < |later| ensures rejected[1..][i] == Waits(n, t, next, later)[i] {
        PacedFront(n, t, w, ticks[..i + 1]);
        assert ticks[..i + 1][1..] == later[..i];
      }
      assert rejected[1..] == Waits(n, t, next, later);
      GrantedIsAccepted(n, t, next, later, a);
    }
  }

  // ---------- how much room there is ----------

  /** Calls accepted out of m in one unexpired stretch: n in each full turn of the counter. */
  function Stretch(n: nat, m: nat): nat {
    BurstAccepted(n, m)
  }

  lemma StretchStep(n: nat, m: nat)
    requires n < WRAP
    ensures Stretch(n, m + 1) == Stretch(n, m) + if m % WRAP < n then 1 else 0
  {
    BurstStep(n, m);
  }

  lemma {:induction false} StretchGrows(n: nat, m: nat, k: nat)
    requires n < WRAP && m <= k
    ensures Stretch(n, m) <= Stretch(n, k)
    decreases k
  {
    if m < k {
      StretchGrows(n, m, k - 1);
      StretchStep(n, k - 1);
    }
  }

  /** Room for m calls when an old window may still take r of them before it expires. */
  function Room(n: nat, r: nat, m: nat): nat {
    if r == 0 || m == 0 then Stretch(n, m)
    else
      var later := 1 + Room(n, r - 1, m - 1);
      if Stretch(n, m) < later then later else Stretch(n, m)
  }

  lemma {:induction false} RoomGrows(n: nat, r: nat, m: nat, r': nat, m': nat)
    requires n < WRAP && r <= r' && m <= m'
    ensures Stretch(n, m) <= Room(n, r, m) <= Room(n, r', m')
    decreases m
  {
    StretchGrows(n, m, m');
    if r > 0 && m > 0 {
      RoomGrows(n, r - 1, m - 1, r' - 1, m' - 1);
    }
    RoomAtLeast(n, r', m');
  }

  lemma RoomAtLeast(n: nat, r: nat, m: nat)
    ensures Stretch(n, m) <= Room(n, r, m)
  {
  }

  /** What a window can still take before it expires, if it was anchored before a. */
  function Left(n: nat, t: nat, w: Window, a: nat): nat {
    if w.anchor + t <= a || w.count >= n then 0 else n - w.count
  }

  /** Room at ticks in [a, a + t), from a window and the tick of the last call. */
  function RoomFrom(n: nat, t: nat, w: Window, now: nat, a: nat, m: nat): int
    requires n >= 1
  {
    if now < a then Room(n, if t >= 2 then n - 1 else 0, m)
    else if w.count == 0 then Stretch(n, m)
    else if w.anchor >= a then Stretch(n, w.count + m) - Stretch(n, w.count)
    else Room(n, Left(n, t, w, a), m)
  }

  ghost predicate Proper(n: nat, w: Window, now: nat) {
    1 <= n < 0x8000 && w.count < WRAP && (w.count > 0 ==> w.anchor <= now)
  }

  lemma StretchSmall(n: nat, m: nat)
    requires n < WRAP
    ensures m < WRAP ==> Stretch(n, m) == if m < n then m else n
    ensures Stretch(n, WRAP + m) == n + Stretch(n, m)
  {
    assert (WRAP + m) / WRAP == 1 + m / WRAP && (WRAP + m) % WRAP == m % WRAP;
    assert n * (1 + m / WRAP) == n + n * (m / WRAP);
    if m < WRAP {
      assert m / WRAP == 0 && n * 0 == 0;
    }
  }

  /** One call inside the interval uses up the room it takes. */
  lemma RoomStep(n: nat, t: nat, w: Window, tick: nat, a: nat, m: nat)
    requires Proper(n, w, tick) && a <= tick < a + t
    ensures var p := Pace(n, t, w, tick);
            (if p.Accepted? then 1 else 0) + RoomFrom(n, t, p.window, tick, a, m) <= RoomFrom(n, t, w, tick, a, m + 1)
  {
    StretchSmall(n, 1);
    StretchStep(n, m);
    StretchSmall(n, w.count);
    StretchSmall(n, w.count + 1);
    if w.count == 0 || tick >= w.anchor + t {
      RoomAtLeast(n, Left(n, t, w, a), m + 1);
    } else if w.count == WRAP - 1 {
      StretchSmall(n, m);
      RoomAtLeast(n, 0, m + 1);
    }
  }

  /** Reaching the interval loses no room. */
  lemma RoomReached(n: nat, t: nat, w: Window, now: nat, tick: nat, a: nat, m: nat)
    requires Proper(n, w, now) && now <= tick && a <= tick
    ensures RoomFrom(n, t, w, tick, a, m) <= RoomFrom(n, t, w, now, a, m)
  {
    if now < a {
      RoomGrows(n, if w.count == 0 then 0 else Left(n, t, w, a), m, if t >= 2 then n - 1 else 0, m);
    }
  }

  lemma {:induction false} NoneGranted(n: nat, t: nat, w: Window, ticks: seq<nat>, a: nat)
    requires forall i :: 0 <= i < |ticks| ==> ticks[i] >= a + t
    ensures Granted(n, t, w, ticks, a) == 0 && CallsIn(ticks, a, t) == 0
    decreases |ticks|
  {
    if ticks != [] {
      NoneGranted(n, t, Pace(n, t, w, ticks[0]).window, ticks[1..], a);
    }
  }

  /** A run grants no more than there is room for. */
  lemma {:induction false} GrantedFits(n: nat, t: nat, w: Window, ticks: seq<nat>, now: nat, a: nat)
    requires Proper(n, w, now) && NonDecreasing(ticks) && (ticks != [] ==> now <= ticks[0])
    ensures Granted(n, t, w, ticks, a) <= RoomFrom(n, t, w, now, a, CallsIn(ticks, a, t))
    decreases |ticks|
  {
    if ticks == [] || ticks[0] >= a + t {
      NoneGranted(n, t, w, ticks, a);
      RoomNotNegative(n, t, w, now, a);
    } else {
      var tick, next := ticks[0], Pace(n, t, w, ticks[0]).window;
      GrantedFits(n, t, next, ticks[1..], tick, a);
      if tick >= a {
        RoomStep(n, t, w, tick, a, CallsIn(ticks[1..], a, t));
        RoomReached(n, t, w, now, tick, a, CallsIn(ticks, a, t));
      }
    }
  }

  lemma RoomNotNegative(n: nat, t: nat, w: Window, now: nat, a: nat)
    requires n >= 1
    ensures RoomFrom(n, t, w, now, a, 0) >= 0
  {
  }

  // ---------- the thresholds ----------

  /** The most calls inside an interval that never break the rate. */
  function Safe(n: nat, t: nat): nat {
    if n >= 2 && t >= 2 then WRAP + n else 2 * WRAP
  }

  lemma StretchBound(n: nat, m: nat)
    requires 1 <= n < WRAP
    ensures Stretch(n, m) <= 2 * n <==> m <= 2 * WRAP
  {
    BurstBound(n, m, m / WRAP, m % WRAP);
  }

  lemma {:induction false} RoomBound(n: nat, r: nat, m: nat, k: nat)
    requires 1 <= n < WRAP && r <= n && k <= n && m <= WRAP + k
    ensures Room(n, r, m) <= n + if k < r then r else k
    decreases r
  {
    StretchGrows(n, m, WRAP + k);
    StretchSmall(n, k);
    if r > 0 && m > 0 {
      RoomBound(n, r - 1, m - 1, if k == 0 then 0 else k - 1);
    }
  }

  /** However long the run, the rate holds for an interval into which no more than Safe calls fall. */
  lemma SafeHolds(n: nat, t: nat, w: Window, ticks: seq<nat>, a: nat)
    requires 1 <= n < 0x8000 && w.count == 0 && NonDecreasing(ticks) && CallsIn(ticks, a, t) <= Safe(n, t)
    ensures Granted(n, t, w, ticks, a) <= 2 * n
  {
    var m := CallsIn(ticks, a, t);
    GrantedFits(n, t, w, ticks, 0, a);
    RoomGrows(n, 0, m, if t >= 2 then n - 1 else 0, m);
    if n >= 2 && t >= 2 {
      RoomBound(n, n - 1, m, n);
      StretchBound(n, m);
    } else {
      StretchBound(n, m);
    }
  }

  /** Nor in a run of at most this many calls. */
  function SafeRun(n: nat, t: nat): nat {
    if n >= 2 && t >= 2 then WRAP + n + 1 else 2 * WRAP
  }

  lemma SafeRunHolds(n: nat, t: nat, w: Window, ticks: seq<nat>, a: nat)
    requires 1 <= n < 0x8000 && w.count == 0 && NonDecreasing(ticks) && |ticks| <= SafeRun(n, t)
    ensures Granted(n, t, w, ticks, a) <= 2 * n
  {
    var m := CallsIn(ticks, a, t);
    if ticks != [] && ticks[0] >= a {
      GrantedFits(n, t, w, ticks, ticks[0], a);
      StretchBound(n, m);
    } else {
      SafeHolds(n, t, w, ticks, a);
    }
  }

  // ---------- runs that break the rate ----------

  lemma {:induction false} BurstGranted(n: nat, t: nat, w: Window, tick: nat, m: nat, a: nat)
    requires Proper(n, w, tick) && a <= tick < a + t && (w.count > 0 ==> w.anchor == tick)
    ensures Granted(n, t, w, Burst(tick, m), a) == Stretch(n, w.count + m) - Stretch(n, w.count)
    ensures CallsIn(Burst(tick, m), a, t) == m
    decreases m
  {
    if m > 0 {
      var next := Pace(n, t, w, tick).window;
      assert Burst(tick, m)[1..] == Burst(tick, m - 1);
      BurstGranted(n, t, next, tick, m - 1, a);
      StretchSmall(n, w.count);
      StretchSmall(n, w.count + 1);
      StretchSmall(n, m - 1);
      StretchSmall(n, 0);
      assert next.count == 0 ==> w.count + m == WRAP + (m - 1);
    }
  }

  /** An old window takes j more calls at tick 1. */
  lemma {:induction false} FillGranted(n: nat, t: nat, c: nat, j: nat, rest: seq<nat>)
    requires 1 <= c && c + j <= n && t >= 2
    ensures Granted(n, t, Window(c, 0), Burst(1, j) + rest, 1) == j + Granted(n, t, Window(c + j, 0), rest, 1)
    ensures CallsIn(Burst(1, j) + rest, 1, t) == j + CallsIn(rest, 1, t)
    decreases j
  {
    if j == 0 {
      assert Burst(1, 0) + rest == rest;
    } else {
      assert (Burst(1, j) + rest)[1..] == Burst(1, j - 1) + rest;
      FillGranted(n, t, c + 1, j - 1, rest);
    }
  }

  /** One call, then n - 1 calls a tick later, then 65538 calls as soon as the window has expired. */
  function SharpRun(n: nat, t: nat): seq<nat>
    requires n >= 1
  {
    if n >= 2 && t >= 2 then [0] + (Burst(1, n - 1) + Burst(t, WRAP + 2)) else Burst(1, 2 * WRAP + 1)
  }

  lemma SharpRunShape(n: nat, t: nat)
    requires n >= 1
    ensures NonDecreasing(SharpRun(n, t)) && |SharpRun(n, t)| == SafeRun(n, t) + 1
  {
    if n >= 2 && t >= 2 {
      var ticks := SharpRun(n, t);
      assert forall i :: 0 <= i < |ticks| ==> ticks[i] == if i == 0 then 0 else if i < n then 1 else t;
    }
  }

  lemma GrantedCons(n: nat, t: nat, w: Window, tick: nat, rest: seq<nat>, a: nat)
    ensures var p, inside := Pace(n, t, w, tick), if a <= tick < a + t then 1 else 0;
            Granted(n, t, w, [tick] + rest, a) == (if p.Accepted? then inside else 0) + Granted(n, t, p.window, rest, a) &&
            CallsIn([tick] + rest, a, t) == inside + CallsIn(rest, a, t)
  {
    assert ([tick] + rest)[1..] == rest;
  }

  /** The calls after the window has expired: n are granted, and two more after the wrap. */
  lemma LateGranted(n: nat, t: nat)
    requires 2 <= n < 0x8000 && t >= 2
    ensures Granted(n, t, Window(n, 0), Burst(t, WRAP + 2), 1) == n + 2 && CallsIn(Burst(t, WRAP + 2), 1, t) == WRAP + 2
  {
    var late := Burst(t, WRAP + 1);
    assert Burst(t, WRAP + 2) == [t] + late;
    GrantedCons(n, t, Window(n, 0), t, late, 1);
    BurstGranted(n, t, Window(1, t), t, WRAP + 1, 1);
    StretchSmall(n, 1);
    StretchSmall(n, 2);
  }

  lemma SharpRunBreaks(n: nat, t: nat, w: Window)
    requires 1 <= n < 0x8000 && t >= 1 && w.count == 0
    ensures var ticks := SharpRun(n, t);
            NonDecreasing(ticks) && |ticks| == SafeRun(n, t) + 1 && CallsIn(ticks, 1, t) == Safe(n, t) + 1 &&
            Granted(n, t, w, ticks, 1) == 2 * n + 1
  {
    SharpRunShape(n, t);
    if n >= 2 && t >= 2 {
      var late := Burst(t, WRAP + 2);
      GrantedCons(n, t, w, 0, Burst(1, n - 1) + late, 1);
      FillGranted(n, t, 1, n - 1, late);
      LateGranted(n, t);
    } else {
      BurstGranted(n, t, w, 1, 2 * WRAP + 1, 1);
      StretchSmall(n, WRAP + 1);
      StretchSmall(n, 1);
      StretchSmall(n, 0);
    }
  }

  // ---------- the interval limiter ----------

  ghost predicate IntervalKeepsRate(n: nat, t: nat, ticks: seq<nat>, a: nat) {
    AcceptedIn(ticks, Waits(n, t, Window(0, 0), ticks), a, t) <= 2 * n
  }

  /** The interval limiter keeps its rate in every interval that sees at most m calls, over runs of any
      length, if and only if m is at most Safe. */
  lemma IntervalThreshold(n: nat, t: nat, m: nat)
    requires 1 <= n < 0x8000
    ensures (forall ticks, a :: NonDecreasing(ticks) && CallsIn(ticks, a, t) <= m ==> IntervalKeepsRate(n, t, ticks, a)) <==>
            (t == 0 || m <= Safe(n, t))
  {
    forall ticks, a | NonDecreasing(ticks) && (t == 0 || CallsIn(ticks, a, t) <= Safe(n, t))
      ensures IntervalKeepsRate(n, t, ticks, a)
    {
      GrantedIsAccepted(n, t, Window(0, 0), ticks, a);
      if t == 0 {
        NothingInNoTime(n, Window(0, 0), ticks, a);
      } else {
        SafeHolds(n, t, Window(0, 0), ticks, a);
      }
    }
    if t >= 1 && m > Safe(n, t) {
      SharpRunBreaks(n, t, Window(0, 0));
      GrantedIsAccepted(n, t, Window(0, 0), SharpRun(n, t), 1);
      assert !IntervalKeepsRate(n, t, SharpRun(n, t), 1);
    }
  }

  lemma {:induction false} NothingInNoTime(n: nat, w: Window, ticks: seq<nat>, a: nat)
    ensures Granted(n, 0, w, ticks, a) == 0 && CallsIn(ticks, a, 0) == 0
    decreases |ticks|
  {
    if ticks != [] {
      NothingInNoTime(n, Pace(n, 0, w, ticks[0]).window, ticks[1..], a);
    }
  }

  /** It keeps its rate in every run of at most k calls if and only if k is at most SafeRun. */
  lemma IntervalRunThreshold(n: nat, t: nat, k: nat)
    requires 1 <= n < 0x8000
    ensures (forall ticks, a :: NonDecreasing(ticks) && |ticks| <= k ==> IntervalKeepsRate(n, t, ticks, a)) <==>
            (t == 0 || k <= SafeRun(n, t))
  {
    forall ticks, a | NonDecreasing(ticks) && (t == 0 || |ticks| <= SafeRun(n, t))
      ensures IntervalKeepsRate(n, t, ticks, a)
    {
      GrantedIsAccepted(n, t, Window(0, 0), ticks, a);
      if t == 0 {
        NothingInNoTime(n, Window(0, 0), ticks, a);
      } else {
        SafeRunHolds(n, t, Window(0, 0), ticks, a);
      }
    }
    if t >= 1 && k > SafeRun(n, t) {
      SharpRunBreaks(n, t, Window(0, 0));
      GrantedIsAccepted(n, t, Window(0, 0), SharpRun(n, t), 1);
      assert !IntervalKeepsRate(n, t, SharpRun(n, t), 1);
    }
  }

  // ---------- the flood limiter ----------

  /** With action 1 the flood limiter decides as the interval limiter does. */
  lemma {:induction false} BareWarningsPace(l: Limit, s: State, ticks: seq<nat>)
    requires l.Valid() && l.action == 1
    ensures var e, w := After(l, s, ticks), Paced(l.count, l.time, Window(s.count, s.anchor), ticks);
            e.count == w.count && e.anchor == w.anchor
    decreases |ticks|
  {
    if ticks != [] {
      BareWarningsPace(l, s, ticks[..|ticks| - 1]);
    }
  }

  lemma BareWarningsWait(l: Limit, s: State, ticks: seq<nat>)
    requires l.Valid() && l.action == 1
    ensures Rejections(l, s, ticks) == Waits(l.count, l.time, Window(s.count, s.anchor), ticks)
  {
    forall i | 0 <= i < |ticks|
      ensures Rejections(l, s, ticks)[i] == Waits(l.count, l.time, Window(s.count, s.anchor), ticks)[i]
    {
      BareWarningsPace(l, s, ticks[..i]);
    }
  }

  ghost predicate FloodKeepsRate(l: Limit, s: State, ticks: seq<nat>, a: nat) {
    AcceptedIn(ticks, Rejections(l, s, ticks), a, l.time) <= 2 * l.count
  }

  /** With every action but 1 the rate holds over every run. */
  lemma OtherActionsKeepRate(l: Limit, s: State, ticks: seq<nat>, a: nat)
    requires l.Valid() && l.action != 1 && s.count == 0 && NonDecreasing(ticks)
    ensures FloodKeepsRate(l, s, ticks, a)
  {
    WrapsOnlyWithBareWarnings(l, s, ticks);
    FloodRate(l, s, ticks, a);
  }

  lemma BareWarningsKeepRate(l: Limit, s: State, ticks: seq<nat>, a: nat)
    requires l.Valid() && l.action == 1 && s.count == 0 && NonDecreasing(ticks)
    requires l.time == 0 || |ticks| <= SafeRun(l.count, l.time) || CallsIn(ticks, a, l.time) <= Safe(l.count, l.time)
    ensures FloodKeepsRate(l, s, ticks, a)
  {
    var w := Window(s.count, s.anchor);
    BareWarningsWait(l, s, ticks);
    GrantedIsAccepted(l.count, l.time, w, ticks, a);
    if l.time == 0 {
      NothingInNoTime(l.count, w, ticks, a);
    } else if |ticks| <= SafeRun(l.count, l.time) {
      SafeRunHolds(l.count, l.time, w, ticks, a);
    } else {
      SafeHolds(l.count, l.time, w, ticks, a);
    }
  }

  lemma BareWarningsBreakRate(l: Limit, s: State)
    requires l.Valid() && l.action == 1 && s.count == 0 && l.time >= 1
    ensures !FloodKeepsRate(l, s, SharpRun(l.count, l.time), 1)
  {
    SharpRunBreaks(l.count, l.time, Window(s.count, s.anchor));
    BareWarningsWait(l, s, SharpRun(l.count, l.time));
    GrantedIsAccepted(l.count, l.time, Window(s.count, s.anchor), SharpRun(l.count, l.time), 1);
  }

  /** The flood limiter keeps its rate in every run of at most k calls if and only if its action is not 1
      or k is at most SafeRun: 65537 + N calls, or 131072 when N or T is 1. */
  lemma FloodRunThreshold(l: Limit, s: State, k: nat)
    requires l.Valid() && s.count == 0
    ensures (forall ticks, a :: NonDecreasing(ticks) && |ticks| <= k ==> FloodKeepsRate(l, s, ticks, a)) <==>
            (l.action != 1 || l.time == 0 || k <= SafeRun(l.count, l.time))
  {
    forall ticks, a | NonDecreasing(ticks) && (l.action != 1 || l.time == 0 || |ticks| <= SafeRun(l.count, l.time))
      ensures FloodKeepsRate(l, s, ticks, a)
    {
      if l.action == 1 {
        BareWarningsKeepRate(l, s, ticks, a);
      } else {
        OtherActionsKeepRate(l, s, ticks, a);
      }
    }
    if l.action == 1 && l.time >= 1 && k > SafeRun(l.count, l.time) {
      BareWarningsBreakRate(l, s);
      SharpRunBreaks(l.count, l.time, Window(s.count, s.anchor));
    }
  }

  /** And in every interval that sees at most m calls, over runs of any length, if and only if its action
      is not 1 or m is at most Safe. */
  lemma FloodThreshold(l: Limit, s: State, m: nat)
    requires l.Valid() && s.count == 0
    ensures (forall ticks, a :: NonDecreasing(ticks) && CallsIn(ticks, a, l.time) <= m ==> FloodKeepsRate(l, s, ticks, a)) <==>
            (l.action != 1 || l.time == 0 || m <= Safe(l.count, l.time))
  {
    forall ticks, a | NonDecreasing(ticks) && (l.action != 1 || l.time == 0 || CallsIn(ticks, a, l.time) <= Safe(l.count, l.time))
      ensures FloodKeepsRate(l, s, ticks, a)
    {
      if l.action == 1 {
        BareWarningsKeepRate(l, s, ticks, a);
      } else {
        OtherActionsKeepRate(l, s, ticks, a);
      }
    }
    if l.action == 1 && l.time >= 1 && m > Safe(l.count, l.time) {
      BareWarningsBreakRate(l, s);
      SharpRunBreaks(l.count, l.time, Window(s.count, s.anchor));
    }
  }
}

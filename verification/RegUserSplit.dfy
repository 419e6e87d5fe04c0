/** Splitting the arguments of the command that registers a user (AddRegUser, core/HubCommands-AE.cpp):
    forward over the nick, then backward over the profile; the password between may hold spaces. */
module RegUserSplit {
  import opened Sequences

  const ARGS: nat := 11
  const MAX_COMMAND: nat := 255
  const MAX_NICK: nat := 65
  const MAX_PASSWORD: nat := 65

  // ---------- what the command means ----------

  /** The position of the last space, or the length. */
  function LastSpace(s: string): (p: nat)
    ensures p <= |s| && (p < |s| ==> s[p] == ' ' && forall j :: p < j < |s| ==> s[j] != ' ')
    ensures p == |s| ==> forall j :: 0 <= j < |s| ==> s[j] != ' '
  {
    if s == "" then 0
    else if s[|s| - 1] == ' ' then |s| - 1
    else
      var p := LastSpace(s[..|s| - 1]);
      if p == |s| - 1 then |s| else p
  }

  /** The text a C string function sees. */
  function CString(s: string): string {
    if s == "" || s[0] == '\0' then "" else [s[0]] + CString(s[1..])
  }

  datatype Verdict =
    | TooLong
    | SyntaxError
    | LongNick
    | BadNick
    | LongPassword
    | PipeInPassword
    | Arguments(nick: string, password: string, profile: string)

  /** The checks on three non-empty parts, in the order in which they are made: the lengths are those
      of the parts, the texts are what C string functions see of them. */
  function Judge(nickLen: nat, nick: string, passwordLen: nat, password: string, profile: string): Verdict {
    if nickLen > MAX_NICK then LongNick
    else if ' ' in nick || '$' in nick || '|' in nick then BadNick
    else if passwordLen > MAX_PASSWORD then LongPassword
    else if '|' in password then PipeInPassword
    else Arguments(nick, password, profile)
  }

  function Checked(nick: string, password: string, profile: string): Verdict {
    Judge(|nick|, CString(nick), |password|, CString(password), CString(profile))
  }

  function Parse(s: string): Verdict {
    var p, q := FirstOf(s, ' '), LastSpace(s);
    if 0 < p && p + 1 < q < |s| - 1 then Checked(s[..p], s[p + 1..q], s[q + 1..]) else SyntaxError
  }

  function Print(nick: string, password: string, profile: string): string {
    nick + " " + password + " " + profile
  }

  ghost predicate Registrable(nick: string, password: string, profile: string) {
    1 <= |nick| <= MAX_NICK && ' ' !in nick && '$' !in nick && '|' !in nick &&
    1 <= |password| <= MAX_PASSWORD && '|' !in password &&
    profile != "" && ' ' !in profile
  }

  lemma {:induction false} CStringWhole(s: string)
    requires '\0' !in s
    ensures CString(s) == s
  {
    if s != "" {
      CStringWhole(s[1..]);
    }
  }

  lemma SpacesOfPrint(nick: string, password: string, profile: string)
    requires ' ' !in nick && ' ' !in profile
    ensures var s := Print(nick, password, profile);
            FirstOf(s, ' ') == |nick| && LastSpace(s) == |nick| + 1 + |password|
  {
    var s := Print(nick, password, profile);
    var q := |nick| + 1 + |password|;
    assert s[|nick|] == ' ' && s[q] == ' ' && s[q + 1..] == profile && s[..|nick|] == nick;
    assert forall j :: 0 <= j < |nick| ==> s[j] == nick[j];
    assert forall j :: q < j < |s| ==> s[j] == profile[j - q - 1];
  }

  /** Splitting undoes printing. */
  lemma ParseUnprints(nick: string, password: string, profile: string)
    requires Registrable(nick, password, profile)
    requires '\0' !in nick && '\0' !in password && '\0' !in profile
    ensures Parse(Print(nick, password, profile)) == Arguments(nick, password, profile)
  {
    SpacesOfPrint(nick, password, profile);
    PrintChecked(Print(nick, password, profile), nick, password, profile);
    CheckedExactly(nick, password, profile);
  }

  lemma PrintParts(nick: string, password: string, profile: string)
    ensures var s, p, q := Print(nick, password, profile), |nick|, |nick| + 1 + |password|;
            |s| == q + 1 + |profile| && s[..p] == nick && s[p + 1..q] == password && s[q + 1..] == profile
  {
  }

  lemma PartsPrint(s: string, p: nat, q: nat)
    requires p < q < |s| && s[p] == s[q] == ' '
    ensures s == Print(s[..p], s[p + 1..q], s[q + 1..])
  {
  }

  lemma CheckedExactly(nick: string, password: string, profile: string)
    requires '\0' !in nick && '\0' !in password && '\0' !in profile
    requires nick != "" && ' ' !in nick && password != "" && profile != "" && ' ' !in profile
    ensures var v := Checked(nick, password, profile);
            (v.Arguments? <==> Registrable(nick, password, profile)) &&
            (v.Arguments? ==> v == Arguments(nick, password, profile))
  {
    CStringWhole(nick);
    CStringWhole(password);
    CStringWhole(profile);
  }

  /** Nothing but a printed command is accepted. */
  lemma ParsedWasPrinted(s: string)
    requires '\0' !in s && Parse(s).Arguments?
    ensures var r := Parse(s);
            Registrable(r.nick, r.password, r.profile) && s == Print(r.nick, r.password, r.profile)
  {
    var p, q := FirstOf(s, ' '), LastSpace(s);
    CheckedExactly(s[..p], s[p + 1..q], s[q + 1..]);
    PartsPrint(s, p, q);
  }

  /** A line without NULs is understood as (nick, password, profile) exactly when it is those three,
      joined by spaces. */
  lemma ParseIsUnprint(s: string, nick: string, password: string, profile: string)
    requires '\0' !in s
    ensures Parse(s) == Arguments(nick, password, profile) <==>
            Registrable(nick, password, profile) && s == Print(nick, password, profile)
  {
    if Parse(s) == Arguments(nick, password, profile) {
      ParsedWasPrinted(s);
    }
    if Registrable(nick, password, profile) && s == Print(nick, password, profile) {
      PrintParts(nick, password, profile);
      ParseUnprints(nick, password, profile);
    }
  }

  /** Three parts of a printed line, none of them empty, and no spaces but in the middle one. */
  ghost predicate Parts(nick: string, password: string, profile: string) {
    nick != "" && password != "" && profile != "" && ' ' !in nick && ' ' !in profile &&
    '\0' !in nick && '\0' !in password && '\0' !in profile
  }

  lemma PrintChecked(s: string, nick: string, password: string, profile: string)
    requires s == Print(nick, password, profile) && nick != "" && password != "" && profile != ""
    requires FirstOf(s, ' ') == |nick| && LastSpace(s) == |nick| + 1 + |password|
    ensures Parse(s) == Checked(nick, password, profile)
  {
    PrintParts(nick, password, profile);
  }

  lemma PartsJudged(nick: string, password: string, profile: string)
    requires Parts(nick, password, profile)
    ensures Parse(Print(nick, password, profile)) == Judge(|nick|, nick, |password|, password, profile)
  {
    SpacesOfPrint(nick, password, profile);
    PrintChecked(Print(nick, password, profile), nick, password, profile);
    WholeChecked(nick, password, profile);
  }

  lemma WholeChecked(nick: string, password: string, profile: string)
    requires '\0' !in nick && '\0' !in password && '\0' !in profile
    ensures Checked(nick, password, profile) == Judge(|nick|, nick, |password|, password, profile)
  {
    CStringWhole(nick);
    CStringWhole(password);
    CStringWhole(profile);
  }

  /** Which refusal a line of three parts gets: the first of these that applies. */
  lemma RefusedExactly(nick: string, password: string, profile: string)
    requires Parts(nick, password, profile)
    ensures var v := Parse(Print(nick, password, profile));
            var badNick, badPassword := '$' in nick || '|' in nick, '|' in password;
            && (v == LongNick <==> |nick| > 65)
            && (v == BadNick <==> |nick| <= 65 && badNick)
            && (v == LongPassword <==> |nick| <= 65 && !badNick && |password| > 65)
            && (v == PipeInPassword <==> |nick| <= 65 && !badNick && |password| <= 65 && badPassword)
            && (v.Arguments? <==> |nick| <= 65 && !badNick && |password| <= 65 && !badPassword)
  {
    PartsJudged(nick, password, profile);
  }

  /** Every other line without NULs is a syntax error. */
  lemma SyntaxErrorExactly(s: string)
    requires '\0' !in s
    ensures Parse(s) == SyntaxError <==>
            !exists nick, password, profile :: Parts(nick, password, profile) && s == Print(nick, password, profile)
  {
    if nick, password, profile :| Parts(nick, password, profile) && s == Print(nick, password, profile) {
      RefusedExactly(nick, password, profile);
      SpacesOfPrint(nick, password, profile);
      PrintParts(nick, password, profile);
    }
    if Parse(s) != SyntaxError {
      var p, q := FirstOf(s, ' '), LastSpace(s);
      PartsPrint(s, p, q);
      assert Parts(s[..p], s[p + 1..q], s[q + 1..]);
    }
  }

  // ---------- the in-place split ----------

  /** Where the three parts start and how long they are. */
  datatype Split = Split(at: seq<nat>, len: seq<nat>) {
    ghost predicate Valid() {
      |at| == |len| == 3
    }

    predicate Complete()
      requires Valid()
    {
      len[0] != 0 && len[1] != 0 && len[2] != 0
    }
  }

  /** The arguments of a command of n characters. */
  function ArgsOf(cmd: seq<char>, n: nat): string
    requires n < |cmd|
  {
    if n < ARGS then "" else cmd[ARGS..n]
  }

  /** The split a buffer should come to: both outer spaces are NULs, the others are back. */
  ghost predicate IsSplit(was: seq<char>, now: seq<char>, n: nat, r: Split)
    requires n < |was| && r.Valid()
  {
    var s := ArgsOf(was, n);
    var p, q := FirstOf(s, ' '), LastSpace(s);
    if p < q < |s| then
      now == was[ARGS + p := '\0'][ARGS + q := '\0'] &&
      r.at == [ARGS, ARGS + p + 1, ARGS + q + 1] && r.len == [p, q - p - 1, |s| - q - 1]
    else r.len[1] == 0
  }

  /** The backward scan, from the end down to the second space at i. */
  method LastPart(cmd: array<char>, n: nat, i: nat, first: nat) returns (q: nat)
    requires ARGS <= first < i < n < cmd.Length && cmd[i] == '\0' && cmd[n] != ' '
    modifies cmd
    ensures i <= q < n
    ensures forall j :: q < j < n ==> old(cmd[..])[j] != ' '
    ensures q == i || old(cmd[q]) == ' '
    ensures cmd[..] == old(cmd[..])[i := if q == i then '\0' else ' '][q := '\0']
  {
    var j := n;
    while j > i
      invariant i <= j <= n && (forall k :: j < k <= n ==> cmd[k] != ' ') && cmd[..] == old(cmd[..])
    {
      if cmd[j] == ' ' {
        cmd[j] := '\0';
        cmd[i] := ' ';
        return j;
      }
      j := j - 1;
    }
    return i;
  }

  lemma FirstIs(was: seq<char>, n: nat, p: nat)
    requires ARGS <= p <= n < |was| && (p < n ==> was[p] == ' ') && forall j :: ARGS <= j < p ==> was[j] != ' '
    ensures FirstOf(ArgsOf(was, n), ' ') == p - ARGS
  {
    var s := ArgsOf(was, n);
    assert forall j :: 0 <= j < |s| ==> s[j] == was[ARGS + j];
  }

  lemma LastIs(was: seq<char>, n: nat, q: nat)
    requires ARGS <= q < n < |was| && was[q] == ' ' && forall j :: q < j < n ==> was[j] != ' '
    ensures LastSpace(ArgsOf(was, n)) == q - ARGS
  {
    var s := ArgsOf(was, n);
    assert s[q - ARGS] == ' ';
    assert forall j :: 0 <= j < |s| ==> s[j] == was[ARGS + j];
  }

  lemma BothSpaces(was: seq<char>, n: nat, first: nat, i: nat, q: nat)
    requires ARGS <= first < i <= q < n < |was| && was[first] == was[i] == ' '
    requires forall j :: ARGS <= j < first ==> was[j] != ' '
    requires var mid := was[first := '\0'][i := '\0'];
             (q == i || mid[q] == ' ') && forall j :: q < j < n ==> mid[j] != ' '
    ensures var s := ArgsOf(was, n); FirstOf(s, ' ') == first - ARGS && LastSpace(s) == q - ARGS
    ensures var mid := was[first := '\0'][i := '\0'];
            mid[i := if q == i then '\0' else ' '][q := '\0'] == was[first := '\0'][q := '\0']
  {
    var mid := was[first := '\0'][i := '\0'];
    assert forall j :: q < j < n ==> mid[j] == was[j];
    FirstIs(was, n, first);
    LastIs(was, n, q);
  }

  method SplitInPlace(cmd: array<char>, n: nat) returns (r: Split)
    requires n < cmd.Length && cmd[n] == '\0'
    modifies cmd
    ensures r.Valid() && IsSplit(old(cmd[..]), cmd[..], n, r)
  {
    ghost var was := cmd[..];
    var part, first := 0, 0;
    r := Split([ARGS, 0, 0], [0, 0, 0]);
    var i := ARGS;
    while i < n
      invariant ARGS <= i && part <= 1 && (i <= n || (part == 0 && i == ARGS))
      invariant part == 0 ==> cmd[..] == was && r == Split([ARGS, 0, 0], [0, 0, 0])
      invariant part == 0 ==> forall j :: ARGS <= j < i && j < n ==> was[j] != ' '
      invariant part == 1 ==> ARGS <= first < i && was[first] == ' ' && cmd[..] == was[first := '\0']
      invariant part == 1 ==> forall j :: ARGS <= j < i && j != first ==> was[j] != ' '
      invariant part == 1 ==> r == Split([ARGS, first + 1, 0], [first - ARGS, 0, 0])
    {
      if cmd[i] == ' ' {
        cmd[i] := '\0';
        r := r.(len := r.len[part := i - r.at[part]]);
        if part == 1 {
          var q := LastPart(cmd, n, i, first);
          r := Split([ARGS, first + 1, q + 1], [first - ARGS, q - first - 1, n - q - 1]);
          BothSpaces(was, n, first, i, q);
          return;
        }
        part, first := 1, i;
        r := r.(at := r.at[1 := i + 1]);
      }
      i := i + 1;
    }
    if part == 1 {
      FirstIs(was, n, first);
      LastIs(was, n, first);
    } else if n >= ARGS {
      FirstIs(was, n, n);
    }
  }

  /** A part of the buffer as the C functions see it. */
  method ReadPart(cmd: array<char>, at: nat) returns (s: string)
    requires at <= cmd.Length
    ensures s == CString(cmd[at..])
  {
    s := "";
    var i := at;
    while i < cmd.Length && cmd[i] != '\0'
      invariant at <= i <= cmd.Length && CString(cmd[at..]) == s + CString(cmd[i..])
    {
      assert cmd[i..][0] == cmd[i] && cmd[i..][1..] == cmd[i + 1..];
      s, i := s + [cmd[i]], i + 1;
    }
    assert CString(cmd[i..]) == "" by {
      assert i < cmd.Length ==> cmd[i..][0] == '\0';
    }
  }

  lemma {:induction false} CStringStops(s: string, k: nat)
    requires k < |s| && s[k] == '\0'
    ensures CString(s) == CString(s[..k])
    decreases k
  {
    if k > 0 && s[0] != '\0' {
      CStringStops(s[1..], k - 1);
      assert s[1..][..k - 1] == s[..k][1..];
    }
  }

  /** What the three pointers and lengths of a split buffer are judged to be. */
  ghost function JudgeSplit(now: seq<char>, r: Split): Verdict
    requires r.Valid() && r.at[0] <= |now| && r.at[1] <= |now| && r.at[2] <= |now|
  {
    Judge(r.len[0], CString(now[r.at[0]..]), r.len[1], CString(now[r.at[1]..]), CString(now[r.at[2]..]))
  }

  /** The parts of a split buffer are those of the arguments. */
  lemma PartsOfSplit(was: seq<char>, now: seq<char>, n: nat, r: Split)
    requires n < |was| && was[n] == '\0' && r.Valid() && IsSplit(was, now, n, r) && r.Complete()
    ensures r.at[0] <= |now| && r.at[1] <= |now| && r.at[2] <= |now|
    ensures JudgeSplit(now, r) == Parse(ArgsOf(was, n))
  {
    var s := ArgsOf(was, n);
    var p, q := FirstOf(s, ' '), LastSpace(s);
    assert p < q < |s| && s == was[ARGS..n];
    CutAt(was, n, p, q);
  }

  lemma NoSplit(was: seq<char>, now: seq<char>, n: nat, r: Split)
    requires n < |was| && r.Valid() && IsSplit(was, now, n, r) && !r.Complete()
    ensures Parse(ArgsOf(was, n)) == SyntaxError
  {
  }

  /** A buffer with its two outer spaces cut reads as three strings. */
  lemma CutAt(was: seq<char>, n: nat, p: nat, q: nat)
    requires ARGS <= n < |was| && was[n] == '\0' && p < q < n - ARGS
    ensures var s, now := was[ARGS..n], was[ARGS + p := '\0'][ARGS + q := '\0'];
            CString(now[ARGS..]) == CString(s[..p]) &&
            CString(now[ARGS + p + 1..]) == CString(s[p + 1..q]) &&
            CString(now[ARGS + q + 1..]) == CString(s[q + 1..])
  {
    var s, now := was[ARGS..n], was[ARGS + p := '\0'][ARGS + q := '\0'];
    OnePart(now, ARGS, p, s[..p]);
    OnePart(now, ARGS + p + 1, q - p - 1, s[p + 1..q]);
    OnePart(now, ARGS + q + 1, |s| - q - 1, s[q + 1..]);
  }

  lemma OnePart(now: seq<char>, at: nat, len: nat, part: string)
    requires at + len < |now| && now[at + len] == '\0' && now[at..at + len] == part
    ensures CString(now[at..]) == CString(part)
  {
    CStringStops(now[at..], len);
    assert now[at..][..len] == part;
  }

  method CheckParts(cmd: array<char>, r: Split) returns (v: Verdict)
    requires r.Valid() && r.at[0] <= cmd.Length && r.at[1] <= cmd.Length && r.at[2] <= cmd.Length
    ensures v == JudgeSplit(cmd[..], r)
  {
    assert forall at :: 0 <= at <= cmd.Length ==> cmd[..][at..] == cmd[at..];
    var nick := ReadPart(cmd, r.at[0]);
    var password := ReadPart(cmd, r.at[1]);
    if r.len[0] > MAX_NICK {
      return LongNick;
    }
    if ' ' in nick || '$' in nick || '|' in nick {
      return BadNick;
    }
    if r.len[1] > MAX_PASSWORD {
      return LongPassword;
    }
    if '|' in password {
      return PipeInPassword;
    }
    var profile := ReadPart(cmd, r.at[2]);
    return Arguments(nick, password, profile);
  }

  /** The command as far as its arguments are checked: it is understood as the printed form says. */
  method AddRegUser(cmd: array<char>, n: nat) returns (v: Verdict)
    requires n < cmd.Length && cmd[n] == '\0'
    modifies cmd
    ensures v == if n > MAX_COMMAND then TooLong else Parse(ArgsOf(old(cmd[..]), n))
    ensures n > MAX_COMMAND ==> cmd[..] == old(cmd[..])
  {
    if n > MAX_COMMAND {
      return TooLong;
    }
    ghost var was := cmd[..];
    var r := SplitInPlace(cmd, n);
    if !r.Complete() {
      NoSplit(was, cmd[..], n, r);
      return SyntaxError;
    }
    PartsOfSplit(was, cmd[..], n, r);
    v := CheckParts(cmd, r);
  }
}

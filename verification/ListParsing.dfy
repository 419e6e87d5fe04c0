/** Reading the two login lists back, as a client does. */
module ListParsing {
  import opened Sequences
  import opened NickLists

  datatype Parse<T> = Bad | Good(value: T)

  /** Words that are each followed by "$$". */
  function SplitWords(s: string): Parse<seq<string>>
    decreases |s|
  {
    if s == "" then Good([])
    else
      var k := FirstOf(s, '$');
      if k + 1 < |s| && s[k + 1] == '$' then
        match SplitWords(s[k + 2..])
        case Bad => Bad
        case Good(words) => Good([s[..k]] + words)
      else Bad
  }

  ghost predicate Clean(words: seq<string>) {
    forall i :: 0 <= i < |words| ==> '$' !in words[i] && '|' !in words[i]
  }

  lemma SplitHead(w: string, rest: string)
    requires '$' !in w
    ensures var s := w + ("$$" + rest);
            FirstOf(s, '$') == |w| && s[|w| + 1] == '$' && s[..|w|] == w && s[|w| + 2..] == rest
  {
    var s := w + ("$$" + rest);
    assert s[|w|] == '$' && forall i :: 0 <= i < |w| ==> s[i] == w[i];
  }

  lemma {:induction false} SplitBody(words: seq<string>)
    requires Clean(words)
    ensures SplitWords(Body(words)) == Good(words) && '|' !in Body(words)
  {
    if words != [] {
      var w, rest := words[0], Body(words[1..]);
      assert Body(words) == w + ("$$" + rest) by {
        assert Terminated(words)[1..] == Terminated(words[1..]);
      }
      SplitBody(words[1..]);
      SplitHead(w, rest);
      assert words == [w] + words[1..];
    }
  }

  /** One command: the head, then a text, then the only '|'. */
  function Unwrap(head: string, s: string): Parse<string> {
    if |head| < |s| && head <= s && s[|s| - 1] == '|' && '|' !in s[..|s| - 1]
    then Good(s[|head|..|s| - 1])
    else Bad
  }

  function ParseOps(s: string): Parse<seq<string>> {
    if s == "" then Good([]) else
    match Unwrap(OP_HEAD, s)
    case Bad => Bad
    case Good(body) => SplitWords(body)
  }

  /** The printed operator list reads back as the nicks it was printed from. */
  lemma OpsRoundTrip(nicks: seq<string>)
    requires Clean(nicks)
    ensures ParseOps(PrintOps(nicks)) == Good(nicks)
  {
    if nicks != [] {
      SplitBody(nicks);
      Unwrapped(OP_HEAD, Body(nicks));
    }
  }

  /** An entry is split at its last space: addresses have none. */
  function SplitEntry(s: string): Parse<IpEntry>
    decreases |s|
  {
    if s == "" then Bad
    else if ' ' !in s[1..] then (if s[0] == ' ' then Good(IpEntry("", s[1..])) else Bad)
    else
      match SplitEntry(s[1..])
      case Bad => Bad
      case Good(e) => Good(IpEntry([s[0]] + e.nick, e.ip))
  }

  lemma {:induction false} SplitText(e: IpEntry)
    requires ' ' !in e.ip
    ensures SplitEntry(e.Text()) == Good(e)
    decreases |e.nick|
  {
    var s := e.Text();
    if e.nick == "" {
      assert s[1..] == e.ip;
    } else {
      var f := IpEntry(e.nick[1..], e.ip);
      assert s[1..] == f.Text() && s[1..][|f.nick|] == ' ';
      SplitText(f);
      assert [s[0]] + f.nick == e.nick;
    }
  }

  function SplitEntries(words: seq<string>): Parse<seq<IpEntry>> {
    if words == [] then Good([])
    else match (SplitEntry(words[0]), SplitEntries(words[1..]))
      case (Good(e), Good(es)) => Good([e] + es)
      case _ => Bad
  }

  lemma {:induction false} SplitTexts(entries: seq<IpEntry>)
    requires forall i :: 0 <= i < |entries| ==> ' ' !in entries[i].ip
    ensures SplitEntries(Texts(entries)) == Good(entries)
  {
    if entries != [] {
      SplitText(entries[0]);
      assert Texts(entries)[1..] == Texts(entries[1..]);
      SplitTexts(entries[1..]);
      assert entries == [entries[0]] + entries[1..];
    }
  }

  function ParseIps(s: string): Parse<seq<IpEntry>> {
    if s == "" then Good([]) else
    match Unwrap(IP_HEAD, s)
    case Bad => Bad
    case Good(body) =>
      if '$' !in body then SplitEntries([body])
      else match SplitWords(body)
        case Bad => Bad
        case Good(words) => SplitEntries(words)
  }

  lemma Unwrapped(head: string, body: string)
    requires '|' !in head && '|' !in body
    ensures Unwrap(head, head + body + "|") == Good(body)
  {
    var s := head + body + "|";
    assert s[..|s| - 1] == head + body && s[|head|..|s| - 1] == body;
  }

  lemma BodyHasDollar(words: seq<string>)
    requires words != []
    ensures '$' in Body(words)
  {
    FlattenSplit(Terminated(words), 0);
    assert Body(words)[|words[0]|] == '$';
  }

  /** So does the user-IP list, in both of its forms. */
  lemma IpsRoundTrip(entries: seq<IpEntry>)
    requires Clean(Texts(entries)) && forall i :: 0 <= i < |entries| ==> ' ' !in entries[i].ip
    ensures ParseIps(PrintIps(entries)) == Good(entries)
  {
    var texts := Texts(entries);
    SplitTexts(entries);
    if |entries| == 1 {
      Unwrapped(IP_HEAD, texts[0]);
      assert texts == [texts[0]];
    } else if |entries| > 1 {
      SplitBody(texts);
      BodyHasDollar(texts);
      Unwrapped(IP_HEAD, Body(texts));
    }
  }

  lemma BodyCons(word: string, rest: seq<string>)
    ensures Body([word] + rest) == word + "$$" + Body(rest)
  {
    assert Terminated([word] + rest)[1..] == Terminated(rest);
  }

  /** What the two lists look like: every nick is followed by "$$", and so is every entry, except that an only
      entry is not. */
  lemma ListForms(nick: string, other: string, e: IpEntry, f: IpEntry)
    ensures PrintOps([nick]) == "$OpList " + (nick + "$$") + "|"
    ensures PrintOps([nick, other]) == "$OpList " + (nick + "$$" + (other + "$$")) + "|"
    ensures PrintIps([e]) == "$UserIP " + (e.nick + " " + e.ip) + "|"
    ensures PrintIps([e, f]) == "$UserIP " + (e.nick + " " + e.ip + "$$" + (f.nick + " " + f.ip + "$$")) + "|"
  {
    assert Body([]) == "";
    BodyCons(nick, []);
    BodyCons(other, []);
    BodyCons(nick, [other]);
    assert [nick] + [] == [nick] && [other] + [] == [other] && [nick] + [other] == [nick, other];
    BodyCons(f.Text(), []);
    BodyCons(e.Text(), [f.Text()]);
    assert [f.Text()] + [] == [f.Text()] && Texts([e, f]) == [e.Text()] + [f.Text()];
  }
}

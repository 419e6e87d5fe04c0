/** Facts about sequences that the other modules share. */
module Sequences {

  function Min(a: nat, b: nat): nat {
    if a < b then a else b
  }

  /** The first position of a character, or the length. */
  function FirstOf(s: string, c: char): (k: nat)
    ensures k <= |s| && (k < |s| ==> s[k] == c)
    ensures forall i :: 0 <= i < k ==> s[i] != c
  {
    if s == "" || s[0] == c then 0 else 1 + FirstOf(s[1..], c)
  }

  /** The concatenation of a sequence of sequences. */
  function Flatten<T>(parts: seq<seq<T>>): seq<T> {
    if parts == [] then [] else parts[0] + Flatten(parts[1..])
  }

  lemma ConcatAssoc<T>(a: seq<T>, b: seq<T>, c: seq<T>)
    ensures (a + b) + c == a + (b + c)
  {
  }

  lemma {:induction false} FlattenConcat<T>(xs: seq<seq<T>>, ys: seq<seq<T>>)
    ensures Flatten(xs + ys) == Flatten(xs) + Flatten(ys)
  {
    if xs == [] {
      assert xs + ys == ys;
    } else {
      FlattenConcat(xs[1..], ys);
      assert (xs + ys)[0] == xs[0] && (xs + ys)[1..] == xs[1..] + ys;
      ConcatAssoc(xs[0], Flatten(xs[1..]), Flatten(ys));
    }
  }

  lemma FlattenAppend<T>(xs: seq<seq<T>>, y: seq<T>)
    ensures Flatten(xs + [y]) == Flatten(xs) + y
  {
    FlattenConcat(xs, [y]);
    assert [y][1..] == [];
    assert Flatten([y]) == y + [];
  }

  /** Splits a concatenation around its i-th part. */
  lemma FlattenSplit<T>(xs: seq<seq<T>>, i: nat)
    requires i < |xs|
    ensures Flatten(xs) == Flatten(xs[..i]) + (xs[i] + Flatten(xs[i + 1..]))
  {
    FlattenConcat(xs[..i], xs[i..]);
    assert xs == xs[..i] + xs[i..] && xs[i..][1..] == xs[i + 1..];
  }

  /** A text that starts with the first i parts either continues with the next part or differs from
      the whole concatenation. */
  lemma PrefixStep<T>(parts: seq<seq<T>>, i: nat, text: seq<T>, pos: nat)
    requires i < |parts| && pos <= |text| && text[..pos] == Flatten(parts[..i])
    ensures var next := pos + |parts[i]|;
            if next <= |text| && text[pos..next] == parts[i]
            then text[..next] == Flatten(parts[..i + 1])
            else Flatten(parts) != text
  {
    FlattenSplit(parts, i);
    FlattenAppend(parts[..i], parts[i]);
    assert parts[..i] + [parts[i]] == parts[..i + 1];
    var next := pos + |parts[i]|;
    if next <= |text| {
      assert text[..next] == text[..pos] + text[pos..next];
    }
  }
}

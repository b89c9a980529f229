/** What both server.cfg readers (src/SampConfigReader.cpp and the older
    src/CSampConfigReader.cpp) share: the space-separated list splitting of
    `GetVarList`, the `gamemode<N>` variable names and the first word of a
    gamemode entry. */
module ServerCfg {
  import opened Common
  import opened Numerals

  /** `s.find(c, from)`: the first position at or after `from` holding `c`. */
  function FindFrom(s: string, c: char, from: nat): (r: Option<nat>)
    requires from <= |s|
    ensures r.Some? ==> from <= r.value < |s| && s[r.value] == c
    ensures r.Some? ==> forall i :: from <= i < r.value ==> s[i] != c
    ensures r.None? ==> forall i :: from <= i < |s| ==> s[i] != c
  {
    var i := IndexOf(s[from..], c);
    if i == |s| - from then None else Some(from + i)
  }

  /** The tokens of `s` between single spaces, empty tokens included: the
      list `GetVarList` is meant to produce. */
  function SplitSpaces(s: string): (r: seq<string>)
    ensures |r| > 0
    ensures forall j :: 0 <= j < |r| ==> ' ' !in r[j]
    decreases |s|
  {
    var i := IndexOf(s, ' ');
    if i == |s| then [s] else [s[..i]] + SplitSpaces(s[i + 1..])
  }

  /** Joining the tokens with single spaces gives the value back. */
  lemma {:induction false} SplitThenJoin(s: string)
    ensures Join(SplitSpaces(s), " ") == s
    decreases |s|
  {
    var i := IndexOf(s, ' ');
    if i < |s| {
      var rest := SplitSpaces(s[i + 1..]);
      SplitThenJoin(s[i + 1..]);
      assert ([s[..i]] + rest)[1..] == rest;
      assert Join([s[..i]] + rest, " ") == s[..i] + " " + s[i + 1..];
      assert s == s[..i] + " " + s[i + 1..];
    }
  }

  /** Splitting a join of space-free tokens gives the tokens back. */
  lemma {:induction false} JoinThenSplit(tokens: seq<string>)
    requires |tokens| > 0
    requires forall j :: 0 <= j < |tokens| ==> ' ' !in tokens[j]
    ensures SplitSpaces(Join(tokens, " ")) == tokens
    decreases |tokens|
  {
    if |tokens| > 1 {
      var t, rest := tokens[0], tokens[1..];
      var s := Join(tokens, " ");
      assert s == t + [' '] + Join(rest, " ");
      UpToPrefix(t, ' ', Join(rest, " "));
      assert s[..|t|] == t;
      assert s[|t| + 1..] == Join(rest, " ");
      JoinThenSplit(rest);
      assert tokens == [t] + rest;
    }
  }

  /** One iteration of the splitting loop from the position `lastPos` the
      previous find stopped at: when `skip` is set the cursor first steps
      over that space; then the token runs to the next space (the new
      `lastPos`) or to the end (npos, None). */
  function ListStep(data: string, lastPos: nat, skip: bool): (r: (string, Option<nat>))
    requires lastPos < |data| || (lastPos == 0 && !skip)
  {
    var start := if skip then lastPos + 1 else lastPos;
    var cur := FindFrom(data, ' ', start);
    (data[start..if cur.Some? then cur.value else |data|], cur)
  }

  /** The loop body as written: it steps over the space only when
      `last_pos != 0`. */
  function ListStepAsWritten(data: string, lastPos: nat): (r: (string, Option<nat>))
    requires lastPos < |data| || lastPos == 0
    ensures r == ListStep(data, lastPos, lastPos != 0)
    ensures r.1.Some? ==> r.1.value >= lastPos
  {
    ListStep(data, lastPos, lastPos != 0)
  }

  /** A value starting with a space makes every iteration of the loop as
      written push "" and land on position 0 again: the state repeats, so
      the loop never ends and `dest` grows without bound. */
  lemma LeadingSpaceNeverAdvances(data: string)
    requires |data| > 0 && data[0] == ' '
    ensures ListStepAsWritten(data, 0) == ("", Some(0))
  {
  }

  /** Apart from position 0 the test `last_pos != 0` is the intended "not
      the first iteration": a found space elsewhere is stepped over either
      way. */
  lemma AsWrittenAgreesAwayFromZero(data: string, lastPos: nat)
    requires 0 < lastPos < |data|
    ensures ListStepAsWritten(data, lastPos) == ListStep(data, lastPos, true)
  {
  }

  /** The step from a token start splits off one token of the intended list. */
  lemma StepSplits(data: string, start: nat)
    requires start <= |data|
    ensures var cur := FindFrom(data, ' ', start);
      && (cur.None? ==> SplitSpaces(data[start..]) == [data[start..]])
      && (cur.Some? ==> SplitSpaces(data[start..]) == [data[start..cur.value]] + SplitSpaces(data[cur.value + 1..]))
  {
    var cur := FindFrom(data, ' ', start);
    var rest := data[start..];
    var i := IndexOf(rest, ' ');
    if cur.Some? {
      assert rest[..i] == data[start..cur.value];
      assert rest[i + 1..] == data[cur.value + 1..];
    }
  }

  /** What the splitting loop keeps: the tokens so far followed by the
      split of what is left are the split of the whole value. */
  predicate SplitInvariant(data: string, tokens: seq<string>, lastPos: Option<nat>, first: bool)
  {
    && (first ==> lastPos == Some(0) && tokens == [])
    && (lastPos.Some? && !first ==>
          lastPos.value < |data| && tokens + SplitSpaces(data[lastPos.value + 1..]) == SplitSpaces(data))
    && (lastPos.None? ==> tokens == SplitSpaces(data))
  }

  /** Taking one token at `start` keeps the tokens-then-rest split intact. */
  lemma AdvanceSplit(data: string, tokens: seq<string>, start: nat)
    requires start <= |data| && tokens + SplitSpaces(data[start..]) == SplitSpaces(data)
    ensures var cur := FindFrom(data, ' ', start);
      && (cur.None? ==> tokens + [data[start..]] == SplitSpaces(data))
      && (cur.Some? ==> (tokens + [data[start..cur.value]]) + SplitSpaces(data[cur.value + 1..]) == SplitSpaces(data))
  {
    StepSplits(data, start);
    var cur := FindFrom(data, ' ', start);
    if cur.Some? {
      var rest := SplitSpaces(data[cur.value + 1..]);
      assert (tokens + [data[start..cur.value]]) + rest == tokens + ([data[start..cur.value]] + rest);
    }
  }

  lemma SplitInvariantStep(data: string, tokens: seq<string>, lastPos: Option<nat>, first: bool)
    requires lastPos.Some? && SplitInvariant(data, tokens, lastPos, first)
    ensures lastPos.value < |data| || (lastPos.value == 0 && first)
    ensures var step := ListStep(data, lastPos.value, !first);
      && SplitInvariant(data, tokens + [step.0], step.1, false)
      && (step.1.Some? ==> first || step.1.value > lastPos.value)
  {
    var start := if first then 0 else lastPos.value + 1;
    assert data[0..] == data;
    AdvanceSplit(data, tokens, start);
    var step := ListStep(data, lastPos.value, !first);
    if step.1.None? {
      assert step.0 == data[start..];
    } else {
      assert step.0 == data[start..step.1.value];
    }
  }

  /** The splitting loop of `GetVarList` with the first iteration told
      apart by a flag, so a leading space yields a leading empty token
      instead of an endless loop. */
  method SplitList(data: string) returns (tokens: seq<string>)
    ensures tokens == SplitSpaces(data)
  {
    tokens := [];
    var lastPos: Option<nat> := Some(0);
    var first := true;
    while lastPos.Some?
      invariant SplitInvariant(data, tokens, lastPos, first)
      decreases if lastPos.None? then 0 else if first then |data| + 2 else |data| - lastPos.value
    {
      SplitInvariantStep(data, tokens, lastPos, first);
      var step := ListStep(data, lastPos.value, !first);
      tokens := tokens + [step.0];
      lastPos := step.1;
      first := false;
    }
  }

  /** `fmt::format("gamemode{}", n)` and `"gamemode" + std::to_string(n)`. */
  function GamemodeKey(n: nat): (k: string)
    ensures StartsWith(k, "gamemode") && ' ' !in k
  {
    DecimalIsDecimalDigits(n);
    "gamemode" + Decimal(n)
  }

  /** Different indexes name different variables. */
  lemma GamemodeKeyInjective(a: nat, b: nat)
    requires GamemodeKey(a) == GamemodeKey(b)
    ensures a == b
  {
    assert Decimal(a) == GamemodeKey(a)[8..] == GamemodeKey(b)[8..] == Decimal(b);
    NatToBaseInjective(a, b, 10);
  }

  /** A line starts with at most one `gamemode<N> ` prefix. */
  lemma GamemodePrefixUnique(line: string, a: nat, b: nat)
    requires StartsWith(line, GamemodeKey(a) + " ") && StartsWith(line, GamemodeKey(b) + " ")
    ensures a == b
  {
    var ka, kb := GamemodeKey(a), GamemodeKey(b);
    assert line == ka + [' '] + line[|ka| + 1..];
    assert line == kb + [' '] + line[|kb| + 1..];
    UpToPrefix(ka, ' ', line[|ka| + 1..]);
    UpToPrefix(kb, ' ', line[|kb| + 1..]);
    assert ka == line[..|ka|] == kb;
    GamemodeKeyInjective(a, b);
  }
}

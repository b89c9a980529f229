/** src/CSampConfigReader.cpp: the older server.cfg reader, which keeps the
    file's lines and searches them on every lookup. The lines (what
    `getline` returns while the stream is good) are the constructor's
    parameter. */
module CSampConfigReaderModule {
  import opened Common
  import opened ServerCfg

  /** `s` with every '\r' taken out: `erase(remove(...), end)`. */
  function StripCR(s: string): (r: string)
    ensures '\r' !in r && |r| <= |s|
    ensures '\r' !in s ==> r == s
  {
    if |s| == 0 then "" else (if s[0] == '\r' then "" else [s[0]]) + StripCR(s[1..])
  }

  lemma {:induction false} StripCRAppend(a: string, b: string)
    ensures StripCR(a + b) == StripCR(a) + StripCR(b)
    decreases |a|
  {
    if |a| == 0 {
      assert a + b == b;
    } else {
      assert (a + b)[1..] == a[1..] + b;
      StripCRAppend(a[1..], b);
    }
  }

  /** `std::remove` without `erase`, as written: the kept characters move to
      the front and the tail keeps what was there, so the length never
      changes. */
  function RemoveWithoutErase(s: string): (r: string)
    ensures |r| == |s|
    ensures r[..|StripCR(s)|] == StripCR(s)
  {
    var kept := StripCR(s);
    kept + s[|kept|..]
  }

  /** The line ending left by a Windows-edited server.cfg survives: a line
      whose only '\r' is the last character comes out unchanged. */
  lemma TrailingCRKept(t: string)
    requires '\r' !in t
    ensures RemoveWithoutErase(t + "\r") == t + "\r"
    ensures '\r' in RemoveWithoutErase(t + "\r")
  {
    StripCRAppend(t, "\r");
    assert StripCR("\r") == "" by {
      assert "\r"[1..] == "";
    }
    var s := t + "\r";
    assert s[|t|..] == "\r";
    assert s[|t|] == '\r';
  }

  /** The index of the first line starting with `prefix`. */
  function FirstLine(lines: seq<string>, prefix: string): (r: Option<nat>)
    ensures r.Some? ==> r.value < |lines| && StartsWith(lines[r.value], prefix)
    ensures r.Some? ==> forall j :: 0 <= j < r.value ==> !StartsWith(lines[j], prefix)
    ensures r.None? ==> forall j :: 0 <= j < |lines| ==> !StartsWith(lines[j], prefix)
  {
    if |lines| == 0 then None
    else if StartsWith(lines[0], prefix) then Some(0)
    else
      match FirstLine(lines[1..], prefix)
        case None => None
        case Some(i) => Some(i + 1)
  }

  /** What `GetVar` finds for `varname`: the rest of the first line that
      starts with the name and a space. */
  function VarValue(lines: seq<string>, varname: string): Option<string>
  {
    match FirstLine(lines, varname + " ")
      case None => None
      case Some(i) => Some(lines[i][|varname| + 1..])
  }

  /** Entry i of `list` is the first word of gamemode<i>, for every i. */
  predicate Listed(lines: seq<string>, list: seq<string>)
  {
    forall i :: 0 <= i < |list| ==>
      VarValue(lines, GamemodeKey(i)).Some? && list[i] == UpTo(VarValue(lines, GamemodeKey(i)).value, ' ')
  }

  lemma ListedSnoc(lines: seq<string>, list: seq<string>, word: string)
    requires Listed(lines, list)
    requires VarValue(lines, GamemodeKey(|list|)).Some? && word == UpTo(VarValue(lines, GamemodeKey(|list|)).value, ' ')
    ensures Listed(lines, list + [word])
  {
    var longer := list + [word];
    forall i | 0 <= i < |longer|
      ensures VarValue(lines, GamemodeKey(i)).Some? && longer[i] == UpTo(VarValue(lines, GamemodeKey(i)).value, ' ')
    {
      if i < |list| {
        assert longer[i] == list[i];
      }
    }
  }

  /** Line indexes each matched by one of the first `counter` gamemode
      names. */
  predicate UsedLines(lines: seq<string>, used: set<nat>, counter: nat)
  {
    forall x :: x in used ==> x < |lines| && exists j :: 0 <= j < counter && StartsWith(lines[x], GamemodeKey(j) + " ")
  }

  /** The line gamemode<counter> is found on matched none of the earlier
      names. */
  lemma NewLineUnused(lines: seq<string>, used: set<nat>, counter: nat, x: nat)
    requires UsedLines(lines, used, counter)
    requires x < |lines| && StartsWith(lines[x], GamemodeKey(counter) + " ")
    ensures x !in used && UsedLines(lines, used + {x}, counter + 1)
  {
    if x in used {
      var j :| 0 <= j < counter && StartsWith(lines[x], GamemodeKey(j) + " ");
      GamemodePrefixUnique(lines[x], j, counter);
    }
  }

  function Range(n: nat): (r: set<nat>)
    ensures forall x: nat :: x in r <==> x < n
  {
    if n == 0 then {} else Range(n - 1) + {n - 1}
  }

  lemma {:induction false} RangeSize(n: nat)
    ensures |Range(n)| == n
  {
    if n > 0 {
      RangeSize(n - 1);
      var below := Range(n - 1);
      assert n - 1 !in below;
      assert |below + {n - 1}| == |below| + 1;
    }
  }

  class CSampConfigReader {
    /** `m_FileContent`. */
    var fileContent: seq<string>

    /** The constructor's read loop: each line is stored with its '\r'
        characters taken out. */
    constructor (lines: seq<string>)
      ensures |fileContent| == |lines|
      ensures forall i :: 0 <= i < |lines| ==> fileContent[i] == StripCR(lines[i])
    {
      var stored: seq<string> := [];
      var i := 0;
      while i < |lines|
        invariant 0 <= i <= |lines| && |stored| == i
        invariant forall j :: 0 <= j < i ==> stored[j] == StripCR(lines[j])
      {
        stored := stored + [StripCR(lines[i])];
        i := i + 1;
      }
      fileContent := stored;
    }

    /** GetVar: the remainder of the first stored line that starts with
        the name and a space; false with `dest` as it was when none does. */
    method GetVar(varname: string, dest: string) returns (ok: bool, dest': string)
      ensures ok <==> VarValue(fileContent, varname).Some?
      ensures ok ==> dest' == VarValue(fileContent, varname).value
      ensures !ok ==> dest' == dest
    {
      var prefix := varname + " ";
      var i := 0;
      while i < |fileContent|
        invariant 0 <= i <= |fileContent|
        invariant forall j :: 0 <= j < i ==> !StartsWith(fileContent[j], prefix)
      {
        if StartsWith(fileContent[i], prefix) {
          return true, fileContent[i][|prefix|..];
        }
        i := i + 1;
      }
      return false, dest;
    }

    /** GetVarList: `dest` is cleared first, also for a missing variable;
        the result is true only when the value splits into more than one
        token. */
    method GetVarList(varname: string, dest: seq<string>) returns (ok: bool, dest': seq<string>)
      ensures VarValue(fileContent, varname).None? ==> !ok && dest' == []
      ensures VarValue(fileContent, varname).Some? ==>
        dest' == SplitSpaces(VarValue(fileContent, varname).value) && Join(dest', " ") == VarValue(fileContent, varname).value
      ensures ok <==> |dest'| > 1
    {
      dest' := [];
      var found, data := GetVar(varname, "");
      if !found {
        return false, dest';
      }
      dest' := SplitList(data);
      SplitThenJoin(data);
      ok := |dest'| > 1;
    }

    /** GetGamemodeList: the first word of gamemode0, gamemode1, ... up to
        the first missing index is appended to `dest`, which is not
        cleared; true when at least one was found. */
    method GetGamemodeList(dest: seq<string>) returns (ok: bool, dest': seq<string>)
      ensures |dest'| >= |dest| && dest'[..|dest|] == dest
      ensures Listed(fileContent, dest'[|dest|..])
      ensures VarValue(fileContent, GamemodeKey(|dest'| - |dest|)).None?
      ensures ok <==> |dest'| > |dest|
    {
      var added: seq<string> := [];
      var counter: nat := 0;
      ghost var used: set<nat> := {};
      var value := "";
      var found;
      found, value := GetVar(GamemodeKey(counter), value);
      while found
        invariant |added| == counter && |used| == counter && UsedLines(fileContent, used, counter)
        invariant Listed(fileContent, added)
        invariant found <==> VarValue(fileContent, GamemodeKey(counter)).Some?
        invariant found ==> value == VarValue(fileContent, GamemodeKey(counter)).value
        decreases |fileContent| - counter
      {
        var x := FirstLine(fileContent, GamemodeKey(counter) + " ").value;
        NewLineUnused(fileContent, used, counter, x);
        used := used + {x};
        RangeSize(|fileContent|);
        SubsetCard(used, Range(|fileContent|));
        ListedSnoc(fileContent, added, UpTo(value, ' '));
        added := added + [UpTo(value, ' ')];
        counter := counter + 1;
        found, value := GetVar(GamemodeKey(counter), value);
      }
      dest' := dest + added;
      assert dest'[..|dest|] == dest && dest'[|dest|..] == added;
      ok := counter != 0;
    }
  }
}

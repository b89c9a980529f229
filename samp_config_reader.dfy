/** src/SampConfigReader.cpp: the server.cfg reader that keeps a map from
    variable name to value. The file's lines (what `getline` returns while
    the stream is good) are the constructor's parameter. */
module SampConfigReaderModule {
  import opened Common
  import opened ServerCfg

  /** Position of the first '\r' or '\n' in `line`, or its length. */
  function LineEnd(line: string): (n: nat)
    ensures n <= |line|
    ensures forall i :: 0 <= i < n ==> line[i] != '\r' && line[i] != '\n'
    ensures n < |line| ==> line[n] == '\r' || line[n] == '\n'
  {
    if |line| == 0 || line[0] == '\r' || line[0] == '\n' then 0 else 1 + LineEnd(line[1..])
  }

  /** A line cut at its first '\r' or '\n', then split at its first space
      into name and value; a line without a space gives nothing. */
  function ParseLine(line: string): (r: Option<(string, string)>)
    ensures var cut := line[..LineEnd(line)];
      && (r.None? <==> ' ' !in cut)
      && (r.Some? ==> cut == r.value.0 + " " + r.value.1 && ' ' !in r.value.0)
  {
    var cut := line[..LineEnd(line)];
    var i := IndexOf(cut, ' ');
    if i == |cut| then None
    else
      assert cut == cut[..i] + " " + cut[i + 1..];
      Some((cut[..i], cut[i + 1..]))
  }

  /** The settings map after reading `lines` in order: `emplace`, so the
      first line naming a variable wins. */
  function Settings(lines: seq<string>): map<string, string>
  {
    if |lines| == 0 then map[]
    else
      var m := Settings(lines[..|lines| - 1]);
      match ParseLine(lines[|lines| - 1])
        case None => m
        case Some(kv) => Emplace(m, kv.0, kv.1)
  }

  /** Reference reading: the value of the first line that names `name`. */
  function FirstValue(lines: seq<string>, name: string): Option<string>
  {
    if |lines| == 0 then None
    else if ParseLine(lines[0]).Some? && ParseLine(lines[0]).value.0 == name then Some(ParseLine(lines[0]).value.1)
    else FirstValue(lines[1..], name)
  }

  lemma {:induction false} FirstValueSnoc(lines: seq<string>, line: string, name: string)
    ensures FirstValue(lines + [line], name) ==
      if FirstValue(lines, name).Some? then FirstValue(lines, name)
      else if ParseLine(line).Some? && ParseLine(line).value.0 == name then Some(ParseLine(line).value.1)
      else None
    decreases |lines|
  {
    if |lines| == 0 {
      assert (lines + [line])[1..] == [];
    } else {
      assert (lines + [line])[1..] == lines[1..] + [line];
      FirstValueSnoc(lines[1..], line, name);
    }
  }

  /** The map holds exactly the variables some line names, each with the
      value of the first such line. */
  lemma {:induction false} SettingsHoldFirstValues(lines: seq<string>, name: string)
    ensures name in Settings(lines) <==> FirstValue(lines, name).Some?
    ensures name in Settings(lines) ==> Settings(lines)[name] == FirstValue(lines, name).value
    decreases |lines|
  {
    if |lines| > 0 {
      var init, last := lines[..|lines| - 1], lines[|lines| - 1];
      assert lines == init + [last];
      SettingsHoldFirstValues(init, name);
      FirstValueSnoc(init, last, name);
    }
  }

  class SampConfigReader {
    /** `_settings`. */
    var settings: map<string, string>

    /** The constructor's read loop over the file's lines. */
    constructor (lines: seq<string>)
      ensures settings == Settings(lines)
    {
      var m: map<string, string> := map[];
      var i := 0;
      while i < |lines|
        invariant 0 <= i <= |lines|
        invariant m == Settings(lines[..i])
      {
        assert lines[..i + 1][..i] == lines[..i];
        var parsed := ParseLine(lines[i]);
        if parsed.Some? {
          m := Emplace(m, parsed.value.0, parsed.value.1);
        }
        i := i + 1;
      }
      assert lines[..i] == lines;
      settings := m;
    }

    /** GetVar: a present variable's value, or false with `dest` as it was. */
    method GetVar(varname: string, dest: string) returns (ok: bool, dest': string)
      ensures ok <==> varname in settings
      ensures ok ==> dest' == settings[varname]
      ensures !ok ==> dest' == dest
    {
      if varname in settings {
        return true, settings[varname];
      }
      return false, dest;
    }

    /** GetVarList: false with `dest` untouched for a missing variable;
        otherwise `dest` becomes the value's tokens between single spaces,
        which join back to the value. */
    method GetVarList(varname: string, dest: seq<string>) returns (ok: bool, dest': seq<string>)
      ensures ok <==> varname in settings
      ensures !ok ==> dest' == dest
      ensures ok ==> dest' == SplitSpaces(settings[varname]) && Join(dest', " ") == settings[varname]
    {
      var found, data := GetVar(varname, "");
      if !found {
        return false, dest;
      }
      dest' := SplitList(data);
      SplitThenJoin(data);
      ok := true;
    }

    /** GetGamemodeList: `dest` is replaced by the first word of gamemode0,
        gamemode1, ... up to the first missing index; true when there was
        at least one. */
    method GetGamemodeList(dest: seq<string>) returns (ok: bool, dest': seq<string>)
      ensures Listed(settings, dest') && GamemodeKey(|dest'|) !in settings
      ensures ok <==> |dest'| > 0
    {
      dest' := [];
      var counter: nat := 0;
      var value := "";
      var found;
      found, value := GetVar(GamemodeKey(counter), value);
      while found
        invariant |dest'| == counter && KeysBelow(counter) <= settings.Keys
        invariant Listed(settings, dest')
        invariant found <==> GamemodeKey(counter) in settings
        invariant found ==> value == settings[GamemodeKey(counter)]
        decreases |settings.Keys| - counter
      {
        KeysBelowCount(counter + 1);
        SubsetCard(KeysBelow(counter + 1), settings.Keys);
        ListedSnoc(settings, dest', UpTo(value, ' '));
        dest' := dest' + [UpTo(value, ' ')];
        counter := counter + 1;
        found, value := GetVar(GamemodeKey(counter), value);
      }
      ok := counter != 0;
    }
  }

  /** Entry i of `list` is the first word of gamemode<i>, for every i. */
  predicate Listed(settings: map<string, string>, list: seq<string>)
  {
    forall i :: 0 <= i < |list| ==> GamemodeKey(i) in settings && list[i] == UpTo(settings[GamemodeKey(i)], ' ')
  }

  lemma ListedSnoc(settings: map<string, string>, list: seq<string>, word: string)
    requires Listed(settings, list)
    requires GamemodeKey(|list|) in settings && word == UpTo(settings[GamemodeKey(|list|)], ' ')
    ensures Listed(settings, list + [word])
  {
  }

  /** The names gamemode0 .. gamemode<n-1>. */
  function KeysBelow(n: nat): set<string>
  {
    if n == 0 then {} else KeysBelow(n - 1) + {GamemodeKey(n - 1)}
  }

  lemma {:induction false} KeyNotBelow(m: nat, n: nat)
    requires n <= m
    ensures GamemodeKey(m) !in KeysBelow(n)
  {
    if n > 0 {
      KeyNotBelow(m, n - 1);
      if GamemodeKey(m) == GamemodeKey(n - 1) {
        GamemodeKeyInjective(m, n - 1);
      }
    }
  }

  /** There are n of them. */
  lemma {:induction false} KeysBelowCount(n: nat)
    ensures |KeysBelow(n)| == n
  {
    if n > 0 {
      var prev, k := KeysBelow(n - 1), GamemodeKey(n - 1);
      KeysBelowCount(n - 1);
      KeyNotBelow(n - 1, n - 1);
      assert k !in prev;
      assert |prev + {k}| == |prev| + 1;
    }
  }
}

/** The argument formatter of `LogNativeCall`, in the two revisions that
    have one: src/Logger.cpp and the older src/CPluginLogger.cpp. The text is
    `name(arg, arg, ...)`, where the i-th format character decides how the
    cell `params[i + 1]` is written; an unknown character makes the whole
    call fail. Float rendering, string reading and address translation are
    foreign calls into the AMX runtime and arrive as the functions of an
    `AmxEnv`. */
module NativeFormat {
  import opened Common
  import opened Numerals

  /** The foreign AMX calls the formatter makes: `amx_ctof` then `{:f}`,
      `amx_ctof` streamed with `<<`, `amx_GetCppString` and `amx_GetAddr`
      (as an unsigned address). */
  datatype AmxEnv = AmxEnv(
    fixedFloat: int -> string,
    streamedFloat: int -> string,
    stringAt: int -> string,
    addressOf: int -> nat)

  /** Logger.cpp (`Current`) or CPluginLogger.cpp (`Older`). */
  datatype Revision = Current | Older

  const CURRENT_SPECS: set<char> := {'d', 'i', 'f', 'h', 'x', 'b', 's', '*', 'r', 'p'}
  const OLDER_SPECS: set<char> := {'d', 'i', 'f', 'h', 'x', 'b', 's', '*'}

  /** The format characters each revision understands: the older one lacks
      exactly 'r' and 'p'. */
  function Specs(rev: Revision): (s: set<char>)
    ensures rev.Older? ==> s == CURRENT_SPECS - {'r', 'p'}
    ensures rev.Current? ==> s == OLDER_SPECS + {'r', 'p'}
  {
    if rev.Current? then CURRENT_SPECS else OLDER_SPECS
  }

  function Zeros(n: nat): (s: string)
    ensures |s| == n && forall i :: 0 <= i < n ==> s[i] == '0'
  {
    if n == 0 then "" else Zeros(n - 1) + "0"
  }

  /** `{:#0<width>x}`: sign, "0x", zeros up to the width, lower-case hex
      digits. */
  function AltHex(v: int, width: nat): (s: string)
    ensures |s| >= width
    ensures v >= 0 ==> StartsWith(s, "0x")
    ensures v < 0 ==> StartsWith(s, "-0x")
  {
    var sign := if v < 0 then "-" else "";
    var digits := NatToBase(if v < 0 then -v else v, 16);
    var used := |sign| + 2 + |digits|;
    sign + "0x" + Zeros(if used < width then width - used else 0) + digits
  }

  /** A string of zeros is a digit string of value zero. */
  lemma {:induction false} ZerosValue(k: nat, b: nat)
    requires ValidBase(b)
    ensures IsDigits(Zeros(k), b) && BaseValue(Zeros(k), b) == 0
  {
    var z := Zeros(k);
    assert IsDigits(z, b) by {
      forall i | 0 <= i < |z| ensures DigitValue(z[i]) < b { assert z[i] == '0'; }
    }
    if k > 0 {
      ZerosValue(k - 1, b);
      assert z[..k - 1] == Zeros(k - 1);
      assert DigitValue(z[k - 1]) == 0;
      calc {
        BaseValue(z, b);
        BaseValue(Zeros(k - 1), b) * b + DigitValue(z[k - 1]);
        0 * b + 0;
      }
    }
  }

  /** Leading zeros do not change the value of a digit string. */
  lemma {:induction false} LeadingZeros(k: nat, d: string, b: nat)
    requires ValidBase(b) && IsDigits(d, b)
    ensures IsDigits(Zeros(k) + d, b)
    ensures BaseValue(Zeros(k) + d, b) == BaseValue(d, b)
  {
    var z := Zeros(k);
    ZerosValue(k, b);
    assert IsDigits(z + d, b) by {
      forall i | 0 <= i < |z + d|
        ensures DigitValue((z + d)[i]) < b
      {
        if i < |z| { assert (z + d)[i] == z[i]; } else { assert (z + d)[i] == d[i - |z|]; }
      }
    }
    if |d| == 0 {
      assert z + d == z;
    } else {
      var init := d[..|d| - 1];
      assert (z + d)[..|z + d| - 1] == z + init;
      assert (z + d)[|z + d| - 1] == d[|d| - 1];
      assert IsDigits(init, b) by {
        forall i | 0 <= i < |init| ensures DigitValue(init[i]) < b { assert init[i] == d[i]; }
      }
      LeadingZeros(k, init, b);
    }
  }

  /** A non-negative value written with `{:#08x}` reads back: what follows
      "0x" is a hexadecimal digit string whose value is the number. */
  lemma AltHexReadsBack(v: nat)
    ensures StartsWith(AltHex(v, 8), "0x")
    ensures IsDigits(AltHex(v, 8)[2..], 16) && BaseValue(AltHex(v, 8)[2..], 16) == v
  {
    var s := AltHex(v, 8);
    var digits := NatToBase(v, 16);
    var used := 2 + |digits|;
    var k := if used < 8 then 8 - used else 0;
    assert s == "0x" + (Zeros(k) + digits);
    assert s[2..] == Zeros(k) + digits;
    NatToBaseRoundTrip(v, 16);
    LeadingZeros(k, digits, 16);
  }

  /** One argument: how `spec` writes the cell `v`, or None for a format
      character the revision does not know. */
  function FormatArg(rev: Revision, spec: char, v: int, env: AmxEnv): (r: Option<string>)
    ensures r.Some? <==> spec in Specs(rev)
    ensures spec == 'd' || spec == 'i' ==> r == Some(SignedToBase(v, 10))
    ensures spec == 'h' || spec == 'x' ==> r == Some(SignedToBase(v, 16))
    ensures spec == 'b' ==> r == Some(SignedToBase(v, 2))
    ensures spec == '*' ==> r == Some("\"*****\"")
  {
    match spec
      case 'd' => Some(SignedToBase(v, 10))
      case 'i' => Some(SignedToBase(v, 10))
      case 'f' => Some(if rev.Current? then env.fixedFloat(v) else env.streamedFloat(v))
      case 'h' => Some(SignedToBase(v, 16))
      case 'x' => Some(SignedToBase(v, 16))
      case 'b' => Some(SignedToBase(v, 2))
      case 's' => Some("\"" + env.stringAt(v) + "\"")
      case '*' => Some("\"*****\"")
      case 'r' => if rev.Current? then Some(AltHex(env.addressOf(v), 8)) else None
      case 'p' => if rev.Current? then Some(AltHex(v, 8)) else None
      case _ => None
  }

  /** The arguments for the format characters `fmt`, argument i from
      `params[i + 1]`; None as soon as one character is unknown. */
  function FormatArgs(rev: Revision, fmt: string, params: seq<int>, env: AmxEnv): (r: Option<seq<string>>)
    requires |fmt| < |params|
    ensures r.Some? ==> |r.value| == |fmt|
  {
    if |fmt| == 0 then Some([])
    else
      match FormatArgs(rev, fmt[..|fmt| - 1], params, env)
        case None => None
        case Some(args) =>
          match FormatArg(rev, fmt[|fmt| - 1], params[|fmt|], env)
            case None => None
            case Some(arg) => Some(args + [arg])
  }

  /** The formatter succeeds exactly when every format character is known,
      and then argument i is the i-th character applied to `params[i + 1]`. */
  lemma {:induction false} FormatArgsMeaning(rev: Revision, fmt: string, params: seq<int>, env: AmxEnv)
    requires |fmt| < |params|
    ensures FormatArgs(rev, fmt, params, env).Some? <==> forall i :: 0 <= i < |fmt| ==> fmt[i] in Specs(rev)
    ensures FormatArgs(rev, fmt, params, env).Some? ==> forall i :: 0 <= i < |fmt| ==>
      Some(FormatArgs(rev, fmt, params, env).value[i]) == FormatArg(rev, fmt[i], params[i + 1], env)
    decreases |fmt|
  {
    if |fmt| > 0 {
      var init := fmt[..|fmt| - 1];
      FormatArgsMeaning(rev, init, params, env);
      assert forall i :: 0 <= i < |init| ==> init[i] == fmt[i];
    }
  }

  /** One more format character: the prefix's arguments and that
      character's argument, or failure when either fails. */
  lemma ArgsStep(rev: Revision, fmt: string, params: seq<int>, env: AmxEnv, i: nat)
    requires |fmt| < |params| && i < |fmt|
    ensures var prev := FormatArgs(rev, fmt[..i], params, env);
      var arg := FormatArg(rev, fmt[i], params[i + 1], env);
      FormatArgs(rev, fmt[..i + 1], params, env) ==
        if prev.None? || arg.None? then None else Some(prev.value + [arg.value])
  {
    assert fmt[..i + 1][..i] == fmt[..i];
    assert fmt[..i + 1][i] == fmt[i];
  }

  /** Once a prefix of the format fails, the whole format fails. */
  lemma {:induction false} FailurePersists(rev: Revision, fmt: string, params: seq<int>, env: AmxEnv, k: nat)
    requires |fmt| < |params| && k <= |fmt|
    requires FormatArgs(rev, fmt[..k], params, env).None?
    ensures FormatArgs(rev, fmt, params, env).None?
    decreases |fmt| - k
  {
    if k < |fmt| {
      assert fmt[..k + 1][..k] == fmt[..k];
      FailurePersists(rev, fmt, params, env, k + 1);
    } else {
      assert fmt[..k] == fmt;
    }
  }

  /** Where both revisions succeed they write the same text except for
      floats; the older one fails on 'r' and 'p', which the newer accepts. */
  lemma {:induction false} RevisionsAgree(fmt: string, params: seq<int>, env: AmxEnv)
    requires |fmt| < |params|
    requires 'f' !in fmt
    ensures FormatArgs(Older, fmt, params, env).Some? ==>
      FormatArgs(Current, fmt, params, env) == FormatArgs(Older, fmt, params, env)
    decreases |fmt|
  {
    if |fmt| > 0 {
      var init := fmt[..|fmt| - 1];
      assert forall c :: c in init ==> c in fmt;
      RevisionsAgree(init, params, env);
    }
  }

  /** The whole text, `name(` + arguments joined by ", " + `)`. */
  function NativeCallText(rev: Revision, name: string, fmt: string, params: seq<int>, env: AmxEnv): (r: Option<string>)
    requires |fmt| < |params|
    ensures r.Some? <==> FormatArgs(rev, fmt, params, env).Some?
    ensures r.Some? ==> StartsWith(r.value, name + "(") && r.value[|r.value| - 1] == ')'
  {
    match FormatArgs(rev, fmt, params, env)
      case None => None
      case Some(args) => Some(name + "(" + Join(args, ", ") + ")")
  }

  /** The formatting loop of both revisions: `name(`, then for each format
      character ", " (except before the first) and the argument, then `)`;
      an unknown character returns at once. */
  method FormatNativeCall(rev: Revision, name: string, fmt: string, params: seq<int>, env: AmxEnv) returns (r: Option<string>)
    requires |fmt| < |params|
    ensures r == NativeCallText(rev, name, fmt, params, env)
  {
    var text := name + "(";
    ghost var args: seq<string> := [];
    var i := 0;
    while i != |fmt|
      invariant 0 <= i <= |fmt|
      invariant FormatArgs(rev, fmt[..i], params, env) == Some(args)
      invariant text == name + "(" + Join(args, ", ")
    {
      var arg := FormatArg(rev, fmt[i], params[i + 1], env);
      ArgsStep(rev, fmt, params, env, i);
      if arg.None? {
        FailurePersists(rev, fmt, params, env, i + 1);
        return None;
      }
      if i != 0 {
        text := text + ", ";
        JoinSnoc(args, arg.value, ", ");
      } else {
        assert args == [];
      }
      text := text + arg.value;
      args := args + [arg.value];
      i := i + 1;
    }
    assert fmt[..i] == fmt;
    text := text + ")";
    return Some(text);
  }
}

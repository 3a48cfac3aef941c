/**
  Feature-flag resolution (platform-amebapro2/builder/main.py:31-46).

  Each switch is `int(option or os.environ.get(VAR, "0") or (NAME in CPPDEFINES and "1") or 0)`.
  Python's `or` returns its first truthy operand, and every non-empty string is
  truthy, "0" included: the environment default "0" therefore ends the chain,
  and the compile definitions are consulted only when the variable is set to
  the empty string.
 */
module Flags {
  import opened Common

  // ---------------------------------------------------------------------
  // int() and str() on decimal text
  // ---------------------------------------------------------------------

  predicate IsDigit(c: char) { '0' <= c <= '9' }

  predicate IsDigits(s: string) {
    |s| > 0 && forall i :: 0 <= i < |s| ==> IsDigit(s[i])
  }

  /** The value of a run of decimal digits, read left to right. */
  function DigitsValue(s: string): nat
    requires forall i :: 0 <= i < |s| ==> IsDigit(s[i])
  {
    if s == [] then 0
    else
      var last := s[|s| - 1];
      assert IsDigit(last);
      DigitsValue(s[..|s| - 1]) * 10 + (last as int - '0' as int)
  }

  /** A base-10 numeral as `int()` reads it: digits, where a single `_` may
      stand between two digits. */
  predicate IsNumeral(t: string)
    decreases |t|
  {
    && |t| > 0 && IsDigit(t[0])
    && (|t| == 1 || IsNumeral(t[1..]) || (|t| > 2 && t[1] == '_' && IsNumeral(t[2..])))
  }

  /** The digits of a numeral, its underscores dropped. */
  function NumeralDigits(t: string): (r: string)
    requires IsNumeral(t)
    ensures IsDigits(r) && |r| <= |t|
    ensures IsDigits(t) ==> r == t
    decreases |t|
  {
    if |t| == 1 then t
    else if IsNumeral(t[1..]) then
      var rest := NumeralDigits(t[1..]);
      assert IsDigits(t) ==> IsDigits(t[1..]) && t == [t[0]] + t[1..];
      [t[0]] + rest
    else
      assert !IsDigit(t[1]);
      [t[0]] + NumeralDigits(t[2..])
  }

  /** The value a numeral denotes. */
  function NumeralValue(t: string): nat
    requires IsNumeral(t)
  {
    DigitsValue(NumeralDigits(t))
  }

  /** What `int()` accepts once the surrounding white space is gone: one
      optional sign, then a numeral. */
  predicate IsIntLiteral(t: string) {
    IsNumeral(t) || (|t| > 1 && (t[0] == '+' || t[0] == '-') && IsNumeral(t[1..]))
  }

  lemma {:induction false} DigitsAreNumeral(s: string)
    requires IsDigits(s)
    ensures IsNumeral(s)
    decreases |s|
  {
    if |s| > 1 {
      assert IsDigits(s[1..]) by {
        forall i | 0 <= i < |s| - 1 ensures IsDigit(s[1..][i]) { assert s[1..][i] == s[i + 1]; }
      }
      DigitsAreNumeral(s[1..]);
    }
  }

  /** `int(s)` once the surrounding white space is gone: one optional sign, then a numeral. */
  function ParseStripped(t: string, s: string): (r: Result<int>)
    ensures r.Ok? <==> IsIntLiteral(t)
    ensures r.Err? ==> r.error == InvalidLiteral(s)
    ensures r.Ok? && t[0] == '-' ==> r.value <= 0
    ensures r.Ok? && t[0] != '-' ==> r.value >= 0
    ensures IsNumeral(t) ==> r == Ok(NumeralValue(t))
  {
    if |t| > 0 && (t[0] == '+' || t[0] == '-') then
      var ds := t[1..];
      if IsNumeral(ds) then
        var n: int := NumeralValue(ds);
        Ok(if t[0] == '-' then -n else n)
      else Err(InvalidLiteral(s))
    else if IsNumeral(t) then Ok(NumeralValue(t))
    else Err(InvalidLiteral(s))
  }

  /** `int(s)` for base 10: surrounding white space, one optional sign, then
      digits with single underscores between them. The text is accepted exactly
      when its stripped form is such a literal; a minus sign gives a value that
      is not positive, no sign or a plus sign one that is not negative; a plain
      run of digits gives its decimal value; anything else raises `ValueError`
      with the text. */
  function ParseInt(s: string): (r: Result<int>)
    ensures r.Ok? <==> IsIntLiteral(Strip(s))
    ensures r.Err? ==> r.error == InvalidLiteral(s)
    ensures r.Ok? && Strip(s)[0] == '-' ==> r.value <= 0
    ensures r.Ok? && Strip(s)[0] != '-' ==> r.value >= 0
    ensures IsDigits(s) ==> r == Ok(DigitsValue(s))
  {
    if IsDigits(s) then
      DigitsAreNumeral(s);
      ParseStripped(Strip(s), s)
    else ParseStripped(Strip(s), s)
  }

  /** An underscore between two runs of digits does not change the value:
      `int("1_0") == int("10") == 10`. */
  lemma UnderscoreIgnored(a: string, b: string)
    requires IsDigits(a) && IsDigits(b)
    ensures ParseInt(a + "_" + b) == ParseInt(a + b) == Ok(DigitsValue(a + b))
  {
    var t := a + "_" + b;
    DigitsConcat(a, b);
    NumeralAppend(a, b);
    SeparatedStrip(a, b, t);
    assert ParseStripped(t, t) == Ok(NumeralValue(t));
  }

  lemma DigitsConcat(a: string, b: string)
    requires IsDigits(a) && IsDigits(b)
    ensures IsDigits(a + b)
  {
    forall i | 0 <= i < |a + b| ensures IsDigit((a + b)[i]) {
      if i < |a| { assert (a + b)[i] == a[i]; } else { assert (a + b)[i] == b[i - |a|]; }
    }
  }

  /** Two runs of digits joined by an underscore: no white space to strip. */
  lemma SeparatedStrip(a: string, b: string, t: string)
    requires IsDigits(a) && IsDigits(b) && t == a + "_" + b
    ensures Strip(t) == t
  {
    assert t[0] == a[0] && t[|t| - 1] == b[|b| - 1];
    assert IsDigit(a[0]) && IsDigit(b[|b| - 1]);
  }

  /** Joining two runs of digits with one underscore gives a numeral whose
      digits are the two runs together. */
  lemma {:induction false} NumeralAppend(a: string, b: string)
    requires IsDigits(a) && IsDigits(b)
    ensures IsNumeral(a + "_" + b) && NumeralDigits(a + "_" + b) == a + b
    decreases |a|
  {
    DigitsAreNumeral(b);
    DigitsSplit(a, b);
    if |a| == 1 {
      NumeralSeparated(a[0], b);
    } else {
      NumeralAppend(a[1..], b);
      NumeralExtended(a[0], a[1..] + "_" + b);
    }
  }

  /** Taking the first digit off a run of digits joined to another. */
  lemma DigitsSplit(a: string, b: string)
    requires IsDigits(a)
    ensures IsDigit(a[0])
    ensures |a| == 1 ==> a + "_" + b == [a[0], '_'] + b && a + b == [a[0]] + b
    ensures |a| > 1 ==> IsDigits(a[1..])
    ensures a + "_" + b == [a[0]] + (a[1..] + "_" + b) && a + b == [a[0]] + (a[1..] + b)
  {
    assert a == [a[0]] + a[1..];
    if |a| > 1 {
      forall i | 0 <= i < |a| - 1 ensures IsDigit(a[1..][i]) { assert a[1..][i] == a[i + 1]; }
    }
  }

  /** A digit in front of a numeral. */
  lemma NumeralExtended(c: char, u: string)
    requires IsDigit(c) && IsNumeral(u)
    ensures IsNumeral([c] + u) && NumeralDigits([c] + u) == [c] + NumeralDigits(u)
  {
    assert ([c] + u)[1..] == u;
  }

  /** A digit and an underscore in front of a numeral. */
  lemma NumeralSeparated(c: char, u: string)
    requires IsDigit(c) && IsNumeral(u)
    ensures IsNumeral([c, '_'] + u) && NumeralDigits([c, '_'] + u) == [c] + NumeralDigits(u)
  {
    var t := [c, '_'] + u;
    assert t[1..] == ['_'] + u && t[2..] == u;
    assert !IsNumeral(t[1..]);
  }

  function DigitChar(d: nat): (c: char)
    requires d < 10
    ensures IsDigit(c) && c as int - '0' as int == d
  {
    ('0' as int + d) as char
  }

  /** `str(n)` for a non-negative integer: its shortest decimal spelling. */
  function Decimal(n: nat): (s: string)
    decreases n
  {
    if n < 10 then [DigitChar(n)] else Decimal(n / 10) + [DigitChar(n % 10)]
  }

  /** `str(i)` for any integer. */
  function IntToString(i: int): string {
    if i < 0 then "-" + Decimal(-i) else Decimal(i)
  }

  lemma {:induction false} DecimalDigits(n: nat)
    ensures IsDigits(Decimal(n)) && DigitsValue(Decimal(n)) == n
    decreases n
  {
    if n >= 10 {
      DecimalDigits(n / 10);
      var s := Decimal(n);
      assert s[..|s| - 1] == Decimal(n / 10);
    }
  }

  lemma ParseNonNegative(n: nat)
    ensures ParseInt(Decimal(n)) == Ok(n)
  {
    DecimalDigits(n);
  }

  /** `int("-" + digits)` is the negated value of the digits. */
  lemma ParseNegative(d: string)
    requires IsDigits(d)
    ensures ParseInt("-" + d) == Ok(-(DigitsValue(d) as int))
  {
    var s := "-" + d;
    NegatedStrip(d, s);
    NegatedValue(d, s);
    assert !IsDigits(s) by { assert !IsDigit(s[0]); }
  }

  /** A minus sign before a run of digits: no white space to strip. */
  lemma NegatedStrip(d: string, s: string)
    requires IsDigits(d) && s == "-" + d
    ensures Strip(s) == s
  {
    assert !IsSpace(s[|s| - 1]) by { assert s[|s| - 1] == d[|d| - 1]; assert IsDigit(d[|d| - 1]); }
  }

  /** A minus sign before a run of digits: the negated value. */
  lemma NegatedValue(d: string, s: string)
    requires IsDigits(d) && s == "-" + d
    ensures ParseStripped(s, s) == Ok(-(DigitsValue(d) as int))
  {
    assert s[1..] == d;
    DigitsAreNumeral(d);
  }

  /** `int(str(i)) == i`: reading back the text of an integer gives the integer. */
  lemma ParseIntToString(i: int)
    ensures ParseInt(IntToString(i)) == Ok(i)
  {
    if i < 0 {
      var n: nat := -i;
      DecimalDigits(n);
      ParseNegative(Decimal(n));
      assert IntToString(i) == "-" + Decimal(n);
    } else {
      ParseNonNegative(i);
    }
  }

  // ---------------------------------------------------------------------
  // The `or` chain
  // ---------------------------------------------------------------------

  /** An entry of SCons' CPPDEFINES list: a bare name, or a (name, value) pair. */
  datatype Define = Plain(name: string) | Valued(name: string, value: string)

  /** What the script reads: project options (absent = None), the process
      environment, and the CPPDEFINES already present in the SCons environment. */
  datatype Settings = Settings(options: map<string, string>, environ: map<string, string>, defines: seq<Define>)

  /** The three keys one switch is looked up under. */
  datatype FlagKeys = FlagKeys(option: string, variable: string, define: string)

  const TrustZoneKeys := FlagKeys("trustzone", "CONFIG_TRUSTZONE", "TRUSTZONE")
  const WlanMpKeys := FlagKeys("wlanmp", "CONFIG_USE_WLANMP", "USE_WLANMP")
  const MpChipKeys := FlagKeys("mpchip", "CONFIG_MPCHIP", "MPCHIP")
  const UnitTestKeys := FlagKeys("unitest", "CONFIG_UNITEST", "UNITEST")

  /** The operand of `int(...)`: a string, or the literal 0 closing the chain. */
  datatype Operand = Text(text: string) | Zero

  function OptionText(st: Settings, key: string): string {
    if key in st.options then st.options[key] else ""
  }

  /** `os.environ.get(VAR, "0")` */
  function EnvironText(st: Settings, key: string): string {
    if key in st.environ then st.environ[key] else "0"
  }

  /** The first truthy operand of the chain, `0` when none is. `NAME in CPPDEFINES`
      matches a bare name only, never a (name, value) pair. */
  function Chosen(st: Settings, k: FlagKeys): Operand {
    if OptionText(st, k.option) != "" then Text(OptionText(st, k.option))
    else if EnvironText(st, k.variable) != "" then Text(EnvironText(st, k.variable))
    else if Plain(k.define) in st.defines then Text("1")
    else Zero
  }

  /** The resolved switch, or the ValueError `int()` raises on a non-numeric option. */
  function ResolveFlag(st: Settings, k: FlagKeys): (r: Result<int>)
    ensures OptionText(st, k.option) != "" ==> r == ParseInt(st.options[k.option])
    ensures OptionText(st, k.option) == "" && k.variable !in st.environ ==> r == Ok(0)
    ensures OptionText(st, k.option) == "" && k.variable in st.environ && st.environ[k.variable] == "" ==>
              r == Ok(if Plain(k.define) in st.defines then 1 else 0)
    ensures OptionText(st, k.option) == "" && k.variable in st.environ && st.environ[k.variable] != "" ==>
              r == ParseInt(st.environ[k.variable])
  {
    match Chosen(st, k)
    case Zero => Ok(0)
    case Text(s) =>
      assert s == "0" ==> IsDigits(s) && DigitsValue(s) == 0;
      assert s == "1" ==> IsDigits(s) && DigitsValue(s) == 1;
      ParseInt(s)
  }

  /** The compile definitions decide a switch only when its project option is
      empty and its environment variable is set to the empty string. */
  lemma DefinesConsultedOnlyForEmptyVariable(st: Settings, defines: seq<Define>, k: FlagKeys)
    requires ResolveFlag(st, k) != ResolveFlag(st.(defines := defines), k)
    ensures OptionText(st, k.option) == ""
    ensures k.variable in st.environ && st.environ[k.variable] == ""
  {
  }

  /** A switch counts as on when its resolved integer is non-zero (`if USE_TZ:`). */
  predicate On(v: int) { v != 0 }

  /** The four switches, resolved once per build invocation. */
  datatype Config = Config(useTz: int, useWlanMp: int, mpChip: int, uniTest: int)

  /** The switches in the order the script evaluates them; the first ValueError aborts. */
  function ResolveConfig(st: Settings): (r: Result<Config>)
    ensures r.Ok? <==> ResolveFlag(st, TrustZoneKeys).Ok? && ResolveFlag(st, WlanMpKeys).Ok?
                        && ResolveFlag(st, MpChipKeys).Ok? && ResolveFlag(st, UnitTestKeys).Ok?
    ensures r.Ok? ==> r.value == Config(ResolveFlag(st, TrustZoneKeys).value, ResolveFlag(st, WlanMpKeys).value,
                                         ResolveFlag(st, MpChipKeys).value, ResolveFlag(st, UnitTestKeys).value)
    ensures ResolveFlag(st, TrustZoneKeys).Err? ==> r == Err(ResolveFlag(st, TrustZoneKeys).error)
    ensures ResolveFlag(st, TrustZoneKeys).Ok? && ResolveFlag(st, WlanMpKeys).Err? ==>
              r == Err(ResolveFlag(st, WlanMpKeys).error)
    ensures ResolveFlag(st, TrustZoneKeys).Ok? && ResolveFlag(st, WlanMpKeys).Ok? && ResolveFlag(st, MpChipKeys).Err? ==>
              r == Err(ResolveFlag(st, MpChipKeys).error)
    ensures (ResolveFlag(st, TrustZoneKeys).Ok? && ResolveFlag(st, WlanMpKeys).Ok? && ResolveFlag(st, MpChipKeys).Ok?
             && ResolveFlag(st, UnitTestKeys).Err?) ==> r == Err(ResolveFlag(st, UnitTestKeys).error)
  {
    var tz := ResolveFlag(st, TrustZoneKeys);
    if tz.Err? then Err(tz.error) else
    var mp := ResolveFlag(st, WlanMpKeys);
    if mp.Err? then Err(mp.error) else
    var chip := ResolveFlag(st, MpChipKeys);
    if chip.Err? then Err(chip.error) else
    var ut := ResolveFlag(st, UnitTestKeys);
    if ut.Err? then Err(ut.error) else
    Ok(Config(tz.value, mp.value, chip.value, ut.value))
  }

  /** With nothing configured every switch is off, whatever CPPDEFINES holds. */
  lemma NothingConfiguredMeansAllOff(defines: seq<Define>)
    ensures ResolveConfig(Settings(map[], map[], defines)) == Ok(Config(0, 0, 0, 0))
  {
  }

  // ---------------------------------------------------------------------
  // Upload settings (main.py:1074-1075)
  // ---------------------------------------------------------------------

  /** `os.environ.get(VAR)`, with an absent variable as the falsy empty text. */
  function EnvironValue(st: Settings, key: string): string {
    if key in st.environ then st.environ[key] else ""
  }

  /** `option or os.environ.get(VAR) or default`: the first non-empty text. */
  function FirstSet(option: string, environ: string, default: string): (r: string)
    ensures option != "" ==> r == option
    ensures option == "" && environ != "" ==> r == environ
    ensures option == "" && environ == "" ==> r == default
  {
    if option != "" then option else if environ != "" then environ else default
  }

  const DefaultPort: string := "COM3"
  const DefaultSpeed: nat := 1500000

  /** The serial port the burner is told to use: the project option when it
      is set and non-empty, else the `UPLOAD_PORT` environment variable when
      it is set and non-empty, else COM3. It is never empty. */
  function UploadPort(st: Settings): (r: string)
    ensures r != ""
    ensures "upload_port" in st.options && st.options["upload_port"] != "" ==> r == st.options["upload_port"]
    ensures OptionText(st, "upload_port") == "" && EnvironValue(st, "UPLOAD_PORT") != "" ==> r == st.environ["UPLOAD_PORT"]
    ensures OptionText(st, "upload_port") == "" && EnvironValue(st, "UPLOAD_PORT") == "" ==> r == "COM3"
  {
    FirstSet(OptionText(st, "upload_port"), EnvironValue(st, "UPLOAD_PORT"), DefaultPort)
  }

  /** The baud rate, as the text `str()` makes of it, with the same
      precedence; by default the text of 1500000. It is never empty. */
  function UploadSpeed(st: Settings): (r: string)
    ensures r != ""
    ensures "upload_speed" in st.options && st.options["upload_speed"] != "" ==> r == st.options["upload_speed"]
    ensures OptionText(st, "upload_speed") == "" && EnvironValue(st, "UPLOAD_SPEED") != "" ==> r == st.environ["UPLOAD_SPEED"]
    ensures OptionText(st, "upload_speed") == "" && EnvironValue(st, "UPLOAD_SPEED") == "" ==> ParseInt(r) == Ok(1500000)
  {
    ParseNonNegative(DefaultSpeed);
    FirstSet(OptionText(st, "upload_speed"), EnvironValue(st, "UPLOAD_SPEED"), Decimal(DefaultSpeed))
  }
}

/**
 * src/config.js: the check that the required environment variables are set,
 * the proxy URL built from them, the pages-count rule and the runtime
 * validation of the assembled configuration.
 *
 * The environment is a parameter: a map from variable name to value, a
 * variable that is unset being absent from it.
 */
module Config {
  import opened Wrappers
  import opened Strings

  type Env = map<string, string>

  const RequiredVars: seq<string> := ["BASE_URL", "BRIGHT_DATA_USERNAME", "BRIGHT_DATA_PASSWORD", "BRIGHT_DATA_HOST", "BRIGHT_DATA_PORT"]

  /** `process.env[name]` is truthy: set and not empty. */
  predicate IsSet(env: Env, name: string) {
    name in env && env[name] != ""
  }

  /** The names among `names` that are not set, in order. */
  function Unset(env: Env, names: seq<string>): seq<string> {
    if names == [] then []
    else Unset(env, names[..|names| - 1]) + (if IsSet(env, names[|names| - 1]) then [] else [names[|names| - 1]])
  }

  const MissingPrefix: string := "Missing required environment variables: "

  /** `validateEnvVariables`: the message it throws, or None when it returns. */
  function ValidateEnvVariables(env: Env): Option<string> {
    var missing := Unset(env, RequiredVars);
    if |missing| > 0 then Some(MissingPrefix + Join(missing, ", ")) else None
  }

  /** A name is reported exactly when it is one of `names` and is not set; none is reported twice when `names` has no repeats. */
  lemma {:induction false} UnsetSpec(env: Env, names: seq<string>)
    ensures forall n :: n in Unset(env, names) <==> n in names && !IsSet(env, n)
    ensures |Unset(env, names)| <= |names|
    ensures (forall i, j :: 0 <= i < j < |names| ==> names[i] != names[j]) ==>
      forall i, j :: 0 <= i < j < |Unset(env, names)| ==> Unset(env, names)[i] != Unset(env, names)[j]
  {
    if names != [] {
      var init := names[..|names| - 1];
      UnsetSpec(env, init);
      assert names == init + [names[|names| - 1]];
      assert forall n :: n in names <==> n in init || n == names[|names| - 1];
    }
  }

  /**
   * The validation throws exactly when a required variable is unset or
   * empty, with a message that names exactly those variables, in the
   * declared order, separated by ", ".
   */
  lemma ValidateEnvSpec(env: Env)
    ensures ValidateEnvVariables(env).None? <==> forall i :: 0 <= i < |RequiredVars| ==> IsSet(env, RequiredVars[i])
    ensures ValidateEnvVariables(env).Some? ==>
      var missing := Unset(env, RequiredVars);
      ValidateEnvVariables(env).value == MissingPrefix + Join(missing, ", ") &&
      (forall n :: n in missing <==> n in RequiredVars && !IsSet(env, n))
  {
    UnsetSpec(env, RequiredVars);
    var missing := Unset(env, RequiredVars);
    if |missing| == 0 {
      forall i | 0 <= i < |RequiredVars|
        ensures IsSet(env, RequiredVars[i])
      {
        assert RequiredVars[i] !in missing;
      }
    } else {
      assert missing[0] in missing;
    }
  }

  /** A template-literal interpolation of `process.env[name]`: an unset variable prints as "undefined". */
  function EnvText(env: Env, name: string): string {
    if name in env then env[name] else "undefined"
  }

  /** `buildProxyUrl` */
  function BuildProxyUrl(env: Env): string {
    "http://" + EnvText(env, "BRIGHT_DATA_USERNAME") + ":" + EnvText(env, "BRIGHT_DATA_PASSWORD") +
    "@" + EnvText(env, "BRIGHT_DATA_HOST") + ":" + EnvText(env, "BRIGHT_DATA_PORT")
  }

  /**
   * The proxy URL always starts with the scheme, and so is never empty;
   * when the host and port carry no '@', the part after the last '@' is
   * exactly `host:port`.
   */
  lemma BuildProxyUrlSpec(env: Env)
    ensures var url := BuildProxyUrl(env); |url| > 7 && url[..7] == "http://"
    ensures var host := EnvText(env, "BRIGHT_DATA_HOST"); var port := EnvText(env, "BRIGHT_DATA_PORT");
      '@' !in host && '@' !in port ==>
        var pieces := Split(BuildProxyUrl(env), '@');
        pieces[|pieces| - 1] == host + ":" + port
  {
    var host := EnvText(env, "BRIGHT_DATA_HOST");
    var port := EnvText(env, "BRIGHT_DATA_PORT");
    var head := "http://" + EnvText(env, "BRIGHT_DATA_USERNAME") + ":" + EnvText(env, "BRIGHT_DATA_PASSWORD");
    var tail := host + ":" + port;
    assert BuildProxyUrl(env) == head + "@" + tail;
    assert (head + "@" + tail)[..7] == head[..7];
    if '@' !in host && '@' !in port {
      assert '@' !in tail;
      SplitAfterLast(head, tail, '@');
    }
  }

  /** Splitting `head + [c] + tail` where `tail` lacks `c` ends with the piece `tail`. */
  lemma {:induction false} SplitAfterLast(head: string, tail: string, c: char)
    requires c !in tail
    ensures var pieces := Split(head + [c] + tail, c); pieces[|pieces| - 1] == tail
    decreases |head|
  {
    var s := head + [c] + tail;
    if head == [] {
      assert s[1..] == tail;
      SplitNone(tail, c);
    } else {
      assert s[1..] == head[1..] + [c] + tail;
      SplitAfterLast(head[1..], tail, c);
      var rest := Split(s[1..], c);
      assert |rest| >= 2 by { SplitCountAtLeast(head[1..], tail, c); }
    }
  }

  /** A string without the separator is one piece. */
  lemma {:induction false} SplitNone(s: string, c: char)
    requires c !in s
    ensures Split(s, c) == [s]
  {
    if s != [] {
      assert c !in s[1..];
      SplitNone(s[1..], c);
      assert s == [s[0]] + s[1..];
    }
  }

  /** A separator in the middle makes at least two pieces. */
  lemma SplitCountAtLeast(head: string, tail: string, c: char)
    ensures |Split(head + [c] + tail, c)| >= 2
  {
    var s := head + [c] + tail;
    SplitCount(s, c);
    CountAppend(head, [c] + tail, c);
    assert s == head + ([c] + tail);
    assert Count([c] + tail, c) >= 1;
  }

  lemma {:induction false} CountAppend(a: string, b: string, c: char)
    ensures Count(a + b, c) == Count(a, c) + Count(b, c)
  {
    if a != [] {
      assert (a + b)[0] == a[0];
      assert (a + b)[1..] == a[1..] + b;
      CountAppend(a[1..], b, c);
      assert Count(a + b, c) == (if a[0] == c then 1 else 0) + Count(a[1..] + b, c);
    } else {
      assert a + b == b;
    }
  }

  /**
   * `parseInt(s, 10)`: leading whitespace, an optional sign, then the
   * longest run of decimal digits; NaN (None) when there is no digit.
   * `parseInt(undefined)` reads the text "undefined".
   */
  function ParseInt(s: string): (r: Option<int>)
    ensures var i := SkipSpace(s, 0);
      var j := if i < |s| && (s[i] == '-' || s[i] == '+') then i + 1 else i;
      var k := DigitRun(s, j);
      (r.None? <==> k == j) &&
      (k > j ==> r == Some(if s[i] == '-' then -(DigitsValue(s[j..k]) as int) else DigitsValue(s[j..k]) as int))
  {
    ParseSigned(s, SkipSpace(s, 0))
  }

  /** The sign, if any, at `i` and the digits after it. */
  function ParseSigned(s: string, i: nat): Option<int>
    requires i <= |s|
  {
    if i < |s| && s[i] == '-' then
      match ParseDigits(s, i + 1)
      case None => None
      case Some(v) => Some(-(v as int))
    else if i < |s| && s[i] == '+' then ParseDigits(s, i + 1)
    else ParseDigits(s, i)
  }

  /** The value of the run of digits at `j`, None when there is none. */
  function ParseDigits(s: string, j: nat): Option<nat>
    requires j <= |s|
  {
    var k := DigitRun(s, j);
    if k == j then None else Some(DigitsValue(s[j..k]))
  }

  /** The end of the run of digits that starts at `i`. */
  function DigitRun(s: string, i: nat): (k: nat)
    requires i <= |s|
    ensures i <= k <= |s| && (forall m :: i <= m < k ==> IsDigit(s[m])) && (k == |s| || !IsDigit(s[k]))
    decreases |s| - i
  {
    if i < |s| && IsDigit(s[i]) then DigitRun(s, i + 1) else i
  }

  const DefaultPagesCount: int := 3

  /** `parseInt(process.env.PAGES_COUNT, 10) || 3`: NaN and 0 are falsy. */
  function PagesCount(env: Env): int {
    match ParseInt(EnvText(env, "PAGES_COUNT"))
    case None => DefaultPagesCount
    case Some(n) => if n == 0 then DefaultPagesCount else n
  }

  /** Digits up to the end of the text are read whole. */
  lemma ParseDigitsToEnd(s: string, j: nat)
    requires j < |s| && forall m :: j <= m < |s| ==> IsDigit(s[m])
    ensures ParseDigits(s, j) == Some(DigitsValue(s[j..]))
  {
    var k := DigitRun(s, j);
    assert k == |s|;
    assert s[j..k] == s[j..];
  }

  /** The decimal numeral of a number, with an optional leading minus, parses back to that number. */
  lemma ParseIntNumeral(n: nat, negative: bool)
    ensures ParseInt((if negative then "-" else "") + NatToString(n)) == Some(if negative then -(n as int) else n as int)
  {
    var d := NatToString(n);
    var s := (if negative then "-" else "") + d;
    var j := if negative then 1 else 0;
    assert s[j..] == d;
    assert SkipSpace(s, 0) == 0 by {
      assert !IsSpace(s[0]);
    }
    ParseDigitsToEnd(s, j);
    NatToStringValue(n);
    if negative {
      assert ParseInt(s) == ParseSigned(s, 0);
    } else {
      assert s == d && IsDigit(s[0]);
      assert s[0] != '-' && s[0] != '+';
      assert ParseInt(s) == ParseSigned(s, 0);
      assert ParseSigned(s, 0) == ParseDigits(s, 0);
    }
  }

  /** `parseInt` skips leading whitespace and ignores what follows the digits; text without a digit there is NaN. */
  lemma ParseIntPrefixExamples()
    ensures ParseInt(" 12abc") == Some(12)
    ensures ParseInt("abc") == None
  {
    assert SkipSpace(" 12abc", 0) == 1;
    assert DigitRun(" 12abc", 1) == 3;
    assert " 12abc"[1..3] == "12";
    assert DigitsValue("12") == 12 by { assert "12"[..1] == "1"; }
    assert SkipSpace("abc", 0) == 0;
  }

  /** `parseInt` takes one leading sign and reads leading zeros as part of the number. */
  lemma ParseIntSignExamples()
    ensures ParseInt("+5") == Some(5)
    ensures ParseInt("007") == Some(7)
  {
    assert SkipSpace("+5", 0) == 0;
    assert "+5"[1..2] == "5";
    assert SkipSpace("007", 0) == 0;
    assert "007"[0..3] == "007";
    assert DigitsValue("007") == 7 by { assert "007"[..2] == "00"; assert "00"[..1] == "0"; }
  }

  /**
   * The pages count is never 0: unset, unparsable or zero values give 3,
   * any other parsed value, negative ones included, is kept.
   */
  lemma PagesCountSpec(env: Env, n: nat, negative: bool)
    ensures PagesCount(env) != 0
    ensures "PAGES_COUNT" !in env ==> PagesCount(env) == 3
    ensures ParseInt(EnvText(env, "PAGES_COUNT")).None? ==> PagesCount(env) == 3
    ensures ParseInt(EnvText(env, "PAGES_COUNT")) == Some(0) ==> PagesCount(env) == 3
    ensures forall m :: m != 0 && ParseInt(EnvText(env, "PAGES_COUNT")) == Some(m) ==> PagesCount(env) == m
    ensures "PAGES_COUNT" in env && env["PAGES_COUNT"] == (if negative then "-" else "") + NatToString(n) ==>
      PagesCount(env) == if n == 0 then 3 else if negative then -(n as int) else n as int
  {
    if "PAGES_COUNT" !in env {
      assert ParseInt("undefined") == None by {
        assert SkipSpace("undefined", 0) == 0;
        assert DigitRun("undefined", 0) == 0;
        assert ParseSigned("undefined", 0) == ParseDigits("undefined", 0);
      }
    }
    ParseIntNumeral(n, negative);
  }

  /** The exported `CONFIG` (its output path and Puppeteer set-up are not modelled). */
  datatype Settings = Settings(baseUrl: Option<string>, pagesCount: int, proxyUrl: string)

  function ConfigFrom(env: Env): Settings {
    Settings(if "BASE_URL" in env then Some(env["BASE_URL"]) else None, PagesCount(env), BuildProxyUrl(env))
  }

  const ConfigPrefix: string := "Configuration errors: "

  /** The three runtime checks, in order, each with its message when it fails. */
  function Checks(c: Settings): seq<(bool, string)> {
    [(c.baseUrl.Some? && c.baseUrl.value != "", "Missing base URL"),
     (c.proxyUrl != "", "Invalid proxy configuration"),
     (c.pagesCount >= 1, "Invalid pages count")]
  }

  /** The messages of the checks that fail, in order. */
  function Failures(checks: seq<(bool, string)>): seq<string> {
    if checks == [] then []
    else Failures(checks[..|checks| - 1]) + Failure(checks[|checks| - 1])
  }

  /** The failure message of one check, if it fails. */
  function Failure(check: (bool, string)): seq<string> {
    if check.0 then [] else [check.1]
  }

  lemma FailuresOfThree(checks: seq<(bool, string)>)
    requires |checks| == 3
    ensures Failures(checks) == Failure(checks[0]) + Failure(checks[1]) + Failure(checks[2])
  {
    assert checks[..2][..1] == checks[..1] && checks[..1][..0] == [];
    assert Failures(checks[..1]) == Failure(checks[0]);
    assert Failures(checks[..2]) == Failures(checks[..1]) + Failure(checks[1]);
  }

  /**
   * `validateConfig` (src/config.js:72-82): the thrown message, or None.
   * It throws exactly when some check fails, and the message lists every
   * failing check in order.
   */
  method ValidateConfig(config: Settings) returns (error: Option<string>)
    ensures var failed := Failures(Checks(config));
      (error.None? <==> failed == []) && (error.Some? ==> error.value == ConfigPrefix + Join(failed, ", "))
    ensures error.None? <==> Checks(config)[0].0 && Checks(config)[1].0 && Checks(config)[2].0
  {
    var checks := Checks(config);
    assert checks[..0] == [] && checks[..1][..0] == [] && checks[..2][..1] == checks[..1] && checks[..3] == checks;
    var configErrors: seq<string> := [];
    assert configErrors == Failures(checks[..0]);
    if !(config.baseUrl.Some? && config.baseUrl.value != "") {
      configErrors := configErrors + ["Missing base URL"];
    }
    assert configErrors == Failures(checks[..1]);
    if config.proxyUrl == "" {
      configErrors := configErrors + ["Invalid proxy configuration"];
    }
    assert configErrors == Failures(checks[..2]);
    if config.pagesCount < 1 {
      configErrors := configErrors + ["Invalid pages count"];
    }
    assert configErrors == Failures(checks[..3]);
    if |configErrors| > 0 {
      error := Some(ConfigPrefix + Join(configErrors, ", "));
    } else {
      error := None;
    }
  }

  /**
   * For the configuration read from the environment the proxy check never
   * fails, and once `validateEnvVariables` has passed the base URL is set:
   * `validateConfig` can then fail only for a negative pages count.
   */
  lemma ConfigFromEnv(env: Env)
    ensures Checks(ConfigFrom(env))[1].0
    ensures ValidateEnvVariables(env).None? ==>
      Failures(Checks(ConfigFrom(env))) == (if PagesCount(env) < 0 then ["Invalid pages count"] else [])
  {
    BuildProxyUrlSpec(env);
    FailuresOfThree(Checks(ConfigFrom(env)));
    if ValidateEnvVariables(env).None? {
      ValidateEnvSpec(env);
      assert IsSet(env, RequiredVars[0]);
      PagesCountSpec(env, 0, false);
    }
  }
}

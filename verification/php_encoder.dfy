/** `buildPhalconDir` (app/phalcon/modules/cli/tasks/BuildTask.php:55-86):
    the application's PHP code goes to the dist tree either as a plain
    recursive copy or through the ionCube encoder, as the `dev.phpEncode`
    setting chooses.

    The setting is read through Phalcon's configuration object, whose
    `isset` treats a null value as unset and looks keys up by their string
    form; `empty` and the `switch` follow PHP's loose comparison rules. */
module PhpEncoder {
  import opened Outcomes
  import opened PhpArray
  import opened Effects

  const NotSetError := "The PHP Encoder value is not set."

  /** PHP's `empty()` on a scalar: null, false, 0, "" and "0". */
  predicate PhpEmpty(v: Scalar)
  {
    v == Null || v == Bool(false) || v == Int(0) || v == Str("") || v == Str("0")
  }

  /** The decimal digits of a natural number. */
  function Digits(n: nat): (s: string)
    ensures |s| > 0 && forall i :: 0 <= i < |s| ==> '0' <= s[i] <= '9'
  {
    var d := ['0', '1', '2', '3', '4', '5', '6', '7', '8', '9'];
    if n < 10 then [d[n]] else Digits(n / 10) + [d[n % 10]]
  }

  /** PHP's `strval` on a scalar, as used for the key of the encoder lookup
      and for the name in the error message. */
  function StrVal(v: Scalar): string
  {
    match v
    case Null => ""
    case Bool(b) => if b then "1" else ""
    case Int(n) => if n < 0 then "-" + Digits(-n) else Digits(n)
    case Str(s) => s
  }

  /** `$phpEncode == 'ioncube'` with PHP's loose comparison: true for the
      string itself, and for `true`, which equals every non-empty string. A
      non-zero integer never equals a non-numeric string, and the empty
      values never reach the comparison. */
  predicate IsIoncube(v: Scalar)
  {
    v == Str("ioncube") || v == Bool(true)
  }

  function UnknownEncoderError(name: string): string
  {
    "The '" + name + "' PHP encoder setting does not exist"
  }

  /** `buildPhalconDir`. `phpEncode` is `dev.phpEncode` (None when the key
      is missing), `encoders` maps each registered encoder name to the path
      of its executable (entries whose value is null are not registered),
      and `ionExit` is the exit code the encoder command would return. */
  function BuildPhalconDir(phpEncode: Option<Scalar>, encoders: map<string, string>,
                           phalconDir: string, distDir: string, ionExit: int): (r: StageResult)
    ensures r.outcome == Completed || r.outcome.Threw?
    ensures r.outcome.Threw? ==> r.actions == []
    ensures r.actions == [] || r.actions == [CopyTree(phalconDir, distDir + "phalcon")]
            || exists name :: name in encoders && r.actions == [IoncubeEncode(encoders[name], phalconDir, distDir)]
  {
    if phpEncode.None? || phpEncode.value == Null then
      StageResult([], Threw(NotSetError))
    else if PhpEmpty(phpEncode.value) then
      StageResult([CopyTree(phalconDir, distDir + "phalcon")], Completed)
    else
      var name := StrVal(phpEncode.value);
      if name !in encoders then
        StageResult([], Threw(UnknownEncoderError(name)))
      else if IsIoncube(phpEncode.value) then
        StageResult([IoncubeEncode(encoders[name], phalconDir, distDir)], Completed)
      else
        StageResult([], Completed)
  }

  /** The setting is missing exactly when it is absent or null, and then the
      stage throws before doing anything. */
  lemma EncoderUnsetThrows(phpEncode: Option<Scalar>, encoders: map<string, string>,
                           phalconDir: string, distDir: string, ionExit: int)
    ensures var r := BuildPhalconDir(phpEncode, encoders, phalconDir, distDir, ionExit);
            r == StageResult([], Threw(NotSetError)) <==> phpEncode.None? || phpEncode == Some(Null)
  {
    var r := BuildPhalconDir(phpEncode, encoders, phalconDir, distDir, ionExit);
    if phpEncode.Some? && phpEncode.value != Null && !PhpEmpty(phpEncode.value) && StrVal(phpEncode.value) !in encoders {
      assert r.outcome == Threw(UnknownEncoderError(StrVal(phpEncode.value)));
      assert UnknownEncoderError(StrVal(phpEncode.value))[4] == '\'' != NotSetError[4];
    }
  }

  /** A set but PHP-empty setting (false, 0, "" or "0") copies the code
      unencoded, and that is the only way the copy happens. */
  lemma PlainCopyIffEmpty(phpEncode: Option<Scalar>, encoders: map<string, string>,
                          phalconDir: string, distDir: string, ionExit: int)
    ensures BuildPhalconDir(phpEncode, encoders, phalconDir, distDir, ionExit)
            == StageResult([CopyTree(phalconDir, distDir + "phalcon")], Completed)
            <==> phpEncode.Some? && phpEncode.value != Null && PhpEmpty(phpEncode.value)
  {
  }

  /** A non-empty setting that names no registered encoder throws, naming
      the setting, before any command is built. */
  lemma UnknownEncoderThrows(phpEncode: Option<Scalar>, encoders: map<string, string>,
                             phalconDir: string, distDir: string, ionExit: int)
    requires phpEncode.Some? && !PhpEmpty(phpEncode.value)
    ensures var r := BuildPhalconDir(phpEncode, encoders, phalconDir, distDir, ionExit);
            r.outcome.Threw? && r.outcome != Threw(NotSetError)
            <==> StrVal(phpEncode.value) !in encoders
    ensures StrVal(phpEncode.value) !in encoders ==>
            BuildPhalconDir(phpEncode, encoders, phalconDir, distDir, ionExit)
            == StageResult([], Threw(UnknownEncoderError(StrVal(phpEncode.value))))
  {
    if StrVal(phpEncode.value) !in encoders {
      assert UnknownEncoderError(StrVal(phpEncode.value))[4] == '\'' != NotSetError[4];
    }
  }

  /** The encoder command runs, exactly once, exactly when the setting is
      loosely equal to 'ioncube' and registered; it uses the registered
      executable and encodes the code into the dist directory. */
  lemma IoncubeIff(phpEncode: Option<Scalar>, encoders: map<string, string>,
                   phalconDir: string, distDir: string, ionExit: int)
    ensures var r := BuildPhalconDir(phpEncode, encoders, phalconDir, distDir, ionExit);
            (exists a :: a in r.actions && a.IoncubeEncode?)
            <==> phpEncode.Some? && IsIoncube(phpEncode.value) && StrVal(phpEncode.value) in encoders
    ensures phpEncode.Some? && IsIoncube(phpEncode.value) && StrVal(phpEncode.value) in encoders ==>
            BuildPhalconDir(phpEncode, encoders, phalconDir, distDir, ionExit)
            == StageResult([IoncubeEncode(encoders[StrVal(phpEncode.value)], phalconDir, distDir)], Completed)
  {
    var r := BuildPhalconDir(phpEncode, encoders, phalconDir, distDir, ionExit);
    if phpEncode.Some? && IsIoncube(phpEncode.value) && StrVal(phpEncode.value) in encoders {
      assert r.actions[0] in r.actions;
    }
  }

  /** `true` looks up the encoder registered under "1" and, being loosely
      equal to 'ioncube', runs it as the ionCube encoder. */
  lemma TrueSelectsEncoderOne(encoders: map<string, string>, phalconDir: string, distDir: string, ionExit: int)
    requires "1" in encoders
    ensures BuildPhalconDir(Some(Bool(true)), encoders, phalconDir, distDir, ionExit)
            == StageResult([IoncubeEncode(encoders["1"], phalconDir, distDir)], Completed)
  {
    IoncubeIff(Some(Bool(true)), encoders, phalconDir, distDir, ionExit);
  }

  /** Any other registered encoder is accepted and does nothing. */
  lemma OtherEncoderDoesNothing(phpEncode: Option<Scalar>, encoders: map<string, string>,
                                phalconDir: string, distDir: string, ionExit: int)
    ensures BuildPhalconDir(phpEncode, encoders, phalconDir, distDir, ionExit) == StageResult([], Completed)
            <==> phpEncode.Some? && !PhpEmpty(phpEncode.value) && !IsIoncube(phpEncode.value)
                 && StrVal(phpEncode.value) in encoders
  {
  }

  /** The encoder's exit code is never looked at. */
  lemma EncoderExitIgnored(phpEncode: Option<Scalar>, encoders: map<string, string>,
                           phalconDir: string, distDir: string, e1: int, e2: int)
    ensures BuildPhalconDir(phpEncode, encoders, phalconDir, distDir, e1)
            == BuildPhalconDir(phpEncode, encoders, phalconDir, distDir, e2)
  {
  }
}

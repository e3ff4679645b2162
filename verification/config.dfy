/** Loading the program's settings: the ordered validator over the process
    environment and the choice among the three configuration sources. */
module Configuration {
  import opened Wrappers
  import opened Numbers
  import opened Text
  import opened Errors

  datatype Config = Config(
    email: string,
    password: string,
    schoolId: u32,
    childId: u32,
    schoolLat: F64,
    schoolLng: F64,
    schoolKeywords: string)

  /** The process environment: variable name to value. A variable whose value
      is not valid Unicode is treated as absent, as `env::var` does. */
  type Env = map<string, string>

  /** `f64::from_str`, which the model does not interpret. */
  type FloatParser = string -> Option<F64>

  // ---------------------------------------------------------------------------
  // `str::parse::<u32>()`
  // ---------------------------------------------------------------------------

  /** Reads decimal digits left to right on top of `acc`; the first character
      that is not a digit, or the first digit that takes the value past
      `u32::MAX`, decides the error. */
  function AccumulateU32(digits: string, acc: u32): (r: Result<u32, IntErrorKind>)
    ensures r.Ok? ==> AllDigits(digits)
    ensures r.Err? ==> r.error != Empty
    decreases |digits|
  {
    if digits == [] then Ok(acc)
    else if !IsDigit(digits[0]) then Err(InvalidDigit)
    else
      var next := 10 * acc + DigitValue(digits[0]);
      if next > U32_MAX then Err(PosOverflow)
      else AccumulateU32(digits[1..], next)
  }

  /** Parses an unsigned 32-bit decimal: an optional `+`, then at least one
      digit. A lone sign or any other character is `InvalidDigit`, the empty
      string is `Empty`, a value past `u32::MAX` is `PosOverflow`. */
  function ParseU32(s: string): (r: Result<u32, IntErrorKind>)
    ensures s == [] <==> r == Err(Empty)
    ensures r.Ok? ==> s != [] && AllDigits(if s[0] == '+' then s[1..] else s)
  {
    if s == [] then Err(Empty)
    else if (s[0] == '+' || s[0] == '-') && |s| == 1 then Err(InvalidDigit)
    else if s[0] == '+' then AccumulateU32(s[1..], 0)
    else AccumulateU32(s, 0)
  }

  /** Digit-by-digit reading agrees with the value of the digits. */
  lemma {:induction false} AccumulateValue(prefix: string, rest: string)
    requires AllDigits(prefix) && AllDigits(rest) && AllDigits(prefix + rest)
    requires DigitsValue(prefix + rest) <= U32_MAX && DigitsValue(prefix) <= U32_MAX
    ensures AccumulateU32(rest, DigitsValue(prefix)) == Ok(DigitsValue(prefix + rest))
    decreases |rest|
  {
    if rest == [] {
      assert prefix + rest == prefix;
    } else {
      var p := prefix + [rest[0]];
      assert prefix + rest == p + rest[1..];
      assert p[..|p| - 1] == prefix;
      assert AllDigits(p);
      DigitsValuePrefix(p + rest[1..], |p|);
      assert (p + rest[1..])[..|p|] == p;
      DigitsValuePrefix(prefix + rest, |prefix|);
      assert (prefix + rest)[..|prefix|] == prefix;
      AccumulateValue(p, rest[1..]);
    }
  }

  /** A prefix of a digit string never has a larger value. */
  lemma {:induction false} DigitsValuePrefix(s: string, k: nat)
    requires AllDigits(s) && k <= |s|
    ensures DigitsValue(s[..k]) <= DigitsValue(s)
    decreases |s|
  {
    if k < |s| {
      assert s[..|s| - 1][..k] == s[..k];
      DigitsValuePrefix(s[..|s| - 1], k);
    } else {
      assert s[..k] == s;
    }
  }

  /** Every `u32` rendered in decimal parses back to itself. */
  lemma ParseU32Decimal(n: u32)
    ensures ParseU32(Decimal(n)) == Ok(n)
  {
    var d := Decimal(n);
    assert ParseU32(d) == AccumulateU32(d, 0) by {
      assert IsDigit(d[0]);
    }
    assert DigitsValue([]) == 0 && [] + d == d;
    DecimalValue(n);
    AccumulateValue([], d);
  }

  // ---------------------------------------------------------------------------
  // `Config::from_env_with_dotenv`
  // ---------------------------------------------------------------------------

  /** The variables the validator requires, in the order it looks them up. */
  const REQUIRED: seq<string> :=
    ["TC_EMAIL", "TC_PASSWORD", "SCHOOL", "CHILD", "SCHOOL_LAT", "SCHOOL_LNG", "SCHOOL_KEYWORDS"]

  /** Reference definition: the first of `names` missing from `env`. */
  function FirstMissing(env: Env, names: seq<string>): (r: Option<string>)
    ensures r.None? <==> forall i :: 0 <= i < |names| ==> names[i] in env
    ensures r.Some? ==> r.value in names && r.value !in env
  {
    if names == [] then None
    else if names[0] !in env then Some(names[0])
    else
      var r := FirstMissing(env, names[1..]);
      assert forall i :: 1 <= i < |names| ==> names[i] == names[1..][i - 1];
      r
  }

  predicate AllPresent(env: Env) {
    "TC_EMAIL" in env && "TC_PASSWORD" in env && "SCHOOL" in env && "CHILD" in env
    && "SCHOOL_LAT" in env && "SCHOOL_LNG" in env && "SCHOOL_KEYWORDS" in env
  }

  /** The validator once the environment is known: each of the seven
      variables is looked up in turn, then SCHOOL and CHILD are parsed as
      `u32`, then SCHOOL_LAT and SCHOOL_LNG as floats. Values are copied
      unchanged. */
  function FromEnv(env: Env, parseF64: FloatParser): (r: Result<Config, ConfigError>)
    ensures r.Ok? ==> AllPresent(env)
                      && r.value.email == env["TC_EMAIL"] && r.value.password == env["TC_PASSWORD"]
                      && r.value.schoolKeywords == env["SCHOOL_KEYWORDS"]
                      && ParseU32(env["SCHOOL"]) == Ok(r.value.schoolId)
                      && ParseU32(env["CHILD"]) == Ok(r.value.childId)
                      && parseF64(env["SCHOOL_LAT"]) == Some(r.value.schoolLat)
                      && parseF64(env["SCHOOL_LNG"]) == Some(r.value.schoolLng)
  {
    if "TC_EMAIL" !in env then Err(MissingEnv("TC_EMAIL"))
    else if "TC_PASSWORD" !in env then Err(MissingEnv("TC_PASSWORD"))
    else if "SCHOOL" !in env then Err(MissingEnv("SCHOOL"))
    else if "CHILD" !in env then Err(MissingEnv("CHILD"))
    else if "SCHOOL_LAT" !in env then Err(MissingEnv("SCHOOL_LAT"))
    else if "SCHOOL_LNG" !in env then Err(MissingEnv("SCHOOL_LNG"))
    else if "SCHOOL_KEYWORDS" !in env then Err(MissingEnv("SCHOOL_KEYWORDS"))
    else
      match ParseU32(env["SCHOOL"])
      case Err(k) => Err(InvalidInteger("SCHOOL", k))
      case Ok(school) =>
        match ParseU32(env["CHILD"])
        case Err(k) => Err(InvalidInteger("CHILD", k))
        case Ok(child) =>
          match parseF64(env["SCHOOL_LAT"])
          case None => Err(InvalidFloat("SCHOOL_LAT"))
          case Some(lat) =>
            match parseF64(env["SCHOOL_LNG"])
            case None => Err(InvalidFloat("SCHOOL_LNG"))
            case Some(lng) =>
              Ok(Config.Config(env["TC_EMAIL"], env["TC_PASSWORD"], school, child, lat, lng, env["SCHOOL_KEYWORDS"]))
  }

  /** Presence is checked for all seven variables before anything is parsed:
      whenever one is missing, the error names the first missing one in the
      fixed order, whatever the other values are. */
  lemma FromEnvReportsFirstMissing(env: Env, parseF64: FloatParser)
    ensures FirstMissing(env, REQUIRED).None? <==> AllPresent(env)
    ensures FirstMissing(env, REQUIRED).Some? ==>
              FromEnv(env, parseF64) == Err(MissingEnv(FirstMissing(env, REQUIRED).value))
  {
    assert REQUIRED[0..] == ["TC_EMAIL", "TC_PASSWORD", "SCHOOL", "CHILD", "SCHOOL_LAT", "SCHOOL_LNG", "SCHOOL_KEYWORDS"];
    if "TC_EMAIL" !in env {
      assert FirstMissing(env, REQUIRED[0..]) == Some("TC_EMAIL");
    } else {
      assert REQUIRED[0..][1..] == REQUIRED[1..];
      assert FirstMissing(env, REQUIRED) == FirstMissing(env, REQUIRED[1..]);
      assert REQUIRED[1..] == ["TC_PASSWORD", "SCHOOL", "CHILD", "SCHOOL_LAT", "SCHOOL_LNG", "SCHOOL_KEYWORDS"];
      if "TC_PASSWORD" !in env {
        assert FirstMissing(env, REQUIRED[1..]) == Some("TC_PASSWORD");
      } else {
        assert REQUIRED[1..][1..] == REQUIRED[2..];
        assert FirstMissing(env, REQUIRED) == FirstMissing(env, REQUIRED[2..]);
        assert REQUIRED[2..] == ["SCHOOL", "CHILD", "SCHOOL_LAT", "SCHOOL_LNG", "SCHOOL_KEYWORDS"];
        if "SCHOOL" !in env {
          assert FirstMissing(env, REQUIRED[2..]) == Some("SCHOOL");
        } else {
          assert REQUIRED[2..][1..] == REQUIRED[3..];
          assert FirstMissing(env, REQUIRED) == FirstMissing(env, REQUIRED[3..]);
          assert REQUIRED[3..] == ["CHILD", "SCHOOL_LAT", "SCHOOL_LNG", "SCHOOL_KEYWORDS"];
          if "CHILD" !in env {
            assert FirstMissing(env, REQUIRED[3..]) == Some("CHILD");
          } else {
            assert REQUIRED[3..][1..] == REQUIRED[4..];
            assert FirstMissing(env, REQUIRED) == FirstMissing(env, REQUIRED[4..]);
            assert REQUIRED[4..] == ["SCHOOL_LAT", "SCHOOL_LNG", "SCHOOL_KEYWORDS"];
            if "SCHOOL_LAT" !in env {
              assert FirstMissing(env, REQUIRED[4..]) == Some("SCHOOL_LAT");
            } else {
              assert REQUIRED[4..][1..] == REQUIRED[5..];
              assert FirstMissing(env, REQUIRED) == FirstMissing(env, REQUIRED[5..]);
              assert REQUIRED[5..] == ["SCHOOL_LNG", "SCHOOL_KEYWORDS"];
              if "SCHOOL_LNG" !in env {
                assert FirstMissing(env, REQUIRED[5..]) == Some("SCHOOL_LNG");
              } else {
                assert REQUIRED[5..][1..] == REQUIRED[6..];
                assert FirstMissing(env, REQUIRED) == FirstMissing(env, REQUIRED[6..]);
                assert REQUIRED[6..] == ["SCHOOL_KEYWORDS"];
                if "SCHOOL_KEYWORDS" !in env {
                  assert FirstMissing(env, REQUIRED[6..]) == Some("SCHOOL_KEYWORDS");
                } else {
                  assert REQUIRED[6..][1..] == REQUIRED[7..];
                  assert FirstMissing(env, REQUIRED) == FirstMissing(env, REQUIRED[7..]);
                  assert REQUIRED[7..] == [];
                }
              }
            }
          }
        }
      }
    }
  }

  /** With every variable present, the numeric checks run in the order SCHOOL,
      CHILD, SCHOOL_LAT, SCHOOL_LNG, and the first failure is reported under
      its own name; the floats are examined only after both integers parse. */
  lemma FromEnvNumericOrder(env: Env, parseF64: FloatParser)
    requires AllPresent(env)
    ensures ParseU32(env["SCHOOL"]).Err? ==>
              FromEnv(env, parseF64) == Err(InvalidInteger("SCHOOL", ParseU32(env["SCHOOL"]).error))
    ensures ParseU32(env["SCHOOL"]).Ok? && ParseU32(env["CHILD"]).Err? ==>
              FromEnv(env, parseF64) == Err(InvalidInteger("CHILD", ParseU32(env["CHILD"]).error))
    ensures ParseU32(env["SCHOOL"]).Ok? && ParseU32(env["CHILD"]).Ok? && parseF64(env["SCHOOL_LAT"]).None? ==>
              FromEnv(env, parseF64) == Err(InvalidFloat("SCHOOL_LAT"))
    ensures ParseU32(env["SCHOOL"]).Ok? && ParseU32(env["CHILD"]).Ok? && parseF64(env["SCHOOL_LAT"]).Some?
              && parseF64(env["SCHOOL_LNG"]).None? ==>
              FromEnv(env, parseF64) == Err(InvalidFloat("SCHOOL_LNG"))
    ensures FromEnv(env, parseF64).Ok? <==>
              ParseU32(env["SCHOOL"]).Ok? && ParseU32(env["CHILD"]).Ok?
              && parseF64(env["SCHOOL_LAT"]).Some? && parseF64(env["SCHOOL_LNG"]).Some?
  {
  }

  // ---------------------------------------------------------------------------
  // `Config::from_file_path` and `Config::load`
  // ---------------------------------------------------------------------------

  /** What reading a path gives: its text, or the I/O error. */
  datatype FileRead = Text(content: string) | Unreadable(reason: string)

  /** The YAML deserialiser, which the model does not interpret. */
  type YamlDecoder = string -> Result<Config, string>

  function FromFilePath(path: string, files: map<string, FileRead>, decodeYaml: YamlDecoder): (r: Result<Config, ConfigError>)
    ensures path !in files ==> r == Err(ConfigFileNotFound)
    ensures r.Ok? ==> path in files && files[path].Text? && decodeYaml(files[path].content) == Ok(r.value)
  {
    if path !in files then Err(ConfigFileNotFound)
    else match files[path]
      case Unreadable(reason) => Err(IoError(reason))
      case Text(content) =>
        match decodeYaml(content)
        case Ok(c) => Ok(c)
        case Err(e) => Err(ConfigFileError(e))
  }

  /** `Config::from_file`: the platform's configuration path may be unknown. */
  function FromFile(configPath: Option<string>, files: map<string, FileRead>, decodeYaml: YamlDecoder): Result<Config, ConfigError> {
    match configPath
    case None => Err(IoError("Could not find config directory"))
    case Some(path) => FromFilePath(path, files, decodeYaml)
  }

  /** Source precedence: the environment alone, else the configuration file,
      else the environment after `.env` was merged into it, whose error is
      the one reported. `withDotenv` is the environment after that merge. */
  function Load(env: Env, fromFile: Result<Config, ConfigError>, withDotenv: Env, parseF64: FloatParser): (r: Result<Config, AppError>)
    ensures FromEnv(env, parseF64).Ok? ==> r == Ok(FromEnv(env, parseF64).value)
    ensures FromEnv(env, parseF64).Err? && fromFile.Ok? ==> r == Ok(fromFile.value)
    ensures FromEnv(env, parseF64).Err? && fromFile.Err? ==>
              match FromEnv(withDotenv, parseF64)
              case Ok(c) => r == Ok(c)
              case Err(e) => r == Err(AppError.Config(e))
  {
    match FromEnv(env, parseF64)
    case Ok(c) => Ok(c)
    case Err(_) =>
      match fromFile
      case Ok(c) => Ok(c)
      case Err(_) =>
        match FromEnv(withDotenv, parseF64)
        case Ok(c) => Ok(c)
        case Err(e) => Err(AppError.Config(e))
  }
}

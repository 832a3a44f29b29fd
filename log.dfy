/** Package `log`: the logging options, their defaults and their validation. */
module Log {

  /** The struct `Options`. */
  datatype Options = Options(
    name: string,
    level: string,
    format: string,
    development: bool,
    enableColor: bool,
    disableCaller: bool,
    disableStacktrace: bool,
    outputPaths: seq<string>,
    errorOutputPaths: seq<string>)

  const ConsoleFormat := "console"

  const JsonFormat := "json"

  /** The level names, from lowest to highest priority. */
  const LevelNames: seq<string> := ["debug", "info", "warn", "error", "dpanic", "panic", "fatal"]

  /** Whether the level parser accepts `level`: one of the level names in any
      letter case, or the empty string, which it reads as the info level. */
  predicate IsLevelName(level: string)
  {
    level == "" || ToLower(level) in LevelNames
  }

  /** `NewOptions`: the defaults. */
  function NewOptions(): (o: Options)
    ensures o.level == "info" && o.format == "console" && o.name == ""
    ensures o.outputPaths == ["stdout"] && o.errorOutputPaths == ["stderr"]
    ensures !o.development && !o.enableColor && !o.disableCaller && !o.disableStacktrace
  {
    Options(
      name := "",
      level := LevelNames[1],
      format := ConsoleFormat,
      development := false,
      enableColor := false,
      disableCaller := false,
      disableStacktrace := false,
      outputPaths := ["stdout"],
      errorOutputPaths := ["stderr"])
  }

  const LevelPrefix := "unrecognized level: "

  const FormatPrefix := "not a valid log format: "

  /** An error `Validate` reports. */
  datatype OptionError = UnrecognizedLevel(level: string) | InvalidFormat(format: string)
  {
    /** The error's message: a prefix naming the check, then the offending value
        quoted as given. */
    function Message(): (m: string)
      ensures UnrecognizedLevel? ==> LevelPrefix <= m
      ensures InvalidFormat? ==> FormatPrefix <= m
      ensures |m| > 0 && m[|m| - 1] == '"'
    {
      match this
      case UnrecognizedLevel(l) => LevelPrefix + Quote(l)
      case InvalidFormat(f) => FormatPrefix + Quote(f)
    }
  }

  /** A string in double quotes, with quote and backslash escaped. */
  function Quote(s: string): string
  {
    "\"" + Escape(s) + "\""
  }

  function EscapeChar(c: char): seq<char>
  {
    if c == '"' || c == '\\' then ['\\', c] else [c]
  }

  function Escape(s: string): (r: string)
    ensures |r| >= |s|
    ensures (forall i :: 0 <= i < |s| ==> s[i] != '"' && s[i] != '\\') ==> r == s
  {
    if s == [] then [] else EscapeChar(s[0]) + Escape(s[1..])
  }

  /** Escaping loses nothing: different strings escape differently. */
  lemma {:induction false} EscapeInjective(a: string, b: string)
    requires Escape(a) == Escape(b)
    ensures a == b
    decreases |a|
  {
    if a != [] && b != [] {
      var ea, eb := Escape(a), Escape(b);
      assert ea == EscapeChar(a[0]) + Escape(a[1..]);
      assert eb == EscapeChar(b[0]) + Escape(b[1..]);
      var n := |EscapeChar(a[0])|;
      assert a[0] == b[0] && n == |EscapeChar(b[0])| by {
        if a[0] == '"' || a[0] == '\\' {
          assert ea[0] == '\\' && ea[1] == a[0];
          assert eb[0] == '\\';
          assert b[0] == '"' || b[0] == '\\';
          assert eb[1] == b[0];
        } else {
          assert ea[0] == a[0] && a[0] != '\\';
          assert !(b[0] == '"' || b[0] == '\\');
          assert eb[0] == b[0];
        }
      }
      assert Escape(a[1..]) == ea[n..] == eb[n..] == Escape(b[1..]);
      EscapeInjective(a[1..], b[1..]);
      assert a == [a[0]] + a[1..] && b == [b[0]] + b[1..];
    }
  }

  lemma MessageStart(e: OptionError)
    ensures e.Message()[0] == if e.UnrecognizedLevel? then 'u' else 'n'
  {
    assert LevelPrefix[0] == 'u' && FormatPrefix[0] == 'n';
  }

  /** The message tells which check failed and on what value: different errors
      have different messages. */
  lemma MessageIdentifiesError(e1: OptionError, e2: OptionError)
    requires e1.Message() == e2.Message()
    ensures e1 == e2
  {
    MessageStart(e1);
    MessageStart(e2);
    var m := e1.Message();
    if e1.UnrecognizedLevel? == e2.UnrecognizedLevel? {
      var p := if e1.UnrecognizedLevel? then LevelPrefix else FormatPrefix;
      var v1 := if e1.UnrecognizedLevel? then e1.level else e1.format;
      var v2 := if e2.UnrecognizedLevel? then e2.level else e2.format;
      assert m == p + Quote(v1) && m == p + Quote(v2);
      var q := m[|p|..];
      assert q == Quote(v1) == Quote(v2);
      assert Escape(v1) == q[1..|q| - 1] == Escape(v2);
      EscapeInjective(v1, v2);
    }
  }

  function LowerChar(c: char): char
  {
    if 'A' <= c <= 'Z' then (c as int + 32) as char else c
  }

  /** Lower-cases the ASCII letters of a string. */
  function ToLower(s: string): (r: string)
    ensures |r| == |s|
    ensures forall i :: 0 <= i < |s| ==> r[i] == LowerChar(s[i])
  {
    if s == [] then [] else [LowerChar(s[0])] + ToLower(s[1..])
  }

  /** `a` and `b` are equal up to the case of their letters. */
  predicate EqualFold(a: string, b: string)
  {
    |a| == |b| && forall i :: 0 <= i < |a| ==> LowerChar(a[i]) == LowerChar(b[i])
  }

  /** The format check: the lower-cased format is one of the two names. */
  predicate IsFormatName(format: string)
    ensures IsFormatName(format) ==> |format| == |ConsoleFormat| || |format| == |JsonFormat|
  {
    var f := ToLower(format);
    f == ConsoleFormat || f == JsonFormat
  }

  /** A name without upper-case letters is what a string lower-cases to exactly
      when the two are equal up to case. */
  lemma LowerMatchesFold(s: string, name: string)
    requires forall i :: 0 <= i < |name| ==> !('A' <= name[i] <= 'Z')
    ensures ToLower(s) == name <==> EqualFold(s, name)
  {
    if EqualFold(s, name) {
      assert forall i :: 0 <= i < |s| ==> ToLower(s)[i] == name[i];
    }
  }

  /** The format check ignores case and accepts nothing but the two names. */
  lemma FormatCheckIgnoresCase(format: string)
    ensures IsFormatName(format) <==> EqualFold(format, ConsoleFormat) || EqualFold(format, JsonFormat)
  {
    LowerMatchesFold(format, ConsoleFormat);
    LowerMatchesFold(format, JsonFormat);
  }

  /** The level check ignores case and accepts the empty string besides the names. */
  lemma LevelCheckIgnoresCase(level: string)
    ensures IsLevelName(level) <==> level == "" || exists k :: 0 <= k < |LevelNames| && EqualFold(level, LevelNames[k])
  {
    forall k | 0 <= k < |LevelNames|
      ensures ToLower(level) == LevelNames[k] <==> EqualFold(level, LevelNames[k])
    {
      LowerMatchesFold(level, LevelNames[k]);
    }
  }

  /** A few spellings that pass and fail. */
  lemma FormatExamples()
    ensures IsFormatName("console") && IsFormatName("JSON") && IsFormatName("Json") && IsFormatName("CoNsOlE")
    ensures !IsFormatName("text") && !IsFormatName("") && !IsFormatName("jsonl")
  {
    assert ToLower("JSON") == "json";
    assert ToLower("Json") == "json";
    assert ToLower("CoNsOlE") == "console";
    assert ToLower("console") == "console";
  }

  /** Level spellings that pass and fail, among them the capitalised names of the
      field's documentation. */
  lemma LevelExamples()
    ensures IsLevelName("info") && IsLevelName("Debug") && IsLevelName("WARN") && IsLevelName("")
    ensures !IsLevelName("test") && !IsLevelName("trace")
  {
    assert ToLower("info") == "info";
    assert ToLower("Debug") == "debug";
    assert ToLower("WARN") == "warn";
    assert ToLower("test") == "test";
    assert ToLower("trace") == "trace";
  }

  /** `Validate`: collects the level error, then the format error. The options are
      a value here, so they cannot be changed by it. */
  method Validate(o: Options) returns (errs: seq<OptionError>)
    ensures |errs| == (if IsLevelName(o.level) then 0 else 1) + (if IsFormatName(o.format) then 0 else 1)
    ensures UnrecognizedLevel(o.level) in errs <==> !IsLevelName(o.level)
    ensures InvalidFormat(o.format) in errs <==> !IsFormatName(o.format)
    ensures forall e :: e in errs ==> e == UnrecognizedLevel(o.level) || e == InvalidFormat(o.format)
    ensures |errs| == 2 ==> errs[0].UnrecognizedLevel? && errs[1].InvalidFormat?
  {
    errs := [];
    if !IsLevelName(o.level) {
      errs := errs + [UnrecognizedLevel(o.level)];
    }
    if !IsFormatName(o.format) {
      errs := errs + [InvalidFormat(o.format)];
    }
  }

  /** The defaults pass validation. */
  method ValidateDefaults() returns (errs: seq<OptionError>)
    ensures errs == []
  {
    assert ToLower("console") == "console" && ToLower("info") == "info";
    errs := Validate(NewOptions());
  }

  /** The messages for the value "test", which needs no escaping. */
  lemma TestMessages()
    ensures UnrecognizedLevel("test").Message() == "unrecognized level: \"test\""
    ensures InvalidFormat("test").Message() == "not a valid log format: \"test\""
  {
    assert Escape("test") == "test";
    assert Quote("test") == "\"test\"";
  }

  /** The options of the package's test: both checks fail, the level first, and the
      format is quoted as given. */
  method ValidateTestOptions() returns (messages: seq<string>)
    ensures messages == ["unrecognized level: \"test\"", "not a valid log format: \"test\""]
  {
    var o := Options("", "test", "test", false, true, false, false, ["stdout"], ["stderr"]);
    LevelExamples();
    assert !IsFormatName("test") by {
      assert ToLower("test") == "test";
    }
    var errs := Validate(o);
    assert errs == [UnrecognizedLevel("test"), InvalidFormat("test")];
    TestMessages();
    messages := [errs[0].Message(), errs[1].Message()];
  }

  /** The zero-valued options: the empty level passes, the empty format does not. */
  method ValidateZeroValue() returns (errs: seq<OptionError>)
    ensures errs == [InvalidFormat("")]
  {
    assert ToLower("") == "";
    var o := Options("", "", "", false, false, false, false, [], []);
    assert IsLevelName(o.level) && !IsFormatName(o.format);
    errs := Validate(o);
    assert errs[0] in errs;
  }
}

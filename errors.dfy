/** The business error-code registry of package `errors`: coders, coded errors,
    the process-wide `codes` map with its two insertion policies, and the two
    queries `ParseCoder` and `IsCode`. */
module Errors {

  datatype Option<+T> = None | Some(value: T)

  /** A non-nil Go `error`, as far as this package can tell errors apart: a
      `*withCode` carrying a business code and an optional cause, or any other
      error (`Plain`). A nil `error` is `None` of `Option<Error>`. */
  datatype Error = Plain(text: string) | WithCode(code: int, cause: Option<Error>)

  /** A value of the `Coder` interface, observed through what its four methods
      return: `Code()`, `HTTPStatus()`, `String()` and `Reference()`. */
  datatype Coder = Coder(code: int, httpStatus: int, message: string, reference: string)

  /** The struct `defaultCoder`. */
  datatype DefaultCoder = DefaultCoder(bCode: int, httpCode: int, ext: string, ref: string)
  {
    function Code(): int { bCode }

    function String(): string { ext }

    /** A stored status of 0 is reported as 500 (the Go doc comment of `HTTPStatus`
        says 200). */
    function HTTPStatus(): (s: int)
      ensures s != 0
      ensures httpCode != 0 ==> s == httpCode
      ensures httpCode == 0 ==> s == InternalServerError
    {
      if httpCode == 0 then InternalServerError else httpCode
    }

    function Reference(): string { ref }

    /** The `Coder` this struct implements. */
    function AsCoder(): Coder
    {
      Coder(Code(), HTTPStatus(), String(), Reference())
    }
  }

  /** `Code()`, `String()` and `Reference()` return their fields unchanged, so a
      coder with a status other than 0 is exactly the view of the `defaultCoder`
      holding its four values; a stored 0 is the one value the view does not show. */
  lemma DefaultCoderView(d: DefaultCoder, c: Coder)
    ensures d.AsCoder().code == d.bCode && d.AsCoder().message == d.ext && d.AsCoder().reference == d.ref
    ensures c.httpStatus != 0 ==> DefaultCoder(c.code, c.httpStatus, c.message, c.reference).AsCoder() == c
    ensures d.httpCode == 0 ==> d.AsCoder() == DefaultCoder(d.bCode, 500, d.ext, d.ref).AsCoder()
  {
  }

  const InternalServerError := 500

  const UnknownMessage := "An internal server error occurred"

  /** The `unknownCoder` variable: the fallback of `ParseCoder`. */
  const UnknownCoder := DefaultCoder(1, InternalServerError, UnknownMessage, "")

  /** The coder `ParseCoder` falls back to. */
  function Unknown(): (c: Coder)
    ensures c.code == 1 && c.httpStatus == 500
    ensures c.message == "An internal server error occurred" && c.reference == ""
  {
    UnknownCoder.AsCoder()
  }

  /** Why a registration panics. `StatusNotAllowed` is raised by the validated
      registration of packages `code` and `bcode`, before they reach the registry. */
  datatype Panic = ReservedCode | AlreadyExists(code: int) | StatusNotAllowed(status: int)

  /** The effect of a registration on the `codes` map: the new map, or the panic
      it raises, in which case the map is left as it was. */
  datatype Update = Updated(codes: map<int, Coder>) | Panicked(panic: Panic)

  /** Every key is the code of the coder stored under it, and code 0 is never stored. */
  ghost predicate WellKeyed(codes: map<int, Coder>)
  {
    0 !in codes && forall k :: k in codes ==> codes[k].code == k
  }

  /** The `codes` map after `init`. */
  function InitialCodes(): (codes: map<int, Coder>)
    ensures codes.Keys == {1} && codes[1] == Unknown()
  {
    map[UnknownCoder.Code() := UnknownCoder.AsCoder()]
  }

  /** `Register`: the overwriting policy. */
  function RegisterInto(codes: map<int, Coder>, c: Coder): (r: Update)
    ensures r.Panicked? <==> c.code == 0
    ensures r.Panicked? ==> r.panic == ReservedCode
    ensures r.Updated? ==> r.codes.Keys == codes.Keys + {c.code} && r.codes[c.code] == c
    ensures r.Updated? ==> forall k :: k in codes && k != c.code ==> r.codes[k] == codes[k]
  {
    if c.code == 0 then Panicked(ReservedCode) else Updated(codes[c.code := c])
  }

  /** `MustRegister`: the must-be-unique policy. */
  function MustRegisterInto(codes: map<int, Coder>, c: Coder): (r: Update)
    ensures r.Panicked? <==> c.code == 0 || c.code in codes
    ensures c.code == 0 ==> r == Panicked(ReservedCode)
    ensures c.code != 0 && c.code in codes ==> r == Panicked(AlreadyExists(c.code))
    ensures r.Updated? ==> r.codes.Keys == codes.Keys + {c.code} && c.code !in codes
    ensures r.Updated? ==> r.codes[c.code] == c && |r.codes| == |codes| + 1
    ensures r.Updated? ==> forall k :: k in codes ==> r.codes[k] == codes[k]
  {
    if c.code == 0 then Panicked(ReservedCode)
    else if c.code in codes then Panicked(AlreadyExists(c.code))
    else Updated(codes[c.code := c])
  }

  /** Where `MustRegister` succeeds it does exactly what `Register` does. */
  lemma MustRegisterRefinesRegister(codes: map<int, Coder>, c: Coder)
    ensures MustRegisterInto(codes, c).Updated? ==> MustRegisterInto(codes, c) == RegisterInto(codes, c)
    ensures c.code !in codes ==> MustRegisterInto(codes, c) == RegisterInto(codes, c)
  {
  }

  /** Both policies keep the registry well keyed. */
  lemma RegistrationKeepsWellKeyed(codes: map<int, Coder>, c: Coder)
    requires WellKeyed(codes)
    ensures RegisterInto(codes, c).Updated? ==> WellKeyed(RegisterInto(codes, c).codes)
    ensures MustRegisterInto(codes, c).Updated? ==> WellKeyed(MustRegisterInto(codes, c).codes)
  {
  }

  /** `ParseCoder`: resolves an error to its coder, looking only at the top level. */
  function ParseCoder(codes: map<int, Coder>, err: Option<Error>): (r: Option<Coder>)
    ensures r.None? <==> err.None?
    ensures err.Some? && err.value.WithCode? && err.value.code in codes ==> r == Some(codes[err.value.code])
    ensures err.Some? && !(err.value.WithCode? && err.value.code in codes) ==> r == Some(Unknown())
  {
    match err
    case None => None
    case Some(e) =>
      if e.WithCode? && e.code in codes then Some(codes[e.code]) else Some(UnknownCoder.AsCoder())
  }

  /** `ParseCoder` never looks at the cause. */
  lemma ParseCoderIgnoresCause(codes: map<int, Coder>, k: int, cause1: Option<Error>, cause2: Option<Error>)
    ensures ParseCoder(codes, Some(WithCode(k, cause1))) == ParseCoder(codes, Some(WithCode(k, cause2)))
  {
  }

  /** The fallback is the `unknownCoder` constant, even when key 1 holds another coder. */
  lemma ParseCoderFallbackIsConstant(codes: map<int, Coder>, e: Error)
    requires !(e.WithCode? && e.code in codes)
    ensures ParseCoder(codes, Some(e)) == Some(Unknown())
    ensures 1 in codes && codes[1] != Unknown() ==> ParseCoder(codes, Some(e)) != Some(codes[1])
  {
  }

  /** After `init` every non-nil error resolves to the unknown coder. */
  lemma InitialRegistryResolvesToUnknown(e: Error)
    ensures ParseCoder(InitialCodes(), Some(e)) == Some(Unknown())
  {
  }

  /** After a successful registration of `c`, an error carrying `c`'s code resolves to `c`. */
  lemma ParseCoderAfterRegistration(codes: map<int, Coder>, c: Coder, cause: Option<Error>)
    ensures RegisterInto(codes, c).Updated? ==>
      ParseCoder(RegisterInto(codes, c).codes, Some(WithCode(c.code, cause))) == Some(c)
    ensures MustRegisterInto(codes, c).Updated? ==>
      ParseCoder(MustRegisterInto(codes, c).codes, Some(WithCode(c.code, cause))) == Some(c)
  {
  }

  /** In a well-keyed registry that still holds key 1, a resolved coder never has
      code 0, and a registered coded error resolves to a coder carrying its own code. */
  lemma ResolvedCoderCarriesCode(codes: map<int, Coder>, err: Option<Error>)
    requires WellKeyed(codes) && 1 in codes
    ensures err.Some? ==> ParseCoder(codes, err).value.code != 0
    ensures err.Some? && err.value.WithCode? && err.value.code in codes ==>
      ParseCoder(codes, err).value.code == err.value.code
  {
  }

  /** `IsCode`: walks the cause chain while the links are `*withCode`. */
  function IsCode(err: Option<Error>, k: int): bool
    ensures IsCode(err, k) ==> err.Some? && err.value.WithCode?
    ensures err.Some? && err.value.WithCode? && err.value.code == k ==> IsCode(err, k)
  {
    match err
    case Some(WithCode(c, cause)) =>
      if c == k then true
      else if cause.Some? then IsCode(cause, k)
      else false
    case _ => false
  }

  /** The codes met walking from the top of an error down its unbroken chain of
      `*withCode` causes; the walk ends at nil or at the first other error. */
  function CodeChain(err: Option<Error>): seq<int>
  {
    match err
    case Some(WithCode(c, cause)) => [c] + CodeChain(cause)
    case _ => []
  }

  /** `IsCode(err, k)` holds exactly when `k` is on the code chain of `err`. */
  lemma {:induction false} IsCodeIffOnChain(err: Option<Error>, k: int)
    ensures IsCode(err, k) <==> k in CodeChain(err)
  {
    match err
    case None =>
    case Some(e) =>
      match e
      case Plain(_) =>
      case WithCode(c, cause) =>
        IsCodeIffOnChain(cause, k);
    }

  /** A nil error, a plain error, and anything below a plain link, have no code. */
  lemma PlainHasNoCode(text: string, k: int, outer: seq<int>)
    ensures !IsCode(None, k) && !IsCode(Some(Plain(text)), k)
    ensures IsCode(WrapAll(Some(Plain(text)), outer), k) <==> k in outer
  {
    WrapAllChain(Some(Plain(text)), outer);
    IsCodeIffOnChain(WrapAll(Some(Plain(text)), outer), k);
  }

  /** Wraps `err` successively with the codes of `codes`, the last one outermost,
      as nested `WrapC` calls do. */
  function WrapAll(err: Option<Error>, codes: seq<int>): Option<Error>
  {
    if codes == [] then err
    else Some(WithCode(codes[|codes| - 1], WrapAll(err, codes[..|codes| - 1])))
  }

  /** Wrapping puts the wrapping codes, outermost first, in front of the chain. */
  lemma {:induction false} WrapAllChain(err: Option<Error>, codes: seq<int>)
    ensures CodeChain(WrapAll(err, codes)) == Reverse(codes) + CodeChain(err)
  {
    if codes != [] {
      var n := |codes| - 1;
      WrapAllChain(err, codes[..n]);
      assert Reverse(codes) == [codes[n]] + Reverse(codes[..n]);
    }
  }

  function Reverse(s: seq<int>): (r: seq<int>)
    ensures |r| == |s|
    ensures forall i :: 0 <= i < |s| ==> r[i] == s[|s| - 1 - i]
  {
    if s == [] then [] else [s[|s| - 1]] + Reverse(s[..|s| - 1])
  }

  /** A code given at any wrapping level is found by `IsCode`, whatever the innermost error. */
  lemma IsCodeFindsEveryWrapping(err: Option<Error>, codes: seq<int>, k: int)
    requires k in codes
    ensures IsCode(WrapAll(err, codes), k)
  {
    WrapAllChain(err, codes);
    IsCodeIffOnChain(WrapAll(err, codes), k);
    var i :| 0 <= i < |codes| && codes[i] == k;
    assert Reverse(codes)[|codes| - 1 - i] == k;
  }

  /** The registry: the process-wide `codes` map. */
  class Registry {
    var codes: map<int, Coder>

    /** Key 1 is never removed, and every key is the code of its coder. */
    ghost predicate Valid()
      reads this
    {
      1 in codes && WellKeyed(codes)
    }

    /** `init`: the map holds the unknown coder only. */
    constructor ()
      ensures Valid()
      ensures codes == InitialCodes()
    {
      codes := InitialCodes();
    }

    /** `Register`: a panic leaves the map unchanged. */
    method Register(c: Coder) returns (outcome: Option<Panic>)
      requires Valid()
      modifies this
      ensures Valid()
      ensures outcome.Some? <==> c.code == 0
      ensures RegisterInto(old(codes), c) == if outcome.Some? then Panicked(outcome.value) else Updated(codes)
      ensures outcome.Some? ==> codes == old(codes)
    {
      if c.code == 0 {
        return Some(ReservedCode);
      }
      codes := codes[c.code := c];
      outcome := None;
    }

    /** `MustRegister`: a panic leaves the map unchanged. */
    method MustRegister(c: Coder) returns (outcome: Option<Panic>)
      requires Valid()
      modifies this
      ensures Valid()
      ensures outcome.Some? <==> c.code == 0 || c.code in old(codes)
      ensures MustRegisterInto(old(codes), c) == if outcome.Some? then Panicked(outcome.value) else Updated(codes)
      ensures outcome.Some? ==> codes == old(codes)
    {
      if c.code == 0 {
        return Some(ReservedCode);
      }
      if c.code in codes {
        return Some(AlreadyExists(c.code));
      }
      codes := codes[c.code := c];
      outcome := None;
    }
  }

  // The fixture of the package's tests: three nested coded errors over a plain one.

  const ConfigurationNotValid := 1000
  const ErrInvalidJson := 1001
  const ErrEOF := 1002
  const ErrLoadConfigFailed := 1003

  /** The error `loadConfig` returns: EOF wrapped by InvalidJson wrapped by ConfigurationNotValid. */
  function LoadConfigError(): Option<Error>
  {
    WrapAll(Some(Plain("read: end of input")), [ErrEOF, ErrInvalidJson, ConfigurationNotValid])
  }

  /** The top of the fixture chain resolves to its own coder; every level is found
      by `IsCode`; an unused code is not. */
  lemma LoadConfigErrorCodes(codes: map<int, Coder>)
    requires ConfigurationNotValid in codes
    ensures ParseCoder(codes, LoadConfigError()) == Some(codes[ConfigurationNotValid])
    ensures IsCode(LoadConfigError(), ConfigurationNotValid)
    ensures IsCode(LoadConfigError(), ErrInvalidJson)
    ensures IsCode(LoadConfigError(), ErrEOF)
    ensures !IsCode(LoadConfigError(), ErrLoadConfigFailed)
  {
    PlainHasNoCode("read: end of input", ErrLoadConfigFailed, [ErrEOF, ErrInvalidJson, ConfigurationNotValid]);
    IsCodeFindsEveryWrapping(Some(Plain("read: end of input")), [ErrEOF, ErrInvalidJson, ConfigurationNotValid], ErrEOF);
  }
}

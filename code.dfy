/** Package `code`: the `ErrCode` coder and its validated registration helper. */
module Code {
  import Errors

  /** The struct `ErrCode`. Unlike `defaultCoder`, its status accessor applies no default. */
  datatype ErrCode = ErrCode(bCode: int, httpCode: int, ext: string, ref: string)
  {
    function Code(): int { bCode }

    function String(): string { ext }

    function Reference(): string { ref }

    function HTTPStatus(): int { httpCode }

    /** The `Coder` this struct implements. */
    function AsCoder(): Errors.Coder
    {
      Errors.Coder(Code(), HTTPStatus(), String(), Reference())
    }
  }

  /** Reads the four fields back from what the accessors return. */
  function FromCoder(c: Errors.Coder): ErrCode
  {
    ErrCode(c.code, c.httpStatus, c.message, c.reference)
  }

  /** The accessors return the fields unchanged: nothing is lost, not even a status of 0. */
  lemma AccessorsAreFaithful(e: ErrCode)
    ensures FromCoder(e.AsCoder()) == e
    ensures e.AsCoder().httpStatus == e.httpCode
  {
  }

  /** The same fields give a different status from `defaultCoder` exactly when the stored status is 0. */
  lemma StatusDiffersFromDefaultCoder(code: int, status: int, message: string, ref: string)
    ensures ErrCode(code, status, message, ref).HTTPStatus() != Errors.DefaultCoder(code, status, message, ref).HTTPStatus()
            <==> status == 0
  {
  }

  /** The statuses `register` accepts. */
  const AllowedStatuses: seq<int> := [200, 400, 401, 403, 404, 500]

  /** The reference `register` stores: the first of the optional references, or "" if none. */
  function FirstRef(refs: seq<string>): (r: string)
    ensures |refs| > 0 ==> r == refs[0]
    ensures |refs| == 0 ==> r == ""
  {
    if |refs| > 0 then refs[0] else ""
  }

  /** The effect of `register(code, httpStatus, message, refs...)` on the `codes` map. */
  function Registration(codes: map<int, Errors.Coder>, code: int, httpStatus: int, message: string, refs: seq<string>)
    : (r: Errors.Update)
    ensures httpStatus !in AllowedStatuses ==> r == Errors.Panicked(Errors.StatusNotAllowed(httpStatus))
    ensures httpStatus in AllowedStatuses && code == 0 ==> r == Errors.Panicked(Errors.ReservedCode)
    ensures httpStatus in AllowedStatuses && code != 0 && code in codes ==>
      r == Errors.Panicked(Errors.AlreadyExists(code))
    ensures r.Updated? <==> httpStatus in AllowedStatuses && code != 0 && code !in codes
    ensures r.Updated? ==> r.codes.Keys == codes.Keys + {code}
    ensures r.Updated? ==> r.codes[code] == Errors.Coder(code, httpStatus, message, FirstRef(refs))
    ensures r.Updated? ==> forall k :: k in codes ==> r.codes[k] == codes[k]
  {
    if httpStatus !in AllowedStatuses then Errors.Panicked(Errors.StatusNotAllowed(httpStatus))
    else Errors.MustRegisterInto(codes, ErrCode(code, httpStatus, message, FirstRef(refs)).AsCoder())
  }

  /** Every stored coder reports an allowed status. */
  ghost predicate StatusesAllowed(codes: map<int, Errors.Coder>)
  {
    forall k :: k in codes ==> codes[k].httpStatus in AllowedStatuses
  }

  /** The registry after `init` reports allowed statuses only, and validated
      registration keeps it that way. */
  lemma RegistrationKeepsStatusesAllowed(codes: map<int, Errors.Coder>, code: int, httpStatus: int,
                                         message: string, refs: seq<string>)
    requires StatusesAllowed(codes)
    ensures StatusesAllowed(Errors.InitialCodes())
    ensures Registration(codes, code, httpStatus, message, refs).Updated? ==>
      StatusesAllowed(Registration(codes, code, httpStatus, message, refs).codes)
  {
  }

  /** Code 1 is taken by the unknown coder from the start, so registering it panics. */
  lemma InitialRegistryRejectsCodeOne(httpStatus: int, message: string, refs: seq<string>)
    ensures Registration(Errors.InitialCodes(), 1, httpStatus, message, refs).Panicked?
    ensures httpStatus in AllowedStatuses ==>
      Registration(Errors.InitialCodes(), 1, httpStatus, message, refs) == Errors.Panicked(Errors.AlreadyExists(1))
  {
  }

  /** `register`: validates the status, then delegates to `MustRegister`; a panic
      leaves the registry unchanged. */
  method Register(registry: Errors.Registry, code: int, httpStatus: int, message: string, refs: seq<string>)
    returns (outcome: Errors.Option<Errors.Panic>)
    requires registry.Valid()
    modifies registry
    ensures registry.Valid()
    ensures Registration(old(registry.codes), code, httpStatus, message, refs)
            == if outcome.Some? then Errors.Panicked(outcome.value) else Errors.Updated(registry.codes)
    ensures outcome.Some? ==> registry.codes == old(registry.codes)
  {
    if httpStatus !in AllowedStatuses {
      return Errors.Some(Errors.StatusNotAllowed(httpStatus));
    }
    var coder := ErrCode(code, httpStatus, message, FirstRef(refs));
    outcome := registry.MustRegister(coder.AsCoder());
  }
}

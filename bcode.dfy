/** Package `bcode`: a second copy of the `ErrCode` coder and its validated
    registration helper, with the same logic as package `code`. */
module BCode {
  import Errors
  import Code

  /** The struct `ErrCode` of this package. */
  datatype ErrCode = ErrCode(bCode: int, httpCode: int, ext: string, ref: string)
  {
    function Code(): int { bCode }

    function String(): string { ext }

    function Reference(): string { ref }

    function HTTPStatus(): int { httpCode }

    /** The `Coder` this struct implements. */
    function AsCoder(): Errors.Coder
    {
      Errors.Coder(Code(), HTTPStatus(), String(), Reference())
    }
  }

  /** The statuses `register` accepts. */
  const AllowedStatuses: seq<int> := [200, 400, 401, 403, 404, 500]

  /** The accessors return the fields unchanged, as a coder of package `code` with the same fields does. */
  lemma AccessorsAreFaithful(e: ErrCode)
    ensures e.AsCoder() == Errors.Coder(e.bCode, e.httpCode, e.ext, e.ref)
    ensures e.AsCoder() == Code.ErrCode(e.bCode, e.httpCode, e.ext, e.ref).AsCoder()
  {
  }

  /** The effect of `register(code, httpStatus, message, refs...)` on the `codes` map. */
  function Registration(codes: map<int, Errors.Coder>, code: int, httpStatus: int, message: string, refs: seq<string>)
    : (r: Errors.Update)
    ensures httpStatus !in AllowedStatuses ==> r == Errors.Panicked(Errors.StatusNotAllowed(httpStatus))
    ensures httpStatus in AllowedStatuses && code == 0 ==> r == Errors.Panicked(Errors.ReservedCode)
    ensures httpStatus in AllowedStatuses && code != 0 && code in codes ==>
      r == Errors.Panicked(Errors.AlreadyExists(code))
    ensures r.Updated? <==> httpStatus in AllowedStatuses && code != 0 && code !in codes
    ensures r.Updated? ==> r.codes.Keys == codes.Keys + {code}
    ensures r.Updated? ==> r.codes[code] == Errors.Coder(code, httpStatus, message, Code.FirstRef(refs))
    ensures r.Updated? ==> forall k :: k in codes ==> r.codes[k] == codes[k]
  {
    if httpStatus !in AllowedStatuses then Errors.Panicked(Errors.StatusNotAllowed(httpStatus))
    else Errors.MustRegisterInto(codes, ErrCode(code, httpStatus, message, Code.FirstRef(refs)).AsCoder())
  }

  /** The two packages' registration helpers have the same effect on the registry. */
  lemma SameAsCodeRegistration(codes: map<int, Errors.Coder>, code: int, httpStatus: int, message: string,
                               refs: seq<string>)
    ensures Registration(codes, code, httpStatus, message, refs) == Code.Registration(codes, code, httpStatus, message, refs)
  {
  }

  /** `register`: validates the status, then delegates to `MustRegister`; a panic
      leaves the registry unchanged. */
  method Register(registry: Errors.Registry, code: int, httpStatus: int, message: string, refs: seq<string>)
    returns (outcome: Errors.Option<Errors.Panic>)
    requires registry.Valid()
    modifies registry
    ensures registry.Valid()
    ensures Registration(old(registry.codes), code, httpStatus, message, refs)
            == if outcome.Some? then Errors.Panicked(outcome.value) else Errors.Updated(registry.codes)
    ensures outcome.Some? ==> registry.codes == old(registry.codes)
  {
    if httpStatus !in AllowedStatuses {
      return Errors.Some(Errors.StatusNotAllowed(httpStatus));
    }
    var coder := ErrCode(code, httpStatus, message, Code.FirstRef(refs));
    outcome := registry.MustRegister(coder.AsCoder());
  }
}

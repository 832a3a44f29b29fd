/** Package `core`: the decision `WriteResponse` makes between a success payload
    and an error envelope, and the JSON shape of that envelope. */
module Core {
  import Errors
  import Code

  /** The struct `ErrResponse`. */
  datatype ErrResponse = ErrResponse(code: int, message: string, reference: string)

  /** What is written as the JSON body: the caller's data, or an error envelope. */
  datatype Body<D> = Payload(data: D) | Envelope(envelope: ErrResponse)

  /** The one response `WriteResponse` writes: an HTTP status and a body. */
  datatype Response<D> = Response(status: int, body: Body<D>)

  const StatusOK := 200

  /** `WriteResponse(c, err, data)`, with the registry the resolution reads passed in. */
  function WriteResponse<D>(codes: map<int, Errors.Coder>, err: Errors.Option<Errors.Error>, data: D): (r: Response<D>)
    ensures err.None? <==> r.body.Payload?
    ensures err.None? ==> r.status == 200 && r.body.data == data
    ensures err.Some? ==>
      var c := Errors.ParseCoder(codes, err).value;
      r.status == c.httpStatus && r.body.envelope == ErrResponse(c.code, c.message, c.reference)
  {
    if err.Some? then
      var coder := Errors.ParseCoder(codes, err).value;
      Response(coder.httpStatus, Envelope(ErrResponse(coder.code, coder.message, coder.reference)))
    else
      Response(StatusOK, Payload(data))
  }

  /** A plain error, or a coded one whose code is not registered, gets status 500
      and the unknown coder's envelope. */
  lemma UnrecognisedErrorIsInternal<D>(codes: map<int, Errors.Coder>, e: Errors.Error, data: D)
    requires !(e.WithCode? && e.code in codes)
    ensures WriteResponse(codes, Errors.Some(e), data)
            == Response(500, Envelope(ErrResponse(1, "An internal server error occurred", "")))
  {
  }

  /** A coded error whose code is registered gets that coder's status and envelope,
      whatever its cause. */
  lemma RegisteredErrorUsesItsCoder<D>(codes: map<int, Errors.Coder>, k: int, cause: Errors.Option<Errors.Error>, data: D)
    requires k in codes
    ensures WriteResponse(codes, Errors.Some(Errors.WithCode(k, cause)), data)
            == Response(codes[k].httpStatus, Envelope(ErrResponse(codes[k].code, codes[k].message, codes[k].reference)))
  {
  }

  /** When every registered coder reports an allowed status (as `init` and the
      validated registration keep it), every response carries an allowed status. */
  lemma StatusIsAlwaysAllowed<D>(codes: map<int, Errors.Coder>, err: Errors.Option<Errors.Error>, data: D)
    requires Code.StatusesAllowed(codes)
    ensures WriteResponse(codes, err, data).status in Code.AllowedStatuses
  {
  }

  /** A registered coder found through a validated registration: the missing
      reference is "" and the status is the registered one. */
  lemma KnownErrorScenario<D>(data: D)
    ensures var r := Code.Registration(Errors.InitialCodes(), 1001, 404, "User not found", []);
      r.Updated? &&
      WriteResponse(r.codes, Errors.Some(Errors.WithCode(1001, Errors.None)), data)
        == Response(404, Envelope(ErrResponse(1001, "User not found", "")))
  {
  }

  /** A JSON value as the envelope uses them. */
  datatype Json = JInt(i: int) | JString(s: string)

  /** The fields of the serialized envelope, in declaration order; `reference`
      carries `omitempty` and is left out when it is "". */
  function EnvelopeFields(e: ErrResponse): (fields: seq<(string, Json)>)
    ensures |fields| == if e.reference == "" then 2 else 3
    ensures fields[0] == ("code", JInt(e.code)) && fields[1] == ("message", JString(e.message))
    ensures e.reference != "" ==> fields[2] == ("reference", JString(e.reference))
  {
    [("code", JInt(e.code)), ("message", JString(e.message))]
    + (if e.reference == "" then [] else [("reference", JString(e.reference))])
  }

  /** The value of the first field named `key`, if any. */
  function Lookup(fields: seq<(string, Json)>, key: string): (v: Errors.Option<Json>)
    ensures v.Some? ==> exists i :: 0 <= i < |fields| && fields[i] == (key, v.value)
                                   && forall j :: 0 <= j < i ==> fields[j].0 != key
    ensures v.None? ==> forall i :: 0 <= i < |fields| ==> fields[i].0 != key
  {
    if fields == [] then Errors.None
    else if fields[0].0 == key then Errors.Some(fields[0].1)
    else Lookup(fields[1..], key)
  }

  /** Reads an envelope back; an absent `reference` reads as "". */
  function ParseEnvelope(fields: seq<(string, Json)>): Errors.Option<ErrResponse>
  {
    match (Lookup(fields, "code"), Lookup(fields, "message"), Lookup(fields, "reference"))
    case (Some(JInt(c)), Some(JString(m)), None) => Errors.Some(ErrResponse(c, m, ""))
    case (Some(JInt(c)), Some(JString(m)), Some(JString(ref))) => Errors.Some(ErrResponse(c, m, ref))
    case _ => Errors.None
  }

  /** The `reference` key is present exactly when the reference is not empty, and
      leaving it out loses nothing: the envelope reads back as it was. */
  lemma EnvelopeRoundTrip(e: ErrResponse)
    ensures (exists i :: 0 <= i < |EnvelopeFields(e)| && EnvelopeFields(e)[i].0 == "reference") <==> e.reference != ""
    ensures ParseEnvelope(EnvelopeFields(e)) == Errors.Some(e)
  {
    var fields := EnvelopeFields(e);
    assert fields[0].0 != "reference" && fields[1].0 != "reference";
    assert Lookup(fields, "code") == Errors.Some(JInt(e.code));
    assert Lookup(fields, "message") == Errors.Some(JString(e.message));
    if e.reference != "" {
      assert Lookup(fields, "reference") == Errors.Some(JString(e.reference));
    }
  }
}

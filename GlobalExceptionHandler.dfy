/** `GlobalExceptionHandler`: turns validation failures and the service's
    exceptions into status codes and response bodies. */
module ErrorHandling {
  import opened Wrappers
  import opened Entities

  /** A `LinkedHashMap` keyed by strings: the values, plus the keys in the
      order they were first put. */
  datatype LinkedMap<V> = LinkedMap(keys: seq<string>, values: map<string, V>) {

    predicate Valid() {
      && (forall i, j :: 0 <= i < j < |keys| ==> keys[i] != keys[j])
      && values.Keys == set k | k in keys
    }

    function Get(k: string): Option<V> {
      if k in values then Some(values[k]) else None
    }

    /** `put`: overwrites the value of a present key, which keeps its place;
        appends a new key. */
    function Put(k: string, v: V): (m: LinkedMap<V>)
      requires Valid()
      ensures m.Valid()
      ensures m.Get(k) == Some(v)
      ensures forall k' :: k' != k ==> m.Get(k') == Get(k')
      ensures k in keys ==> m.keys == keys
      ensures k !in keys ==> m.keys == keys + [k]
    {
      if k in values then LinkedMap(keys, values[k := v]) else LinkedMap(keys + [k], values[k := v])
    }
  }

  function EmptyMap<V>(): (m: LinkedMap<V>)
    ensures m.Valid()
  {
    LinkedMap([], map[])
  }

  datatype FieldError = FieldError(field: string, defaultMessage: string)

  /** The map after putting every field error in turn. */
  function PutAll(errors: seq<FieldError>): (m: LinkedMap<string>)
    ensures m.Valid()
    decreases |errors|
  {
    if errors == [] then EmptyMap()
    else
      var last := errors[|errors| - 1];
      PutAll(errors[..|errors| - 1]).Put(last.field, last.defaultMessage)
  }

  /** The message of the last error reported for `field`, if any. */
  function LastMessage(errors: seq<FieldError>, field: string): Option<string>
    decreases |errors|
  {
    if errors == [] then None
    else if errors[|errors| - 1].field == field then Some(errors[|errors| - 1].defaultMessage)
    else LastMessage(errors[..|errors| - 1], field)
  }

  /** The position of the first error reported for `field`, if any. */
  function FirstIndex(errors: seq<FieldError>, field: string): (r: Option<nat>)
    ensures r.Some? ==> r.value < |errors| && errors[r.value].field == field
    ensures r.Some? ==> forall i :: 0 <= i < r.value ==> errors[i].field != field
    ensures r.None? ==> forall i :: 0 <= i < |errors| ==> errors[i].field != field
    decreases |errors|
  {
    if errors == [] then None
    else if errors[0].field == field then Some(0)
    else match FirstIndex(errors[1..], field)
      case None => None
      case Some(k) => Some(k + 1)
  }

  lemma FirstIndexOfPrefix(errors: seq<FieldError>, field: string)
    requires errors != []
    ensures var s := errors[..|errors| - 1];
            FirstIndex(s, field).Some? ==> FirstIndex(errors, field) == FirstIndex(s, field)
  {
    var s := errors[..|errors| - 1];
    var r := FirstIndex(s, field);
    if r.Some? {
      assert errors[r.value] == s[r.value];
      assert forall i :: 0 <= i < r.value ==> errors[i] == s[i];
    }
  }

  lemma FirstIndexOfNewField(errors: seq<FieldError>, field: string)
    requires errors != [] && errors[|errors| - 1].field == field
    ensures var s := errors[..|errors| - 1];
            FirstIndex(s, field).None? ==> FirstIndex(errors, field) == Some(|errors| - 1)
  {
    var s := errors[..|errors| - 1];
    if FirstIndex(s, field).None? {
      assert forall i :: 0 <= i < |s| ==> errors[i] == s[i];
    }
  }

  /** For a repeated field the last message wins; a field never reported has no entry. */
  lemma {:induction false} PutAllLastMessageWins(errors: seq<FieldError>, field: string)
    ensures PutAll(errors).Get(field) == LastMessage(errors, field)
    decreases |errors|
  {
    if errors != [] {
      PutAllLastMessageWins(errors[..|errors| - 1], field);
    }
  }

  /** The first report of a field among one more error: unchanged if the
      field was already reported, the new position if the last error is its
      first, none otherwise. */
  lemma FirstIndexOfSnoc(errors: seq<FieldError>, field: string)
    requires errors != []
    ensures var s := errors[..|errors| - 1];
            FirstIndex(errors, field) ==
              if FirstIndex(s, field).Some? then FirstIndex(s, field)
              else if errors[|errors| - 1].field == field then Some(|errors| - 1)
              else None
  {
    var s := errors[..|errors| - 1];
    FirstIndexOfPrefix(errors, field);
    if FirstIndex(s, field).None? {
      if errors[|errors| - 1].field == field {
        FirstIndexOfNewField(errors, field);
      } else {
        assert forall i :: 0 <= i < |s| ==> errors[i] == s[i];
        assert forall i :: 0 <= i < |errors| ==> errors[i].field != field;
      }
    }
  }

  /** The keys are exactly the fields that some error names. */
  lemma {:induction false} PutAllKeys(errors: seq<FieldError>, field: string)
    ensures field in PutAll(errors).keys <==> FirstIndex(errors, field).Some?
    decreases |errors|
  {
    if errors != [] {
      PutAllKeys(errors[..|errors| - 1], field);
      FirstIndexOfSnoc(errors, field);
    }
  }

  /** Every key is a reported field, and keys stand in the order in which
      their fields were first reported. */
  predicate InFirstReportOrder(errors: seq<FieldError>, keys: seq<string>) {
    && (forall i :: 0 <= i < |keys| ==> FirstIndex(errors, keys[i]).Some?)
    && (forall i, j :: 0 <= i < j < |keys| ==>
          FirstIndex(errors, keys[i]).value < FirstIndex(errors, keys[j]).value)
  }

  /** Reporting one more error does not move the first report of a field
      that was already reported. */
  lemma FirstReportOrderExtends(errors: seq<FieldError>, keys: seq<string>)
    requires errors != [] && InFirstReportOrder(errors[..|errors| - 1], keys)
    ensures InFirstReportOrder(errors, keys)
  {
    var s := errors[..|errors| - 1];
    forall i | 0 <= i < |keys| ensures FirstIndex(errors, keys[i]) == FirstIndex(s, keys[i]) {
      FirstIndexOfPrefix(errors, keys[i]);
    }
  }

  /** A field reported for the first time by the last error comes after all
      the others. */
  lemma FirstReportOrderAppend(errors: seq<FieldError>, keys: seq<string>)
    requires errors != [] && InFirstReportOrder(errors, keys)
    requires forall i :: 0 <= i < |keys| ==> FirstIndex(errors, keys[i]).value < |errors| - 1
    requires FirstIndex(errors, errors[|errors| - 1].field) == Some(|errors| - 1)
    ensures InFirstReportOrder(errors, keys + [errors[|errors| - 1].field])
  {
    var last := errors[|errors| - 1].field;
    var keys' := keys + [last];
    forall i | 0 <= i < |keys'| ensures FirstIndex(errors, keys'[i]).Some? {
      if i < |keys| { assert keys'[i] == keys[i]; } else { assert keys'[i] == last; }
    }
    forall i, j | 0 <= i < j < |keys'|
      ensures FirstIndex(errors, keys'[i]).value < FirstIndex(errors, keys'[j]).value
    {
      FirstReportOrderAppendPair(errors, keys, i, j);
    }
  }

  /** One pair of keys after the append: old pairs keep their order and the
      new key comes last. */
  lemma FirstReportOrderAppendPair(errors: seq<FieldError>, keys: seq<string>, i: nat, j: nat)
    requires errors != [] && InFirstReportOrder(errors, keys)
    requires forall k :: 0 <= k < |keys| ==> FirstIndex(errors, keys[k]).value < |errors| - 1
    requires FirstIndex(errors, errors[|errors| - 1].field) == Some(|errors| - 1)
    requires i < j <= |keys|
    ensures var keys' := keys + [errors[|errors| - 1].field];
            FirstIndex(errors, keys'[i]).Some? && FirstIndex(errors, keys'[j]).Some?
            && FirstIndex(errors, keys'[i]).value < FirstIndex(errors, keys'[j]).value
  {
    var keys' := keys + [errors[|errors| - 1].field];
    assert keys'[i] == keys[i];
    if j < |keys| {
      assert keys'[j] == keys[j];
    } else {
      assert keys'[j] == errors[|errors| - 1].field;
    }
  }

  lemma {:induction false} PutAllKeyOrder(errors: seq<FieldError>)
    ensures InFirstReportOrder(errors, PutAll(errors).keys)
    decreases |errors|
  {
    if errors != [] {
      var s := errors[..|errors| - 1];
      var last := errors[|errors| - 1];
      var before := PutAll(s).keys;
      PutAllKeyOrder(s);
      FirstReportOrderExtends(errors, before);
      if last.field !in before {
        PutAllKeys(s, last.field);
        FirstIndexOfNewField(errors, last.field);
        forall i | 0 <= i < |before| ensures FirstIndex(errors, before[i]).value < |errors| - 1 {
          FirstIndexOfPrefix(errors, before[i]);
        }
        FirstReportOrderAppend(errors, before);
      }
    }
  }

  /** The loop of `handleValidationExceptions` that fills the field-error map. */
  method CollectFieldErrors(errors: seq<FieldError>) returns (fieldErrors: LinkedMap<string>)
    ensures fieldErrors == PutAll(errors)
  {
    fieldErrors := EmptyMap();
    var i := 0;
    while i < |errors|
      invariant 0 <= i <= |errors|
      invariant fieldErrors == PutAll(errors[..i])
    {
      assert errors[..i + 1][..i] == errors[..i];
      fieldErrors := fieldErrors.Put(errors[i].field, errors[i].defaultMessage);
      i := i + 1;
    }
    assert errors[..|errors|] == errors;
  }

  datatype BodyValue = Text(text: string) | Fields(fields: LinkedMap<string>)

  /** A `LinkedHashMap` body keeps its key order; a `HashMap` body promises none. */
  datatype Body = Ordered(entries: LinkedMap<BodyValue>) | Unordered(pairs: map<string, string>)

  datatype Response = Response(status: nat, body: Body)

  const BAD_REQUEST: nat := 400
  const NOT_FOUND: nat := 404
  const CONFLICT: nat := 409

  /** `handleValidationExceptions`: status 400 and a body whose keys are
      "error" and then "fieldErrors". */
  method HandleValidationExceptions(errors: seq<FieldError>) returns (response: Response)
    ensures response.status == BAD_REQUEST
    ensures response.body.Ordered? && response.body.entries.Valid()
    ensures response.body.entries.keys == ["error", "fieldErrors"]
    ensures response.body.entries.Get("error") == Some(Text("Bad Request"))
    ensures response.body.entries.Get("fieldErrors") == Some(Fields(PutAll(errors)))
  {
    var errorResponse: LinkedMap<BodyValue> := EmptyMap();
    errorResponse := errorResponse.Put("error", Text("Bad Request"));
    var fieldErrors := CollectFieldErrors(errors);
    errorResponse := errorResponse.Put("fieldErrors", Fields(fieldErrors));
    response := Response(BAD_REQUEST, Ordered(errorResponse));
  }

  /** `handleNotFoundException`: status 404, "Not Found" and the exception's message. */
  function HandleNotFoundException(ex: ServiceError): (response: Response)
    requires ex.NotFoundException?
    ensures response.status == NOT_FOUND && response.body.Unordered?
    ensures response.body.pairs.Keys == {"error", "message"}
    ensures response.body.pairs["error"] == "Not Found" && response.body.pairs["message"] == ex.message
  {
    Response(NOT_FOUND, Unordered(map["error" := "Not Found", "message" := ex.Message()]))
  }

  /** `handleEmailAlreadyExistsException`: status 409, "Conflict" and "Email already exists". */
  function HandleEmailAlreadyExistsException(ex: ServiceError): (response: Response)
    requires ex.EmailAlreadyExistsException?
    ensures response.status == CONFLICT && response.body.Unordered?
    ensures response.body.pairs.Keys == {"error", "message"}
    ensures response.body.pairs["error"] == "Conflict" && response.body.pairs["message"] == "Email already exists"
  {
    Response(CONFLICT, Unordered(map["error" := "Conflict", "message" := ex.Message()]))
  }

  /** The handler chosen by the exception's type. */
  function HandleServiceError(ex: ServiceError): (response: Response)
    ensures response.status == NOT_FOUND <==> ex.NotFoundException?
    ensures response.status == CONFLICT <==> ex.EmailAlreadyExistsException?
    ensures response.body.Unordered? && response.body.pairs.Keys == {"error", "message"}
    ensures response.body.pairs["message"] == ex.Message()
  {
    match ex
    case NotFoundException(_) => HandleNotFoundException(ex)
    case EmailAlreadyExistsException => HandleEmailAlreadyExistsException(ex)
  }
}

/** The request-body validator for beer records (`validateBeerData`): a key
    count check, then, key by key in schema order, a presence check and a
    type check; the first failure is reported. */
module Validation {

  /** A JSON/JavaScript value as far as the validator can tell values apart:
      by `typeof` and by truthiness. Object and array contents never matter. */
  datatype JsValue =
    | JsString(s: string)
    | JsNumber(n: real)
    | JsBool(b: bool)
    | JsNull
    | JsUndefined
    | JsObject
    | JsArray

  /** JavaScript `typeof` (`null` and arrays are objects). */
  function TypeOf(v: JsValue): (r: string)
    ensures r in {"string", "number", "boolean", "undefined", "object"}
    ensures r == "object" <==> v in {JsNull, JsObject, JsArray}
  {
    match v
    case JsString(_) => "string"
    case JsNumber(_) => "number"
    case JsBool(_) => "boolean"
    case JsUndefined => "undefined"
    case _ => "object"
  }

  /** JavaScript truthiness: `""`, `0`, `false`, `null` and `undefined` are
      falsy (NaN is not modelled). */
  predicate Truthy(v: JsValue)
    ensures Truthy(v) <==> v !in {JsString(""), JsNumber(0.0), JsBool(false), JsNull, JsUndefined}
  {
    match v
    case JsString(s) => |s| > 0
    case JsNumber(n) => n != 0.0
    case JsBool(b) => b
    case JsNull => false
    case JsUndefined => false
    case _ => true
  }

  /** How a key is judged present. The middleware uses truthiness; the
      evidently intended rule only rejects `undefined` and `null`. */
  datatype PresenceRule = Truthiness | NotNullish

  predicate Present(rule: PresenceRule, v: JsValue)
  {
    match rule
    case Truthiness => Truthy(v)
    case NotNullish => !(v.JsUndefined? || v.JsNull?)
  }

  /** A parsed request body: its own keys and their values. */
  type Body = map<string, JsValue>

  /** `body[key]`: a missing key reads as `undefined`. */
  function Get(body: Body, key: string): JsValue
  {
    if key in body then body[key] else JsUndefined
  }

  /** `IBeerSchema`: the expected keys, in declaration order, with their types. */
  const BeerSchema: seq<(string, string)> :=
    [("beerStyle", "string"), ("minTemp", "number"), ("maxTemp", "number")]

  const SchemaKeys: set<string> := {"beerStyle", "minTemp", "maxTemp"}

  /** What the middleware does: call `next`, or answer with a status and an
      error message. */
  datatype Verdict = Next | Reject(status: int, error: string)

  const KeyCountMessage: string := "Quantidade de chaves inválida"

  function MissingKeyMessage(key: string): string
  {
    "Chave não encontrada: " + key
  }

  function WrongTypeMessage(key: string): string
  {
    "Tipo inválido da chave: " + key
  }

  /** The schema entry at `i` passes both of its checks. */
  predicate KeyPasses(rule: PresenceRule, body: Body, i: nat)
    requires i < |BeerSchema|
  {
    var v := Get(body, BeerSchema[i].0);
    Present(rule, v) && TypeOf(v) == BeerSchema[i].1
  }

  /** The message for a failing schema entry: presence is checked first. */
  function FailureMessage(rule: PresenceRule, body: Body, i: nat): string
    requires i < |BeerSchema|
  {
    var key := BeerSchema[i].0;
    if !Present(rule, Get(body, key)) then MissingKeyMessage(key) else WrongTypeMessage(key)
  }

  /** Entry `j` is the first failing entry at or after `i`. */
  predicate FirstFailingFrom(rule: PresenceRule, body: Body, i: nat, j: nat)
  {
    && i <= j < |BeerSchema|
    && !KeyPasses(rule, body, j)
    && forall m :: i <= m < j ==> KeyPasses(rule, body, m)
  }

  /** The loop over the schema from entry `i` on: `next` exactly when every
      remaining entry passes, otherwise a 400 naming the first failure. */
  function CheckKeysFrom(rule: PresenceRule, body: Body, i: nat): (r: Verdict)
    requires i <= |BeerSchema|
    ensures r == Next <==> forall m :: i <= m < |BeerSchema| ==> KeyPasses(rule, body, m)
    ensures forall j :: FirstFailingFrom(rule, body, i, j) ==> r == Reject(400, FailureMessage(rule, body, j))
    decreases |BeerSchema| - i
  {
    if i == |BeerSchema| then Next
    else
      var (key, expected) := BeerSchema[i];
      var v := Get(body, key);
      assert KeyPasses(rule, body, i) <==> Present(rule, v) && TypeOf(v) == expected;
      assert !KeyPasses(rule, body, i) ==> forall j :: FirstFailingFrom(rule, body, i, j) ==> j == i;
      if !Present(rule, v) then Reject(400, MissingKeyMessage(key))
      else if TypeOf(v) != expected then Reject(400, WrongTypeMessage(key))
      else CheckKeysFrom(rule, body, i + 1)
  }

  /** `validateBeerData`: a body without exactly as many keys as the schema is
      rejected before anything else; otherwise the first failing entry in
      schema order is reported; `next` is called only when all pass. */
  function ValidateBeerData(body: Body): (r: Verdict)
    ensures |body| != |BeerSchema| ==> r == Reject(400, KeyCountMessage)
    ensures r == Next <==> |body| == |BeerSchema| && forall m :: 0 <= m < |BeerSchema| ==> KeyPasses(Truthiness, body, m)
    ensures forall j :: |body| == |BeerSchema| && FirstFailingFrom(Truthiness, body, 0, j) ==> r == Reject(400, FailureMessage(Truthiness, body, j))
    ensures r.Reject? ==> r.status == 400
  {
    if |body| != |BeerSchema| then Reject(400, KeyCountMessage)
    else CheckKeysFrom(Truthiness, body, 0)
  }

  /** The validator as evidently intended: the same checks in the same order,
      but a key is missing only when it is absent, `undefined` or `null`. */
  function ValidateBeerDataIntended(body: Body): (r: Verdict)
    ensures |body| != |BeerSchema| ==> r == Reject(400, KeyCountMessage)
    ensures r == Next <==> |body| == |BeerSchema| && forall m :: 0 <= m < |BeerSchema| ==> KeyPasses(NotNullish, body, m)
    ensures forall j :: |body| == |BeerSchema| && FirstFailingFrom(NotNullish, body, 0, j) ==> r == Reject(400, FailureMessage(NotNullish, body, j))
    ensures r.Reject? ==> r.status == 400
  {
    if |body| != |BeerSchema| then Reject(400, KeyCountMessage)
    else CheckKeysFrom(NotNullish, body, 0)
  }

  /** Every rejection carries one of the three messages, naming a schema key. */
  lemma RejectionMessages(body: Body)
    ensures ValidateBeerData(body).Reject? ==>
      || ValidateBeerData(body).error == KeyCountMessage
      || exists i :: 0 <= i < |BeerSchema| && ValidateBeerData(body).error == FailureMessage(Truthiness, body, i)
  {
    if |body| == |BeerSchema| && ValidateBeerData(body).Reject? {
      var j: nat := if !KeyPasses(Truthiness, body, 0) then 0 else if !KeyPasses(Truthiness, body, 1) then 1 else 2;
      assert FirstFailingFrom(Truthiness, body, 0, j);
    }
  }

  /** Independent description of an accepted body: exactly the schema's keys,
      a non-empty string style and non-zero numeric temperatures. */
  ghost predicate Conforms(body: Body)
  {
    && body.Keys == SchemaKeys
    && body["beerStyle"].JsString? && |body["beerStyle"].s| > 0
    && body["minTemp"].JsNumber? && body["minTemp"].n != 0.0
    && body["maxTemp"].JsNumber? && body["maxTemp"].n != 0.0
  }

  lemma SchemaKeysSize()
    ensures |SchemaKeys| == 3
  {
  }

  /** A subset as large as a finite set is the set. */
  lemma SubsetOfSameSize<T>(a: set<T>, b: set<T>)
    requires a <= b && |a| == |b|
    ensures a == b
  {
    assert |b - a| == |b| - |a|;
  }

  /** `next` is called exactly for the bodies that conform: the key count
      check and the three presence checks together pin the key set down. */
  lemma ValidateBeerDataAcceptsExactlyConforming(body: Body)
    ensures ValidateBeerData(body) == Next <==> Conforms(body)
  {
    SchemaKeysSize();
    if ValidateBeerData(body) == Next {
      assert KeyPasses(Truthiness, body, 0) && KeyPasses(Truthiness, body, 1) && KeyPasses(Truthiness, body, 2);
      assert SchemaKeys <= body.Keys;
      SubsetOfSameSize(SchemaKeys, body.Keys);
    }
    if Conforms(body) {
      assert |body| == |body.Keys|;
      assert KeyPasses(Truthiness, body, 0) && KeyPasses(Truthiness, body, 1) && KeyPasses(Truthiness, body, 2);
    }
  }

  /** What the intended validator accepts: exactly the schema's keys, a
      string style and numeric temperatures, zero and empty included. */
  ghost predicate ConformsIntended(body: Body)
  {
    && body.Keys == SchemaKeys
    && body["beerStyle"].JsString?
    && body["minTemp"].JsNumber?
    && body["maxTemp"].JsNumber?
  }

  lemma ValidateBeerDataIntendedAcceptsExactlyConforming(body: Body)
    ensures ValidateBeerDataIntended(body) == Next <==> ConformsIntended(body)
  {
    SchemaKeysSize();
    if ValidateBeerDataIntended(body) == Next {
      assert KeyPasses(NotNullish, body, 0) && KeyPasses(NotNullish, body, 1) && KeyPasses(NotNullish, body, 2);
      assert SchemaKeys <= body.Keys;
      SubsetOfSameSize(SchemaKeys, body.Keys);
    }
    if ConformsIntended(body) {
      assert |body| == |body.Keys|;
      assert KeyPasses(NotNullish, body, 0) && KeyPasses(NotNullish, body, 1) && KeyPasses(NotNullish, body, 2);
    }
  }

  /** The two validators differ only on falsy values of the right type: on
      every other body they give the same verdict. */
  lemma IntendedAgreesOnTruthyValues(body: Body)
    requires forall k :: k in body ==> body[k] !in {JsNumber(0.0), JsString(""), JsBool(false)}
    ensures ValidateBeerDataIntended(body) == ValidateBeerData(body)
  {
  }

  /** An extra key is not rejected by name: with three keys, a missing schema
      key is reported as missing even though a foreign key is present. */
  lemma ExtraKeyReportsMissingSchemaKey(body: Body, extra: string)
    requires |body| == 3 && extra in body && extra !in SchemaKeys
    requires KeyPasses(Truthiness, body, 0) && KeyPasses(Truthiness, body, 1)
    requires "maxTemp" !in body
    ensures ValidateBeerData(body) == Reject(400, MissingKeyMessage("maxTemp"))
  {
  }

  /** `0` and `""` count as missing, whatever the expected type. */
  lemma FalsyValueIsMissing(body: Body, i: nat)
    requires |body| == 3 && i < |BeerSchema|
    requires forall m :: 0 <= m < i ==> KeyPasses(Truthiness, body, m)
    requires Get(body, BeerSchema[i].0) in {JsNumber(0.0), JsString("")}
    ensures ValidateBeerData(body) == Reject(400, MissingKeyMessage(BeerSchema[i].0))
  {
    assert FirstFailingFrom(Truthiness, body, 0, i);
  }

  /** The accepted body of the middleware's tests. */
  lemma ValidBodyCallsNext()
    ensures ValidateBeerData(map["beerStyle" := JsString("IPA"), "minTemp" := JsNumber(5.0), "maxTemp" := JsNumber(7.0)]) == Next
  {
  }

  /** A body missing `maxTemp` fails the key count. */
  lemma MissingKeyFailsCount()
    ensures ValidateBeerData(map["beerStyle" := JsString("IPA"), "minTemp" := JsNumber(5.0)]) == Reject(400, KeyCountMessage)
  {
  }

  /** A string temperature is reported as a type error on `minTemp`. */
  lemma StringTemperatureIsWrongType()
    ensures ValidateBeerData(map["beerStyle" := JsString("IPA"), "minTemp" := JsString("5"), "maxTemp" := JsNumber(7.0)])
      == Reject(400, WrongTypeMessage("minTemp"))
  {
  }

  /** A fourth key fails the key count. */
  lemma ExtraKeyFailsCount()
    ensures ValidateBeerData(map["beerStyle" := JsString("IPA"), "minTemp" := JsNumber(5.0), "maxTemp" := JsNumber(7.0), "extraKey" := JsString("value")])
      == Reject(400, KeyCountMessage)
  {
  }

  /** The validator rejects a body whose `minTemp` is 0, reporting the key
      as missing, while the intended validator accepts it. */
  lemma ZeroTemperatureRejected()
    ensures ValidateBeerData(map["beerStyle" := JsString("Brown ale"), "minTemp" := JsNumber(0.0), "maxTemp" := JsNumber(6.0)])
      == Reject(400, MissingKeyMessage("minTemp"))
    ensures ValidateBeerDataIntended(map["beerStyle" := JsString("Brown ale"), "minTemp" := JsNumber(0.0), "maxTemp" := JsNumber(6.0)])
      == Next
  {
  }
}

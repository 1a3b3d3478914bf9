/** Reading and validating the form before anything is sent (`app.js` lines 87-96). */
module Input {
  import opened Wrappers
  import opened JsValues

  /** The five form controls as the submit handler reads them. */
  datatype Form = Form(city: string, datetime: string, weather: string, traffic: string, event: bool)

  /** The request payload: the form with the city trimmed. */
  datatype Query = Query(city: string, datetime: string, weather: string, traffic: string, event: bool)

  datatype ValidationError = MissingRequiredField

  const MissingFieldMessage: string := "Please fill all the required fields."

  /**
   * The trimmed city and the (untrimmed) datetime must be non-empty; weather,
   * traffic and the event flag are passed on unchecked.
   */
  function Validate(f: Form): (r: Result<Query, ValidationError>)
    ensures r.Failure? <==> Trim(f.city) == [] || f.datetime == []
    ensures r.Success? ==> r.value.city == Trim(f.city) && r.value.datetime == f.datetime
                           && r.value.weather == f.weather && r.value.traffic == f.traffic
                           && r.value.event == f.event
    ensures r.Success? ==> r.value.city != [] && !IsWhiteSpace(r.value.city[0])
  {
    var city := Trim(f.city);
    if city == [] || f.datetime == [] then Failure(MissingRequiredField)
    else Success(Query(city, f.datetime, f.weather, f.traffic, f.event))
  }

  /**
   * A form is rejected exactly when its city is blank (empty or white space
   * only) or its datetime is empty; a datetime of white space is accepted.
   */
  lemma RejectsExactlyBlank(f: Form)
    ensures Validate(f).Failure? <==> AllWhiteSpace(f.city) || f.datetime == []
  {
    TrimEmptyIff(f.city);
  }
}

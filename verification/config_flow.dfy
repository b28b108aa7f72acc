/** The configuration step (config_flow.py): normalise the postcode the
    user typed, look the address up once, and either create the entry or
    show the form again with an error code. */
module ConfigFlow {
  import opened Results
  import opened Text
  import opened Scraper
  import Sensor

  const TITLE_PREFIX := "RCTBC "
  const ERROR_INVALID_ADDRESS := "invalid_address"
  const ERROR_UNKNOWN := "unknown"
  const ERROR_KEY := "base"

  /** The form's fields, `number` and `postcode`. */
  datatype UserInput = UserInput(number: string, postcode: string)

  /** What `validate_input` raises: `InvalidAddress`, or whatever the
      lookup itself raised. */
  datatype ValidationError = InvalidAddress | Unexpected(cause: Exception)

  /** The two outcomes of the user step. */
  datatype FlowResult =
    | CreateEntry(title: string, data: UserInput)
    | ShowForm(errors: map<string, string>)

  /** `postcode.replace(" ", "").upper()`: spaces dropped, letters
      upper-cased, nothing else changed. */
  function NormalisePostcode(postcode: string): (r: string)
    ensures ' ' !in r
    ensures NoLowerAscii(r)
    ensures |r| == |postcode| - Count(postcode, ' ')
  {
    ToUpper(Remove(postcode, ' '))
  }

  /** The normalised postcode is the upper-cased concatenation of the
      space-separated pieces of the input, in their order. */
  lemma NormaliseKeepsOrder(postcode: string)
    ensures NormalisePostcode(postcode) == ToUpper(Concat(Split(postcode, ' ')))
  {
    RemoveIsConcatOfSplit(postcode, ' ');
  }

  /** Normalising twice is normalising once. */
  lemma NormaliseIdempotent(postcode: string)
    ensures NormalisePostcode(NormalisePostcode(postcode)) == NormalisePostcode(postcode)
  {
    var once := NormalisePostcode(postcode);
    RemoveAbsent(once, ' ');
    ToUpperFixpoint(once);
  }

  /** A postcode is left as it is exactly when it has no space and no
      lower-case letter. */
  lemma NormaliseFixpoint(postcode: string)
    ensures NormalisePostcode(postcode) == postcode <==> ' ' !in postcode && NoLowerAscii(postcode)
  {
    if ' ' !in postcode && NoLowerAscii(postcode) {
      RemoveAbsent(postcode, ' ');
      ToUpperFixpoint(postcode);
    }
  }

  /** A postcode typed as two space-separated halves normalises to the
      upper-cased halves written together. */
  lemma NormaliseTwoHalves(outward: string, inward: string)
    requires ' ' !in outward && ' ' !in inward
    ensures NormalisePostcode(outward + " " + inward) == ToUpper(outward + inward)
  {
    var a := outward + " ";
    RemoveAppend(a, inward, ' ');
    RemoveAppend(outward, " ", ' ');
    RemoveAbsent(outward, ' ');
    RemoveAbsent(inward, ' ');
    assert Remove(" ", ' ') == "";
    assert Remove(a, ' ') == outward;
    assert Remove(a + inward, ' ') == outward + inward;
  }

  /** The example postcode "cf10 1ab" becomes "CF101AB". */
  lemma NormaliseExample()
    ensures NormalisePostcode("cf10 1ab") == "CF101AB"
  {
    var outward, inward := "cf10", "1ab";
    assert "cf10 1ab" == outward + " " + inward && ' ' !in outward && ' ' !in inward;
    NormaliseTwoHalves(outward, inward);
    assert ToUpper(outward + inward) == "CF101AB";
  }

  /** `validate_input`: look the address up with a fresh scraper. An error
      raised by the lookup propagates; an address whose recycling label is
      still "Unknown" is rejected; otherwise the entry title is returned. */
  function ValidateInput(data: UserInput, net: Network, now: int): (r: Result<string, ValidationError>)
    ensures var fetched := Sensor.Fetch(data.number, data.postcode, net, now);
      && (r == Err(InvalidAddress) <==> fetched.Ok? && fetched.value.data.recycling == UNKNOWN)
      && (fetched.Err? <==> r.Err? && r.error.Unexpected?)
      && (fetched.Err? ==> r == Err(Unexpected(fetched.error)))
    ensures r.Ok? <==> Sensor.Resolves(data.number, data.postcode, Sensor.Event(net, now)).Some?
    ensures r.Ok? ==> r.value == TITLE_PREFIX + data.number + " " + data.postcode
  {
    match Sensor.Fetch(data.number, data.postcode, net, now)
    case Err(e) => Err(Unexpected(e))
    case Ok(rctbc) =>
      if rctbc.data.recycling == UNKNOWN then Err(InvalidAddress)
      else Ok(TITLE_PREFIX + data.number + " " + data.postcode)
  }

  /** An address is rejected as invalid when the page answers with
      something other than 200 or has no `<strong>` text at all. */
  lemma RejectsUnansweredAddress(data: UserInput, net: Network, now: int)
    requires var reply := net(Url(data.number, data.postcode));
      reply.Reply? && (reply.status != HTTP_OK || reply.strongs == [])
    ensures ValidateInput(data, net, now) == Err(InvalidAddress)
  {
  }

  /** `async_step_user`. With no input the empty form is shown. Otherwise
      the postcode is normalised first and the rest of the step, the lookup
      and the title, uses the normalised input; an invalid address and any
      other error each show the form again with their own error code and
      create no entry. */
  function StepUser(input: Option<UserInput>, net: Network, now: int): (r: FlowResult)
    ensures input.None? ==> r == ShowForm(map[])
    ensures input.Some? ==>
      var data := input.value.(postcode := NormalisePostcode(input.value.postcode));
      && (r.CreateEntry? <==> ValidateInput(data, net, now).Ok?)
      && (r.CreateEntry? ==> r.data == data && r.title == TITLE_PREFIX + data.number + " " + data.postcode)
      && (ValidateInput(data, net, now) == Err(InvalidAddress) ==> r == ShowForm(map[ERROR_KEY := ERROR_INVALID_ADDRESS]))
      && (ValidateInput(data, net, now).Err? && ValidateInput(data, net, now).error.Unexpected? ==>
            r == ShowForm(map[ERROR_KEY := ERROR_UNKNOWN]))
  {
    match input
    case None => ShowForm(map[])
    case Some(userInput) =>
      var data := userInput.(postcode := NormalisePostcode(userInput.postcode));
      match ValidateInput(data, net, now)
      case Ok(title) => CreateEntry(title, data)
      case Err(InvalidAddress) => ShowForm(map[ERROR_KEY := ERROR_INVALID_ADDRESS])
      case Err(Unexpected(_)) => ShowForm(map[ERROR_KEY := ERROR_UNKNOWN])
  }

  /** A created entry holds a postcode that is already normalised, so
      running the step again on the stored data stores the same data. */
  lemma EntryIsNormalised(input: UserInput, net: Network, now: int)
    ensures var r := StepUser(Some(input), net, now);
      r.CreateEntry? ==>
        && ' ' !in r.data.postcode && NoLowerAscii(r.data.postcode)
        && (StepUser(Some(r.data), net, now).CreateEntry? ==> StepUser(Some(r.data), net, now).data == r.data)
  {
    NormaliseIdempotent(input.postcode);
  }

  /** An address the flow accepts resolves on the sensor's first refresh
      when the page is unchanged: the holder set up from the entry then
      holds the reading, with the entry's address. */
  lemma AcceptedEntryResolves(input: UserInput, net: Network, now: int)
    ensures var r := StepUser(Some(input), net, now);
      r.CreateEntry? ==>
        var h := Sensor.UpdateData(Sensor.NewData(r.data.number, r.data.postcode), net, now);
        && h.Ok?
        && h.value.binData.recycling != UNKNOWN
        && h.value.binData.number == r.data.number && h.value.binData.postcode == r.data.postcode
  {
  }
}

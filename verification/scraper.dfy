/** The council web scraper (`Rctbc` in rctbc.py): builds the lookup URL,
    reads the `<strong>` texts of the reply and turns them into a reading
    of the next bin collection. The HTTP client and the HTML parser are not
    modelled: the network is a function from URL to response, and a reply
    carries its status code and the texts of its `<strong>` elements in
    document order. The clock is the parameter `now`, in seconds.

    `ExamplePage` receives its page as a parameter equal to the literal:
    stated on the literal itself, the solver expands the parser on the
    whole page text and runs out of resource. */
module Scraper {
  import opened Results
  import opened Text
  import opened Calendar

  const UNKNOWN := "Unknown"
  const ALL_BINS := "All Bins"
  const RECYCLING := "Recycling"

  const BASE_URL := "https://www.rctcbc.gov.uk/EN/Resident/BinsandRecycling/BinCollectionDays.aspx?PropertyNumber="
  const POSTCODE_PARAM := "&Postcode="
  const HTTP_OK := 200
  /** Seven days, in seconds. */
  const WEEK := 604800

  /** The scraper's `data` dictionary: keys `recycling`, `waste`, `calcol`,
      `wasteDate` and `nextCollection`. */
  datatype Reading = Reading(
    recycling: string,
    waste: string,
    calcol: string,
    wasteDate: string,
    nextCollection: string)

  /** One `Rctbc` object: the address it looks up and its last reading. */
  datatype Rctbc = Rctbc(number: string, postcode: string, data: Reading)

  /** What `session.get(url)` gives: a transport failure (the call raises),
      or a reply with its status code and `<strong>` texts. */
  datatype Response = TransportFailure | Reply(status: int, strongs: seq<string>)

  type Network = string -> Response

  /** The Python exceptions `update` can raise. */
  datatype Exception =
    | RequestError  // raised by the HTTP client
    | IndexError    // a missing `<strong>` element or a missing date token
    | ValueError    // a date token `strptime` rejects

  const UnknownReading := Reading(UNKNOWN, UNKNOWN, UNKNOWN, UNKNOWN, UNKNOWN)

  /** `Rctbc(number, postcode)`: every field of the reading is "Unknown". */
  function Init(number: string, postcode: string): (r: Rctbc)
    ensures r.number == number && r.postcode == postcode
    ensures r.data.recycling == UNKNOWN && r.data.waste == UNKNOWN && r.data.calcol == UNKNOWN
    ensures r.data.wasteDate == UNKNOWN && r.data.nextCollection == UNKNOWN
  {
    Rctbc(number, postcode, UnknownReading)
  }

  /** The lookup URL: number and postcode are pasted in verbatim, without
      any escaping, after the fixed base and the postcode parameter. */
  function Url(number: string, postcode: string): (r: string)
    ensures |r| == |BASE_URL| + |number| + |POSTCODE_PARAM| + |postcode|
    ensures r[..|BASE_URL|] == BASE_URL
    ensures r[|BASE_URL|..|BASE_URL| + |number|] == number
    ensures r[|BASE_URL| + |number|..|BASE_URL| + |number| + |POSTCODE_PARAM|] == POSTCODE_PARAM
    ensures r[|r| - |postcode|..] == postcode
  {
    BASE_URL + number + POSTCODE_PARAM + postcode
  }

  /** The property number read back from a lookup URL: the text after the
      base up to the first `&`. */
  function NumberOf(url: string): string
    requires |url| >= |BASE_URL|
  {
    Split(url[|BASE_URL|..], '&')[0]
  }

  /** The postcode read back from a lookup URL: everything after the
      postcode parameter that follows the number. */
  function PostcodeOf(url: string): string
    requires |url| >= |BASE_URL|
  {
    var i := |BASE_URL| + |NumberOf(url)| + |POSTCODE_PARAM|;
    if i <= |url| then url[i..] else ""
  }

  /** Without an `&` in the number, the address can be read back from the
      URL, so different addresses are looked up at different URLs. */
  lemma UrlRoundTrip(number: string, postcode: string)
    requires '&' !in number
    ensures NumberOf(Url(number, postcode)) == number
    ensures PostcodeOf(Url(number, postcode)) == postcode
  {
    var u := Url(number, postcode);
    assert u[|BASE_URL|..] == number + ['&'] + ("Postcode=" + postcode);
    SplitCons(number, '&', "Postcode=" + postcode);
  }

  lemma UrlInjective(n1: string, p1: string, n2: string, p2: string)
    requires '&' !in n1 && '&' !in n2
    requires Url(n1, p1) == Url(n2, p2)
    ensures n1 == n2 && p1 == p2
  {
    UrlRoundTrip(n1, p1);
    UrlRoundTrip(n2, p2);
  }

  /** Because nothing is escaped, a number that carries its own postcode
      parameter yields the same URL as a different address: the round trip
      above needs its `&`-free number. */
  lemma UrlNotEscaped(number: string, postcode: string, extra: string)
    ensures Url(number + POSTCODE_PARAM + postcode, extra) == Url(number, postcode + POSTCODE_PARAM + extra)
  {
    var head := BASE_URL + number + POSTCODE_PARAM;
    assert BASE_URL + (number + POSTCODE_PARAM + postcode) == head + postcode;
    assert head + postcode + POSTCODE_PARAM + extra == head + (postcode + POSTCODE_PARAM + extra);
  }

  /** Which collection is next: "All Bins" exactly when `now` lies strictly
      inside the seven days that end at the waste collection instant,
      "Recycling" otherwise, including at both ends of that week. */
  function Classify(wasteInstant: int, now: int): (r: string)
    ensures r == ALL_BINS || r == RECYCLING
    ensures r == ALL_BINS <==> wasteInstant - WEEK < now < wasteInstant
    ensures now == wasteInstant - WEEK ==> r == RECYCLING
    ensures now == wasteInstant ==> r == RECYCLING
  {
    var startTime := wasteInstant - WEEK;
    var endTime := wasteInstant;
    if now > startTime && now < endTime then ALL_BINS else RECYCLING
  }

  /** In calendar terms: on the waste date `waste`, at `secs` seconds after
      midnight of day `today`, the next collection is "All Bins" on each of
      the six days before the waste date, and on the seventh day before it
      except at its very midnight. */
  lemma ClassifyByDay(waste: Date, today: Date, secs: int)
    requires Valid(waste) && Valid(today)
    requires 0 <= secs < SECONDS_PER_DAY
    ensures Classify(Timestamp(waste), Timestamp(today) + secs) == ALL_BINS <==>
      (Ordinal(waste) - 7 < Ordinal(today) < Ordinal(waste)) ||
      (Ordinal(today) == Ordinal(waste) - 7 && secs > 0)
  {
    var w, t := Ordinal(waste), Ordinal(today);
    assert Timestamp(waste) - WEEK == (w - 7 - EPOCH_ORDINAL) * SECONDS_PER_DAY;
    if t < w - 7 {
      assert (t - EPOCH_ORDINAL) * SECONDS_PER_DAY + SECONDS_PER_DAY <= (w - 7 - EPOCH_ORDINAL) * SECONDS_PER_DAY;
    }
    if t >= w {
      assert (t - EPOCH_ORDINAL) * SECONDS_PER_DAY >= (w - EPOCH_ORDINAL) * SECONDS_PER_DAY;
    }
  }

  /** The day before the waste collection is always in the "All Bins" week;
      the collection day itself is not. */
  lemma ClassifyDayBefore(eve: Date, secs: int)
    requires Valid(eve) && (eve.year < MAX_YEAR || eve.month < 12 || eve.day < 31)
    requires 0 <= secs < SECONDS_PER_DAY
    ensures Classify(Timestamp(NextDay(eve)), Timestamp(eve) + secs) == ALL_BINS
    ensures Classify(Timestamp(NextDay(eve)), Timestamp(NextDay(eve))) == RECYCLING
  {
    NextDayOrdinal(eve);
    ClassifyByDay(NextDay(eve), eve, secs);
  }

  /** The scraping step of `update` once the reply is a non-empty list of
      `<strong>` texts: element 0 is the recycling day, element 1 the waste
      type and the waste date separated by a space, element 2 the calendar
      colour. The errors are those Python raises, in the order it meets
      them; no field is produced unless every step succeeds. */
  function Parse(texts: seq<string>, now: int): (r: Result<Reading, Exception>)
    ensures |texts| < 2 ==> r == Err(IndexError)
    ensures |texts| >= 2 && ' ' !in texts[1] ==> r == Err(IndexError)
    ensures |texts| >= 2 && ' ' in texts[1] && ParseDate(Split(texts[1], ' ')[1]).None? ==> r == Err(ValueError)
    ensures |texts| == 2 ==> r.Err?
    ensures |texts| == 2 && ' ' in texts[1] && ParseDate(Split(texts[1], ' ')[1]).Some? ==> r == Err(IndexError)
    ensures r.Ok? ==> |texts| >= 3 && ' ' in texts[1]
    ensures r.Ok? ==> r.value.recycling == texts[0] && r.value.calcol == Capitalize(texts[2])
    ensures r.Ok? ==> ' ' !in r.value.waste && ' ' !in r.value.wasteDate
    ensures r.Ok? ==> (ParseDate(r.value.wasteDate).Some? &&
      r.value.nextCollection == Classify(Timestamp(ParseDate(r.value.wasteDate).value), now))
    ensures r.Ok? ==> r.value.nextCollection == ALL_BINS || r.value.nextCollection == RECYCLING
  {
    if |texts| < 2 then Err(IndexError)
    else
      var tokens := Split(texts[1], ' ');
      if |tokens| < 2 then Err(IndexError)
      else
        match ParseDate(tokens[1])
        case None => Err(ValueError)
        case Some(d) =>
          if |texts| < 3 then Err(IndexError)
          else
            Ok(Reading(texts[0], tokens[0], Capitalize(texts[2]), tokens[1], Classify(Timestamp(d), now)))
  }

  /** Where the waste type and the date token come from: the second text
      starts with the waste type, one space and the date token, and
      whatever follows them (if anything) starts with another space. */
  lemma ParseReadsFirstTwoTokens(texts: seq<string>, now: int)
    requires Parse(texts, now).Ok?
    ensures var r := Parse(texts, now).value;
      var k := |r.waste| + 1 + |r.wasteDate|;
      && k <= |texts[1]|
      && texts[1][..k] == r.waste + " " + r.wasteDate
      && (k < |texts[1]| ==> texts[1][k] == ' ')
  {
    SplitFirstTwo(texts[1], ' ');
  }

  /** A page written from a reading is read back as that reading: the
      recycling day verbatim, the waste type and date token as written,
      the colour capitalised, and the classification of the date. Any
      further text after the date token (separated by a space) and any
      further `<strong>` elements are ignored. */
  lemma ParseAccepts(texts: seq<string>, waste: string, token: string, tail: string, now: int)
    requires |texts| >= 3
    requires texts[1] == waste + " " + token + tail
    requires ' ' !in waste && ' ' !in token
    requires tail == [] || tail[0] == ' '
    requires ParseDate(token).Some?
    ensures Parse(texts, now) ==
      Ok(Reading(texts[0], waste, Capitalize(texts[2]), token,
                 Classify(Timestamp(ParseDate(token).value), now)))
  {
    SplitFirstTwoOf(texts[1], waste, token, tail, ' ');
  }

  /** The date token of the example page is 12 June 2023. */
  lemma ExampleDate()
    ensures ParseDate("12/06/2023") == Some(Date(2023, 6, 12))
  {
    var day, month, year := "12", "06", "2023";
    assert year[..3][..2] == year[..2] && year[..2][..1] == year[..1] && year[..1][..0] == "";
    assert DigitsValue(year[..1]) == 2;
    assert DigitsValue(year[..2]) == 20;
    assert DigitsValue(year[..3]) == 202;
    assert Spells(day, 12, 2) && Spells(month, 6, 2) && Spells(year, 2023, 4);
    assert "12/06/2023" == day + "/" + month + "/" + year;
    ParseSpelled(day, month, year, Date(2023, 6, 12));
  }

  /** The example page, read at any instant. */
  lemma ExamplePage(texts: seq<string>, now: int)
    requires texts == ["Monday", "General 12/06/2023", "green"]
    ensures Parse(texts, now) ==
      Ok(Reading("Monday", "General", "Green", "12/06/2023", Classify(Timestamp(Date(2023, 6, 12)), now)))
  {
    var waste, token := "General", "12/06/2023";
    assert texts[1] == waste + " " + token + "" && ' ' !in waste && ' ' !in token;
    assert Capitalize(texts[2]) == "Green";
    ExampleDate();
    ParseAccepts(texts, waste, token, "", now);
  }

  /** An example page: the texts "Monday", "General 12/06/2023" and
      "green", read at any time on 10 June 2023, mean both bins go out next. */
  lemma ParseExample(now: int)
    requires Timestamp(Date(2023, 6, 10)) <= now < Timestamp(Date(2023, 6, 10)) + SECONDS_PER_DAY
    ensures Parse(["Monday", "General 12/06/2023", "green"], now) ==
      Ok(Reading("Monday", "General", "Green", "12/06/2023", ALL_BINS))
  {
    ExamplePage(["Monday", "General 12/06/2023", "green"], now);
    ExampleWeek(now - Timestamp(Date(2023, 6, 10)));
  }

  /** 10 June 2023 is two days before 12 June 2023. */
  lemma ExampleWeek(secs: int)
    requires 0 <= secs < SECONDS_PER_DAY
    ensures Classify(Timestamp(Date(2023, 6, 12)), Timestamp(Date(2023, 6, 10)) + secs) == ALL_BINS
  {
    var d, today := Date(2023, 6, 12), Date(2023, 6, 10);
    assert Ordinal(d) == Ordinal(today) + 2;
    ClassifyByDay(d, today, secs);
  }

  /** `Rctbc.update`: fetch the page for this address and, when it yields a
      reading, replace the whole reading at once. A non-200 status or an
      empty list of `<strong>` texts returns with the reading untouched; any
      raised error leaves the object as it was. */
  function Update(s: Rctbc, net: Network, now: int): (r: Result<Rctbc, Exception>)
    ensures net(Url(s.number, s.postcode)).TransportFailure? ==> r == Err(RequestError)
    ensures net(Url(s.number, s.postcode)).Reply? && net(Url(s.number, s.postcode)).status != HTTP_OK ==> r == Ok(s)
    ensures net(Url(s.number, s.postcode)) == Reply(HTTP_OK, []) ==> r == Ok(s)
    ensures r.Ok? ==> r.value.number == s.number && r.value.postcode == s.postcode
    ensures r.Ok? ==> (r.value.data == s.data ||
      (var reply := net(Url(s.number, s.postcode));
       reply.Reply? && reply.status == HTTP_OK && Parse(reply.strongs, now) == Ok(r.value.data)))
    ensures r.Err? ==> (net(Url(s.number, s.postcode)).TransportFailure? ||
      (var reply := net(Url(s.number, s.postcode));
       reply.Reply? && reply.status == HTTP_OK && |reply.strongs| > 0 && Parse(reply.strongs, now) == Err(r.error)))
    ensures var reply := net(Url(s.number, s.postcode));
      reply.Reply? && reply.status == HTTP_OK && |reply.strongs| > 0 ==>
        && (Parse(reply.strongs, now).Ok? ==> r == Ok(s.(data := Parse(reply.strongs, now).value)))
        && (Parse(reply.strongs, now).Err? ==> r == Err(Parse(reply.strongs, now).error))
  {
    match net(Url(s.number, s.postcode))
    case TransportFailure => Err(RequestError)
    case Reply(status, strongs) =>
      if status != HTTP_OK || |strongs| == 0 then Ok(s)
      else
        match Parse(strongs, now)
        case Err(e) => Err(e)
        case Ok(reading) => Ok(s.(data := reading))
  }

  /** All or nothing: after an update the reading is either the previous one
      or a complete new one whose next collection is "All Bins" or
      "Recycling", never empty or "Unknown". */
  lemma UpdateAllOrNothing(s: Rctbc, net: Network, now: int)
    ensures var r := Update(s, net, now);
      r.Ok? ==> (r.value.data == s.data ||
        (r.value.data.nextCollection in {ALL_BINS, RECYCLING} && ParseDate(r.value.data.wasteDate).Some?))
  {
  }
}

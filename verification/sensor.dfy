/** The sensor side of the integration (sensor.py): a data holder that
    keeps the last resolved reading for one address, and the sensor entity
    that copies it into its state and attributes. The host's polling loop
    calls `update` every six hours and logs, then swallows, any error it
    raises; `PollData` models one such call. */
module Sensor {
  import opened Results
  import opened Scraper

  const ATTRIBUTION := "Data provided by Rhondda Cynon Taf Borough Council"
  const NAME_PREFIX := "RCTBC Bin Collection "

  /** The attribute keys the sensor publishes. */
  const ATTR_NUMBER := "House Number"
  const ATTR_POSTCODE := "Post Code"
  const ATTR_RECYCLING := "Weekly Recycling"
  const ATTR_WASTE := "Fortnightly Waste Bin"
  const ATTR_CALCOL := "Calendar Colour"
  const ATTR_WASTE_DATE := "Next Waste Bin Collection"
  const ATTR_NEXT_COLLECTION := "Next Collection"
  const ATTR_ATTRIBUTION := "attribution"

  /** The holder's `bin_data` dictionary: always all eight keys. */
  datatype BinData = BinData(
    number: string,
    postcode: string,
    recycling: string,
    waste: string,
    calcol: string,
    wasteDate: string,
    nextCollection: string,
    attribution: string)

  /** `RctbcBinCollectionData`. `info` is `None` until the first update
      that returns normally sets that attribute. */
  datatype BinCollectionData = BinCollectionData(
    number: string,
    postcode: string,
    binData: BinData,
    info: Option<BinData>)

  /** `RctbcBinCollectionSensor`. `binData` is `None` while the sensor's
      own copy is the empty dictionary it starts with. */
  datatype BinCollectionSensor = BinCollectionSensor(
    number: string,
    postcode: string,
    name: string,
    state: Option<string>,
    binData: Option<BinData>,
    data: BinCollectionData)

  datatype Event = Event(net: Network, now: int)

  /** `_empty_bin_data`: the address and attribution, and "" for every
      field of the reading. */
  function EmptyBinData(number: string, postcode: string): (r: BinData)
    ensures r.number == number && r.postcode == postcode && r.attribution == ATTRIBUTION
    ensures r.recycling == "" && r.waste == "" && r.calcol == ""
    ensures r.wasteDate == "" && r.nextCollection == ""
  {
    BinData(number, postcode, "", "", "", "", "", ATTRIBUTION)
  }

  /** The full record built from a scraper reading for this address: the
      address, the attribution and the reading's five fields, from which
      the reading can be read back unchanged. */
  function FromReading(number: string, postcode: string, reading: Reading): (r: BinData)
    ensures r.number == number && r.postcode == postcode && r.attribution == ATTRIBUTION
    ensures Reading(r.recycling, r.waste, r.calcol, r.wasteDate, r.nextCollection) == reading
  {
    BinData(number, postcode, reading.recycling, reading.waste, reading.calcol,
            reading.wasteDate, reading.nextCollection, ATTRIBUTION)
  }

  /** `RctbcBinCollectionData(number, postcode)` */
  function NewData(number: string, postcode: string): (r: BinCollectionData)
    ensures r.number == number && r.postcode == postcode
    ensures r.binData == EmptyBinData(number, postcode)
    ensures r.info.None?
  {
    BinCollectionData(number, postcode, EmptyBinData(number, postcode), None)
  }

  /** What one lookup of this address gives: a fresh scraper, updated once. */
  function Fetch(number: string, postcode: string, net: Network, now: int): Result<Rctbc, Exception>
  {
    Scraper.Update(Init(number, postcode), net, now)
  }

  /** The reading a lookup resolves to, if it resolves: the scraper returned
      normally with a recycling label other than "Unknown". */
  function Resolves(number: string, postcode: string, e: Event): (r: Option<Reading>)
    ensures r.Some? ==>
      var reply := e.net(Url(number, postcode));
      && reply.Reply? && reply.status == HTTP_OK && |reply.strongs| >= 3
      && Parse(reply.strongs, e.now) == Ok(r.value)
      && r.value.recycling != UNKNOWN
    ensures var reply := e.net(Url(number, postcode));
      reply.Reply? && reply.status == HTTP_OK && Parse(reply.strongs, e.now).Ok?
      && Parse(reply.strongs, e.now).value.recycling != UNKNOWN ==>
        r == Some(Parse(reply.strongs, e.now).value)
  {
    match Fetch(number, postcode, e.net, e.now)
    case Ok(s) => if s.data.recycling != UNKNOWN then Some(s.data) else None
    case Err(_) => None
  }

  /** `RctbcBinCollectionData.update`. An error raised by the scraper
      propagates and leaves the holder as it was. A resolved lookup replaces
      `bin_data` with the new reading for this address; an unresolved one
      keeps the previous `bin_data` and only resets `info`. Either way a
      normal return leaves `info` as the empty record. */
  function UpdateData(h: BinCollectionData, net: Network, now: int): (r: Result<BinCollectionData, Exception>)
    ensures r.Err? <==> Fetch(h.number, h.postcode, net, now).Err?
    ensures Fetch(h.number, h.postcode, net, now).Err? ==> r == Err(Fetch(h.number, h.postcode, net, now).error)
    ensures r.Ok? ==> r.value.number == h.number && r.value.postcode == h.postcode
    ensures r.Ok? ==> r.value.info == Some(EmptyBinData(h.number, h.postcode))
    ensures r.Ok? && Resolves(h.number, h.postcode, Event(net, now)).None? ==> r.value.binData == h.binData
    ensures Resolves(h.number, h.postcode, Event(net, now)).Some? ==>
      r.Ok? && r.value.binData == FromReading(h.number, h.postcode, Resolves(h.number, h.postcode, Event(net, now)).value)
  {
    match Fetch(h.number, h.postcode, net, now)
    case Err(e) => Err(e)
    case Ok(rctbc) =>
      if rctbc.data.recycling != UNKNOWN then
        Ok(h.(binData := FromReading(h.number, h.postcode, rctbc.data),
              info := Some(EmptyBinData(h.number, h.postcode))))
      else
        Ok(h.(info := Some(EmptyBinData(h.number, h.postcode))))
  }

  /** A resolved lookup is a complete reading taken from the council page:
      its next collection is "All Bins" or "Recycling", its waste date parses. */
  lemma ResolvedIsComplete(number: string, postcode: string, e: Event)
    requires Resolves(number, postcode, e).Some?
    ensures var reading := Resolves(number, postcode, e).value;
      && reading.recycling != UNKNOWN
      && (reading.nextCollection == ALL_BINS || reading.nextCollection == RECYCLING)
      && Calendar.ParseDate(reading.wasteDate).Some?
  {
  }

  /** The host's polling: an update that raises is logged and ignored. */
  function PollData(h: BinCollectionData, e: Event): (r: BinCollectionData)
    ensures UpdateData(h, e.net, e.now).Err? ==> r == h
    ensures UpdateData(h, e.net, e.now).Ok? ==> r == UpdateData(h, e.net, e.now).value
    ensures r != h ==> r.info == Some(EmptyBinData(h.number, h.postcode))
    ensures r.number == h.number && r.postcode == h.postcode
    ensures Resolves(h.number, h.postcode, e).None? ==> r.binData == h.binData
    ensures Resolves(h.number, h.postcode, e).Some? ==>
      r.binData == FromReading(h.number, h.postcode, Resolves(h.number, h.postcode, e).value)
  {
    match UpdateData(h, e.net, e.now)
    case Ok(h') => h'
    case Err(_) => h
  }

  function PollDataAll(h: BinCollectionData, events: seq<Event>): BinCollectionData
    decreases |events|
  {
    if |events| == 0 then h else PollDataAll(PollData(h, events[0]), events[1..])
  }

  /** The address and attribution of the holder's record, never changed. */
  predicate Anchored(h: BinCollectionData) {
    h.binData.number == h.number && h.binData.postcode == h.postcode && h.binData.attribution == ATTRIBUTION
  }

  /** Across any sequence of polls the holder keeps its address, and its
      record keeps that address and the attribution. */
  lemma {:induction false} PollKeepsAddress(h: BinCollectionData, events: seq<Event>)
    requires Anchored(h)
    ensures var h' := PollDataAll(h, events);
      h'.number == h.number && h'.postcode == h.postcode && Anchored(h')
    decreases |events|
  {
    if |events| > 0 {
      PollKeepsAddress(PollData(h, events[0]), events[1..]);
    }
  }

  /** Event `i` is the last of `events` whose lookup resolves. */
  predicate LastResolvedAt(number: string, postcode: string, events: seq<Event>, i: int) {
    && 0 <= i < |events|
    && Resolves(number, postcode, events[i]).Some?
    && forall j :: i < j < |events| ==> Resolves(number, postcode, events[j]).None?
  }

  /** Polls none of which resolves leave the record as it was. */
  lemma {:induction false} PollUnresolvedKeeps(h: BinCollectionData, events: seq<Event>)
    requires forall i :: 0 <= i < |events| ==> Resolves(h.number, h.postcode, events[i]).None?
    ensures PollDataAll(h, events).binData == h.binData
    decreases |events|
  {
    if |events| > 0 {
      var h1 := PollData(h, events[0]);
      assert forall j :: 0 <= j < |events| - 1 ==> events[1..][j] == events[j + 1];
      PollUnresolvedKeeps(h1, events[1..]);
    }
  }

  /** After the last resolving poll the record is that poll's reading. */
  lemma {:induction false} PollFromLastResolved(h: BinCollectionData, events: seq<Event>, i: int)
    requires LastResolvedAt(h.number, h.postcode, events, i)
    ensures PollDataAll(h, events).binData == FromReading(h.number, h.postcode, Resolves(h.number, h.postcode, events[i]).value)
    decreases |events|
  {
    var h1 := PollData(h, events[0]);
    assert forall j :: 0 <= j < |events| - 1 ==> events[1..][j] == events[j + 1];
    if i > 0 {
      assert LastResolvedAt(h1.number, h1.postcode, events[1..], i - 1);
      PollFromLastResolved(h1, events[1..], i - 1);
    } else {
      PollUnresolvedKeeps(h1, events[1..]);
    }
  }

  /** The holder is a single slot: after any sequence of polls its record is
      the reading of the last poll that resolved, or the record it started
      with when none did. Failed and unresolved polls leave stale data in
      place. */
  lemma PollKeepsLastResolved(h: BinCollectionData, events: seq<Event>)
    ensures (forall i :: 0 <= i < |events| ==> Resolves(h.number, h.postcode, events[i]).None?) ==>
      PollDataAll(h, events).binData == h.binData
    ensures forall i :: LastResolvedAt(h.number, h.postcode, events, i) ==>
      PollDataAll(h, events).binData == FromReading(h.number, h.postcode, Resolves(h.number, h.postcode, events[i]).value)
  {
    if forall i :: 0 <= i < |events| ==> Resolves(h.number, h.postcode, events[i]).None? {
      PollUnresolvedKeeps(h, events);
    }
    forall i | LastResolvedAt(h.number, h.postcode, events, i)
      ensures PollDataAll(h, events).binData == FromReading(h.number, h.postcode, Resolves(h.number, h.postcode, events[i]).value)
    {
      PollFromLastResolved(h, events, i);
    }
  }

  /** `RctbcBinCollectionSensor(number, postcode, data)`: named after the
      address, with no state and no record yet. */
  function NewSensor(number: string, postcode: string, data: BinCollectionData): (r: BinCollectionSensor)
    ensures |r.name| >= |NAME_PREFIX| && r.name[..|NAME_PREFIX|] == NAME_PREFIX
    ensures r.name[|NAME_PREFIX|..] == number + " " + postcode
    ensures r.state.None? && r.binData.None?
    ensures r.number == number && r.postcode == postcode && r.data == data
  {
    BinCollectionSensor(number, postcode, NAME_PREFIX + number + " " + postcode, None, None, data)
  }

  /** `RctbcBinCollectionSensor.update`: update the holder, copy its record
      and publish that record's next collection as the state. The record is
      never the empty dictionary, so the state is never `None` afterwards. */
  function UpdateSensor(s: BinCollectionSensor, net: Network, now: int): (r: Result<BinCollectionSensor, Exception>)
    ensures UpdateData(s.data, net, now).Err? ==> r == Err(UpdateData(s.data, net, now).error)
    ensures UpdateData(s.data, net, now).Ok? ==>
      && r.Ok?
      && r.value.data == UpdateData(s.data, net, now).value
      && r.value.binData == Some(r.value.data.binData)
      && r.value.state == Some(r.value.data.binData.nextCollection)
    ensures r.Ok? ==> r.value.number == s.number && r.value.postcode == s.postcode && r.value.name == s.name
  {
    match UpdateData(s.data, net, now)
    case Err(e) => Err(e)
    case Ok(d) =>
      var binData := Some(d.binData);
      var state := if binData.Some? then Some(binData.value.nextCollection) else None;
      Ok(s.(data := d, binData := binData, state := state))
  }

  /** `device_state_attributes`: nothing while the sensor's record is
      empty, otherwise the sensor's own address, the record's five reading
      fields and the attribution, under their display keys. */
  function Attributes(s: BinCollectionSensor): (r: Option<map<string, string>>)
    ensures r.None? <==> s.binData.None?
    ensures r.Some? ==>
      && r.value.Keys == {ATTR_NUMBER, ATTR_POSTCODE, ATTR_RECYCLING, ATTR_WASTE, ATTR_CALCOL,
                          ATTR_WASTE_DATE, ATTR_NEXT_COLLECTION, ATTR_ATTRIBUTION}
      && r.value[ATTR_NUMBER] == s.number && r.value[ATTR_POSTCODE] == s.postcode
      && r.value[ATTR_RECYCLING] == s.binData.value.recycling
      && r.value[ATTR_WASTE] == s.binData.value.waste
      && r.value[ATTR_CALCOL] == s.binData.value.calcol
      && r.value[ATTR_WASTE_DATE] == s.binData.value.wasteDate
      && r.value[ATTR_NEXT_COLLECTION] == s.binData.value.nextCollection
      && r.value[ATTR_ATTRIBUTION] == ATTRIBUTION
  {
    match s.binData
    case None => None
    case Some(b) =>
      Some(map[
        ATTR_NUMBER := s.number,
        ATTR_POSTCODE := s.postcode,
        ATTR_RECYCLING := b.recycling,
        ATTR_WASTE := b.waste,
        ATTR_CALCOL := b.calcol,
        ATTR_WASTE_DATE := b.wasteDate,
        ATTR_NEXT_COLLECTION := b.nextCollection,
        ATTR_ATTRIBUTION := ATTRIBUTION])
  }

  /** A sensor built over a holder for the same address, as both setup
      paths build it. */
  predicate SameAddress(s: BinCollectionSensor) {
    s.number == s.data.number && s.postcode == s.data.postcode && Anchored(s.data)
  }

  /** After a sensor over its own address's holder updates normally, its
      state is the holder's next collection and its attributes are exactly
      the holder's record: a resolved lookup shows the new reading, anything
      else shows the record from before. */
  lemma UpdateShowsHolderRecord(s: BinCollectionSensor, net: Network, now: int)
    requires SameAddress(s)
    requires UpdateSensor(s, net, now).Ok?
    ensures var s' := UpdateSensor(s, net, now).value;
      var b := s'.data.binData;
      && SameAddress(s')
      && s'.state == Some(b.nextCollection)
      && Attributes(s') == Some(map[
           ATTR_NUMBER := b.number, ATTR_POSTCODE := b.postcode, ATTR_RECYCLING := b.recycling,
           ATTR_WASTE := b.waste, ATTR_CALCOL := b.calcol, ATTR_WASTE_DATE := b.wasteDate,
           ATTR_NEXT_COLLECTION := b.nextCollection, ATTR_ATTRIBUTION := b.attribution])
      && (Resolves(s.number, s.postcode, Event(net, now)).Some? ==>
            b == FromReading(s.number, s.postcode, Resolves(s.number, s.postcode, Event(net, now)).value))
      && (Resolves(s.number, s.postcode, Event(net, now)).None? ==> b == s.data.binData)
  {
  }
}

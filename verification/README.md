# Rhondda Cynon Taf bin collection — a Dafny model

This project models the core of the Home Assistant integration that reports
the next bin collection for an address in Rhondda Cynon Taf. Three pieces are
modelled:

- the web scraper (`Rctbc` in `rctbc.py`). It builds the council's lookup URL
  from a property number and a postcode. It reads the `<strong>` texts of the
  reply and splits the second text into a waste type and a `DD/MM/YYYY` date.
  It then classifies "now" against the seven days before that date: "All Bins"
  strictly inside that week, "Recycling" otherwise;
- the data holder and the sensor entity (`sensor.py`). The holder is a
  single slot that keeps the last resolved reading. The sensor copies that
  reading into its state and attributes;
- the configuration step (`config_flow.py`). It normalises the postcode,
  looks the address up once, and creates the entry or shows an error code.

Everything is modelled with immutable datatypes and pure functions, in six
modules:

- `Results` holds `Option` and `Result`. A Python call that raises is an
  `Err`, and the object it was called on stays as it was.
- `Text` models the Python string builtins the code uses.
- `Calendar` models `strptime("%d/%m/%Y")`, `toordinal` and `timestamp`.
- `Scraper`, `Sensor` and `ConfigFlow` follow the three source files.

The outside world enters only as parameters. The network is a function
`string -> Response`: a reply is a status code plus the `<strong>` texts in
document order, or a transport failure. The clock is an integer `now`, in
seconds. Every operation is a pure function, so running the same update twice
with the same page and the same `now` gives the same result.

Three behaviours of the code are easy to miss, and the model keeps them:

- A non-empty page can make `update` raise. One `<strong>` text, or a second
  text without a space, raises `IndexError`. A date token `strptime` rejects
  raises `ValueError`. Two texts with an accepted date raise `IndexError`,
  because the colour is read after the date. In each case the reading is left
  untouched.
- An unresolved lookup never resets the holder's record to empty. The holder
  resets only its `info` attribute, which nothing reads. Its `bin_data`, and
  so the sensor, keep the previous reading in every failure case.
- During configuration, any exception other than `InvalidAddress` becomes the
  error code `unknown`. This includes transport failures, `IndexError` and
  `ValueError`.

## Model

| member | source | states |
|---|---|---|
| `Scraper.Init` | homeassistant/components/rctbc_bin_collection/rctbc.py:12-22 | A new scraper keeps its number and postcode, and all five reading fields are "Unknown". |
| `Scraper.Url` | homeassistant/components/rctbc_bin_collection/rctbc.py:26-32 | The URL is the fixed base, then the number verbatim, then `&Postcode=`, then the postcode verbatim, with no escaping. |
| `Scraper.UrlRoundTrip` | homeassistant/components/rctbc_bin_collection/rctbc.py:26-32 | When the number has no `&`, reading the URL back gives the number and the postcode it was built from. |
| `Scraper.UrlInjective` | homeassistant/components/rctbc_bin_collection/rctbc.py:26-32 | Two `&`-free numbers that give the same URL come from the same number and postcode. |
| `Scraper.UrlNotEscaped` | homeassistant/components/rctbc_bin_collection/rctbc.py:26-32 | Because nothing is escaped, a number containing `&Postcode=` gives the same URL as a different address. |
| `Scraper.Classify` | homeassistant/components/rctbc_bin_collection/rctbc.py:44-57 | The result is "All Bins" iff `D - 604800 < now < D`, and "Recycling" otherwise, including at `now = D - 604800` and at `now = D`. |
| `Scraper.ClassifyByDay` | homeassistant/components/rctbc_bin_collection/rctbc.py:46-57 | In calendar days: "All Bins" on each of the six days before the waste date, and on the seventh day before it except at midnight. |
| `Scraper.ClassifyDayBefore` | homeassistant/components/rctbc_bin_collection/rctbc.py:46-57 | On the calendar day before the waste date it is "All Bins" at any time of day. At midnight of the waste date it is "Recycling". |
| `Scraper.Parse` | homeassistant/components/rctbc_bin_collection/rctbc.py:44-65 | Errors come in Python's order: fewer than 2 texts or no space gives `IndexError`; a rejected date gives `ValueError`; exactly 2 texts gives an error, and `IndexError` when the date is accepted. A success keeps text 0 verbatim, capitalises text 2, takes space-free waste and date tokens, and classifies by the parsed date. |
| `Scraper.ParseReadsFirstTwoTokens` | homeassistant/components/rctbc_bin_collection/rctbc.py:59-65 | On success, text 1 starts with the waste type, one space and the date token. Whatever follows starts with a space. |
| `Scraper.ParseAccepts` | homeassistant/components/rctbc_bin_collection/rctbc.py:46-65 | Round trip: a page written as waste type, space and a valid date token (plus anything after another space) parses back to exactly those fields. |
| `Scraper.ParseExample` | homeassistant/components/rctbc_bin_collection/rctbc.py:44-65 | "Monday", "General 12/06/2023", "green", read at any time on 10 June 2023, gives "Monday", "General", "Green", "12/06/2023", "All Bins". |
| `Scraper.Update` | homeassistant/components/rctbc_bin_collection/rctbc.py:24-65 | The only fetch is of this address's URL. A transport failure raises. A non-200 status or an empty text list returns with the reading unchanged. Otherwise, a 200 reply with texts raises exactly the parser's error, or replaces the whole reading with the parser's reading. The address is never altered. |
| `Scraper.UpdateAllOrNothing` | homeassistant/components/rctbc_bin_collection/rctbc.py:59-65 | After an update the reading is either the old one or a complete new one. A new one has a parseable date and a next collection of "All Bins" or "Recycling". |
| `Calendar.Valid` | homeassistant/components/rctbc_bin_collection/rctbc.py:46 | The dates `datetime` accepts have a day from 1 to 31, and 29 February only in a leap year. |
| `Calendar.ParseDate` | homeassistant/components/rctbc_bin_collection/rctbc.py:46 | An accepted token has exactly two `/` and names a date that exists, with a year from 1 to 9999. |
| `Calendar.ParseDateExactly` | homeassistant/components/rctbc_bin_collection/rctbc.py:46 | A token is accepted as date `d` iff `d` exists and the token is its day in one or two digits, `/`, its month in one or two digits, `/`, and its year in four digits. |
| `Calendar.ParseDateSpelled` | homeassistant/components/rctbc_bin_collection/rctbc.py:46 | The three `/`-separated pieces of an accepted token are the day, the month and the year of the date it names, and nothing else is in the token. |
| `Calendar.ParseSpelled` | homeassistant/components/rctbc_bin_collection/rctbc.py:46 | Any such spelling of a valid date, padded or not, parses back to that date. |
| `Calendar.UnpaddedExample` | homeassistant/components/rctbc_bin_collection/rctbc.py:46 | "1/6/2023" is read as 1 June 2023. |
| `Calendar.ParseFormat` | homeassistant/components/rctbc_bin_collection/rctbc.py:46 | Every valid date written as zero-padded `DD/MM/YYYY` parses back to itself. |
| `Calendar.Pad` | homeassistant/components/rctbc_bin_collection/rctbc.py:46 | A zero-padded number has exactly the given width, only digits, and reads back as the number. |
| `Calendar.Ordinal` | homeassistant/components/rctbc_bin_collection/rctbc.py:47-50 | `toordinal`: the days in the years before, plus the summed lengths of the months before, plus the day. It is at least 1. |
| `Calendar.Timestamp` | homeassistant/components/rctbc_bin_collection/rctbc.py:47-50 | `timestamp()` of a parsed date is a midnight: a whole number of days from 1970-01-01, namely the ordinal minus 719163. |
| `Calendar.TimestampOrder` | homeassistant/components/rctbc_bin_collection/rctbc.py:47-54 | Timestamps order dates exactly as the calendar does, distinct dates get distinct timestamps, and the next day is 86400 seconds later. |
| `Calendar.DaysBeforeYearStep` | homeassistant/components/rctbc_bin_collection/rctbc.py:47-50 | The closed-form day count grows by 366 over a leap year and by 365 over any other year. |
| `Calendar.DaysBeforeMonthIsSum` | homeassistant/components/rctbc_bin_collection/rctbc.py:47-50 | The cumulative month table, with its leap-day correction, equals the sum of the month lengths. |
| `Calendar.OrdinalOrder` | homeassistant/components/rctbc_bin_collection/rctbc.py:47-50 | The day number orders valid dates exactly as the calendar does, and no two dates share a day number. |
| `Calendar.NextDayOrdinal` | homeassistant/components/rctbc_bin_collection/rctbc.py:47-50 | The next calendar day, across month and year ends and leap days, is valid and has the next day number. |
| `Calendar.EpochIsDayZero` | homeassistant/components/rctbc_bin_collection/rctbc.py:47-50 | 1970-01-01 is day 719163, so its timestamp is 0. |
| `Text.Split` | homeassistant/components/rctbc_bin_collection/rctbc.py:46 | `split` on one character gives one more piece than there are separators, and no piece contains the separator. |
| `Text.SplitJoin` | homeassistant/components/rctbc_bin_collection/rctbc.py:46 | Joining the pieces of a split with the separator gives back the original string. |
| `Text.JoinSplit` | homeassistant/components/rctbc_bin_collection/rctbc.py:46 | Splitting a join of separator-free pieces gives back the pieces. |
| `Text.SplitFirstTwo` | homeassistant/components/rctbc_bin_collection/rctbc.py:61-63 | Pieces 0 and 1 are the text before the first separator and the text between the first and the second. |
| `Text.SplitFirstTwoOf` | homeassistant/components/rctbc_bin_collection/rctbc.py:61-63 | Converse: `a + sep + b + rest`, with `a` and `b` separator-free and `rest` empty or starting with `sep`, splits into `a` then `b`. |
| `Text.Capitalize` | homeassistant/components/rctbc_bin_collection/rctbc.py:62 | The length is unchanged, the first character is upper-cased and every other character is lower-cased. |
| `Text.Remove` | homeassistant/components/rctbc_bin_collection/config_flow.py:42 | After `replace(c, "")`, `c` no longer occurs, and the length drops by exactly the number of occurrences of `c`. |
| `Text.RemoveIsConcatOfSplit` | homeassistant/components/rctbc_bin_collection/config_flow.py:42 | Deleting a character concatenates, in order, the pieces that splitting at it gives. So nothing else is dropped or reordered. |
| `Text.ToUpper` | homeassistant/components/rctbc_bin_collection/config_flow.py:42 | The length is unchanged, each character is mapped on its own, and no lower-case letter is left. |
| `Sensor.EmptyBinData` | homeassistant/components/rctbc_bin_collection/sensor.py:143-153 | The empty record carries the address and the attribution, with "" in all five reading fields. |
| `Sensor.NewData` | homeassistant/components/rctbc_bin_collection/sensor.py:113-117 | A new holder keeps its address and starts from the empty record. It has no `info` yet. |
| `Sensor.FromReading` | homeassistant/components/rctbc_bin_collection/sensor.py:126-135 | A resolved record holds the holder's number and postcode, the attribution, and the scraper's five fields, from which the reading reads back unchanged. |
| `Sensor.Resolves` | homeassistant/components/rctbc_bin_collection/sensor.py:121-124 | A lookup resolves to a reading only if the page answered 200 with at least three texts, parsed to that reading, and named a recycling day other than "Unknown". Every such page resolves. |
| `Sensor.UpdateData` | homeassistant/components/rctbc_bin_collection/sensor.py:119-141 | The holder raises exactly when the scraper raises, with the same error. A resolved lookup replaces the record with the new reading. An unresolved lookup keeps the old record. Every normal return sets `info` to the empty record and keeps the address. |
| `Sensor.ResolvedIsComplete` | homeassistant/components/rctbc_bin_collection/sensor.py:124-135 | A resolved reading is not "Unknown", its date parses, and its next collection is "All Bins" or "Recycling". |
| `Sensor.PollData` | homeassistant/components/rctbc_bin_collection/sensor.py:119-141 | One host poll: an update that raises leaves the holder as it was. Otherwise the holder becomes the updated holder: a resolving lookup installs its reading, any other keeps the record, and `info` is the empty record. The address never changes. |
| `Sensor.PollKeepsAddress` | homeassistant/components/rctbc_bin_collection/sensor.py:119-153 | Across any sequence of polls, the holder's number, postcode and attribution never change. |
| `Sensor.PollKeepsLastResolved` | homeassistant/components/rctbc_bin_collection/sensor.py:119-141 | After any sequence of polls, the record is the reading of the last poll that resolved. If no poll resolved, it is the starting record. Failures keep stale data. |
| `Sensor.NewSensor` | homeassistant/components/rctbc_bin_collection/sensor.py:61-68 | The sensor is named "RCTBC Bin Collection " followed by the number, a space and the postcode. It starts with no state and no record. |
| `Sensor.UpdateSensor` | homeassistant/components/rctbc_bin_collection/sensor.py:100-107 | A holder error propagates. Otherwise the sensor copies the holder's record, and its state becomes that record's next collection, never `None`. |
| `Sensor.Attributes` | homeassistant/components/rctbc_bin_collection/sensor.py:80-93 | No attributes before the sensor's first update, while its copy of the record is still the falsy `{}`. Afterwards there are exactly eight keys: the sensor's own address, the five reading fields and the attribution. The holder's empty record is a non-empty dict, so it shows "" values. |
| `Sensor.UpdateShowsHolderRecord` | homeassistant/components/rctbc_bin_collection/sensor.py:83-107 | After a normal update, a sensor over its own address's holder shows the holder's record in its state and attributes: the new reading if the lookup resolved, the previous record otherwise. |
| `ConfigFlow.NormalisePostcode` | homeassistant/components/rctbc_bin_collection/config_flow.py:42 | The normalised postcode has no space and no lower-case letter. Exactly the spaces are gone. |
| `ConfigFlow.NormaliseKeepsOrder` | homeassistant/components/rctbc_bin_collection/config_flow.py:42 | The normalised postcode is the space-separated pieces, upper-cased and concatenated in order. |
| `ConfigFlow.NormaliseIdempotent` | homeassistant/components/rctbc_bin_collection/config_flow.py:42 | Normalising twice equals normalising once. |
| `ConfigFlow.NormaliseFixpoint` | homeassistant/components/rctbc_bin_collection/config_flow.py:42 | A postcode is unchanged by normalisation iff it has no space and no lower-case letter. |
| `ConfigFlow.NormaliseTwoHalves` | homeassistant/components/rctbc_bin_collection/config_flow.py:42 | Two space-free halves separated by a space normalise to the upper-cased halves written together. |
| `ConfigFlow.NormaliseExample` | homeassistant/components/rctbc_bin_collection/config_flow.py:42 | "cf10 1ab" normalises to "CF101AB". |
| `ConfigFlow.ValidateInput` | homeassistant/components/rctbc_bin_collection/config_flow.py:16-28 | The address is rejected as invalid iff the lookup returned with recycling still "Unknown". Lookup errors surface as unexpected. An accepted address gets the title "RCTBC number postcode". |
| `ConfigFlow.RejectsUnansweredAddress` | homeassistant/components/rctbc_bin_collection/config_flow.py:22-26 | A non-200 reply, or a page with no `<strong>` text, gets the address rejected as invalid. |
| `ConfigFlow.StepUser` | homeassistant/components/rctbc_bin_collection/config_flow.py:37-54 | No input shows an empty form. An entry is created iff validation of the normalised input succeeds, with that input as data and its title. An invalid address gives "invalid_address", any other error gives "unknown", and neither creates an entry. |
| `ConfigFlow.EntryIsNormalised` | homeassistant/components/rctbc_bin_collection/config_flow.py:42-45 | A created entry's postcode has no space and no lower-case letter. Running the step again on the entry stores the same data. |
| `ConfigFlow.AcceptedEntryResolves` | homeassistant/components/rctbc_bin_collection/config_flow.py:22-28 | For an accepted address, against the same page, the first holder update resolves. Its record carries the entry's number and postcode. |

## Left out

- HTTP (`requests.Session().get`) is not modelled. The network is a function parameter returning a status code and the `<strong>` texts, or a transport failure.
- HTML parsing (BeautifulSoup, `findAll("strong")`, `.text`) is not modelled: the texts arrive already extracted.
- The clock is not modelled: `datetime.now()` is the parameter `now`.
- Calendar.Timestamp: `timestamp()` of a naive date reads it as local midnight. The model reads it as UTC midnight, so time zones, daylight saving and floating point are not modelled.
- Scraper.ClassifyByDay: the window is exactly 604800 seconds in the code as well. But the waste date is local midnight, so in a week with a clock change (Europe/London) the "All Bins" window starts at 23:00 or 01:00 local time, not at midnight as stated.
- Calendar.ParseDate: `%d` also accepts a space followed by a digit, and Python's `\d` accepts non-ASCII digits. The model takes ASCII digits only and no leading space. Tokens come from splitting on spaces, so they never contain one.
- Text.ToUpper, Text.Capitalize: Python maps case over all of Unicode, and some mappings change the length. The model maps ASCII letters only.
- Host glue is not modelled: `async_setup_entry`, `setup_platform`, the voluptuous schemas, the icon, `async_add_executor_job`, form display and logging. The warning at sensor.py:141 is not modelled. The host's catch-and-log of an update that raises is `Sensor.PollData`.
- `rpi_fanshim/__init__.py` and its test hold no logic of this integration.

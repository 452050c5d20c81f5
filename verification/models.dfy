// The records of src/models.ts and its four fixed-column line parsers.
// JavaScript's `Number`, `parseInt` coercions are passed in as functions;
// a column past the end of a split line is `None` (`undefined`).
module Models {
  import opened Common
  import opened Text

  /** A car of the roster with one flag per sponsor sticker. */
  datatype Car = Car(
    number: string,
    driverName: string,
    hasAllStickers: bool,
    s425: bool,
    aaf: bool,
    alpinestars: bool,
    bimmerworld: bool,
    griots: bool,
    proFormance: bool,
    ror: bool,
    redline: bool,
    toyo: bool)

  /** One row of a race results file. */
  datatype RaceResult = RaceResult(
    driverName: string,
    position: int,
    number: Option<string>,
    raceId: int,
    carClass: Option<string>,
    gap: Option<string>)

  /** The three fields of a race result the drawing engine reads: who drove, in which car,
      in which race. */
  datatype Drive = Drive(driverName: string, number: string, raceId: int)

  /** One sponsor line of the prize catalog. The class also declares `races`, which the
      parser never sets, so it is left out here. */
  datatype PrizeDescriptor = PrizeDescriptor(
    sponsorName: string,
    prizeType: Option<string>,
    perRace: int,
    perRaceCount: int,
    weekend: int,
    perWeekendCount: int,
    perWeekend: int)

  /** One prize. `raceId` 0 means "no race" (a weekend prize); `amount` is `None` once the
      Toyo payout table has no entry for it. The datatype constructor stores its five
      arguments unchanged, as the class constructor does. */
  datatype Prize = Prize(
    sponsorName: string,
    prizeType: Option<string>,
    frequency: string,
    amount: Option<int>,
    raceId: int)

  /** One line of the winners history: the event, the race and each sponsor's winner. */
  datatype PrizeWinner = PrizeWinner(
    eventName: string,
    raceId: int,
    s425: Option<string>,
    aaf: Option<string>,
    alpinestars: Option<string>,
    bimmerworld: Option<string>,
    griots: Option<string>,
    proFormance: Option<string>,
    ror: Option<string>,
    redline: Option<string>,
    toyo: Option<string>)

  datatype PrizeWinners = PrizeWinners(lastRace: int, winners: seq<seq<PrizeWinner>>)

  datatype PrizeAward = PrizeAward(prize: Prize, winner: Drive)

  datatype RoundResults = RoundResults(awarded: seq<PrizeAward>, unawarded: seq<Prize>)

  /** `Boolean(values[k])`: the raw column exists and is not the empty string. */
  predicate ColumnFlag(values: seq<string>, k: nat)
  {
    Truthy(Column(values, k))
  }

  /** `parseCarFromLine`. A line without a comma has no column 1, and `values[1].trim()`
      throws; that is `None` here. Flags are read from the untrimmed columns. */
  function ParseCarFromLine(line: string): (r: Option<Car>)
    ensures r.None? <==> ',' !in line
    ensures r.Some? ==>
      var v := Split(line, ',');
      && r.value.number == Trim(v[0])
      && r.value.driverName == Trim(v[1])
      && (r.value.hasAllStickers <==> 2 < |v| && v[2] != "")
      && (r.value.s425 <==> 3 < |v| && v[3] != "")
      && (r.value.aaf <==> 4 < |v| && v[4] != "")
      && (r.value.alpinestars <==> 5 < |v| && v[5] != "")
      && (r.value.bimmerworld <==> 6 < |v| && v[6] != "")
      && (r.value.griots <==> 7 < |v| && v[7] != "")
      && (r.value.proFormance <==> 8 < |v| && v[8] != "")
      && (r.value.ror <==> 9 < |v| && v[9] != "")
      && (r.value.redline <==> 10 < |v| && v[10] != "")
      && (r.value.toyo <==> 11 < |v| && v[11] != "")
  {
    var values := Split(line, ',');
    if |values| < 2 then None
    else Some(Car(
      Trim(values[0]),
      Trim(values[1]),
      ColumnFlag(values, 2),
      ColumnFlag(values, 3),
      ColumnFlag(values, 4),
      ColumnFlag(values, 5),
      ColumnFlag(values, 6),
      ColumnFlag(values, 7),
      ColumnFlag(values, 8),
      ColumnFlag(values, 9),
      ColumnFlag(values, 10),
      ColumnFlag(values, 11)))
  }

  /** The columns of a results line, each stripped of leading and trailing whitespace and
      double quotes. */
  function StrippedColumns(line: string): (cols: seq<string>)
    ensures |cols| == |Split(line, ',')|
    ensures forall k :: 0 <= k < |cols| ==> IsStripped(Split(line, ',')[k], cols[k], IsWhitespaceOrQuote)
  {
    var raw := Split(line, ',');
    seq(|raw|, k requires 0 <= k < |raw| => StripQuotes(raw[k]))
  }

  /** `parseRaceResultFromLine`: column 2 is skipped; `toNumber` is `Number`. */
  function ParseRaceResultFromLine(line: string, raceId: int, toNumber: Option<string> -> int): (r: RaceResult)
    ensures r.raceId == raceId
    ensures var raw := Split(line, ',');
      && IsStripped(raw[0], r.driverName, IsWhitespaceOrQuote)
      && (r.number.Some? <==> 3 < |raw|)
      && (r.number.Some? ==> IsStripped(raw[3], r.number.value, IsWhitespaceOrQuote))
      && (r.carClass.Some? <==> 4 < |raw|)
      && (r.carClass.Some? ==> IsStripped(raw[4], r.carClass.value, IsWhitespaceOrQuote))
      && (r.gap.Some? <==> 5 < |raw|)
      && (r.gap.Some? ==> IsStripped(raw[5], r.gap.value, IsWhitespaceOrQuote))
  {
    var columns := StrippedColumns(line);
    RaceResult(
      columns[0],
      toNumber(Column(columns, 1)),
      Column(columns, 3),
      raceId,
      Column(columns, 4),
      Column(columns, 5))
  }

  /** The columns of a sponsor line, each trimmed. */
  function TrimmedColumns(line: string): (cols: seq<string>)
    ensures |cols| == |Split(line, ',')|
    ensures forall k :: 0 <= k < |cols| ==> cols[k] == Trim(Split(line, ',')[k])
  {
    var raw := Split(line, ',');
    seq(|raw|, k requires 0 <= k < |raw| => Trim(raw[k]))
  }

  /** `parsePrizeDescriptorFromLine`: columns 0, 1, 3, 4, 5, 6 and 7; column 2 is ignored. */
  function ParsePrizeDescriptorFromLine(line: string, toNumber: Option<string> -> int): (r: PrizeDescriptor)
    ensures var c := TrimmedColumns(line);
      && r.sponsorName == c[0]
      && r.prizeType == Column(c, 1)
      && r.perRace == toNumber(Column(c, 3))
      && r.perRaceCount == toNumber(Column(c, 4))
      && r.weekend == toNumber(Column(c, 5))
      && r.perWeekendCount == toNumber(Column(c, 6))
      && r.perWeekend == toNumber(Column(c, 7))
  {
    var columns := TrimmedColumns(line);
    PrizeDescriptor(
      columns[0],
      Column(columns, 1),
      toNumber(Column(columns, 3)),
      toNumber(Column(columns, 4)),
      toNumber(Column(columns, 5)),
      toNumber(Column(columns, 6)),
      toNumber(Column(columns, 7)))
  }

  /** The cleaned columns of a winners line: trimmed, a trailing "(...)" cut off, trimmed again. */
  function CleanedColumns(line: string): (cols: seq<string>)
    ensures |cols| == |Split(line, ',')|
    ensures forall k :: 0 <= k < |cols| ==> cols[k] == CleanWinnerColumn(Split(line, ',')[k])
  {
    var raw := Split(line, ',');
    seq(|raw|, k requires 0 <= k < |raw| => CleanWinnerColumn(raw[k]))
  }

  /** `!values.some(v => v)`: no column holds a non-empty string. */
  predicate AllEmpty(values: seq<string>)
  {
    forall k :: 0 <= k < |values| ==> values[k] == ""
  }

  /** The race number of a winners line: the integer after the first space of column 1
      ("Race 7" gives `toInt("7")`), or the current race number when column 1 is missing
      or empty. */
  function RaceNumberColumn(values: seq<string>, currentRaceNumber: int, toInt: Option<string> -> int): (n: int)
    ensures (1 < |values| && values[1] != "") ==> n == toInt(Column(Split(values[1], ' '), 1))
    ensures (1 >= |values| || values[1] == "") ==> n == currentRaceNumber
  {
    if Truthy(Column(values, 1)) then toInt(Column(Split(values[1], ' '), 1)) else currentRaceNumber
  }

  /** The record a non-empty winners line fills: column 0 is the event, columns 2 to 10 the
      sponsors' winners in the file's order, with Redline in column 8 and RoR in column 9
      (the reverse of the car file, where RoR is column 9 and Redline column 10). */
  function WinnerFromColumns(v: seq<string>, raceId: int): (w: PrizeWinner)
    requires |v| >= 1
    ensures w.eventName == v[0] && w.raceId == raceId
    ensures w.s425 == Column(v, 2) && w.aaf == Column(v, 3) && w.alpinestars == Column(v, 4)
    ensures w.bimmerworld == Column(v, 5) && w.griots == Column(v, 6) && w.proFormance == Column(v, 7)
    ensures w.redline == Column(v, 8) && w.ror == Column(v, 9) && w.toyo == Column(v, 10)
  {
    PrizeWinner(v[0], raceId,
      Column(v, 2), Column(v, 3), Column(v, 4), Column(v, 5), Column(v, 6), Column(v, 7),
      /* ror */ Column(v, 9), /* redline */ Column(v, 8), Column(v, 10))
  }

  /** `parsePrizeWinnerFromLine`: `null` (here `None`) exactly when every cleaned column is
      empty; otherwise the record of the cleaned columns, with the race number taken from
      column 1 or carried over from `currentRaceNumber`. */
  function ParsePrizeWinnerFromLine(line: string, currentRaceNumber: int, toInt: Option<string> -> int): (r: Option<PrizeWinner>)
    ensures r.None? <==> AllEmpty(CleanedColumns(line))
    ensures r.Some? ==> r.value == WinnerFromColumns(CleanedColumns(line), RaceNumberColumn(CleanedColumns(line), currentRaceNumber, toInt))
  {
    var values := CleanedColumns(line);
    if AllEmpty(values) then None
    else Some(WinnerFromColumns(values, RaceNumberColumn(values, currentRaceNumber, toInt)))
  }
}

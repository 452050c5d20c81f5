// The award registry that `main` of src/converter.ts builds from a first-generation winners
// map: every named sponsor winner of a row becomes an `Award`, filed under its event's weekend
// awards or under its race record (both found or appended by `upsertEventRecord` and
// `upsertRaceRecord`), and a final pass sorts the records and counts the awards. The records
// of src/v2models.ts are values; the registry, whose record list is appended to and updated
// in place, is a class, and a record the source hands back by reference is an index here.
module Converter {
  import opened Common
  import opened V1Loader

  /** One sponsor's award to one driver; `value` is the placeholder for the award's value. */
  datatype Award = Award(driverName: string, sponsorName: string, value: string)

  /** The awards of one race of an event, stamped with the date the record was created. */
  datatype RaceRecord = RaceRecord(timestamp: string, raceId: int, awards: seq<Award>)

  /** An event: its race records and the awards given for the whole weekend. */
  datatype EventRecord = EventRecord(name: string, races: seq<RaceRecord>, weekendAwards: seq<Award>)

  // ---------------------------------------------------------------------------
  // the awards of one row

  /** The sponsors' display names, in the order the row's winner columns are read. */
  const SponsorNames: seq<string> := [
    "425 Motorsports", "Advanced Auto Fabrication", "Alpinestars", "Bimmerworld",
    "Griots Garage", "ProFormance Race School", "Redline", "Racers On Rails", "Toyo Tires"]

  /** The row's winner columns, in the same order. */
  function SponsorColumns(w: V1Winner): (cols: seq<Option<string>>)
    ensures |cols| == |SponsorNames|
  {
    [w.s425, w.aaf, w.alpinestars, w.bimmerworld, w.griots, w.proFormance, w.redline, w.ror, w.toyo]
  }

  /** The prize type as a template literal prints it: an absent one reads "undefined". */
  function TypeText(prizeType: Option<string>): string
  {
    if prizeType.Some? then prizeType.value else "undefined"
  }

  /** The value placeholders for prize type text `t`, in the same order. The 425 Motorsports
      placeholder has a double underscore before `value`; the others a single one. */
  function ValueKeys(t: string): (keys: seq<string>)
    ensures |keys| == |SponsorNames|
  {
    [ "__425_" + t + "_award__value__",
      "__AAF_" + t + "_award_value__",
      "__Alpinestars_" + t + "_award_value__",
      "__Bimmerworld_" + t + "_award_value__",
      "__Griots_" + t + "_award_value__",
      "__ProFormance_" + t + "_award_value__",
      "__Redline_" + t + "_award_value__",
      "__RoR_" + t + "_award_value__",
      "__Toyo_" + t + "_award_value__" ]
  }

  /** The sponsor names of a list of awards. */
  function SponsorsOf(awards: seq<Award>): (names: seq<string>)
    ensures |names| == |awards|
    ensures forall k :: 0 <= k < |awards| ==> names[k] == awards[k].sponsorName
  {
    seq(|awards|, k requires 0 <= k < |awards| => awards[k].sponsorName)
  }

  /** The award one winner column gives: none when the column is absent or empty. */
  function ColumnAward(column: Option<string>, sponsorName: string, value: string): seq<Award>
  {
    if Truthy(column) then [Award(column.value, sponsorName, value)] else []
  }

  /** The awards of the first `n` columns: one for each truthy column, carrying the column's
      driver, sponsor and placeholder, in column order. */
  function AwardsOf(cols: seq<Option<string>>, names: seq<string>, keys: seq<string>, n: nat): (awards: seq<Award>)
    requires |cols| == |names| && |keys| == |names| && n <= |names|
    ensures |awards| <= n
  {
    if n == 0 then []
    else AwardsOf(cols, names, keys, n - 1) + ColumnAward(cols[n - 1], names[n - 1], keys[n - 1])
  }

  /** `a` is the award of one of the first `n` columns, and that column is truthy. */
  ghost predicate FromColumn(cols: seq<Option<string>>, names: seq<string>, keys: seq<string>, n: nat, a: Award)
    requires |cols| == |names| && |keys| == |names| && n <= |names|
  {
    exists j :: 0 <= j < n && Truthy(cols[j]) && a == Award(cols[j].value, names[j], keys[j])
  }

  /** Every award of the first `n` columns comes from a truthy column and carries that
      column's driver, sponsor and placeholder. */
  lemma {:induction false} AwardsOfSound(cols: seq<Option<string>>, names: seq<string>, keys: seq<string>, n: nat)
    requires |cols| == |names| && |keys| == |names| && n <= |names|
    ensures forall k :: 0 <= k < |AwardsOf(cols, names, keys, n)| ==> FromColumn(cols, names, keys, n, AwardsOf(cols, names, keys, n)[k])
  {
    if n > 0 {
      AwardsOfSound(cols, names, keys, n - 1);
      var before := AwardsOf(cols, names, keys, n - 1);
      var awards := AwardsOf(cols, names, keys, n);
      forall k | 0 <= k < |awards|
        ensures FromColumn(cols, names, keys, n, awards[k])
      {
        if k < |before| {
          assert awards[k] == before[k];
          assert FromColumn(cols, names, keys, n - 1, before[k]);
        } else {
          assert awards == before + ColumnAward(cols[n - 1], names[n - 1], keys[n - 1]);
          assert Truthy(cols[n - 1]) && awards[k] == Award(cols[n - 1].value, names[n - 1], keys[n - 1]);
        }
      }
    }
  }

  /** Every truthy column among the first `n` gives its award. */
  lemma {:induction false} AwardsOfComplete(cols: seq<Option<string>>, names: seq<string>, keys: seq<string>, n: nat)
    requires |cols| == |names| && |keys| == |names| && n <= |names|
    ensures forall j :: 0 <= j < n && Truthy(cols[j]) ==> Award(cols[j].value, names[j], keys[j]) in AwardsOf(cols, names, keys, n)
  {
    if n > 0 {
      AwardsOfComplete(cols, names, keys, n - 1);
    }
  }

  /** The awards follow the column order, each column at most once. */
  lemma {:induction false} AwardsOfOrdered(cols: seq<Option<string>>, names: seq<string>, keys: seq<string>, n: nat)
    requires |cols| == |names| && |keys| == |names| && n <= |names|
    ensures IsSubsequence(SponsorsOf(AwardsOf(cols, names, keys, n)), names[..n])
  {
    var awards := AwardsOf(cols, names, keys, n);
    if n == 0 {
      assert SponsorsOf(awards) == [];
    } else {
      AwardsOfOrdered(cols, names, keys, n - 1);
      var before := AwardsOf(cols, names, keys, n - 1);
      assert names[..n] == names[..n - 1] + [names[n - 1]];
      if Truthy(cols[n - 1]) {
        assert SponsorsOf(awards) == SponsorsOf(before) + [names[n - 1]];
        SubsequenceSnoc(SponsorsOf(before), names[..n - 1], names[n - 1]);
      } else {
        assert awards == before;
        SubsequenceExtend(SponsorsOf(before), names[..n - 1], names[n - 1]);
      }
    }
  }

  /** The awards of row `w`: those of all its sponsor columns, named by `SponsorNames` and
      valued by the placeholders of its prize type. */
  function AwardsFor(w: V1Winner): seq<Award>
  {
    AwardsOf(SponsorColumns(w), SponsorNames, ValueKeys(TypeText(w.prizeType)), |SponsorNames|)
  }

  /** One `if (winner.X) awards.push(new Award(winner.X, sponsorName, value))` statement. */
  method PushColumnAward(awards: seq<Award>, column: Option<string>, sponsorName: string, value: string) returns (r: seq<Award>)
    ensures r == awards + ColumnAward(column, sponsorName, value)
  {
    r := awards;
    if Truthy(column) {
      r := r + [Award(column.value, sponsorName, value)];
    }
  }

  /** The nine push statements, one per sponsor column. */
  method BuildAwards(w: V1Winner) returns (awards: seq<Award>)
    ensures awards == AwardsFor(w)
  {
    var t := TypeText(w.prizeType);
    ghost var cols := SponsorColumns(w);
    ghost var keys := ValueKeys(t);
    awards := [];
    awards := PushColumnAward(awards, w.s425, "425 Motorsports", "__425_" + t + "_award__value__");
    assert awards == AwardsOf(cols, SponsorNames, keys, 1);
    awards := PushColumnAward(awards, w.aaf, "Advanced Auto Fabrication", "__AAF_" + t + "_award_value__");
    assert awards == AwardsOf(cols, SponsorNames, keys, 2);
    awards := PushColumnAward(awards, w.alpinestars, "Alpinestars", "__Alpinestars_" + t + "_award_value__");
    assert awards == AwardsOf(cols, SponsorNames, keys, 3);
    awards := PushColumnAward(awards, w.bimmerworld, "Bimmerworld", "__Bimmerworld_" + t + "_award_value__");
    assert awards == AwardsOf(cols, SponsorNames, keys, 4);
    awards := PushColumnAward(awards, w.griots, "Griots Garage", "__Griots_" + t + "_award_value__");
    assert awards == AwardsOf(cols, SponsorNames, keys, 5);
    awards := PushColumnAward(awards, w.proFormance, "ProFormance Race School", "__ProFormance_" + t + "_award_value__");
    assert awards == AwardsOf(cols, SponsorNames, keys, 6);
    awards := PushColumnAward(awards, w.redline, "Redline", "__Redline_" + t + "_award_value__");
    assert awards == AwardsOf(cols, SponsorNames, keys, 7);
    awards := PushColumnAward(awards, w.ror, "Racers On Rails", "__RoR_" + t + "_award_value__");
    assert awards == AwardsOf(cols, SponsorNames, keys, 8);
    awards := PushColumnAward(awards, w.toyo, "Toyo Tires", "__Toyo_" + t + "_award_value__");
    assert awards == AwardsOf(cols, SponsorNames, keys, 9);
  }

  // ---------------------------------------------------------------------------
  // upsertEventRecord and upsertRaceRecord

  /** The test `record.name == eventName`. */
  function NameIs(name: string): EventRecord -> bool
  {
    (e: EventRecord) => e.name == name
  }

  /** The test `race.raceId == raceId`. */
  function RaceIs(raceId: int): RaceRecord -> bool
  {
    (r: RaceRecord) => r.raceId == raceId
  }

  /** The index of the first event named `name`. */
  function EventIndex(records: seq<EventRecord>, name: string): Option<nat>
  {
    FirstFrom(records, NameIs(name), 0)
  }

  /** The index of the first race numbered `raceId`. */
  function RaceIndex(races: seq<RaceRecord>, raceId: int): Option<nat>
  {
    FirstFrom(races, RaceIs(raceId), 0)
  }

  /** `upsertEventRecord` on values: the records afterwards and the index of the record returned. */
  function UpsertEvent(records: seq<EventRecord>, name: string): (r: (seq<EventRecord>, nat))
    ensures r.1 < |r.0| && r.0[r.1].name == name
  {
    match EventIndex(records, name)
    case Some(i) => (records, i)
    case None => (records + [EventRecord(name, [], [])], |records|)
  }

  /** When an event has the name, the records are unchanged and the first such event is
      returned; otherwise one empty event with the name is appended and returned. */
  lemma UpsertEventFinds(records: seq<EventRecord>, name: string)
    ensures var r := UpsertEvent(records, name);
      (exists i :: 0 <= i < |records| && records[i].name == name) ==>
        r.0 == records && forall i :: 0 <= i < r.1 ==> records[i].name != name
    ensures var r := UpsertEvent(records, name);
      (forall i :: 0 <= i < |records| ==> records[i].name != name) ==>
        r.0 == records + [EventRecord(name, [], [])] && r.1 == |records|
  {
  }

  /** `upsertRaceRecord` on values: the records afterwards, the index of the event and the index
      of the race returned. */
  function UpsertRace(records: seq<EventRecord>, name: string, raceId: int, now: string): (r: (seq<EventRecord>, nat, nat))
    ensures r.1 < |r.0| && r.2 < |r.0[r.1].races|
  {
    var u := UpsertEvent(records, name);
    var events := u.0;
    var e := u.1;
    var races := events[e].races;
    match RaceIndex(races, raceId)
    case Some(k) => (events, e, k)
    case None => (events[e := events[e].(races := races + [RaceRecord(now, raceId, [])])], e, |races|)
  }

  /** The event is the one `UpsertEvent` gives; within it the first race with the number is
      returned unchanged, or else one race stamped `now` with no awards is appended to that event
      and returned. No other event changes. */
  lemma UpsertRaceFinds(records: seq<EventRecord>, name: string, raceId: int, now: string)
    ensures var u := UpsertEvent(records, name);
      var r := UpsertRace(records, name, raceId, now);
      && r.1 == u.1 && |r.0| == |u.0|
      && (forall i :: 0 <= i < |u.0| && i != u.1 ==> r.0[i] == u.0[i])
      && r.0[r.1].name == name && r.0[r.1].weekendAwards == u.0[u.1].weekendAwards
      && r.0[r.1].races[r.2].raceId == raceId
    ensures var u := UpsertEvent(records, name);
      var r := UpsertRace(records, name, raceId, now);
      var races := u.0[u.1].races;
      (exists k :: 0 <= k < |races| && races[k].raceId == raceId) ==>
        r.0 == u.0 && forall k :: 0 <= k < r.2 ==> races[k].raceId != raceId
    ensures var u := UpsertEvent(records, name);
      var r := UpsertRace(records, name, raceId, now);
      var races := u.0[u.1].races;
      (forall k :: 0 <= k < |races| ==> races[k].raceId != raceId) ==>
        r.0[r.1].races == races + [RaceRecord(now, raceId, [])] && r.2 == |races|
  {
  }

  /** A "Weekend" row's awards go to its event; any other row's to its race record. */
  predicate IsWeekend(w: V1Winner)
  {
    w.prizeType == Some("Weekend")
  }

  /** The records after filing row `w`: its awards appended to the weekend awards of its event,
      or to the awards of the race record for its event and race number, either one found or
      created as the upserts do. */
  function FileRow(records: seq<EventRecord>, w: V1Winner, now: string): (r: seq<EventRecord>)
    ensures |records| <= |r| <= |records| + 1
    ensures forall i :: 0 <= i < |records| ==> r[i].name == records[i].name
    ensures |r| == |records| + 1 ==> r[|records|].name == w.eventName
  {
    if IsWeekend(w) then
      var u := UpsertEvent(records, w.eventName);
      var event := u.0[u.1];
      u.0[u.1 := event.(weekendAwards := event.weekendAwards + AwardsFor(w))]
    else
      var u := UpsertRace(records, w.eventName, w.id, now);
      var event := u.0[u.1];
      var race := event.races[u.2];
      u.0[u.1 := event.(races := event.races[u.2 := race.(awards := race.awards + AwardsFor(w))])]
  }

  // ---------------------------------------------------------------------------
  // where the awards end up

  /** The weekend awards of the event named `name` (its first record), or none. */
  function WeekendAwardsOf(records: seq<EventRecord>, name: string): seq<Award>
  {
    match EventIndex(records, name)
    case None => []
    case Some(e) => records[e].weekendAwards
  }

  /** The awards of race `raceId` of the event named `name` (the first of each), or none. */
  function RaceAwardsOf(records: seq<EventRecord>, name: string, raceId: int): seq<Award>
  {
    match EventIndex(records, name)
    case None => []
    case Some(e) =>
      match RaceIndex(records[e].races, raceId)
      case None => []
      case Some(k) => records[e].races[k].awards
  }

  /** Records with the same names, in the same places, find the same event. */
  lemma SameNamesSameEvent(a: seq<EventRecord>, b: seq<EventRecord>, name: string)
    requires |a| == |b| && forall i :: 0 <= i < |a| ==> a[i].name == b[i].name
    ensures EventIndex(a, name) == EventIndex(b, name)
  {
    FirstFromAgrees(a, b, NameIs(name), 0);
  }

  /** Races with the same numbers, in the same places, find the same race. */
  lemma SameIdsSameRace(a: seq<RaceRecord>, b: seq<RaceRecord>, raceId: int)
    requires |a| == |b| && forall i :: 0 <= i < |a| ==> a[i].raceId == b[i].raceId
    ensures RaceIndex(a, raceId) == RaceIndex(b, raceId)
  {
    FirstFromAgrees(a, b, RaceIs(raceId), 0);
  }

  /** After `UpsertEvent(records, name)` the event named `name` is the one returned, and every
      other name finds the event it found before. */
  lemma UpsertEventIndex(records: seq<EventRecord>, name: string, other: string)
    ensures var u := UpsertEvent(records, name);
      EventIndex(u.0, other) == if other == name then Some(u.1) else EventIndex(records, other)
  {
    if EventIndex(records, name).None? {
      FirstFromSnoc(records, EventRecord(name, [], []), NameIs(other), 0);
    }
  }

  /** After `UpsertRace(records, name, raceId, now)` the race numbered `raceId` of the event is the
      one returned, and every other number finds the race it found before. */
  lemma UpsertRaceIndex(records: seq<EventRecord>, name: string, raceId: int, now: string, other: int)
    ensures var u := UpsertEvent(records, name);
      var r := UpsertRace(records, name, raceId, now);
      RaceIndex(r.0[r.1].races, other) == if other == raceId then Some(r.2) else RaceIndex(u.0[u.1].races, other)
  {
    var u := UpsertEvent(records, name);
    var races := u.0[u.1].races;
    if RaceIndex(races, raceId).None? {
      FirstFromSnoc(races, RaceRecord(now, raceId, []), RaceIs(other), 0);
    }
  }

  /** A "Weekend" row adds its awards to the weekend awards of its event, and changes no other
      event's weekend awards and no race's awards. */
  lemma FileWeekendRow(records: seq<EventRecord>, w: V1Winner, now: string, name: string, raceId: int)
    requires IsWeekend(w)
    ensures var r := FileRow(records, w, now);
      && WeekendAwardsOf(r, name) == WeekendAwardsOf(records, name) + (if name == w.eventName then AwardsFor(w) else [])
      && RaceAwardsOf(r, name, raceId) == RaceAwardsOf(records, name, raceId)
  {
    var r := FileRow(records, w, now);
    var u := UpsertEvent(records, w.eventName);
    SameNamesSameEvent(r, u.0, name);
    UpsertEventIndex(records, w.eventName, name);
    if name == w.eventName {
      if EventIndex(records, name).None? {
        assert u.0[u.1] == EventRecord(name, [], []);
        assert WeekendAwardsOf(r, name) == [] + AwardsFor(w);
        assert RaceIndex([], raceId).None?;
      }
    } else if EventIndex(records, name).Some? {
      var i := EventIndex(records, name).value;
      assert i != u.1 && u.0[i] == records[i];
    }
  }

  /** Any other row adds its awards to the race record for its event and race number, and
      changes no weekend awards and no other race's awards. */
  lemma FileRaceRow(records: seq<EventRecord>, w: V1Winner, now: string, name: string, raceId: int)
    requires !IsWeekend(w)
    ensures var r := FileRow(records, w, now);
      && WeekendAwardsOf(r, name) == WeekendAwardsOf(records, name)
      && RaceAwardsOf(r, name, raceId) == RaceAwardsOf(records, name, raceId)
           + (if name == w.eventName && raceId == w.id then AwardsFor(w) else [])
  {
    RaceRowKeepsWeekend(records, w, now, name);
    RaceRowAwards(records, w, now, name, raceId);
  }

  /** A race row changes no event's weekend awards. */
  lemma RaceRowKeepsWeekend(records: seq<EventRecord>, w: V1Winner, now: string, name: string)
    requires !IsWeekend(w)
    ensures WeekendAwardsOf(FileRow(records, w, now), name) == WeekendAwardsOf(records, name)
  {
    var r := FileRow(records, w, now);
    var u := UpsertEvent(records, w.eventName);
    var v := UpsertRace(records, w.eventName, w.id, now);
    SameNamesSameEvent(r, u.0, name);
    UpsertEventIndex(records, w.eventName, name);
    if name == w.eventName {
      if EventIndex(records, name).None? {
        assert u.0[v.1] == EventRecord(name, [], []);
      } else {
        assert u.0 == records;
      }
    } else if EventIndex(records, name).Some? {
      var i := EventIndex(records, name).value;
      assert i != v.1 && v.0[i] == u.0[i] && u.0[i] == records[i];
    }
  }

  /** A race row adds its awards to the race record for its event and race number, and to no
      other race. */
  lemma RaceRowAwards(records: seq<EventRecord>, w: V1Winner, now: string, name: string, raceId: int)
    requires !IsWeekend(w)
    ensures RaceAwardsOf(FileRow(records, w, now), name, raceId) == RaceAwardsOf(records, name, raceId)
      + (if name == w.eventName && raceId == w.id then AwardsFor(w) else [])
  {
    var r := FileRow(records, w, now);
    var u := UpsertEvent(records, w.eventName);
    var v := UpsertRace(records, w.eventName, w.id, now);
    var e := v.1;
    SameNamesSameEvent(r, u.0, name);
    UpsertEventIndex(records, w.eventName, name);
    if name == w.eventName {
      SameIdsSameRace(r[e].races, v.0[e].races, raceId);
      UpsertRaceIndex(records, w.eventName, w.id, now, raceId);
      if EventIndex(records, name).None? {
        assert u.0[e] == EventRecord(name, [], []);
        assert RaceIndex([], raceId).None?;
      } else {
        assert u.0 == records;
      }
      if raceId == w.id {
        if RaceIndex(u.0[e].races, raceId).None? {
          assert v.0[e].races[v.2] == RaceRecord(now, raceId, []);
          assert RaceAwardsOf(r, name, raceId) == [] + AwardsFor(w);
        }
      } else if RaceIndex(u.0[e].races, raceId).Some? {
        var k := RaceIndex(u.0[e].races, raceId).value;
        assert k != v.2 && v.0[e].races[k] == u.0[e].races[k];
      }
    } else if EventIndex(records, name).Some? {
      var i := EventIndex(records, name).value;
      assert i != e && v.0[i] == u.0[i] && u.0[i] == records[i];
    }
  }

  // ---------------------------------------------------------------------------
  // counting

  function RaceAwardCount(r: RaceRecord): nat
  {
    |r.awards|
  }

  /** The awards of one event: its weekend awards and those of all its races. */
  function EventAwardCount(e: EventRecord): nat
  {
    |e.weekendAwards| + SumOf(e.races, RaceAwardCount)
  }

  /** The awards held by all the records. */
  function TotalAwards(records: seq<EventRecord>): nat
  {
    SumOf(records, EventAwardCount)
  }

  function RowAwardCount(w: V1Winner): nat
  {
    |AwardsFor(w)|
  }

  /** Finding or creating an event adds no award. */
  lemma UpsertEventTotal(records: seq<EventRecord>, name: string)
    ensures TotalAwards(UpsertEvent(records, name).0) == TotalAwards(records)
  {
    if EventIndex(records, name).None? {
      SumOfAppend(records, [EventRecord(name, [], [])], EventAwardCount);
    }
  }

  /** Finding or creating a race adds no award. */
  lemma UpsertRaceTotal(records: seq<EventRecord>, name: string, raceId: int, now: string)
    ensures TotalAwards(UpsertRace(records, name, raceId, now).0) == TotalAwards(records)
  {
    UpsertEventTotal(records, name);
    var u := UpsertEvent(records, name);
    var v := UpsertRace(records, name, raceId, now);
    var races := u.0[u.1].races;
    if RaceIndex(races, raceId).None? {
      SumOfAppend(races, [RaceRecord(now, raceId, [])], RaceAwardCount);
      assert v.0 == u.0[u.1 := v.0[u.1]];
      SumOfUpdate(u.0, u.1, v.0[u.1], EventAwardCount);
    }
  }

  /** Filing a row adds exactly its awards to the count. */
  lemma FileRowTotal(records: seq<EventRecord>, w: V1Winner, now: string)
    ensures TotalAwards(FileRow(records, w, now)) == TotalAwards(records) + |AwardsFor(w)|
  {
    var r := FileRow(records, w, now);
    if IsWeekend(w) {
      UpsertEventTotal(records, w.eventName);
      var u := UpsertEvent(records, w.eventName);
      SumOfUpdate(u.0, u.1, r[u.1], EventAwardCount);
    } else {
      UpsertRaceTotal(records, w.eventName, w.id, now);
      var v := UpsertRace(records, w.eventName, w.id, now);
      var event := v.0[v.1];
      SumOfUpdate(event.races, v.2, r[v.1].races[v.2], RaceAwardCount);
      SumOfUpdate(v.0, v.1, r[v.1], EventAwardCount);
    }
  }

  // ---------------------------------------------------------------------------
  // filing every row

  /** The rows of the map in the order `winners.values()` visits them: the lists of the first
      `n` keys, in key order. A key without a list contributes nothing. */
  function RowsOf(m: WinnerMap, n: nat): seq<V1Winner>
    requires n <= |m.keys|
  {
    if n == 0 then []
    else RowsOf(m, n - 1) + (if m.keys[n - 1] in m.lists then m.lists[m.keys[n - 1]] else [])
  }

  function Rows(m: WinnerMap): seq<V1Winner>
  {
    RowsOf(m, |m.keys|)
  }

  /** The records after filing the rows in order, starting from none. */
  function Build(rows: seq<V1Winner>, now: string): seq<EventRecord>
    decreases |rows|, 1
  {
    if rows == [] then [] else BuildLastRow(rows, now)
  }

  /** The records after filing the last row onto those of the rows before it. */
  function BuildLastRow(rows: seq<V1Winner>, now: string): seq<EventRecord>
    requires rows != []
    decreases |rows|, 0
  {
    FileRow(Build(rows[..|rows| - 1], now), rows[|rows| - 1], now)
  }

  lemma BuildLast(rows: seq<V1Winner>, w: V1Winner, now: string)
    ensures Build(rows + [w], now) == FileRow(Build(rows, now), w, now)
  {
    assert (rows + [w])[..|rows|] == rows;
  }

  /** Filing row `j` of `winners` after the rows before it. */
  lemma BuildStep(filed: seq<V1Winner>, winners: seq<V1Winner>, j: nat, now: string)
    requires j < |winners|
    ensures Build(filed + winners[..j + 1], now) == FileRow(Build(filed + winners[..j], now), winners[j], now)
  {
    assert filed + winners[..j + 1] == (filed + winners[..j]) + [winners[j]];
    BuildLast(filed + winners[..j], winners[j], now);
  }

  /** The registry holds exactly as many awards as the rows yield. */
  lemma {:induction false} BuildTotal(rows: seq<V1Winner>, now: string)
    ensures TotalAwards(Build(rows, now)) == SumOf(rows, RowAwardCount)
  {
    if rows != [] {
      var n := |rows| - 1;
      BuildTotal(rows[..n], now);
      FileRowTotal(Build(rows[..n], now), rows[n], now);
      SumOfPrefix(rows, n, RowAwardCount);
      assert rows[..n + 1] == rows;
    }
  }

  /** The awards of the rows that `keep` selects, in row order. */
  function AwardsOfRows(rows: seq<V1Winner>, keep: V1Winner -> bool): seq<Award>
  {
    if rows == [] then []
    else
      var last := rows[|rows| - 1];
      AwardsOfRows(rows[..|rows| - 1], keep) + (if keep(last) then AwardsFor(last) else [])
  }

  /** The rows filed under the weekend awards of event `name`. */
  function WeekendRowOf(name: string): V1Winner -> bool
  {
    (w: V1Winner) => IsWeekend(w) && w.eventName == name
  }

  /** The rows filed under race `raceId` of event `name`. */
  function RaceRowOf(name: string, raceId: int): V1Winner -> bool
  {
    (w: V1Winner) => !IsWeekend(w) && w.eventName == name && w.id == raceId
  }

  /** Every event's weekend awards are the awards of its "Weekend" rows, and every race's awards
      are the awards of its other rows, each in row order. */
  lemma {:induction false} BuildGroupsAwards(rows: seq<V1Winner>, now: string, name: string, raceId: int)
    ensures WeekendAwardsOf(Build(rows, now), name) == AwardsOfRows(rows, WeekendRowOf(name))
    ensures RaceAwardsOf(Build(rows, now), name, raceId) == AwardsOfRows(rows, RaceRowOf(name, raceId))
  {
    if rows == [] {
      assert EventIndex([], name).None?;
    } else {
      var front := rows[..|rows| - 1];
      var last := rows[|rows| - 1];
      BuildGroupsAwards(front, now, name, raceId);
      if IsWeekend(last) {
        FileWeekendRow(Build(front, now), last, now, name, raceId);
      } else {
        FileRaceRow(Build(front, now), last, now, name, raceId);
      }
    }
  }

  // ---------------------------------------------------------------------------
  // the final pass

  /** `(a, b) => a.raceId - b.raceId` read as "a goes first". */
  function ByRaceId(a: RaceRecord, b: RaceRecord): bool
  {
    a.raceId < b.raceId
  }

  /** `(a, b) => a.driverName.localeCompare(b.driverName)` read as "a goes first", for the
      collation `before` on driver names. */
  function ByDriver(before: (string, string) -> bool): (Award, Award) -> bool
  {
    (a: Award, b: Award) => before(a.driverName, b.driverName)
  }

  /** `race.awards.sort(...)`: the race with its awards in driver order. */
  function WithSortedAwards(race: RaceRecord, before: (string, string) -> bool): (r: RaceRecord)
    ensures r.timestamp == race.timestamp && r.raceId == race.raceId
    ensures multiset(r.awards) == multiset(race.awards) && |r.awards| == |race.awards|
  {
    race.(awards := SortBy(race.awards, ByDriver(before)))
  }

  /** The races of an event after the final pass: ordered by race number, each with its awards
      ordered by driver. */
  function SortedRaces(races: seq<RaceRecord>, before: (string, string) -> bool): (sorted: seq<RaceRecord>)
    ensures |sorted| == |races|
  {
    var ordered := SortBy(races, ByRaceId);
    seq(|ordered|, k requires 0 <= k < |ordered| => WithSortedAwards(ordered[k], before))
  }

  /** An event after the final pass. */
  function SortedEvent(e: EventRecord, before: (string, string) -> bool): EventRecord
  {
    EventRecord(e.name, SortedRaces(e.races, before), SortBy(e.weekendAwards, ByDriver(before)))
  }

  /** The records after the final pass. */
  function PostProcessed(records: seq<EventRecord>, before: (string, string) -> bool): (r: seq<EventRecord>)
    ensures |r| == |records|
  {
    seq(|records|, i requires 0 <= i < |records| => SortedEvent(records[i], before))
  }

  /** After the final pass every event keeps its name, its races are in ascending race number,
      and, when `before` is a strict order, its weekend awards and every race's awards are in
      driver order; every list of awards keeps its elements. */
  lemma PostProcessOrders(records: seq<EventRecord>, before: (string, string) -> bool, i: nat)
    requires i < |records|
    ensures var e := PostProcessed(records, before)[i];
      && e.name == records[i].name
      && SortedBy(e.races, ByRaceId)
      && multiset(e.weekendAwards) == multiset(records[i].weekendAwards)
      && (StrictOrder(before) ==> SortedBy(e.weekendAwards, ByDriver(before)))
      && (StrictOrder(before) ==> forall k :: 0 <= k < |e.races| ==> SortedBy(e.races[k].awards, ByDriver(before)))
  {
    var races := records[i].races;
    var ordered := SortBy(races, ByRaceId);
    var sorted := SortedRaces(races, before);
    SortBySorted(races, ByRaceId);
    assert forall k :: 0 <= k < |sorted| ==> sorted[k].raceId == ordered[k].raceId;
    if StrictOrder(before) {
      ByDriverStrict(before);
      SortBySorted(records[i].weekendAwards, ByDriver(before));
      forall k | 0 <= k < |sorted| ensures SortedBy(sorted[k].awards, ByDriver(before)) {
        SortBySorted(ordered[k].awards, ByDriver(before));
      }
    }
  }

  /** Ordering awards by a strict order on driver names is a strict order. */
  lemma ByDriverStrict(before: (string, string) -> bool)
    requires StrictOrder(before)
    ensures StrictOrder(ByDriver(before))
  {
    var lt := ByDriver(before);
    forall a: Award ensures !lt(a, a) {
      assert !before(a.driverName, a.driverName);
    }
    forall a: Award, b: Award, c: Award | lt(a, b) && lt(b, c) ensures lt(a, c) {
      assert before(a.driverName, b.driverName) && before(b.driverName, c.driverName);
    }
  }

  /** The final pass neither adds nor removes an award. */
  lemma PostProcessKeepsTotal(records: seq<EventRecord>, before: (string, string) -> bool)
    ensures TotalAwards(PostProcessed(records, before)) == TotalAwards(records)
  {
    var r := PostProcessed(records, before);
    forall i | 0 <= i < |records| ensures EventAwardCount(r[i]) == EventAwardCount(records[i]) {
      SortedEventCount(records[i], before);
    }
    SumOfAgrees(r, records, EventAwardCount);
  }

  /** After the final pass the weekend awards of event `name` are still exactly the awards of
      its "Weekend" rows, now in collation order rather than row order. */
  lemma PostProcessedWeekendAwards(rows: seq<V1Winner>, now: string, before: (string, string) -> bool, name: string)
    ensures multiset(WeekendAwardsOf(PostProcessed(Build(rows, now), before), name))
      == multiset(AwardsOfRows(rows, WeekendRowOf(name)))
  {
    var built := Build(rows, now);
    var sorted := PostProcessed(built, before);
    BuildGroupsAwards(rows, now, name, 0);
    assert forall i :: 0 <= i < |sorted| ==> sorted[i].name == built[i].name;
    SameNamesSameEvent(sorted, built, name);
  }

  /** What the final pass keeps of a race: its stamp, its number and its awards as a multiset. */
  function RaceKey(r: RaceRecord): (string, int, multiset<Award>)
  {
    (r.timestamp, r.raceId, multiset(r.awards))
  }

  /** Sorting the races only reorders them: every race keeps its stamp, its number and its own
      awards. */
  lemma SortedRacesPermutes(races: seq<RaceRecord>, before: (string, string) -> bool)
    ensures multiset(Apply(SortedRaces(races, before), RaceKey)) == multiset(Apply(races, RaceKey))
  {
    SortByApply(races, ByRaceId, RaceKey);
    assert Apply(SortedRaces(races, before), RaceKey) == Apply(SortBy(races, ByRaceId), RaceKey);
  }

  /** No two races of the list share a number. */
  ghost predicate DistinctIds(races: seq<RaceRecord>)
  {
    forall i, j :: 0 <= i < j < |races| ==> races[i].raceId != races[j].raceId
  }

  /** No event has two races with the same number. */
  ghost predicate DistinctRaceIds(records: seq<EventRecord>)
  {
    forall e :: 0 <= e < |records| ==> DistinctIds(records[e].races)
  }

  /** Finding or creating an event keeps the race numbers of every event distinct. */
  lemma UpsertEventDistinct(records: seq<EventRecord>, name: string)
    requires DistinctRaceIds(records)
    ensures DistinctRaceIds(UpsertEvent(records, name).0)
  {
    UpsertEventFinds(records, name);
    var u := UpsertEvent(records, name);
    forall e | 0 <= e < |u.0| ensures DistinctIds(u.0[e].races) {
      if e == |records| {
        assert u.0[e].races == [];
      }
    }
  }

  /** `upsertRaceRecord` appends a race only when its number is absent, so the race numbers of
      every event stay distinct. */
  lemma UpsertRaceDistinct(records: seq<EventRecord>, name: string, raceId: int, now: string)
    requires DistinctRaceIds(records)
    ensures DistinctRaceIds(UpsertRace(records, name, raceId, now).0)
  {
    UpsertEventDistinct(records, name);
    UpsertRaceFinds(records, name, raceId, now);
    var u := UpsertEvent(records, name);
    var v := UpsertRace(records, name, raceId, now);
    var races := u.0[u.1].races;
    if forall k :: 0 <= k < |races| ==> races[k].raceId != raceId {
      var grown := v.0[v.1].races;
      assert grown == races + [RaceRecord(now, raceId, [])];
      forall i, j | 0 <= i < j < |grown| ensures grown[i].raceId != grown[j].raceId {
        if j == |races| {
          assert grown[i] == races[i];
        } else {
          assert grown[i] == races[i] && grown[j] == races[j];
        }
      }
    }
  }

  /** Filing a row keeps the race numbers of every event distinct. */
  lemma FileRowDistinct(records: seq<EventRecord>, w: V1Winner, now: string)
    requires DistinctRaceIds(records)
    ensures DistinctRaceIds(FileRow(records, w, now))
  {
    var r := FileRow(records, w, now);
    if IsWeekend(w) {
      UpsertEventDistinct(records, w.eventName);
      var u := UpsertEvent(records, w.eventName);
      assert forall e :: 0 <= e < |r| ==> r[e].races == u.0[e].races;
    } else {
      UpsertRaceDistinct(records, w.eventName, w.id, now);
      var v := UpsertRace(records, w.eventName, w.id, now);
      forall e | 0 <= e < |r| ensures DistinctIds(r[e].races) {
        assert |r[e].races| == |v.0[e].races|;
        assert forall i :: 0 <= i < |r[e].races| ==> r[e].races[i].raceId == v.0[e].races[i].raceId;
      }
    }
  }

  /** Every event the rows build has distinct race numbers. */
  lemma {:induction false} BuildDistinct(rows: seq<V1Winner>, now: string)
    ensures DistinctRaceIds(Build(rows, now))
  {
    if rows != [] {
      var n := |rows| - 1;
      BuildDistinct(rows[..n], now);
      FileRowDistinct(Build(rows[..n], now), rows[n], now);
    }
  }

  /** The awards of the first race numbered `raceId`, or none. */
  function RaceAwardsIn(races: seq<RaceRecord>, raceId: int): seq<Award>
  {
    match RaceIndex(races, raceId)
    case None => []
    case Some(k) => races[k].awards
  }

  /** With distinct race numbers, the race found after sorting is the race found before, with
      its awards reordered. */
  lemma SortedRaceAwards(races: seq<RaceRecord>, before: (string, string) -> bool, raceId: int)
    requires DistinctIds(races)
    ensures multiset(RaceAwardsIn(SortedRaces(races, before), raceId)) == multiset(RaceAwardsIn(races, raceId))
  {
    var ordered := SortBy(races, ByRaceId);
    var sorted := SortedRaces(races, before);
    match RaceIndex(races, raceId)
    case None =>
      forall j | 0 <= j < |sorted| ensures sorted[j].raceId != raceId {
        assert ordered[j] in multiset(races);
      }
      assert RaceIndex(sorted, raceId).None?;
    case Some(k) =>
      assert races[k] in multiset(ordered);
      var j :| 0 <= j < |ordered| && ordered[j] == races[k];
      assert RaceIs(raceId)(sorted[j]);
      var found := RaceIndex(sorted, raceId).value;
      assert ordered[found] in multiset(races);
      var m :| 0 <= m < |races| && races[m] == ordered[found];
      assert m == k;
  }

  /** After the final pass the awards of race `raceId` of event `name` are still exactly the
      awards of its rows, now in collation order rather than row order. */
  lemma PostProcessedRaceAwards(rows: seq<V1Winner>, now: string, before: (string, string) -> bool, name: string, raceId: int)
    ensures multiset(RaceAwardsOf(PostProcessed(Build(rows, now), before), name, raceId))
      == multiset(AwardsOfRows(rows, RaceRowOf(name, raceId)))
  {
    var built := Build(rows, now);
    var sorted := PostProcessed(built, before);
    BuildGroupsAwards(rows, now, name, raceId);
    BuildDistinct(rows, now);
    assert forall i :: 0 <= i < |sorted| ==> sorted[i].name == built[i].name;
    SameNamesSameEvent(sorted, built, name);
    match EventIndex(built, name)
    case None =>
    case Some(e) =>
      SortedRaceAwards(built[e].races, before, raceId);
      assert RaceAwardsOf(built, name, raceId) == RaceAwardsIn(built[e].races, raceId);
      assert RaceAwardsOf(sorted, name, raceId) == RaceAwardsIn(sorted[e].races, raceId);
  }

  lemma SortedEventCount(e: EventRecord, before: (string, string) -> bool)
    ensures EventAwardCount(SortedEvent(e, before)) == EventAwardCount(e)
  {
    var ordered := SortBy(e.races, ByRaceId);
    var sorted := SortedRaces(e.races, before);
    SumOfAgrees(sorted, ordered, RaceAwardCount);
    SortBySum(e.races, ByRaceId, RaceAwardCount);
  }

  /** `record.races.sort(...)` and the `forEach` over the races: the races ordered by race
      number, each race's awards sorted by driver, and the number of their awards. */
  method SortEventRaces(races: seq<RaceRecord>, before: (string, string) -> bool) returns (sorted: seq<RaceRecord>, count: nat)
    ensures sorted == SortedRaces(races, before)
    ensures count == SumOf(races, RaceAwardCount)
  {
    sorted := SortBy(races, ByRaceId);
    ghost var ordered := sorted;
    count := 0;
    for k := 0 to |sorted|
      invariant |sorted| == |ordered|
      invariant forall j :: 0 <= j < k ==> sorted[j] == WithSortedAwards(ordered[j], before)
      invariant forall j :: k <= j < |sorted| ==> sorted[j] == ordered[j]
      invariant count == SumOf(ordered[..k], RaceAwardCount)
    {
      var race := sorted[k];
      var awards := SortBy(race.awards, ByDriver(before));
      sorted := sorted[k := race.(awards := awards)];
      SumOfPrefix(ordered, k, RaceAwardCount);
      count := count + |awards|;
    }
    assert ordered[..|ordered|] == ordered;
    SortBySum(races, ByRaceId, RaceAwardCount);
  }

  /** The body of the final pass for one record: its weekend awards sorted by driver, its races
      sorted as `SortEventRaces` does, and the number of awards it holds. */
  method SortEventRecord(record: EventRecord, before: (string, string) -> bool) returns (sorted: EventRecord, count: nat)
    ensures sorted == SortedEvent(record, before)
    ensures count == EventAwardCount(record)
  {
    var weekendAwards := SortBy(record.weekendAwards, ByDriver(before));
    var races, raceAwardCount := SortEventRaces(record.races, before);
    sorted := EventRecord(record.name, races, weekendAwards);
    count := |weekendAwards| + raceAwardCount;
  }

  // ---------------------------------------------------------------------------
  // the registry

  /** `AwardRegistry`: the event records, and who last updated them and when. */
  class AwardRegistry {
    var records: seq<EventRecord>
    var lastUpdatedDateTime: string
    var lastUpdatedBy: string

    /** An empty registry stamped with the user and with `now`, the creation time. */
    constructor(lastUpdatedBy: string, now: string)
      ensures this.lastUpdatedBy == lastUpdatedBy && lastUpdatedDateTime == now && records == []
    {
      this.lastUpdatedBy := lastUpdatedBy;
      lastUpdatedDateTime := now;
      records := [];
    }

    /** `upsertEventRecord(eventName, registry.records)`, returning the record's index. */
    method UpsertEventRecord(eventName: string) returns (index: nat)
      modifies this
      ensures (records, index) == UpsertEvent(old(records), eventName)
      ensures lastUpdatedBy == old(lastUpdatedBy) && lastUpdatedDateTime == old(lastUpdatedDateTime)
    {
      for i := 0 to |records|
        invariant forall j :: 0 <= j < i ==> records[j].name != eventName
      {
        if records[i].name == eventName {
          return i;
        }
      }
      records := records + [EventRecord(eventName, [], [])];
      index := |records| - 1;
    }

    /** `upsertRaceRecord(eventName, raceId, registry.records, now)`, returning the indices of
        the event and of the race within it. */
    method UpsertRaceRecord(eventName: string, raceId: int, now: string) returns (eventIndex: nat, raceIndex: nat)
      modifies this
      ensures (records, eventIndex, raceIndex) == UpsertRace(old(records), eventName, raceId, now)
      ensures lastUpdatedBy == old(lastUpdatedBy) && lastUpdatedDateTime == old(lastUpdatedDateTime)
    {
      eventIndex := UpsertEventRecord(eventName);
      var event := records[eventIndex];
      for k := 0 to |event.races|
        invariant forall j :: 0 <= j < k ==> event.races[j].raceId != raceId
      {
        if event.races[k].raceId == raceId {
          return eventIndex, k;
        }
      }
      records := records[eventIndex := event.(races := event.races + [RaceRecord(now, raceId, [])])];
      raceIndex := |event.races|;
    }

    /** The body of the inner loop of `main`: build the row's awards and push them onto the
        weekend awards of its event, or onto its race record. */
    method FileWinnerRow(w: V1Winner, now: string)
      modifies this
      ensures records == FileRow(old(records), w, now)
      ensures lastUpdatedBy == old(lastUpdatedBy) && lastUpdatedDateTime == old(lastUpdatedDateTime)
    {
      var awards := BuildAwards(w);
      if w.prizeType == Some("Weekend") {
        var e := UpsertEventRecord(w.eventName);
        var event := records[e];
        records := records[e := event.(weekendAwards := event.weekendAwards + awards)];
      } else {
        var e, k := UpsertRaceRecord(w.eventName, w.id, now);
        var event := records[e];
        var race := event.races[k];
        records := records[e := event.(races := event.races[k := race.(awards := race.awards + awards)])];
      }
    }

    /** The inner loop of `main`: the rows of one race filed in order, after the rows `filed`. */
    method FileWinnerRows(ghost filed: seq<V1Winner>, winners: seq<V1Winner>, now: string)
      requires records == Build(filed, now)
      modifies this
      ensures records == Build(filed + winners, now)
      ensures lastUpdatedBy == old(lastUpdatedBy) && lastUpdatedDateTime == old(lastUpdatedDateTime)
    {
      assert filed + winners[..0] == filed;
      for j := 0 to |winners|
        invariant records == Build(filed + winners[..j], now)
        invariant lastUpdatedBy == old(lastUpdatedBy) && lastUpdatedDateTime == old(lastUpdatedDateTime)
      {
        BuildStep(filed, winners, j, now);
        FileWinnerRow(winners[j], now);
      }
      assert winners[..|winners|] == winners;
    }

    /** The final pass of `main`: each event's weekend awards are sorted by driver, its races
        by race number and each race's awards by driver, and `totalAwardCount` adds up the
        lengths of all those lists. `before` is the driver-name collation. */
    method PostProcess(before: (string, string) -> bool) returns (totalAwardCount: nat)
      modifies this
      ensures records == PostProcessed(old(records), before)
      ensures totalAwardCount == TotalAwards(records) == TotalAwards(old(records))
      ensures lastUpdatedBy == old(lastUpdatedBy) && lastUpdatedDateTime == old(lastUpdatedDateTime)
    {
      ghost var original := records;
      totalAwardCount := 0;
      for i := 0 to |records|
        invariant |records| == |original|
        invariant forall j :: 0 <= j < i ==> records[j] == SortedEvent(original[j], before)
        invariant forall j :: i <= j < |records| ==> records[j] == original[j]
        invariant totalAwardCount == TotalAwards(original[..i])
        invariant lastUpdatedBy == old(lastUpdatedBy) && lastUpdatedDateTime == old(lastUpdatedDateTime)
      {
        var event, count := SortEventRecord(records[i], before);
        totalAwardCount := totalAwardCount + count;
        SumOfPrefix(original, i, EventAwardCount);
        records := records[i := event];
      }
      assert original[..|original|] == original;
      PostProcessKeepsTotal(original, before);
    }
  }

  /** `main` after loading: a registry stamped with the user and the clock, every row of
      `winners.values()` filed in order under `now` (the run's date), then the final pass;
      `totalAwardCount` is the number of awards the rows yield. */
  method Convert(loaded: V1Winners, user: string, clock: string, now: string, before: (string, string) -> bool)
    returns (registry: AwardRegistry, totalAwardCount: nat)
    ensures fresh(registry)
    ensures registry.lastUpdatedBy == user && registry.lastUpdatedDateTime == clock
    ensures registry.records == PostProcessed(Build(Rows(loaded.winners), now), before)
    ensures totalAwardCount == SumOf(Rows(loaded.winners), RowAwardCount)
  {
    var m := loaded.winners;
    registry := new AwardRegistry(user, clock);
    for i := 0 to |m.keys|
      invariant fresh(registry)
      invariant registry.records == Build(RowsOf(m, i), now)
      invariant registry.lastUpdatedBy == user && registry.lastUpdatedDateTime == clock
    {
      if m.keys[i] !in m.lists {
        assert RowsOf(m, i + 1) == RowsOf(m, i);
        continue;
      }
      var winners := m.lists[m.keys[i]];
      registry.FileWinnerRows(RowsOf(m, i), winners, now);
      assert RowsOf(m, i + 1) == RowsOf(m, i) + winners;
    }
    totalAwardCount := registry.PostProcess(before);
    BuildTotal(Rows(m), now);
  }
}

// `loadV1Winners` of src/v1loaders.ts: the fold over the lines of a first-generation
// winners file that groups the winners by race number, and the last race as the
// largest race number. The line parser of `./v1models` is not part of this model: it
// is a function parameter that answers skip, a race name, or a winner.
module V1Loader {
  import opened Common

  /** A winner record of the first-generation file, with the fields the loader and the
      converter read: the race number `id`, the event, the prize type and one winner per
      sponsor (`None` is `undefined`). */
  datatype V1Winner = V1Winner(
    id: int,
    eventName: string,
    prizeType: Option<string>,
    s425: Option<string>,
    aaf: Option<string>,
    alpinestars: Option<string>,
    bimmerworld: Option<string>,
    griots: Option<string>,
    proFormance: Option<string>,
    redline: Option<string>,
    ror: Option<string>,
    toyo: Option<string>)

  /** What the line parser answers: the `skip` flag, a `currentRaceName`, or a `winner`. */
  datatype Parsed = Skip | RaceName(name: string) | Found(winner: V1Winner)

  /** The line parser, given the line, the current race number and the current race name. */
  type Parser = (string, int, string) -> Parsed

  /** A JavaScript `Map` from race number to its winners, with its keys in insertion order. */
  datatype WinnerMap = WinnerMap(keys: seq<int>, lists: map<int, seq<V1Winner>>)

  /** The keys are distinct and are exactly the entries of the map. */
  ghost predicate ValidMap(m: WinnerMap)
  {
    && (forall i, j :: 0 <= i < j < |m.keys| ==> m.keys[i] != m.keys[j])
    && (forall k :: k in m.lists <==> k in m.keys)
  }

  /** `result.set(id, [])` when the race has no list yet, then `push`: the winner is appended to
      its race's list, a new race goes to the end of the keys, and every other race keeps its
      list. */
  function FileWinner(m: WinnerMap, w: V1Winner): (m': WinnerMap)
    ensures ValidMap(m) ==> ValidMap(m')
    ensures w.id in m'.lists && m'.lists[w.id] == (if w.id in m.lists then m.lists[w.id] else []) + [w]
    ensures forall k :: k != w.id ==> (k in m'.lists <==> k in m.lists)
    ensures forall k :: k != w.id && k in m.lists ==> m'.lists[k] == m.lists[k]
    ensures |m.keys| <= |m'.keys| && m'.keys[..|m.keys|] == m.keys
  {
    if w.id in m.lists then WinnerMap(m.keys, m.lists[w.id := m.lists[w.id] + [w]])
    else WinnerMap(m.keys + [w.id], m.lists[w.id := [w]])
  }

  /** The state the fold carries: the current race number and name, and the map. */
  datatype LoaderState = LoaderState(raceNumber: int, raceName: string, winners: WinnerMap)

  const InitialState: LoaderState := LoaderState(0, "_uninitialized", WinnerMap([], map[]))

  /** One line of the fold; `None` is the `TypeError` the source throws when the parser gives
      an empty race name and no winner. */
  function Step(s: LoaderState, index: nat, line: string, parse: Parser): (r: Option<LoaderState>)
    ensures index <= 1 || line == "" ==> r == Some(s)
    ensures index > 1 && line != "" && parse(line, s.raceNumber, s.raceName).Skip? ==> r == Some(s)
    ensures index > 1 && line != "" && parse(line, s.raceNumber, s.raceName).RaceName? ==>
      var name := parse(line, s.raceNumber, s.raceName).name;
      r == if name != "" then Some(s.(raceName := name)) else None
    ensures index > 1 && line != "" && parse(line, s.raceNumber, s.raceName).Found? ==>
      var w := parse(line, s.raceNumber, s.raceName).winner;
      r.Some? && r.value.raceNumber == w.id && r.value.raceName == w.eventName
      && r.value.winners == FileWinner(s.winners, w)
  {
    if index <= 1 || line == "" then Some(s)
    else
      match parse(line, s.raceNumber, s.raceName)
      case Skip => Some(s)
      case RaceName(name) => if name != "" then Some(s.(raceName := name)) else None
      case Found(w) => Some(LoaderState(w.id, w.eventName, FileWinner(s.winners, w)))
  }

  /** The state after the lines, in order, or `None` once a line has thrown. */
  function Fold(lines: seq<string>, parse: Parser): Option<LoaderState>
  {
    if lines == [] then Some(InitialState)
    else
      var n := |lines| - 1;
      match Fold(lines[..n], parse)
      case None => None
      case Some(s) => Step(s, n, lines[n], parse)
  }

  /** The fold over `n + 1` lines is one more step after the fold over `n`. */
  lemma FoldLast(lines: seq<string>, parse: Parser, n: nat)
    requires n < |lines|
    ensures Fold(lines[..n + 1], parse) == match Fold(lines[..n], parse)
      case None => None
      case Some(s) => Step(s, n, lines[n], parse)
  {
    assert lines[..n + 1][..n] == lines[..n];
  }

  /** Once a line has thrown, the whole fold has. */
  lemma {:induction false} FoldStaysFailed(lines: seq<string>, parse: Parser, n: nat)
    requires n <= |lines| && Fold(lines[..n], parse).None?
    ensures Fold(lines, parse).None?
    decreases |lines| - n
  {
    if n < |lines| {
      FoldLast(lines, parse, n);
      FoldStaysFailed(lines, parse, n + 1);
    } else {
      assert lines[..n] == lines;
    }
  }

  /** The winners the parser found, in line order (up to a line that throws). */
  function FoundWinners(lines: seq<string>, parse: Parser): seq<V1Winner>
  {
    if lines == [] then []
    else
      var n := |lines| - 1;
      var before := FoundWinners(lines[..n], parse);
      match Fold(lines[..n], parse)
      case None => before
      case Some(s) =>
        if n > 1 && lines[n] != "" && parse(lines[n], s.raceNumber, s.raceName).Found? then
          before + [parse(lines[n], s.raceNumber, s.raceName).winner]
        else before
  }

  /** `m` groups `found` by race number: its keys are exactly the race numbers in `found`, each
      once, and each race's list is the winners of that race in order. */
  ghost predicate GroupedBy(m: WinnerMap, found: seq<V1Winner>)
  {
    && ValidMap(m)
    && (forall k :: k in m.lists <==> exists i :: 0 <= i < |found| && found[i].id == k)
    && (forall k :: k in m.lists ==> m.lists[k] == OfRace(found, k))
  }

  /** The map groups the found winners by race number: its keys are exactly the race numbers
      found, and each race's list is the winners of that race in line order. */
  lemma {:induction false} FoldGroupsByRace(lines: seq<string>, parse: Parser)
    ensures Fold(lines, parse).Some? ==> GroupedBy(Fold(lines, parse).value.winners, FoundWinners(lines, parse))
  {
    if lines != [] && Fold(lines, parse).Some? {
      var n := |lines| - 1;
      FoldGroupsByRace(lines[..n], parse);
      var s := Fold(lines[..n], parse).value;
      var m := s.winners;
      var before := FoundWinners(lines[..n], parse);
      assert Fold(lines, parse) == Step(s, n, lines[n], parse);
      if !(n > 1 && lines[n] != "" && parse(lines[n], s.raceNumber, s.raceName).Found?) {
        assert FoundWinners(lines, parse) == before;
        assert Fold(lines, parse).value.winners == m;
      } else {
        var w := parse(lines[n], s.raceNumber, s.raceName).winner;
        assert FoundWinners(lines, parse) == before + [w];
        GroupedSnoc(m, before, w);
      }
    }
  }

  /** Filing one more winner keeps the map a grouping of the winners found so far. */
  lemma GroupedSnoc(m: WinnerMap, before: seq<V1Winner>, w: V1Winner)
    requires GroupedBy(m, before)
    ensures GroupedBy(FileWinner(m, w), before + [w])
  {
    SnocKeys(m, before, w);
    SnocLists(m, before, w);
  }

  /** After filing, the race numbers of the map are those of the winners found so far. */
  lemma SnocKeys(m: WinnerMap, before: seq<V1Winner>, w: V1Winner)
    requires forall k :: k in m.lists <==> exists i :: 0 <= i < |before| && before[i].id == k
    ensures var found := before + [w];
      forall k :: k in FileWinner(m, w).lists <==> exists i :: 0 <= i < |found| && found[i].id == k
  {
    var found := before + [w];
    var m' := FileWinner(m, w);
    forall k ensures k in m'.lists <==> exists i :: 0 <= i < |found| && found[i].id == k {
      if exists i :: 0 <= i < |found| && found[i].id == k {
        var i :| 0 <= i < |found| && found[i].id == k;
        if i < |before| {
          assert before[i].id == k;
        }
      }
      if k in m'.lists && k != w.id {
        var i :| 0 <= i < |before| && before[i].id == k;
        assert found[i].id == k;
      }
      assert found[|before|].id == w.id;
    }
  }

  /** After filing, each race's list is the winners of that race found so far. */
  lemma SnocLists(m: WinnerMap, before: seq<V1Winner>, w: V1Winner)
    requires forall k :: (exists i :: 0 <= i < |before| && before[i].id == k) ==> k in m.lists
    requires forall k :: k in m.lists ==> m.lists[k] == OfRace(before, k)
    ensures forall k :: k in FileWinner(m, w).lists ==> FileWinner(m, w).lists[k] == OfRace(before + [w], k)
  {
    var m' := FileWinner(m, w);
    forall k | k in m'.lists ensures m'.lists[k] == OfRace(before + [w], k) {
      OfRaceSnoc(before, w, k);
      if k == w.id && w.id !in m.lists {
        assert OfRace(before, k) == [];
      }
    }
  }

  /** The winners of race `k` after one more winner. */
  lemma OfRaceSnoc(before: seq<V1Winner>, w: V1Winner, k: int)
    ensures OfRace(before + [w], k) == OfRace(before, k) + (if w.id == k then [w] else [])
  {
    FilterSnoc(before, w, (x: V1Winner) => x.id == k);
  }

  /** The winners of race `k`, in order. */
  function OfRace(winners: seq<V1Winner>, k: int): seq<V1Winner>
  {
    Filter(winners, (w: V1Winner) => w.id == k)
  }

  /** `lastRace`: `reduce` with `Math.max` from 0 over the keys. It is 0 or one of the keys, and
      at least 0 and every key. */
  function LastRace(keys: seq<int>): (r: int)
    ensures r >= 0
    ensures forall i :: 0 <= i < |keys| ==> keys[i] <= r
    ensures r == 0 || r in keys
  {
    if keys == [] then 0
    else
      var latest := LastRace(keys[..|keys| - 1]);
      var current := keys[|keys| - 1];
      assert forall x :: x in keys[..|keys| - 1] ==> x in keys;
      if latest >= current then latest else current
  }

  /** What `loadV1Winners` returns: the last race and the map. */
  datatype V1Winners = V1Winners(lastRace: int, winners: WinnerMap)

  /** The loader's result for the lines: `None` when a line throws. */
  function LoadResult(lines: seq<string>, parse: Parser): Option<V1Winners>
  {
    match Fold(lines, parse)
    case None => None
    case Some(s) => Some(V1Winners(LastRace(s.winners.keys), s.winners))
  }

  /** `loadV1Winners` on the already split file. */
  method LoadV1Winners(lines: seq<string>, parse: Parser) returns (r: Option<V1Winners>)
    ensures r == LoadResult(lines, parse)
  {
    var raceNumber := 0;
    var raceName := "_uninitialized";
    var keys: seq<int> := [];
    var lists: map<int, seq<V1Winner>> := map[];
    for index := 0 to |lines|
      invariant Fold(lines[..index], parse) == Some(LoaderState(raceNumber, raceName, WinnerMap(keys, lists)))
    {
      FoldLast(lines, parse, index);
      var line := lines[index];
      if index <= 1 || line == "" {
        continue;
      }
      var maybeWinner := parse(line, raceNumber, raceName);
      if maybeWinner.Skip? {
        continue;
      }
      if maybeWinner.RaceName? {
        if maybeWinner.name != "" {
          raceName := maybeWinner.name;
          continue;
        }
        FoldStaysFailed(lines, parse, index + 1);
        return None;
      }
      var winner := maybeWinner.winner;
      ghost var filed := FileWinner(WinnerMap(keys, lists), winner);
      raceNumber := winner.id;
      raceName := winner.eventName;
      if raceNumber !in lists {
        keys := keys + [raceNumber];
        lists := lists[raceNumber := []];
      }
      lists := lists[raceNumber := lists[raceNumber] + [winner]];
      assert WinnerMap(keys, lists) == filed;
    }
    assert lines[..|lines|] == lines;
    if |keys| == 0 {
      return Some(V1Winners(0, WinnerMap(keys, lists)));
    }
    return Some(V1Winners(LastRace(keys), WinnerMap(keys, lists)));
  }
}

/** `parse_rankings_data`: the ESPN rankings document, already decoded from
    JSON, flattened into one table of rows per poll ("AP" and "Coaches"). */
module ParseRankings {
  import opened Wrappers

  /** A decoded JSON value (numbers are integers in this model). */
  datatype Json =
    | Null
    | Bool(b: bool)
    | Num(n: int)
    | Str(s: string)
    | Arr(items: seq<Json>)
    | Obj(fields: map<string, Json>)

  /** The exception the function lets escape, with the key or value involved. */
  datatype ParseError =
    | MissingKey(key: string)      // `KeyError` from `d[key]`
    | NotAnObject(what: string)    // `.get` or `[key]` on a value that is not a dict
    | NotAString(what: string)     // `.lower()` or `strptime` on a value that is not a str
    | NotAList(what: string)       // a loop over a value that is not a list
    | BadDate(date: string)        // `strptime` rejects the `%Y-%m-%dT%H:%MZ` format

  /** One element of `teams`, one row of a poll's table (the keys of the
      source's dict, in order). */
  datatype Row = Row(
    seasonYear: Json,
    weekNumber: Json,
    pollName: Json,
    pollDate: string,
    teamId: Json,
    team: Json,
    currentRank: Json,
    previousRank: Json,
    record: Json,
    points: Json,
    firstPlaceVotes: Json)

  /** `polls_to_extract`, in dict order: result key, then the label searched for. */
  const Polls: seq<(string, string)> := [("AP", "AP Top 25"), ("Coaches", "Coaches")]

  /** `d.get(key, default)`. */
  function Get(d: map<string, Json>, key: string, otherwise: Json): Json {
    if key in d then d[key] else otherwise
  }

  /** `data.get("latestSeason", {})`. */
  function LatestSeason(data: map<string, Json>): Json {
    Get(data, "latestSeason", Obj(map[]))
  }

  /** `data.get("latestWeek", {})`. */
  function LatestWeek(data: map<string, Json>): Json {
    Get(data, "latestWeek", Obj(map[]))
  }

  /** `str.lower()` on one character, for the ASCII letters. */
  function LowerChar(c: char): char {
    if 'A' <= c <= 'Z' then (c as int + 32) as char else c
  }

  /** `str.lower()`, for the ASCII letters. */
  function Lower(s: string): string {
    seq(|s|, i requires 0 <= i < |s| => LowerChar(s[i]))
  }

  /** `needle` occurs in `hay` starting at position `i`. */
  predicate OccursAt(hay: string, needle: string, i: int) {
    0 <= i && i + |needle| <= |hay| && hay[i..i + |needle|] == needle
  }

  /** `needle in hay` on strings: `needle` occurs at some position of `hay`. */
  predicate Contains(hay: string, needle: string) {
    exists i :: 0 <= i <= |hay| && OccursAt(hay, needle, i)
  }

  /** `r["name"].lower()` can be evaluated: `r` is a dict whose "name" is a str. */
  predicate HasName(r: Json) {
    r.Obj? && "name" in r.fields && r.fields["name"].Str?
  }

  /** `label.lower() in r["name"].lower()`. */
  predicate NameMatches(r: Json, name: string) {
    HasName(r) && Contains(Lower(r.fields["name"].s), Lower(name))
  }

  /** The exception `r["name"].lower()` raises on an entry without a readable name. */
  function NameError(r: Json): ParseError
    requires !HasName(r)
  {
    if !r.Obj? then NotAnObject("ranking")
    else if "name" !in r.fields then MissingKey("name")
    else NotAString("name")
  }

  /** `next((r for r in rankings if label.lower() in r["name"].lower()), None)`:
      the entries are read in order until the first match. */
  function FindPoll(entries: seq<Json>, name: string): (r: Result<Option<map<string, Json>>, ParseError>)
    ensures r.Success? && r.value.Some? ==>
              exists i :: 0 <= i < |entries| && NameMatches(entries[i], name) && entries[i].fields == r.value.value
  {
    if |entries| == 0 then Success(None)
    else if !HasName(entries[0]) then Failure(NameError(entries[0]))
    else if NameMatches(entries[0], name) then Success(Some(entries[0].fields))
    else
      var r := FindPoll(entries[1..], name);
      assert r.Success? && r.value.Some? ==>
        exists i :: 1 <= i < |entries| && NameMatches(entries[i], name) && entries[i].fields == r.value.value
      by {
        if r.Success? && r.value.Some? {
          var i :| 0 <= i < |entries[1..]| && NameMatches(entries[1..][i], name) && entries[1..][i].fields == r.value.value;
          assert entries[1..][i] == entries[i + 1];
        }
      }
      r
  }

  /** Every entry before position `i` has a readable name that does not match. */
  predicate NoEarlierMatch(entries: seq<Json>, name: string, i: nat)
    requires i <= |entries|
  {
    forall j :: 0 <= j < i ==> HasName(entries[j]) && !NameMatches(entries[j], name)
  }

  /** The first matching entry is the one `next` returns. */
  lemma {:induction false} FirstMatchIsFound(entries: seq<Json>, name: string, i: nat)
    requires i < |entries| && NameMatches(entries[i], name) && NoEarlierMatch(entries, name, i)
    ensures FindPoll(entries, name) == Success(Some(entries[i].fields))
  {
    if i > 0 {
      assert HasName(entries[0]) && !NameMatches(entries[0], name);
      var rest := entries[1..];
      assert rest[i - 1] == entries[i];
      forall j | 0 <= j < i - 1 ensures HasName(rest[j]) && !NameMatches(rest[j], name) {
        assert rest[j] == entries[j + 1];
      }
      FirstMatchIsFound(rest, name, i - 1);
    }
  }

  /** What `next` returns is the first matching entry. */
  lemma {:induction false} FoundIsFirstMatch(entries: seq<Json>, name: string) returns (i: nat)
    requires FindPoll(entries, name).Success? && FindPoll(entries, name).value.Some?
    ensures i < |entries| && NameMatches(entries[i], name) && NoEarlierMatch(entries, name, i)
    ensures entries[i].fields == FindPoll(entries, name).value.value
  {
    if NameMatches(entries[0], name) {
      i := 0;
    } else {
      var rest := entries[1..];
      var k := FoundIsFirstMatch(rest, name);
      i := k + 1;
      assert entries[i] == rest[k];
      forall j | 0 <= j < i ensures HasName(entries[j]) && !NameMatches(entries[j], name) {
        if j > 0 {
          assert entries[j] == rest[j - 1];
        }
      }
    }
  }

  /** `next` returns its default `None` exactly when every entry has a readable
      name and none matches. */
  lemma {:induction false} NotFoundIffNoMatch(entries: seq<Json>, name: string)
    ensures FindPoll(entries, name) == Success(None) <==> NoEarlierMatch(entries, name, |entries|)
  {
    if |entries| > 0 {
      var rest := entries[1..];
      NotFoundIffNoMatch(rest, name);
      assert forall j :: 1 <= j < |entries| ==> entries[j] == rest[j - 1];
      if NoEarlierMatch(rest, name, |rest|) && HasName(entries[0]) && !NameMatches(entries[0], name) {
        forall j | 0 <= j < |entries| ensures HasName(entries[j]) && !NameMatches(entries[j], name) {
          if j > 0 {
            assert entries[j] == rest[j - 1];
          }
        }
      }
      if NoEarlierMatch(entries, name, |entries|) {
        assert HasName(entries[0]) && !NameMatches(entries[0], name);
        forall j | 0 <= j < |rest| ensures HasName(rest[j]) && !NameMatches(rest[j], name) {
          assert rest[j] == entries[j + 1];
        }
      }
    }
  }

  /** The dict appended to `teams` for rank entry `t`, or the exception its
      construction raises (the values are evaluated in key order). */
  function RankRow(season: Json, week: Json, poll: map<string, Json>, pollDate: string, t: Json): (r: Result<Row, ParseError>)
    ensures r.Success? <==>
              season.Obj? && week.Obj? && "shortName" in poll && t.Obj? && "team" in t.fields && t.fields["team"].Obj?
    ensures !season.Obj? ==> r == Failure(NotAnObject("latestSeason"))
    ensures r.Success? ==> r.value.pollName == poll["shortName"] && r.value.pollDate == pollDate
    ensures r.Success? ==>
              && r.value.seasonYear == (if "year" in season.fields then season.fields["year"] else Str("N/A"))
              && r.value.weekNumber == (if "number" in week.fields then week.fields["number"] else Str("N/A"))
    ensures r.Success? ==>
              var team := t.fields["team"].fields;
              && r.value.teamId == (if "id" in team then team["id"] else Null)
              && r.value.team == (if "displayName" in team then team["displayName"]
                                  else if "location" in team then team["location"]
                                  else if "name" in team then team["name"]
                                  else Null)
    ensures r.Success? ==>
              && r.value.currentRank == (if "current" in t.fields then t.fields["current"] else Null)
              && r.value.previousRank == (if "previous" in t.fields then t.fields["previous"] else Null)
              && r.value.record == (if "recordSummary" in t.fields then t.fields["recordSummary"] else Str(""))
              && r.value.points == (if "points" in t.fields then t.fields["points"] else Str(""))
              && r.value.firstPlaceVotes == (if "firstPlaceVotes" in t.fields then t.fields["firstPlaceVotes"] else Num(0))
  {
    if !season.Obj? then Failure(NotAnObject("latestSeason"))
    else if !week.Obj? then Failure(NotAnObject("latestWeek"))
    else if "shortName" !in poll then Failure(MissingKey("shortName"))
    else if !t.Obj? then Failure(NotAnObject("rank"))
    else if "team" !in t.fields then Failure(MissingKey("team"))
    else if !t.fields["team"].Obj? then Failure(NotAnObject("team"))
    else
      var team := t.fields["team"].fields;
      Success(Row(
        Get(season.fields, "year", Str("N/A")),
        Get(week.fields, "number", Str("N/A")),
        poll["shortName"],
        pollDate,
        Get(team, "id", Null),
        Get(team, "displayName", Get(team, "location", Get(team, "name", Null))),
        Get(t.fields, "current", Null),
        Get(t.fields, "previous", Null),
        Get(t.fields, "recordSummary", Str("")),
        Get(t.fields, "points", Str("")),
        Get(t.fields, "firstPlaceVotes", Num(0))))
  }

  /** `teams` after the loop over `poll_data["ranks"]`: the rows in rank order,
      or the first exception a row raises. */
  function RankRows(season: Json, week: Json, poll: map<string, Json>, pollDate: string, ranks: seq<Json>): (r: Result<seq<Row>, ParseError>)
    ensures r.Success? ==> |r.value| == |ranks|
  {
    if |ranks| == 0 then Success([])
    else
      match RankRows(season, week, poll, pollDate, ranks[..|ranks| - 1])
      case Failure(e) => Failure(e)
      case Success(rows) =>
        match RankRow(season, week, poll, pollDate, ranks[|ranks| - 1])
        case Failure(e) => Failure(e)
        case Success(row) => Success(rows + [row])
  }

  /** The table has one row per rank entry, in the same order, each the row
      of its entry; it exists exactly when every entry yields a row. */
  lemma {:induction false} RowPerRank(season: Json, week: Json, poll: map<string, Json>, pollDate: string, ranks: seq<Json>)
    ensures RankRows(season, week, poll, pollDate, ranks).Success? <==>
              forall j :: 0 <= j < |ranks| ==> RankRow(season, week, poll, pollDate, ranks[j]).Success?
    ensures RankRows(season, week, poll, pollDate, ranks).Success? ==>
              forall j :: 0 <= j < |ranks| ==>
                RankRows(season, week, poll, pollDate, ranks).value[j] == RankRow(season, week, poll, pollDate, ranks[j]).value
  {
    if |ranks| > 0 {
      var front, last := ranks[..|ranks| - 1], ranks[|ranks| - 1];
      RowPerRank(season, week, poll, pollDate, front);
      var rowsBefore, row := RankRows(season, week, poll, pollDate, front), RankRow(season, week, poll, pollDate, last);
      forall j | 0 <= j < |front| ensures front[j] == ranks[j] {
      }
      if rowsBefore.Success? && row.Success? {
        var rows := rowsBefore.value + [row.value];
        assert RankRows(season, week, poll, pollDate, ranks) == Success(rows);
        forall j | 0 <= j < |ranks| ensures rows[j] == RankRow(season, week, poll, pollDate, ranks[j]).value {
          if j < |front| {
            assert rows[j] == rowsBefore.value[j];
          }
        }
      }
    }
  }

  /** Every row of one poll carries the poll's `shortName` and its date. */
  lemma SamePollOnEveryRow(season: Json, week: Json, poll: map<string, Json>, pollDate: string, ranks: seq<Json>)
    requires RankRows(season, week, poll, pollDate, ranks).Success?
    ensures "shortName" in poll || ranks == []
    ensures forall j :: 0 <= j < |ranks| ==>
              && RankRows(season, week, poll, pollDate, ranks).value[j].pollName == poll["shortName"]
              && RankRows(season, week, poll, pollDate, ranks).value[j].pollDate == pollDate
  {
    RowPerRank(season, week, poll, pollDate, ranks);
    if ranks != [] {
      assert RankRow(season, week, poll, pollDate, ranks[0]).Success?;
    }
  }

  /** Once a row raises, the loop over the ranks raises the same exception. */
  lemma {:induction false} FailureStopsRows(season: Json, week: Json, poll: map<string, Json>, pollDate: string, ranks: seq<Json>, k: nat)
    requires k <= |ranks| && RankRows(season, week, poll, pollDate, ranks[..k]).Failure?
    ensures RankRows(season, week, poll, pollDate, ranks) == RankRows(season, week, poll, pollDate, ranks[..k])
    decreases |ranks| - k
  {
    if k < |ranks| {
      assert ranks[..k + 1][..k] == ranks[..k];
      FailureStopsRows(season, week, poll, pollDate, ranks, k + 1);
    } else {
      assert ranks[..k] == ranks;
    }
  }

  /** One more rank entry: its row is appended, or its exception raised,
      unless an earlier entry already raised. */
  lemma RankRowsStep(season: Json, week: Json, poll: map<string, Json>, pollDate: string, ranks: seq<Json>, i: nat)
    requires i < |ranks| && RankRows(season, week, poll, pollDate, ranks[..i]).Success?
    ensures var row := RankRow(season, week, poll, pollDate, ranks[i]);
            RankRows(season, week, poll, pollDate, ranks[..i + 1]) ==
              if row.Failure? then Failure(row.error)
              else Success(RankRows(season, week, poll, pollDate, ranks[..i]).value + [row.value])
  {
    assert ranks[..i + 1][..i] == ranks[..i] && ranks[..i + 1][i] == ranks[i];
  }

  /** The loop over `poll_data["ranks"]` that appends one dict per entry. */
  method FlattenRanks(season: Json, week: Json, poll: map<string, Json>, pollDate: string, ranks: seq<Json>)
    returns (teams: Result<seq<Row>, ParseError>)
    ensures teams == RankRows(season, week, poll, pollDate, ranks)
  {
    var rows: seq<Row> := [];
    for i := 0 to |ranks|
      invariant RankRows(season, week, poll, pollDate, ranks[..i]) == Success(rows)
    {
      RankRowsStep(season, week, poll, pollDate, ranks, i);
      var row := RankRow(season, week, poll, pollDate, ranks[i]);
      if row.Failure? {
        FailureStopsRows(season, week, poll, pollDate, ranks, i + 1);
        return Failure(row.error);
      }
      rows := rows + [row.value];
    }
    assert ranks[..|ranks|] == ranks;
    return Success(rows);
  }

  /** One turn of the loop over `polls_to_extract`, for the poll labelled
      `label`: `None` when no entry matches (the "not found" branch),
      otherwise the poll's rows, or the exception raised on the way. */
  function PollRows(data: map<string, Json>, name: string, reformat: string -> Option<string>): Result<Option<seq<Row>>, ParseError> {
    if "rankings" !in data then Failure(MissingKey("rankings"))
    else if !data["rankings"].Arr? then Failure(NotAList("rankings"))
    else
      match FindPoll(data["rankings"].items, name)
      case Failure(e) => Failure(e)
      case Success(None) => Success(None)
      case Success(Some(poll)) =>
        if "date" !in poll then Failure(MissingKey("date"))
        else if !poll["date"].Str? then Failure(NotAString("date"))
        else if reformat(poll["date"].s).None? then Failure(BadDate(poll["date"].s))
        else if "ranks" !in poll then Failure(MissingKey("ranks"))
        else if !poll["ranks"].Arr? then Failure(NotAList("ranks"))
        else
          match RankRows(LatestSeason(data), LatestWeek(data), poll, reformat(poll["date"].s).value, poll["ranks"].items)
          case Failure(e) => Failure(e)
          case Success(rows) => Success(Some(rows))
  }

  /** `poll_dfs` after the loop over the first `|polls|` polls, or the first
      exception raised. */
  function ParsedPolls(data: map<string, Json>, reformat: string -> Option<string>, polls: seq<(string, string)>): Result<map<string, seq<Row>>, ParseError> {
    if |polls| == 0 then Success(map[])
    else
      match ParsedPolls(data, reformat, polls[..|polls| - 1])
      case Failure(e) => Failure(e)
      case Success(dfs) =>
        match PollRows(data, polls[|polls| - 1].1, reformat)
        case Failure(e) => Failure(e)
        case Success(None) => Success(dfs)
        case Success(Some(rows)) => Success(dfs[polls[|polls| - 1].0 := rows])
  }

  /** What `parse_rankings_data(data)` returns, or the exception it raises.
      `reformat` stands for `strptime(..., "%Y-%m-%dT%H:%MZ").strftime("%Y-%m-%d")`,
      `None` where `strptime` raises. */
  function Parsed(data: map<string, Json>, reformat: string -> Option<string>): Result<map<string, seq<Row>>, ParseError> {
    ParsedPolls(data, reformat, Polls)
  }

  /** The body of the loop over `polls_to_extract` for one poll. */
  method ParsePoll(data: map<string, Json>, name: string, reformat: string -> Option<string>)
    returns (r: Result<Option<seq<Row>>, ParseError>)
    ensures r == PollRows(data, name, reformat)
  {
    if "rankings" !in data {
      return Failure(MissingKey("rankings"));
    }
    if !data["rankings"].Arr? {
      return Failure(NotAList("rankings"));
    }
    var pollData := FindPoll(data["rankings"].items, name);
    if pollData.Failure? {
      return Failure(pollData.error);
    }
    if pollData.value.None? {
      return Success(None);
    }
    var poll := pollData.value.value;
    if "date" !in poll {
      return Failure(MissingKey("date"));
    }
    if !poll["date"].Str? {
      return Failure(NotAString("date"));
    }
    var pollDate := reformat(poll["date"].s);
    if pollDate.None? {
      return Failure(BadDate(poll["date"].s));
    }
    if "ranks" !in poll {
      return Failure(MissingKey("ranks"));
    }
    if !poll["ranks"].Arr? {
      return Failure(NotAList("ranks"));
    }
    var teams := FlattenRanks(LatestSeason(data), LatestWeek(data), poll, pollDate.value, poll["ranks"].items);
    if teams.Failure? {
      return Failure(teams.error);
    }
    return Success(Some(teams.value));
  }

  /** Once a poll raises, the loop over the polls raises the same exception. */
  lemma {:induction false} FailureStopsPolls(data: map<string, Json>, reformat: string -> Option<string>, polls: seq<(string, string)>, k: nat)
    requires k <= |polls| && ParsedPolls(data, reformat, polls[..k]).Failure?
    ensures ParsedPolls(data, reformat, polls) == ParsedPolls(data, reformat, polls[..k])
    decreases |polls| - k
  {
    if k < |polls| {
      assert polls[..k + 1][..k] == polls[..k];
      FailureStopsPolls(data, reformat, polls, k + 1);
    } else {
      assert polls[..k] == polls;
    }
  }

  /** `parse_rankings_data` itself: the loop over `polls_to_extract` that
      fills `poll_dfs` key by key. */
  method ParseRankingsData(data: map<string, Json>, reformat: string -> Option<string>)
    returns (result: Result<map<string, seq<Row>>, ParseError>)
    ensures result == Parsed(data, reformat)
  {
    var pollDfs: map<string, seq<Row>> := map[];
    for p := 0 to |Polls|
      invariant ParsedPolls(data, reformat, Polls[..p]) == Success(pollDfs)
    {
      assert Polls[..p + 1][..p] == Polls[..p];
      var key, name := Polls[p].0, Polls[p].1;
      var pollData := ParsePoll(data, name, reformat);
      if pollData.Failure? {
        FailureStopsPolls(data, reformat, Polls, p + 1);
        return Failure(pollData.error);
      }
      if pollData.value.Some? {
        pollDfs := pollDfs[key := pollData.value.value];
      }
    }
    assert Polls[..|Polls|] == Polls;
    return Success(pollDfs);
  }

  /** A successful run has read every poll: each poll's turn succeeded, its
      key is present exactly when a poll was found, and then holds that
      poll's rows. */
  lemma {:induction false} EveryPollRead(data: map<string, Json>, reformat: string -> Option<string>, polls: seq<(string, string)>, p: nat)
    requires p < |polls| && ParsedPolls(data, reformat, polls).Success?
    requires forall q :: 0 <= q < |polls| && q != p ==> polls[q].0 != polls[p].0
    ensures PollRows(data, polls[p].1, reformat).Success?
    ensures polls[p].0 in ParsedPolls(data, reformat, polls).value <==> PollRows(data, polls[p].1, reformat).value.Some?
    ensures polls[p].0 in ParsedPolls(data, reformat, polls).value ==>
              ParsedPolls(data, reformat, polls).value[polls[p].0] == PollRows(data, polls[p].1, reformat).value.value
  {
    var front := polls[..|polls| - 1];
    if p < |polls| - 1 {
      assert front[p] == polls[p];
      forall q | 0 <= q < |front| && q != p ensures front[q].0 != front[p].0 {
        assert front[q] == polls[q];
      }
      EveryPollRead(data, reformat, front, p);
    } else {
      forall q | 0 <= q < |front| ensures front[q].0 != polls[p].0 {
        assert front[q] == polls[q];
      }
      FreshKeyAbsent(data, reformat, front, polls[p].0);
    }
  }

  /** A key that no poll in the list carries is not in the result. */
  lemma {:induction false} FreshKeyAbsent(data: map<string, Json>, reformat: string -> Option<string>, polls: seq<(string, string)>, key: string)
    requires ParsedPolls(data, reformat, polls).Success?
    requires forall q :: 0 <= q < |polls| ==> polls[q].0 != key
    ensures key !in ParsedPolls(data, reformat, polls).value
  {
    if |polls| > 0 {
      var front := polls[..|polls| - 1];
      forall q | 0 <= q < |front| ensures front[q].0 != key {
        assert front[q] == polls[q];
      }
      FreshKeyAbsent(data, reformat, front, key);
    }
  }

  /** The result's keys are among the polls' keys. */
  lemma {:induction false} KeysArePollKeys(data: map<string, Json>, reformat: string -> Option<string>, polls: seq<(string, string)>)
    requires ParsedPolls(data, reformat, polls).Success?
    ensures forall key :: key in ParsedPolls(data, reformat, polls).value ==> exists q :: 0 <= q < |polls| && polls[q].0 == key
  {
    if |polls| > 0 {
      var front := polls[..|polls| - 1];
      KeysArePollKeys(data, reformat, front);
      forall key | key in ParsedPolls(data, reformat, polls).value
        ensures exists q :: 0 <= q < |polls| && polls[q].0 == key
      {
        if key != polls[|polls| - 1].0 {
          var q :| 0 <= q < |front| && front[q].0 == key;
          assert polls[q] == front[q];
        }
      }
    }
  }

  /** The result has no key besides "AP" and "Coaches". */
  lemma ResultKeys(data: map<string, Json>, reformat: string -> Option<string>)
    requires Parsed(data, reformat).Success?
    ensures forall key :: key in Parsed(data, reformat).value ==> key == "AP" || key == "Coaches"
  {
    KeysArePollKeys(data, reformat, Polls);
  }

  /** After a successful run, a poll's key is present exactly when some
      entry of `data["rankings"]` has a name containing the poll's label,
      case aside. */
  lemma PollPresentIffNamed(data: map<string, Json>, reformat: string -> Option<string>, p: nat)
    requires p < |Polls| && Parsed(data, reformat).Success?
    ensures "rankings" in data && data["rankings"].Arr?
    ensures Polls[p].0 in Parsed(data, reformat).value <==>
              exists j :: 0 <= j < |data["rankings"].items| && NameMatches(data["rankings"].items[j], Polls[p].1)
  {
    EveryPollRead(data, reformat, Polls, p);
    var entries := data["rankings"].items;
    NotFoundIffNoMatch(entries, Polls[p].1);
    if Polls[p].0 !in Parsed(data, reformat).value {
      assert FindPoll(entries, Polls[p].1) == Success(None);
      assert NoEarlierMatch(entries, Polls[p].1, |entries|);
    }
  }

  /** A poll's table is built from the first entry whose name contains the
      poll's label: one row per rank entry, in order, each the row of its
      entry, all carrying the poll's `shortName` and reformatted date. */
  lemma PollTable(data: map<string, Json>, reformat: string -> Option<string>, p: nat) returns (i: nat)
    requires p < |Polls| && Parsed(data, reformat).Success? && Polls[p].0 in Parsed(data, reformat).value
    ensures "rankings" in data && data["rankings"].Arr?
    ensures var entries := data["rankings"].items;
            i < |entries| && NameMatches(entries[i], Polls[p].1) && NoEarlierMatch(entries, Polls[p].1, i)
    ensures var poll := data["rankings"].items[i].fields;
            && "date" in poll && poll["date"].Str? && reformat(poll["date"].s).Some?
            && "ranks" in poll && poll["ranks"].Arr?
            && var rows, ranks, date := Parsed(data, reformat).value[Polls[p].0], poll["ranks"].items, reformat(poll["date"].s).value;
               && |rows| == |ranks|
               && (forall j :: 0 <= j < |ranks| ==>
                     RankRow(LatestSeason(data), LatestWeek(data), poll, date, ranks[j]) == Success(rows[j]))
               && (forall j :: 0 <= j < |rows| ==> rows[j].pollName == poll["shortName"] && rows[j].pollDate == date)
  {
    EveryPollRead(data, reformat, Polls, p);
    var entries := data["rankings"].items;
    i := FoundIsFirstMatch(entries, Polls[p].1);
    var poll := entries[i].fields;
    var date := reformat(poll["date"].s).value;
    var ranks := poll["ranks"].items;
    RowPerRank(LatestSeason(data), LatestWeek(data), poll, date, ranks);
    SamePollOnEveryRow(LatestSeason(data), LatestWeek(data), poll, date, ranks);
  }

  /** With no `latestSeason` (or no `latestWeek`) in the document, every row
      says "N/A" for the season year (or the week number). */
  lemma MissingSeasonOrWeekIsNA(data: map<string, Json>, poll: map<string, Json>, pollDate: string, ranks: seq<Json>)
    requires RankRows(LatestSeason(data), LatestWeek(data), poll, pollDate, ranks).Success?
    ensures "latestSeason" !in data ==>
              forall j :: 0 <= j < |ranks| ==>
                RankRows(LatestSeason(data), LatestWeek(data), poll, pollDate, ranks).value[j].seasonYear == Str("N/A")
    ensures "latestWeek" !in data ==>
              forall j :: 0 <= j < |ranks| ==>
                RankRows(LatestSeason(data), LatestWeek(data), poll, pollDate, ranks).value[j].weekNumber == Str("N/A")
  {
    RowPerRank(LatestSeason(data), LatestWeek(data), poll, pollDate, ranks);
  }

  /** A document without `rankings` raises `KeyError` on the first poll. */
  lemma MissingRankingsRaises(data: map<string, Json>, reformat: string -> Option<string>)
    requires "rankings" !in data
    ensures Parsed(data, reformat) == Failure(MissingKey("rankings"))
  {
    assert Polls[..1] == [Polls[0]] && Polls[..1][..0] == [];
    FailureStopsPolls(data, reformat, Polls, 1);
  }
}

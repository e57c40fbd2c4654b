/** What processing one file asks of the database: the statements, in order,
    that `process_song_file` and `process_log_file` issue for a parsed file,
    or the error that stops them before the first one. */
module Transform {
  import opened Records
  import Calendar

  /** What the song lookup returns for a key: the matching (song_id, artist_id), if any. */
  function Lookup(songs: map<SongKey, SongMatch>, key: SongKey): Option<SongMatch> {
    if key in songs then Some(songs[key]) else None
  }

  // ---------------------------------------------------------------- song files

  /** The statements for a song file: insert the song, then the artist, both
      projected from the first row. */
  function SongFileStatements(frame: Frame): Result<seq<Statement>, Error> {
    match frame
    case LogFrame(_) => Failure(MissingColumn("song_id"))
    case SongFrame(rows) =>
      if |rows| == 0 then Failure(NoRows)
      else Success([SongInsert(SongOf(rows[0])), ArtistInsert(ArtistOf(rows[0]))])
  }

  /** A song file fails exactly when it has no rows; otherwise it yields a song
      insert and then an artist insert, both exactly the projections of row 0
      and sharing its artist_id. */
  lemma SongFileContract(rows: seq<SongRow>)
    ensures SongFileStatements(SongFrame(rows)).Failure? <==> rows == []
    ensures rows == [] ==> SongFileStatements(SongFrame(rows)) == Failure(NoRows)
    ensures rows != [] ==>
      var r := rows[0];
      SongFileStatements(SongFrame(rows)) == Success([
        SongInsert(SongData(r.songId, r.title, r.artistId, r.year, r.duration)),
        ArtistInsert(ArtistData(r.artistId, r.artistName, r.artistLocation, r.artistLatitude, r.artistLongitude))])
  {
  }

  /** Only the first row of a song file matters. */
  lemma SongFileFirstRowOnly(rows: seq<SongRow>)
    requires rows != []
    ensures SongFileStatements(SongFrame(rows)) == SongFileStatements(SongFrame([rows[0]]))
  {
  }

  /** The song and the artist a song file inserts carry the same artist_id. */
  lemma SongArtistShareId(frame: Frame)
    requires SongFileStatements(frame).Success?
    ensures var s := SongFileStatements(frame).value;
      |s| == 2 && s[0].SongInsert? && s[1].ArtistInsert? && s[0].song.artistId == s[1].artist.artistId
  {
  }

  // ----------------------------------------------------------------- log files

  predicate IsNextSong(row: LogRow) {
    row.page == "NextSong"
  }

  /** The playback events of a log: the rows whose page is "NextSong", in order. */
  function NextSongRows(rows: seq<LogRow>): (r: seq<LogRow>)
    ensures |r| <= |rows|
    ensures forall i :: 0 <= i < |r| ==> r[i].page == "NextSong"
  {
    if rows == [] then []
    else if IsNextSong(rows[0]) then [rows[0]] + NextSongRows(rows[1..])
    else NextSongRows(rows[1..])
  }

  /** a occurs in b in the same relative order, possibly with gaps. */
  predicate IsSubsequence(a: seq<LogRow>, b: seq<LogRow>)
    decreases |b|
  {
    if a == [] then true
    else if b == [] then false
    else if a[0] == b[0] then IsSubsequence(a[1..], b[1..])
    else IsSubsequence(a, b[1..])
  }

  /** The filter keeps exactly the NextSong rows, in their original order. */
  lemma {:induction false} NextSongFilter(rows: seq<LogRow>)
    ensures IsSubsequence(NextSongRows(rows), rows)
    ensures forall x :: x in NextSongRows(rows) <==> x in rows && IsNextSong(x)
  {
    if rows != [] {
      NextSongFilter(rows[1..]);
      assert rows == [rows[0]] + rows[1..];
    }
  }

  /** A log of playback events only passes the filter unchanged. */
  lemma {:induction false} NextSongFilterKeepsAll(rows: seq<LogRow>)
    requires forall i :: 0 <= i < |rows| ==> IsNextSong(rows[i])
    ensures NextSongRows(rows) == rows
  {
    if rows != [] {
      NextSongFilterKeepsAll(rows[1..]);
    }
  }

  lemma {:induction false} NextSongRowsAppend(a: seq<LogRow>, b: seq<LogRow>)
    ensures NextSongRows(a + b) == NextSongRows(a) + NextSongRows(b)
  {
    if a == [] {
      assert a + b == b;
    } else {
      assert (a + b)[0] == a[0];
      assert (a + b)[1..] == a[1..] + b;
      NextSongRowsAppend(a[1..], b);
      var head := if IsNextSong(a[0]) then [a[0]] else [];
      assert NextSongRows(a + b) == head + NextSongRows(a[1..] + b);
      assert NextSongRows(a) == head + NextSongRows(a[1..]);
    }
  }

  /** time_df: the time row of every event, in order. */
  function TimeRows(events: seq<LogRow>): seq<TimeData> {
    if events == [] then []
    else TimeRows(events[..|events| - 1]) + [TimeOf(events[|events| - 1].ts)]
  }

  lemma {:induction false} TimeRowsAt(events: seq<LogRow>)
    ensures |TimeRows(events)| == |events|
    ensures forall k :: 0 <= k < |events| ==> TimeRows(events)[k] == TimeOf(events[k].ts)
  {
    if events != [] {
      var init := events[..|events| - 1];
      TimeRowsAt(init);
      assert TimeRows(events) == TimeRows(init) + [TimeOf(events[|events| - 1].ts)];
      forall k | 0 <= k < |init|
        ensures TimeRows(events)[k] == TimeOf(events[k].ts)
      {
        assert events[k] == init[k];
      }
    }
  }

  /** The inserts of time_df's rows, in order. */
  function TimeInserts(times: seq<TimeData>): seq<Statement> {
    if times == [] then []
    else TimeInserts(times[..|times| - 1]) + [TimeInsert(times[|times| - 1])]
  }

  /** user_df's inserts, one per event, in order. */
  function UserInserts(rows: seq<LogRow>): seq<Statement> {
    if rows == [] then []
    else UserInserts(rows[..|rows| - 1]) + [UserInsert(UserOf(rows[|rows| - 1]))]
  }

  /** Per event: the song lookup, immediately followed by the songplay insert. */
  function SongplayStatements(rows: seq<LogRow>, songs: map<SongKey, SongMatch>): seq<Statement> {
    if rows == [] then []
    else
      var row := rows[|rows| - 1];
      SongplayStatements(rows[..|rows| - 1], songs)
        + [SongSelect(KeyOf(row)), SongplayInsert(SongplayOf(row, Lookup(songs, KeyOf(row))))]
  }

  /** The statements for a log file: all time inserts, then all user inserts,
      then lookup and songplay insert per event. */
  function LogFileStatements(frame: Frame, songs: map<SongKey, SongMatch>): Result<seq<Statement>, Error> {
    match frame
    case SongFrame(_) => Failure(MissingColumn("page"))
    case LogFrame(rows) =>
      var events := NextSongRows(rows);
      Success(LogStatements(events, TimeRows(events), songs))
  }

  lemma {:induction false} TimeInsertsAt(times: seq<TimeData>)
    ensures |TimeInserts(times)| == |times|
    ensures forall k :: 0 <= k < |times| ==> TimeInserts(times)[k] == TimeInsert(times[k])
  {
    if times != [] {
      TimeInsertsAt(times[..|times| - 1]);
    }
  }

  lemma {:induction false} UserInsertsAt(rows: seq<LogRow>)
    ensures |UserInserts(rows)| == |rows|
    ensures forall k :: 0 <= k < |rows| ==> UserInserts(rows)[k] == UserInsert(UserOf(rows[k]))
  {
    if rows != [] {
      UserInsertsAt(rows[..|rows| - 1]);
    }
  }

  lemma {:induction false} SongplayStatementsAt(rows: seq<LogRow>, songs: map<SongKey, SongMatch>)
    ensures |SongplayStatements(rows, songs)| == 2 * |rows|
    ensures forall k :: 0 <= k < |rows| ==>
      SongplayStatements(rows, songs)[2 * k] == SongSelect(KeyOf(rows[k])) &&
      SongplayStatements(rows, songs)[2 * k + 1] ==
        SongplayInsert(SongplayOf(rows[k], Lookup(songs, KeyOf(rows[k]))))
  {
    if rows != [] {
      SongplayStatementsAt(rows[..|rows| - 1], songs);
    }
  }

  /** The statements of a log file with events e and time rows times. */
  function LogStatements(e: seq<LogRow>, times: seq<TimeData>, songs: map<SongKey, SongMatch>): seq<Statement> {
    TimeInserts(times) + UserInserts(e) + SongplayStatements(e, songs)
  }

  /** For n events and their n time rows: the n time inserts, then the n user
      inserts, then for each event its lookup and its songplay insert. */
  lemma LogStatementsLayout(e: seq<LogRow>, times: seq<TimeData>, songs: map<SongKey, SongMatch>)
    requires |times| == |e|
    ensures var n, s := |e|, LogStatements(e, times, songs);
      |s| == 4 * n &&
      (forall k :: 0 <= k < n ==> s[k] == TimeInsert(times[k])) &&
      (forall k :: 0 <= k < n ==> s[n + k] == UserInsert(UserOf(e[k]))) &&
      (forall k :: 0 <= k < n ==> s[2 * n + 2 * k] == SongSelect(KeyOf(e[k]))) &&
      (forall k :: 0 <= k < n ==>
         s[2 * n + 2 * k + 1] == SongplayInsert(SongplayOf(e[k], Lookup(songs, KeyOf(e[k])))))
  {
    TimeInsertsAt(times);
    UserInsertsAt(e);
    SongplayStatementsAt(e, songs);
    ThreeParts(TimeInserts(times), UserInserts(e), SongplayStatements(e, songs));
  }

  /** Where the parts of t + u + p sit, for parts of n, n and 2n statements. */
  lemma ThreeParts(t: seq<Statement>, u: seq<Statement>, p: seq<Statement>)
    requires |t| == |u| && |p| == 2 * |t|
    ensures var n, s := |t|, t + u + p;
      (forall k :: 0 <= k < n ==> s[k] == t[k] && s[n + k] == u[k]) &&
      (forall k :: 0 <= k < n ==> s[2 * n + 2 * k] == p[2 * k] && s[2 * n + 2 * k + 1] == p[2 * k + 1])
  {
  }

  /** The tables a log file inserts into. */
  datatype Table = TimeTable | UserTable | SongplayTable

  predicate InsertsInto(st: Statement, t: Table) {
    match t
    case TimeTable => st.TimeInsert?
    case UserTable => st.UserInsert?
    case SongplayTable => st.SongplayInsert?
  }

  /** How many statements of s insert into table t. */
  function Count(s: seq<Statement>, t: Table): nat {
    if s == [] then 0 else (if InsertsInto(s[0], t) then 1 else 0) + Count(s[1..], t)
  }

  lemma {:induction false} CountAppend(a: seq<Statement>, b: seq<Statement>, p: Table)
    ensures Count(a + b, p) == Count(a, p) + Count(b, p)
  {
    if a == [] {
      assert a + b == b;
    } else {
      assert (a + b)[0] == a[0];
      assert (a + b)[1..] == a[1..] + b;
      CountAppend(a[1..], b, p);
      assert Count(a + b, p) == (if InsertsInto(a[0], p) then 1 else 0) + Count(a[1..] + b, p);
    }
  }

  lemma {:induction false} TimeInsertCounts(times: seq<TimeData>)
    ensures Count(TimeInserts(times), TimeTable) == |times|
    ensures Count(TimeInserts(times), UserTable) == 0
    ensures Count(TimeInserts(times), SongplayTable) == 0
  {
    if times != [] {
      var init := times[..|times| - 1];
      TimeInsertCounts(init);
      CountAppend(TimeInserts(init), [TimeInsert(times[|times| - 1])], TimeTable);
      CountAppend(TimeInserts(init), [TimeInsert(times[|times| - 1])], UserTable);
      CountAppend(TimeInserts(init), [TimeInsert(times[|times| - 1])], SongplayTable);
    }
  }

  lemma {:induction false} UserInsertCounts(rows: seq<LogRow>)
    ensures Count(UserInserts(rows), TimeTable) == 0
    ensures Count(UserInserts(rows), UserTable) == |rows|
    ensures Count(UserInserts(rows), SongplayTable) == 0
  {
    if rows != [] {
      var init := rows[..|rows| - 1];
      UserInsertCounts(init);
      CountAppend(UserInserts(init), [UserInsert(UserOf(rows[|rows| - 1]))], TimeTable);
      CountAppend(UserInserts(init), [UserInsert(UserOf(rows[|rows| - 1]))], UserTable);
      CountAppend(UserInserts(init), [UserInsert(UserOf(rows[|rows| - 1]))], SongplayTable);
    }
  }

  lemma {:induction false} SongplayCounts(rows: seq<LogRow>, songs: map<SongKey, SongMatch>)
    ensures Count(SongplayStatements(rows, songs), TimeTable) == 0
    ensures Count(SongplayStatements(rows, songs), UserTable) == 0
    ensures Count(SongplayStatements(rows, songs), SongplayTable) == |rows|
  {
    if rows != [] {
      var init, row := rows[..|rows| - 1], rows[|rows| - 1];
      SongplayCounts(init, songs);
      var pair := [SongSelect(KeyOf(row)), SongplayInsert(SongplayOf(row, Lookup(songs, KeyOf(row))))];
      assert SongplayStatements(rows, songs) == SongplayStatements(init, songs) + pair;
      assert Count(pair, TimeTable) == 0 && Count(pair, UserTable) == 0 && Count(pair, SongplayTable) == 1 by {
        assert pair[1..] == [pair[1]];
        assert pair[1..][1..] == [];
        assert Count([pair[1]], TimeTable) == 0;
        assert Count([pair[1]], UserTable) == 0;
        assert Count([pair[1]], SongplayTable) == 1;
      }
      CountAppend(SongplayStatements(init, songs), pair, TimeTable);
      CountAppend(SongplayStatements(init, songs), pair, UserTable);
      CountAppend(SongplayStatements(init, songs), pair, SongplayTable);
    }
  }

  /** A log file yields exactly as many time, user and songplay inserts as it
      has NextSong rows. */
  lemma LogFileCounts(rows: seq<LogRow>, songs: map<SongKey, SongMatch>)
    ensures var s := LogFileStatements(LogFrame(rows), songs).value;
      var n := |NextSongRows(rows)|;
      Count(s, TimeTable) == n &&
      Count(s, UserTable) == n &&
      Count(s, SongplayTable) == n
  {
    var e := NextSongRows(rows);
    TimeRowsAt(e);
    TimeInsertCounts(TimeRows(e));
    UserInsertCounts(e);
    SongplayCounts(e, songs);
    var t, u, p := TimeInserts(TimeRows(e)), UserInserts(e), SongplayStatements(e, songs);
    CountAppend(t + u, p, TimeTable);
    CountAppend(t, u, TimeTable);
    CountAppend(t + u, p, UserTable);
    CountAppend(t, u, UserTable);
    CountAppend(t + u, p, SongplayTable);
    CountAppend(t, u, SongplayTable);
  }

  /** A row whose page is not "NextSong" contributes nothing, wherever it stands. */
  lemma OtherPagesIgnored(a: seq<LogRow>, x: LogRow, b: seq<LogRow>, songs: map<SongKey, SongMatch>)
    requires !IsNextSong(x)
    ensures LogFileStatements(LogFrame(a + [x] + b), songs) == LogFileStatements(LogFrame(a + b), songs)
  {
    NextSongRowsAppend(a + [x], b);
    NextSongRowsAppend(a, [x]);
    NextSongRowsAppend(a, b);
    assert NextSongRows([x]) == [];
    assert a + [x] + b == (a + [x]) + b;
    assert NextSongRows(a + [x] + b) == NextSongRows(a + b);
  }

  /** A songplay takes the lookup's (song_id, artist_id) when it finds the key,
      and null for both otherwise; the event's user, level, session, location
      and user agent pass through unchanged, and start_time is the instant ts. */
  lemma SongplayResolution(row: LogRow, songs: map<SongKey, SongMatch>)
    ensures var p := SongplayOf(row, Lookup(songs, KeyOf(row)));
      (KeyOf(row) in songs ==>
         p.songId == Some(songs[KeyOf(row)].songId) && p.artistId == Some(songs[KeyOf(row)].artistId)) &&
      (KeyOf(row) !in songs ==> p.songId == None && p.artistId == None) &&
      (p.songId.None? <==> p.artistId.None?) &&
      p.userId == row.userId && p.level == row.level && p.sessionId == row.sessionId &&
      p.location == row.location && p.userAgent == row.userAgent &&
      p.startTime == Calendar.Timestamp(row.ts)
  {
  }

  /** The time row of ts: start_time is ts itself; (year, month, day) is the
      valid calendar date of the UTC day z = ts div 86400000, i.e. the date
      whose day number is z; the hour is the whole hours since the epoch
      modulo 24; the weekday is z's, Monday = 0; and the week is the ISO week,
      within its ISO year, that holds z. */
  lemma TimeFields(ts: int)
    ensures var t, z := TimeOf(ts), ts / 86400000;
      var d := Calendar.Date(t.year, t.month, t.day);
      t.startTime == ts &&
      Calendar.ValidDate(d) && Calendar.DaysFromCivil(d) == z &&
      0 <= t.hour <= 23 && t.hour == ts / 3600000 % 24 &&
      0 <= t.weekday <= 6 && t.weekday == Calendar.Weekday(z) &&
      exists iy :: Calendar.InIsoWeek(z, Calendar.IsoWeekDate(iy, t.week))
  {
    var z := ts / 86400000;
    Calendar.FromEpochMsValid(ts);
    Calendar.HourOfDay(ts);
    Calendar.WeekdayFacts(z);
    Calendar.IsoWeekOfCorrect(z);
    var w := Calendar.IsoWeekOf(z);
    assert Calendar.InIsoWeek(z, Calendar.IsoWeekDate(w.isoYear, TimeOf(ts).week));
  }

  /** The event at 1541121934796 ms is 2018-11-02 01:25:34.796 UTC, a Friday in ISO week 44. */
  lemma TimeOfExample()
    ensures TimeOf(1541121934796) == TimeData(1541121934796, 1, 2, 44, 11, 2018, 4)
  {
    Calendar.AutumnDayExample();
    Calendar.AutumnWeekExample();
    assert 1541121934796 / 86400000 == 17837;
  }

  /** 2018-12-31 is in calendar year 2018 but ISO week 1 (of ISO year 2019):
      the week and year columns of a time row may belong to different years. */
  lemma YearEndWeekExample()
    ensures var t := TimeOf(1546214400000);
      t.year == 2018 && t.month == 12 && t.day == 31 && t.week == 1
  {
    Calendar.YearEndDayExample();
    Calendar.YearEndWeekExample();
    assert 1546214400000 / 86400000 == 17896;
  }
}

/** The pipeline itself: the two file processors and the driver that walks a
    data directory, hands every file to one of them and commits after each.
    Each method issues its statements on a Database.Cursor one at a time and is
    proved to issue exactly the statements Transform and Pipeline specify. */
module Etl {
  import opened Records
  import opened Transform
  import opened Pipeline
  import opened Database
  import Calendar

  /** process_song_file: insert the song, then the artist, of the file's first row. */
  method ProcessSongFile(cur: Cursor, frame: Frame) returns (outcome: Outcome<Error>)
    modifies cur
    ensures Issued(SongFileStatements(frame), old(cur.statements), cur.statements, outcome)
    ensures cur.statements != old(cur.statements) ==> cur.pending == []
    ensures cur.statements == old(cur.statements) ==> cur.pending == old(cur.pending)
  {
    if frame.LogFrame? {
      return Fail(MissingColumn("song_id"));
    }
    var rows := frame.songRows;
    if |rows| == 0 {
      return Fail(NoRows);
    }
    var songData := SongOf(rows[0]);
    cur.Execute(SongInsert(songData));
    var artistData := ArtistOf(rows[0]);
    cur.Execute(ArtistInsert(artistData));
    return Pass;
  }

  /** process_log_file: keep the NextSong events, insert every event's time
      row, then every event's user, then for each event look its song up and
      insert its songplay. */
  method ProcessLogFile(cur: Cursor, frame: Frame) returns (outcome: Outcome<Error>)
    modifies cur
    ensures Issued(LogFileStatements(frame, cur.songs), old(cur.statements), cur.statements, outcome)
    ensures cur.statements != old(cur.statements) ==> cur.pending == []
    ensures cur.statements == old(cur.statements) ==> cur.pending == old(cur.pending)
  {
    if frame.SongFrame? {
      return Fail(MissingColumn("page"));
    }
    var events := NextSongRows(frame.logRows);
    var times := TimeRows(events);
    ghost var s0 := cur.statements;
    InsertTimes(cur, times);
    InsertUsers(cur, events);
    InsertSongplays(cur, events);
    AppendThree(s0, TimeInserts(times), UserInserts(events), SongplayStatements(events, cur.songs));
    return Pass;
  }

  /** Running three batches one after the other adds the three in order. */
  lemma AppendThree(s: seq<Statement>, t: seq<Statement>, u: seq<Statement>, p: seq<Statement>)
    ensures s + t + u + p == s + (t + u + p)
  {
  }

  /** The time_df loop: one time insert per row, in order. */
  method InsertTimes(cur: Cursor, times: seq<TimeData>)
    modifies cur
    ensures cur.statements == old(cur.statements) + TimeInserts(times)
    ensures times != [] ==> cur.pending == []
    ensures times == [] ==> cur.pending == old(cur.pending)
  {
    var i := 0;
    while i < |times|
      invariant 0 <= i <= |times|
      invariant cur.statements == old(cur.statements) + TimeInserts(times[..i])
      invariant i > 0 ==> cur.pending == []
      invariant i == 0 ==> cur.pending == old(cur.pending)
    {
      cur.Execute(TimeInsert(times[i]));
      assert times[..i + 1][..i] == times[..i];
      i := i + 1;
    }
    assert times[..i] == times;
  }

  /** The user_df loop: one user insert per event, in order. */
  method InsertUsers(cur: Cursor, events: seq<LogRow>)
    modifies cur
    ensures cur.statements == old(cur.statements) + UserInserts(events)
    ensures events != [] ==> cur.pending == []
    ensures events == [] ==> cur.pending == old(cur.pending)
  {
    var i := 0;
    while i < |events|
      invariant 0 <= i <= |events|
      invariant cur.statements == old(cur.statements) + UserInserts(events[..i])
      invariant i > 0 ==> cur.pending == []
      invariant i == 0 ==> cur.pending == old(cur.pending)
    {
      cur.Execute(UserInsert(UserOf(events[i])));
      assert events[..i + 1][..i] == events[..i];
      i := i + 1;
    }
    assert events[..i] == events;
  }

  /** The songplay loop: per event, the song lookup, fetchone with both ids
      null when nothing matched, and the songplay insert. */
  method InsertSongplays(cur: Cursor, events: seq<LogRow>)
    modifies cur
    ensures cur.statements == old(cur.statements) + SongplayStatements(events, cur.songs)
    ensures events != [] ==> cur.pending == []
    ensures events == [] ==> cur.pending == old(cur.pending)
  {
    var i := 0;
    while i < |events|
      invariant 0 <= i <= |events|
      invariant cur.statements == old(cur.statements) + SongplayStatements(events[..i], cur.songs)
      invariant i > 0 ==> cur.pending == []
      invariant i == 0 ==> cur.pending == old(cur.pending)
    {
      var row := events[i];
      cur.Execute(SongSelect(KeyOf(row)));
      var results := cur.FetchOne();
      var songId, artistId;
      if results.Some? {
        songId, artistId := Some(results.value.songId), Some(results.value.artistId);
      } else {
        songId, artistId := None, None;
      }
      var songplay := SongplayData(Calendar.Timestamp(row.ts), row.userId, row.level,
                                   songId, artistId, row.sessionId, row.location, row.userAgent);
      assert songplay == SongplayOf(row, Lookup(cur.songs, KeyOf(row)));
      cur.Execute(SongplayInsert(songplay));
      assert events[..i + 1][..i] == events[..i];
      i := i + 1;
    }
    assert events[..i] == events;
  }

  /** func(cur, datafile), for the processor process_data was given. */
  method ProcessFile(cur: Cursor, handler: Handler, frame: Frame) returns (outcome: Outcome<Error>)
    modifies cur
    ensures Issued(FileStatements(handler, frame, cur.songs), old(cur.statements), cur.statements, outcome)
  {
    match handler
    case SongHandler =>
      outcome := ProcessSongFile(cur, frame);
    case LogHandler =>
      outcome := ProcessLogFile(cur, frame);
  }

  /** all_files: every directory's matches appended in walk order. */
  method CollectFiles(walk: seq<seq<DataFile>>) returns (all: seq<DataFile>)
    ensures all == Flatten(walk)
  {
    all := [];
    var d := 0;
    while d < |walk|
      invariant 0 <= d <= |walk|
      invariant all == Flatten(walk[..d])
    {
      var files := walk[d];
      var j := 0;
      while j < |files|
        invariant 0 <= j <= |files|
        invariant all == Flatten(walk[..d]) + files[..j]
      {
        all := all + [files[j]];
        j := j + 1;
      }
      assert files[..j] == files;
      assert walk[..d + 1][..d] == walk[..d];
      d := d + 1;
    }
    assert walk[..d] == walk;
  }

  /** process_data: list the walk's files, then process them one at a time,
      committing and reporting i/n after each. The first file whose processing
      fails stops the run with its error: the files before it are processed and
      committed, it issues nothing, and none after it is touched. */
  method ProcessData(conn: Connection, walk: seq<seq<DataFile>>, handler: Handler)
    returns (found: nat, progress: seq<(nat, nat)>, outcome: Outcome<Error>)
    modifies conn, conn.cursor
    ensures found == |Flatten(walk)| == TotalFiles(walk)
    ensures var rs := FileResults(handler, Flatten(walk), conn.cursor.songs);
      var k := FirstFailure(rs);
      AllSucceed(rs[..k]) &&
      progress == Progress(k, found) &&
      (if k < |rs| then outcome == Fail(rs[k].error) else outcome == Pass) &&
      conn.cursor.statements == old(conn.cursor.statements) + RunStatements(rs[..k]) &&
      conn.commits == old(conn.commits) + CommitPoints(|old(conn.cursor.statements)|, rs[..k])
  {
    var cur := conn.cursor;
    var files := CollectFiles(walk);
    FlattenContents(walk);
    found := |files|;
    progress := [];
    outcome := Pass;

    ghost var rs := FileResults(handler, files, cur.songs);
    assert |rs| == |files| by { FileResultsAt(handler, files, cur.songs); }
    ghost var s0, c0 := cur.statements, conn.commits;

    var i := 0;
    while i < |files|
      invariant 0 <= i <= |files|
      invariant forall j :: 0 <= j < i ==> rs[j].Success?
      invariant AllSucceed(rs[..i])
      invariant cur.statements == s0 + RunStatements(rs[..i])
      invariant conn.commits == c0 + CommitPoints(|s0|, rs[..i])
      invariant progress == Progress(i, found)
    {
      var o := ProcessListed(cur, handler, files, i, rs);
      if o.Fail? {
        assert FirstFailure(rs) == i;
        outcome := o;
        return;
      }
      assert rs[..i + 1][..i] == rs[..i];
      assert AllSucceed(rs[..i + 1]);
      conn.Commit();
      progress := progress + [(i + 1, found)];
      i := i + 1;
    }
    assert FirstFailure(rs) == i;
    assert rs[..i] == rs;
  }

  /** The loop body's func(cur, datafile) for the i-th listed file: it does
      what that file's entry of the run's results says. */
  method ProcessListed(cur: Cursor, handler: Handler, files: seq<DataFile>, i: nat,
                       ghost rs: seq<Result<seq<Statement>, Error>>)
      returns (outcome: Outcome<Error>)
    requires i < |files|
    requires rs == FileResults(handler, files, cur.songs)
    modifies cur
    ensures |rs| == |files|
    ensures Issued(rs[i], old(cur.statements), cur.statements, outcome)
  {
    FileResultsAt(handler, files, cur.songs);
    outcome := ProcessFile(cur, handler, files[i].frame);
  }
}

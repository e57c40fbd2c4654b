# Sparkify ETL, modelled in Dafny

The Sparkify ETL script (`etl.py`) loads a star schema in PostgreSQL from two directories of JSON-lines files.
It does this in three steps:

- **Song files.** Each song file yields one `songs` row and one `artists` row. Both are projected from the file's
  first line.
- **Log files.** Each log file is first cut down to its playback events, the lines whose `page` is `NextSong`.
  Each event then yields:
  - a `time` row: start time, hour, day, ISO week, month, year and weekday of its epoch-millisecond `ts`;
  - a `users` row;
  - a `songplays` row. The song and artist ids of that row come from a lookup on (song, artist, length). Both ids
    are null when nothing matches.
- **The driver.** `process_data` lists every `*.json` file under a directory tree. It hands each file to one of
  the two processors, commits after each file, and reports `i/n files processed.`.

The model is split as the program is:

| file | module | what it holds |
|---|---|---|
| `calendar.dfy` | `Calendar` | The proleptic Gregorian UTC calendar that the pandas `dt` accessors use. Days since 1970-01-01 become a date. That date is checked against a reference day-number function `DaysFromCivil`. The module also holds the weekday (Monday = 0), the ISO 8601 week date (week 1 is the week that holds 4 January; section 4.1.4 of ISO 8601:2004) and the split of epoch milliseconds into date and time of day. |
| `records.dfy` | `Records` | The parsed rows, the tuples projected from them, and the statements issued to the database. |
| `transform.dfy` | `Transform` | Pure definitions of the statements, in order, that one song file or one log file issues, or the error that stops it. Also the properties of those statements. |
| `pipeline.dfy` | `Pipeline` | Pure definitions for a whole `process_data` run: the file list, each file's result, where the run stops, the statements, the commit points and the progress counter. |
| `database.dfy` | `Database` | A `Cursor` class and a `Connection` class. The cursor logs every executed statement in order and answers the song lookup from a fixed table. The connection records the log length at every commit. |
| `etl.dfy` | `Etl` | The imperative processors and driver. They execute statements one at a time in the source's loops, and each one is proved to issue exactly what `Transform`/`Pipeline` specify. |

## Model

| member | source | states |
|---|---|---|
| `Transform.SongFileContract` | etl.py:19-27 | A song file fails exactly when its frame has no rows, and then with the no-rows error (the frame has its columns but zero rows; see Left out for a file with no lines). Otherwise it issues the song insert `(song_id, title, artist_id, year, duration)` and then the artist insert `(artist_id, artist_name, artist_location, artist_latitude, artist_longitude)`, both taken from row 0. |
| `Transform.SongFileFirstRowOnly` | etl.py:22-26 | Only the first row of a song file matters. |
| `Transform.SongArtistShareId` | etl.py:22-27 | A song file's two statements are a song insert and then an artist insert, and both carry the same artist_id. |
| `Transform.NextSongRows` | etl.py:48 | The filter is no longer than its input, and every row it keeps has page `NextSong`. |
| `Transform.NextSongFilter` | etl.py:48 | The filtered rows are a subsequence of the log, so order is kept. A row is kept exactly when it is in the log and its page is `NextSong`. |
| `Transform.NextSongFilterKeepsAll` | etl.py:48 | A log made only of `NextSong` rows passes the filter unchanged. |
| `Transform.NextSongRowsAppend` | etl.py:48 | Filtering a concatenation is concatenating the filtered parts. |
| `Transform.TimeRowsAt` | etl.py:51-57 | time_df has one row per event, and row k is the time row of event k's ts. |
| `Transform.TimeFields` | etl.py:51-57 | A time row's start_time is ts itself. Its (year, month, day) is a valid date, and it is the date of UTC day z = ts div 86400000. hour is in 0..23 and equals (ts div 3600000) mod 24. weekday is in 0..6 and is z's weekday with Monday = 0. week is the number of the ISO week that holds z. |
| `Transform.TimeOfExample` | etl.py:51-57 | ts 1541121934796 gives hour 1, day 2, ISO week 44, month 11, year 2018, weekday 4 (Friday). |
| `Transform.YearEndWeekExample` | etl.py:54 | 2018-12-31 is in week 1: the week and year columns can belong to different years. |
| `Transform.TimeInsertsAt` | etl.py:59-60 | One time insert per time_df row, in row order. |
| `Transform.UserInsertsAt` | etl.py:62-67 | One user insert `(userId, firstName, lastName, gender, level)` per event, in order. |
| `Transform.SongplayStatementsAt` | etl.py:70-83 | For event k, statement 2k is the lookup on (song, artist, length) and statement 2k+1 is that event's songplay insert. |
| `Transform.LogStatementsLayout` | etl.py:59-83 | For n events a log file issues 4n statements: the n time inserts, then the n user inserts, then a lookup and a songplay insert for each event, with each statement's contents fixed by its position. |
| `Transform.TimeInsertCounts` | etl.py:59-60 | The time loop inserts once into `time` per row and never into `users` or `songplays`. |
| `Transform.UserInsertCounts` | etl.py:62-67 | The user loop inserts once into `users` per event and never into `time` or `songplays`. |
| `Transform.SongplayCounts` | etl.py:70-83 | The songplay loop inserts once into `songplays` per event and never into `time` or `users`. |
| `Transform.LogFileCounts` | etl.py:48-83 | The time, user and songplay insert counts of a log file each equal its number of `NextSong` rows. |
| `Transform.OtherPagesIgnored` | etl.py:48-83 | Adding a non-`NextSong` row anywhere in a log does not change what the file issues. |
| `Transform.SongplayResolution` | etl.py:73-82 | On a lookup hit the songplay carries exactly the match's song_id and artist_id. On a miss both are null, never just one. userId, level, sessionId, location and userAgent pass through unchanged, and start_time is the instant ts. |
| `Calendar.CivilFromDaysCorrect` | etl.py:51 | The date computed for a day number is a valid date, and its day number is that day. |
| `Calendar.CivilRoundTrip` | etl.py:51 | Converting a valid date to its day number and back gives the date. |
| `Calendar.DaysFromCivilInjective` | etl.py:51 | Two valid dates with the same day number are the same date. |
| `Calendar.YearAndDayOfYearCorrect` | etl.py:51 | The year and day of year found for a day lie inside that year and add back up to the day. |
| `Calendar.MonthAndDayCorrect` | etl.py:51 | The month and day found for a day of year are a valid month and day, and they add back up to it. |
| `Calendar.FromEpochMsValid` | etl.py:51 | The date and time of any ts is valid, and its date is UTC day ts div 86400000. |
| `Calendar.EpochMsRoundTrip` | etl.py:51 | Converting ts to a date and time and back to milliseconds gives ts. |
| `Calendar.DateTimeRoundTrip` | etl.py:51 | Converting a valid date and time to milliseconds and back gives it unchanged. |
| `Calendar.HourOfDay` | etl.py:54 | The hour of ts is (ts div 3600000) mod 24. |
| `Calendar.WeekdayFacts` | etl.py:54 | Weekdays are 0..6 and 1970-01-05 (a Monday) has weekday 0. Each day's weekday follows the day before it, and days a week apart share a weekday. |
| `Calendar.Week1MondayCorrect` | etl.py:54 | Week 1 of an ISO year starts on the Monday of the week that holds 4 January. |
| `Calendar.IsoYearLength` | etl.py:54 | An ISO year is exactly 52 or 53 weeks long. |
| `Calendar.IsoWeekUnique` | etl.py:54 | A day lies in exactly one ISO week: two ISO week dates that both hold it are equal. So the week clause of `Transform.TimeFields` names the ISO week of the day. |
| `Calendar.IsoWeekOfCorrect` | etl.py:54 | The ISO week number of a day is in 1..53, and that week of its ISO year holds the day. The ISO year is the day's calendar year or one next to it. |
| `Calendar.AutumnDayExample` | etl.py:54 | Day 17837 is 2018-11-02, a Friday. |
| `Calendar.AutumnWeekExample` | etl.py:54 | 2018-11-02 is in ISO week 44 of 2018. |
| `Calendar.YearEndDayExample` | etl.py:54 | Day 17896 is 2018-12-31, a Monday. |
| `Calendar.YearEndWeekExample` | etl.py:54 | 2018-12-31 is in ISO week 1 of 2019. |
| `Database.Matches` | etl.py:73-74 | The lookup returns at most one row. It returns a row exactly when the key is in the song table, and that row is the table's entry. |
| `Database.FirstMatchIsLookup` | etl.py:74-79 | Fetching the first result row gives the match when there is one and None otherwise. |
| `Database.Cursor.Execute` | etl.py:73 | Execution appends the statement to the cursor's log. Afterwards a lookup's result rows, and nothing else, are pending. |
| `Database.Cursor.FetchOne` | etl.py:74 | Fetching returns the next pending row and consumes it, or returns None when no row is pending. The log is unchanged. |
| `Database.Connection.Commit` | etl.py:112 | A commit records how many statements the cursor has run. |
| `Etl.ProcessSongFile` | etl.py:7-27 | The statement log grows by exactly what the song file specifies, or stays unchanged and the error is returned. |
| `Etl.ProcessLogFile` | etl.py:29-83 | The statement log grows by exactly what the log file specifies, or stays unchanged and the error is returned. |
| `Etl.InsertTimes` | etl.py:59-60 | The time loop appends exactly the time inserts of time_df. |
| `Etl.InsertUsers` | etl.py:62-67 | The user loop appends exactly the user inserts of the events. |
| `Etl.InsertSongplays` | etl.py:70-83 | The songplay loop appends, per event, the lookup and then the songplay built from what fetchone returned, with both ids null on a miss. |
| `Etl.ProcessFile` | etl.py:111 | `func(cur, datafile)` issues exactly the chosen processor's statements for the file, or fails with its error. |
| `Etl.CollectFiles` | etl.py:99-103 | all_files is every directory's matches, directory by directory, in walk order. |
| `Pipeline.FlattenContents` | etl.py:99-106 | The file count equals the total of matches over all directories, and a file is listed exactly when some directory matched it. |
| `Pipeline.FlattenAppend` | etl.py:99-103 | Listing two parts of a walk one after the other gives the two lists concatenated. |
| `Pipeline.FileResultsAt` | etl.py:110-111 | The run has one result per listed file: the processor's result for that file's contents. |
| `Pipeline.FirstFailure` | etl.py:110-111 | The run stops at the first failing file: every file before it succeeds. |
| `Pipeline.NoFailureRunsAll` | etl.py:110-113 | When no file fails, the run goes through the whole list. |
| `Pipeline.RunStatementsAppend` | etl.py:110-111 | Each file's statements appear whole and in list order. |
| `Pipeline.CommitPointsShape` | etl.py:112 | There is one commit per processed file. Commit points never decrease, and the last commit covers every statement of the run. |
| `Pipeline.ProgressCounts` | etl.py:110-113 | After k files the counter has reported (1, n), (2, n), ..., (k, n), in order. |
| `Etl.ProcessData` | etl.py:85-113 | The reported count is the number of files the walk found. Files are processed in list order up to the first failing one, which stops the run with its error. The cursor's log gains exactly the statements of the files before it. There is one commit after each of those files, and the progress counter reports 1..k of n. With no failure, k = n. |

## Left out

- The directory walk and `glob` are file-system I/O. The walk is a parameter: a sequence of directories, each holding the `*.json` files matched in it with their parsed contents. `os.path.abspath` is taken as the identity on paths.
- Reading JSON with `pandas.read_json` is not modelled. A file is given as its parsed rows, and every line of a file carries every column its kind of file has.
- A file of the other kind (a log file given to the song processor, or the reverse) fails before its first statement with a missing-column error. A row's nullable song-file columns `artist_location`, `artist_latitude` and `artist_longitude` are modelled as optional values. No other missing or null value inside a row is modelled. Neither is a log file with no lines at all: pandas gives it no columns, so the `page` column is missing.
- `Transform.SongFileContract`: a song file with no lines at all has no columns in pandas. The column selection at etl.py:22 fails on the missing `song_id` column before `.values[0]` is reached. The no-rows error (`Records.NoRows`, the `IndexError` of `.values[0]`) stands for a song frame that has its columns but zero rows, which `read_json` does not produce for an empty file.
- `sql_queries.py` is not part of this model. Statements are data constructors; SQL text, column types and `ON CONFLICT` policies are left out. As a result the model records what is executed, not the contents of the tables.
- The song lookup answers from a fixed table given to the cursor (`Database.Cursor.songs`). It is not derived from the songs and artists inserted earlier in the run.
- Floating-point values (duration, length, latitude, longitude) are an opaque type compared only for equality.
- Text printed by `print` is left out. `Etl.ProcessData` returns the values it prints: the file count and the (i, n) pairs.
- `main` is left out: the connection string, connecting, and `conn.close()` are I/O. The two `process_data` calls are two calls of `Etl.ProcessData`.
- Exceptions are modelled as a returned error. A run that fails stops at that file, and nothing after it is processed. psycopg2's transaction abort on a database error is not modelled.
- `Database.Cursor.Execute` never fails: a constraint violation, a type error or a lost connection is not modelled. In the source, a statement that fails at etl.py:60, 67 or 83 would leave that file's earlier statements in place. In the model, every error of a file arises before its first statement, so each file's statements are issued all or nothing.
- `Calendar.FromEpochMs` is defined for every integer ts. pandas' `OutOfBoundsDatetime` limit (about years 1677 to 2262) is not modelled.
- `Records.TimeOf` keeps the raw `ts` integer as the time row's start_time, as `df.ts.values` does. The songplay's start_time is the instant `pd.to_datetime(ts, unit='ms')`, modelled as `Calendar.Timestamp(ts)`.

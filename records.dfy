/** The rows parsed from the song and log files, the tuples projected from them
    and the statements the pipeline issues to the database. */
module Records {
  import Calendar

  datatype Option<T> = None | Some(value: T)

  datatype Outcome<E> = Pass | Fail(error: E)

  datatype Result<T, E> = Success(value: T) | Failure(error: E)

  /** A floating-point value (duration, length, latitude, longitude): only ever
      compared for equality or passed through unchanged. */
  type Float(==)

  /** Why a file cannot be processed. */
  datatype Error =
    | NoRows                  // `values[0]` on a song frame that has its columns but no rows (IndexError);
                              // a song file with no lines has no columns and fails with MissingColumn instead
    | MissingColumn(name: string)  // a column the projection names is not in the frame (KeyError)

  /** One parsed line of a song file. */
  datatype SongRow = SongRow(
    numSongs: int,
    artistId: string,
    artistLatitude: Option<Float>,
    artistLongitude: Option<Float>,
    artistLocation: Option<string>,
    artistName: string,
    songId: string,
    title: string,
    duration: Float,
    year: int)

  /** One parsed line of a log file (the columns the pipeline reads). */
  datatype LogRow = LogRow(
    artist: string,
    firstName: string,
    gender: string,
    lastName: string,
    length: Float,
    level: string,
    location: string,
    page: string,
    sessionId: int,
    song: string,
    ts: int,
    userAgent: string,
    userId: string)

  /** (song_id, title, artist_id, year, duration) */
  datatype SongData = SongData(songId: string, title: string, artistId: string, year: int, duration: Float)

  /** (artist_id, artist_name, artist_location, artist_latitude, artist_longitude) */
  datatype ArtistData = ArtistData(
    artistId: string, name: string, location: Option<string>,
    latitude: Option<Float>, longitude: Option<Float>)

  /** (start_time, hour, day, week, month, year, weekday); start_time is the raw epoch-ms ts. */
  datatype TimeData = TimeData(startTime: int, hour: int, day: int, week: int, month: int, year: int, weekday: int)

  /** (userId, firstName, lastName, gender, level) */
  datatype UserData = UserData(userId: string, firstName: string, lastName: string, gender: string, level: string)

  /** The parameters of the song lookup: (song, artist, length). */
  datatype SongKey = SongKey(song: string, artist: string, length: Float)

  /** One row the song lookup returns: (song_id, artist_id). */
  datatype SongMatch = SongMatch(songId: string, artistId: string)

  /** (start_time, userId, level, song_id, artist_id, sessionId, location, userAgent) */
  datatype SongplayData = SongplayData(
    startTime: Calendar.Timestamp, userId: string, level: string,
    songId: Option<string>, artistId: Option<string>,
    sessionId: int, location: string, userAgent: string)

  /** The statements the pipeline executes on a cursor; the SQL text itself is not modelled. */
  datatype Statement =
    | SongInsert(song: SongData)
    | ArtistInsert(artist: ArtistData)
    | TimeInsert(time: TimeData)
    | UserInsert(user: UserData)
    | SongSelect(key: SongKey)
    | SongplayInsert(songplay: SongplayData)

  /** A parsed file: the rows of a song file or of a log file. */
  datatype Frame = SongFrame(songRows: seq<SongRow>) | LogFrame(logRows: seq<LogRow>)

  datatype DataFile = DataFile(path: string, frame: Frame)

  /** The function `process_data` is given: one of the two file processors. */
  datatype Handler = SongHandler | LogHandler

  function SongOf(row: SongRow): SongData {
    SongData(row.songId, row.title, row.artistId, row.year, row.duration)
  }

  function ArtistOf(row: SongRow): ArtistData {
    ArtistData(row.artistId, row.artistName, row.artistLocation, row.artistLatitude, row.artistLongitude)
  }

  function UserOf(row: LogRow): UserData {
    UserData(row.userId, row.firstName, row.lastName, row.gender, row.level)
  }

  function KeyOf(row: LogRow): SongKey {
    SongKey(row.song, row.artist, row.length)
  }

  /** The time-dimension row of an event timestamp: its UTC hour, day, ISO week,
      month, year and day of week (Monday = 0). */
  function TimeOf(ts: int): TimeData {
    var dt := Calendar.FromEpochMs(ts);
    var z := ts / 86400000;
    TimeData(ts, dt.hour, dt.date.day, Calendar.IsoWeekOf(z).week, dt.date.month, dt.date.year,
             Calendar.Weekday(z))
  }

  /** The songplay row of an event, given what the song lookup returned:
      the match's ids, or null for both; start_time is the event's ts as a timestamp. */
  function SongplayOf(row: LogRow, found: Option<SongMatch>): SongplayData {
    SongplayData(
      Calendar.Timestamp(row.ts), row.userId, row.level,
      if found.Some? then Some(found.value.songId) else None,
      if found.Some? then Some(found.value.artistId) else None,
      row.sessionId, row.location, row.userAgent)
  }
}

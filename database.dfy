/** The database as the pipeline sees it through psycopg2: a cursor that runs
    statements and hands back the rows of the last query one at a time, and a
    connection that commits. The cursor keeps the log of every statement run
    on it, in order; the song lookup answers from a fixed table. */
module Database {
  import opened Records
  import Transform

  /** The rows `song_select` returns for a key: the one matching (song_id, artist_id), or none. */
  function Matches(songs: map<SongKey, SongMatch>, key: SongKey): (rows: seq<SongMatch>)
    ensures |rows| <= 1
    ensures rows != [] <==> key in songs
    ensures rows != [] ==> rows[0] == songs[key]
  {
    if key in songs then [songs[key]] else []
  }

  /** Fetching the first row of the lookup's result gives what Transform.Lookup says. */
  lemma FirstMatchIsLookup(songs: map<SongKey, SongMatch>, key: SongKey)
    ensures var rows := Matches(songs, key);
      (if rows == [] then None else Some(rows[0])) == Transform.Lookup(songs, key)
  {
  }

  class Cursor {
    /** The (song, artist, length) -> (song_id, artist_id) table `song_select` reads. */
    const songs: map<SongKey, SongMatch>
    /** Every statement executed on this cursor, oldest first. */
    var statements: seq<Statement>
    /** The rows of the last query not fetched yet. */
    var pending: seq<SongMatch>

    constructor(songs: map<SongKey, SongMatch>)
      ensures this.songs == songs
      ensures statements == [] && pending == []
    {
      this.songs := songs;
      statements := [];
      pending := [];
    }

    /** cur.execute: log the statement; a lookup makes its result rows the ones
        to fetch, any other statement leaves no rows to fetch. */
    method Execute(st: Statement)
      modifies this
      ensures statements == old(statements) + [st]
      ensures pending == (if st.SongSelect? then Matches(songs, st.key) else [])
    {
      statements := statements + [st];
      if st.SongSelect? {
        pending := Matches(songs, st.key);
      } else {
        pending := [];
      }
    }

    /** cur.fetchone: the next row of the last query, or None when there is none left. */
    method FetchOne() returns (row: Option<SongMatch>)
      modifies this
      ensures old(pending) == [] ==> row == None && pending == []
      ensures old(pending) != [] ==> row == Some(old(pending)[0]) && pending == old(pending)[1..]
      ensures statements == old(statements)
    {
      if pending == [] {
        row := None;
      } else {
        row := Some(pending[0]);
        pending := pending[1..];
      }
    }
  }

  class Connection {
    const cursor: Cursor
    /** For each commit so far, how many statements the cursor had run when it was made. */
    var commits: seq<nat>

    constructor(cursor: Cursor)
      ensures this.cursor == cursor && commits == []
    {
      this.cursor := cursor;
      commits := [];
    }

    /** conn.commit: everything run on the cursor so far becomes durable. */
    method Commit()
      modifies this
      ensures commits == old(commits) + [|cursor.statements|]
    {
      commits := commits + [|cursor.statements|];
    }
  }
}

/** What a whole run of `process_data` asks of the database: the file list the
    directory walk yields, the statements and commits for the files processed
    before the first one that fails, and the progress counter it reports. */
module Pipeline {
  import opened Records
  import opened Transform

  /** The statements `func(cur, datafile)` issues for one parsed file, or its error. */
  function FileStatements(handler: Handler, frame: Frame, songs: map<SongKey, SongMatch>): Result<seq<Statement>, Error> {
    match handler
    case SongHandler => SongFileStatements(frame)
    case LogHandler => LogFileStatements(frame, songs)
  }

  /** A step that issues r's statements or stops with r's error: `outcome` and
      the statement log going from `before` to `after` are what r says. */
  predicate Issued(r: Result<seq<Statement>, Error>, before: seq<Statement>, after: seq<Statement>, outcome: Outcome<Error>) {
    match r
    case Success(s) => outcome == Pass && after == before + s
    case Failure(e) => outcome == Fail(e) && after == before
  }

  // -------------------------------------------------------------- file list

  /** The files of a directory walk, directory by directory, each directory's
      matches in the order they were found. */
  function Flatten(walk: seq<seq<DataFile>>): seq<DataFile> {
    if walk == [] then [] else Flatten(walk[..|walk| - 1]) + walk[|walk| - 1]
  }

  function TotalFiles(walk: seq<seq<DataFile>>): nat {
    if walk == [] then 0 else TotalFiles(walk[..|walk| - 1]) + |walk[|walk| - 1]|
  }

  lemma {:induction false} FlattenAppend(a: seq<seq<DataFile>>, b: seq<seq<DataFile>>)
    ensures Flatten(a + b) == Flatten(a) + Flatten(b)
    decreases |b|
  {
    if b == [] {
      assert a + b == a;
    } else {
      var init := b[..|b| - 1];
      assert (a + b)[..|a + b| - 1] == a + init;
      assert Flatten(a + b) == Flatten(a + init) + b[|b| - 1];
      FlattenAppend(a, init);
    }
  }

  /** Some directory of the walk matched f. */
  predicate Matched(f: DataFile, walk: seq<seq<DataFile>>) {
    exists d :: 0 <= d < |walk| && f in walk[d]
  }

  /** The list holds as many entries as the directories hold matches
      together, and a file is listed exactly when some directory matched it. */
  lemma {:induction false} FlattenContents(walk: seq<seq<DataFile>>)
    ensures |Flatten(walk)| == TotalFiles(walk)
    ensures forall f :: f in Flatten(walk) <==> Matched(f, walk)
  {
    if walk != [] {
      var init, last := walk[..|walk| - 1], walk[|walk| - 1];
      FlattenContents(init);
      assert Flatten(walk) == Flatten(init) + last;
      forall f
        ensures f in Flatten(walk) <==> Matched(f, walk)
      {
        if f in Flatten(init) {
          assert Matched(f, init);
          var d :| 0 <= d < |init| && f in init[d];
          assert walk[d] == init[d];
        } else if f in last {
          assert walk[|walk| - 1] == last;
        }
      }
    }
  }

  // ------------------------------------------------------------ per-file loop

  /** The result of processing each file of the list, in order. */
  function FileResults(handler: Handler, files: seq<DataFile>, songs: map<SongKey, SongMatch>): seq<Result<seq<Statement>, Error>> {
    if files == [] then []
    else FileResults(handler, files[..|files| - 1], songs) + [FileStatements(handler, files[|files| - 1].frame, songs)]
  }

  lemma {:induction false} FileResultsAt(handler: Handler, files: seq<DataFile>, songs: map<SongKey, SongMatch>)
    ensures |FileResults(handler, files, songs)| == |files|
    ensures forall j :: 0 <= j < |files| ==> FileResults(handler, files, songs)[j] == FileStatements(handler, files[j].frame, songs)
  {
    if files != [] {
      FileResultsAt(handler, files[..|files| - 1], songs);
    }
  }

  /** The index of the first failed result, |rs| when none failed. */
  function FirstFailure(rs: seq<Result<seq<Statement>, Error>>): (k: nat)
    ensures k <= |rs|
    ensures forall j :: 0 <= j < k ==> rs[j].Success?
    ensures k < |rs| ==> rs[k].Failure?
  {
    if rs == [] then 0
    else if rs[0].Failure? then 0
    else 1 + FirstFailure(rs[1..])
  }

  predicate AllSucceed(rs: seq<Result<seq<Statement>, Error>>) {
    forall j :: 0 <= j < |rs| ==> rs[j].Success?
  }

  /** A run in which no file fails goes through the whole list. */
  lemma {:induction false} NoFailureRunsAll(rs: seq<Result<seq<Statement>, Error>>)
    requires AllSucceed(rs)
    ensures FirstFailure(rs) == |rs|
  {
    if rs != [] {
      assert AllSucceed(rs[1..]) by {
        forall j | 0 <= j < |rs[1..]|
          ensures rs[1..][j].Success?
        {
          assert rs[1..][j] == rs[j + 1];
        }
      }
      NoFailureRunsAll(rs[1..]);
    }
  }

  /** The statements of files processed one after the other, in list order. */
  function RunStatements(rs: seq<Result<seq<Statement>, Error>>): seq<Statement>
    requires AllSucceed(rs)
  {
    if rs == [] then [] else RunStatements(rs[..|rs| - 1]) + rs[|rs| - 1].value
  }

  /** The length of the statement log at each commit: one commit after each
      file, starting from a log of `base` statements. */
  function CommitPoints(base: nat, rs: seq<Result<seq<Statement>, Error>>): seq<nat>
    requires AllSucceed(rs)
  {
    if rs == [] then [] else CommitPoints(base, rs[..|rs| - 1]) + [base + |RunStatements(rs)|]
  }

  /** One commit per file; each commit sees at least the statements of the one
      before, and the last sees all of the run's statements. */
  lemma {:induction false} CommitPointsShape(base: nat, rs: seq<Result<seq<Statement>, Error>>)
    requires AllSucceed(rs)
    ensures var c := CommitPoints(base, rs);
      |c| == |rs| &&
      (forall j :: 0 <= j < |c| ==> base <= c[j]) &&
      (forall j :: 0 < j < |c| ==> c[j - 1] <= c[j]) &&
      (rs != [] ==> c[|c| - 1] == base + |RunStatements(rs)|)
  {
    if rs != [] {
      var init := rs[..|rs| - 1];
      CommitPointsShape(base, init);
      var c0 := CommitPoints(base, init);
      var c := CommitPoints(base, rs);
      assert c == c0 + [base + |RunStatements(rs)|];
      if init != [] {
        assert c0[|c0| - 1] == base + |RunStatements(init)|;
      }
    }
  }

  /** The (i, n) pairs reported after each of the first k files of n: "i/n files processed.". */
  function Progress(k: nat, n: nat): seq<(nat, nat)> {
    if k == 0 then [] else Progress(k - 1, n) + [(k, n)]
  }

  /** The counter reports 1, 2, ..., k in order, each time against the same total n. */
  lemma {:induction false} ProgressCounts(k: nat, n: nat)
    ensures |Progress(k, n)| == k
    ensures forall j :: 0 <= j < k ==> Progress(k, n)[j] == (j + 1, n)
  {
    if k > 0 {
      ProgressCounts(k - 1, n);
    }
  }

  /** Each file's statements appear whole and in list order: those of a + b
      are those of a followed by those of b. */
  lemma {:induction false} RunStatementsAppend(a: seq<Result<seq<Statement>, Error>>, b: seq<Result<seq<Statement>, Error>>)
    requires AllSucceed(a) && AllSucceed(b)
    ensures AllSucceed(a + b)
    ensures RunStatements(a + b) == RunStatements(a) + RunStatements(b)
    decreases |b|
  {
    if b == [] {
      assert a + b == a;
    } else {
      assert (a + b)[..|a + b| - 1] == a + b[..|b| - 1];
      RunStatementsAppend(a, b[..|b| - 1]);
    }
  }
}

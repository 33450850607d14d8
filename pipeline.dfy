/** `main` with one worker thread: build the search target (the pattern is
    lower-cased once), start the counters at zero, run the worker over the
    batches the keypair source produces, then let the CSV writer drain the
    channel after it closes. The writer thread re-creates the output file, so
    the header row written before the workers start does not survive: the
    file holds the records' rows only (see `CsvSink.HeaderTruncated`). */
module Pipeline {
  import opened Matcher
  import opened Worker
  import opened CsvSink

  method SingleWorkerRun(source: seq<seq<Keypair>>, vanity: string, caseSensitive: bool, target: nat)
    returns (generated: nat, found: nat, sent: seq<Keypair>, rows: seq<Row>, file: seq<Row>)
    requires FullBatches(source)
    ensures sent == Search(Progress(0, 0, []), source, NewSearchTarget(vanity, caseSensitive), target).sent
    ensures rows == Rows(sent) && FromRows(rows) == sent
    ensures |rows| == found <= generated
    ensures found <= target
    ensures found < target ==> generated == BATCH_SIZE * |source|
    ensures forall i :: 0 <= i < |rows| ==>
      |rows[i]| == 3 && rows[i][2] == NOTE && Matches(rows[i][0], NewSearchTarget(vanity, caseSensitive))
    ensures target == 0 ==> generated == 0 && rows == [] && file == []
    ensures file == rows
  {
    var t := NewSearchTarget(vanity, caseSensitive);
    var state := new SearchState();
    state.Run(source, t, target);
    SearchSendsOnlyMatches(Progress(0, 0, []), source, t, target);
    var flushed;
    sent := state.channel;
    rows, flushed := RunCsvWriter(sent);
    RowsRoundTrip(sent);
    RowsKeepMatches(sent, t);
    generated, found := state.generated, state.found;
    file := FileAsWritten([HEADER], rows);
  }

  /** Turning matching records into rows keeps the matching key in the first
      field. */
  lemma RowsKeepMatches(sent: seq<Keypair>, t: SearchTarget)
    requires forall i :: 0 <= i < |sent| ==> Matches(sent[i].publicKey, t)
    ensures forall i :: 0 <= i < |Rows(sent)| ==>
      |Rows(sent)[i]| == 3 && Rows(sent)[i][2] == NOTE && Matches(Rows(sent)[i][0], t)
  {
    forall i | 0 <= i < |Rows(sent)|
      ensures |Rows(sent)[i]| == 3 && Rows(sent)[i][2] == NOTE && Matches(Rows(sent)[i][0], t)
    {
      assert Rows(sent)[i] == ToRow(sent[i]);
    }
  }
}

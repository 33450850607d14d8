/** The CSV writer thread of `start_csv_writer_thread`: it receives matched
    keypairs in order, turns each into a three-field row, keeps the rows in a
    pending batch, and writes the whole batch once it holds 100 rows; when the
    channel closes it writes what is left. The file and the CSV encoding are
    not modelled: `written` is the sequence of rows handed to `write_record`,
    and `flushed` is how many of them the last `flush` covered. */
module CsvSink {
  import opened Worker

  /** The third column of every row. */
  const NOTE: string := "Generated by Vanity"

  /** The pending batch is written once it holds this many rows. */
  const FLUSH_THRESHOLD: nat := 100

  /** One CSV record: public key, private key, note. */
  type Row = seq<string>

  /** The header line `prepare_csv_file` writes before any worker starts. */
  const HEADER: Row := ["Public Key", "Private Key", "Note"]

  /** The row built for one received record: three fields, the keypair
      first and the fixed note last. */
  function ToRow(kp: Keypair): (r: Row)
    ensures |r| == 3 && r[2] == NOTE
    ensures FromRow(r) == kp
  {
    [kp.publicKey, kp.privateKey, NOTE]
  }

  /** The row of every received record, in receive order. */
  function Rows(received: seq<Keypair>): (r: seq<Row>)
    ensures |r| == |received|
    ensures forall i :: 0 <= i < |received| ==> r[i] == ToRow(received[i])
  {
    if received == [] then [] else [ToRow(received[0])] + Rows(received[1..])
  }

  /** Reads a keypair back from its row: the inverse of `ToRow`. */
  function FromRow(row: Row): Keypair
    requires |row| == 3
  {
    Keypair(row[0], row[1])
  }

  function FromRows(rows: seq<Row>): seq<Keypair>
    requires forall i :: 0 <= i < |rows| ==> |rows[i]| == 3
  {
    if rows == [] then [] else [FromRow(rows[0])] + FromRows(rows[1..])
  }

  // ---------------------------------------------------------------------------
  // Properties of the rows

  /** The rows give back exactly the records, in order: nothing is dropped,
      duplicated or reordered. */
  lemma {:induction false} RowsRoundTrip(received: seq<Keypair>)
    ensures forall i :: 0 <= i < |Rows(received)| ==> |Rows(received)[i]| == 3
    ensures FromRows(Rows(received)) == received
  {
    if received != [] {
      RowsRoundTrip(received[1..]);
      assert Rows(received)[1..] == Rows(received[1..]);
    }
  }

  /** Distinct record sequences give distinct outputs. */
  lemma RowsInjective(a: seq<Keypair>, b: seq<Keypair>)
    requires Rows(a) == Rows(b)
    ensures a == b
  {
    RowsRoundTrip(a);
    RowsRoundTrip(b);
  }

  /** Rows of a concatenation are the concatenated rows. */
  lemma RowsAppend(a: seq<Keypair>, b: seq<Keypair>)
    ensures Rows(a + b) == Rows(a) + Rows(b)
  {
    var l, r := Rows(a + b), Rows(a) + Rows(b);
    forall i | 0 <= i < |l| ensures l[i] == r[i] {
      if i < |a| {
        assert (a + b)[i] == a[i];
      } else {
        assert (a + b)[i] == b[i - |a|];
      }
    }
  }

  // ---------------------------------------------------------------------------
  // The output file: `prepare_csv_file` writes the header, then the writer
  // thread opens the same path again

  /** The file as the writer thread leaves it: it opens the path with
      `File::create`, which truncates what `prepare_csv_file` wrote, so only
      the thread's own rows remain. */
  function FileAsWritten(prepared: seq<Row>, written: seq<Row>): seq<Row>
  {
    written
  }

  /** The header is lost: with no match at all the file ends up empty rather
      than holding the header, and with matches its first row is a record. */
  lemma HeaderTruncated(received: seq<Keypair>)
    ensures FileAsWritten([HEADER], Rows([])) == []
    ensures received != [] ==> FileAsWritten([HEADER], Rows(received))[0] != HEADER
  {
    if received != [] {
      assert Rows(received)[0][2] == NOTE;
      assert HEADER[2] != NOTE by { assert HEADER[2][0] == 'N' && NOTE[0] == 'G'; }
    }
  }

  /** The file as intended: the thread's rows follow what was there. */
  function FileCorrected(prepared: seq<Row>, written: seq<Row>): seq<Row>
  {
    prepared + written
  }

  /** With the correction the header survives, followed by exactly the
      received records in order. */
  lemma CorrectedFileKeepsHeader(received: seq<Keypair>)
    ensures var f := FileCorrected([HEADER], Rows(received));
      |f| == |received| + 1 && f[0] == HEADER && FromRows(f[1..]) == received
  {
    var f := FileCorrected([HEADER], Rows(received));
    assert f[1..] == Rows(received);
    RowsRoundTrip(received);
  }

  // ---------------------------------------------------------------------------
  // The writer thread's state

  class CsvWriter {
    var batch: seq<Row>
    var written: seq<Row>
    var flushed: nat

    /** After every received record the batch is below the threshold, and all
        written rows have been flushed. */
    ghost predicate Valid()
      reads this
    {
      |batch| < FLUSH_THRESHOLD && flushed == |written|
    }

    constructor ()
      ensures Valid() && batch == [] && written == []
    {
      batch, written, flushed := [], [], 0;
    }

    /** `for record in &batch { wtr.write_record(record) }` followed by
        `wtr.flush()`. */
    method WriteBatch()
      modifies this
      ensures batch == old(batch)
      ensures written == old(written) + old(batch)
      ensures flushed == |written|
    {
      var i := 0;
      while i < |batch|
        invariant 0 <= i <= |batch|
        invariant batch == old(batch)
        invariant written == old(written) + batch[..i]
      {
        written := written + [batch[i]];
        i := i + 1;
        assert batch[..i] == batch[..i - 1] + [batch[i - 1]];
      }
      assert batch[..i] == batch;
      flushed := |written|;
    }

    /** One turn of the `while let` loop: push the record's row, and write
        and clear the batch once it reaches 100 rows. */
    method Receive(kp: Keypair)
      requires Valid()
      modifies this
      ensures Valid()
      ensures written + batch == old(written + batch) + [ToRow(kp)]
      ensures |old(batch)| + 1 == FLUSH_THRESHOLD ==> batch == [] && written == old(written + batch) + [ToRow(kp)]
      ensures |old(batch)| + 1 < FLUSH_THRESHOLD ==> written == old(written)
    {
      batch := batch + [ToRow(kp)];
      if |batch| >= FLUSH_THRESHOLD {
        WriteBatch();
        batch := [];
      }
    }

    /** The channel has closed: write the remaining rows and flush. */
    method Close()
      modifies this
      ensures batch == old(batch)
      ensures written == old(written) + old(batch)
      ensures flushed == |written|
    {
      WriteBatch();
    }
  }

  /** The whole writer thread over the records received before the channel
      closed: every record is written once, in receive order, as its row, and
      all of it is flushed. */
  method RunCsvWriter(received: seq<Keypair>) returns (written: seq<Row>, flushed: nat)
    ensures written == Rows(received)
    ensures flushed == |received|
  {
    var w := new CsvWriter();
    var i := 0;
    while i < |received|
      invariant 0 <= i <= |received|
      invariant w.Valid()
      invariant w.written + w.batch == Rows(received[..i])
    {
      w.Receive(received[i]);
      RowsAppend(received[..i], [received[i]]);
      assert received[..i + 1] == received[..i] + [received[i]];
      i := i + 1;
    }
    assert received[..i] == received;
    w.Close();
    written, flushed := w.written, w.flushed;
  }
}

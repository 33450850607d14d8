# sol-vanity-gen: a Dafny model of the vanity search core

sol-vanity-gen generates Solana keypairs in batches. It keeps the ones whose
base58 public key ends with an operator-chosen pattern and saves them to
`vanity_wallets.csv`. This project models three sequential pieces of
`src/main.rs`:

- **The matcher** (`check_vanity_string`), module `Matcher` in `matcher.dfy`. It is a
  pure predicate over strings. Case-sensitive mode asks whether the key ends
  with the pattern. Case-insensitive mode asks whether the lower-cased key ends
  with the pattern, lower-cased once before any worker starts.
- **One worker**, module `Worker` in `worker.dfy`. This is the loop body and loop
  guard of the closure in `spawn_threads`, run by a single worker. Each batch:
  - keeps the matching keypairs;
  - adds `BATCH_SIZE` (1000) to the generated counter;
  - sends the matches one at a time, each followed by an increment of the
    found counter, and breaks as soon as the found counter reaches the target.

  A new batch starts only while the found counter is below the target. The
  pure functions `BatchStep` and `Search` specify a batch and a whole run. The
  class `SearchState` holds the two counters and the channel (a `seq`) and
  updates them in place. Its methods are proved equal to those functions.
- **The CSV writer thread**, module `CsvSink` in `csv_sink.dfy`. Each received
  record becomes the row `[public key, private key, "Generated by Vanity"]` and
  goes into a pending batch. A batch of 100 rows is written and cleared. When
  the channel closes, the remainder is written. The class `CsvWriter` holds the
  batch and the written rows. `RunCsvWriter` proves that the rows written are
  exactly the received records, in order.
- `Pipeline.SingleWorkerRun` in `pipeline.dfy` composes the three in the way
  `main` does when there is one worker thread.

The keypair source (`Keypair::new`, `pubkey().to_string()`, `bs58::encode`)
is opaque. The model takes its output as input: a sequence of batches of
(public key, private key) pairs, in the order the source would produce them.

Two behaviours of the code are easy to assume otherwise:
- A vanity search is sometimes described as matching at the start or at the
  end of the key. This code anchors the pattern only at the END of the key
  (src/main.rs:205, 208), and there is no prefix mode.
  `Matcher.PrefixIsNotAMatch` shows a key that starts with the pattern and
  does not match.
- The header row written before the search starts does not survive in the
  output file (see Findings). `Pipeline.SingleWorkerRun` models the file as
  the program leaves it: the records' rows only.

## Model

| member | source | states |
|---|---|---|
| Matcher.ToLower | src/main.rs:206-208 | Lower-casing keeps the length. Every character is folded on its own: 'A'..'Z' become 'a'..'z' and all other characters are unchanged (ASCII folding only). |
| Matcher.EndsWith | src/main.rs:205 | `ends_with`, defined by comparing the last characters, holds exactly when the key is some string followed by the pattern. Both directions are proved. |
| Matcher.NewSearchTarget | src/main.rs:140 | The target keeps the pattern and the mode. Its stored lower-cased pattern is the pattern lower-cased once, and lower-casing it again changes nothing. |
| Matcher.CheckVanityString | src/main.rs:198-210 | In case-sensitive mode the result is true exactly when the key is some string followed by the pattern. In case-insensitive mode it is true exactly when the lower-cased key is some string followed by the given lower-cased pattern. |
| Matcher.CaseInsensitiveMatch | src/main.rs:206-208 | In case-insensitive mode, with the pattern lower-cased up front (src/main.rs:140), a key matches exactly when its lower-cased form is some string followed by the lower-cased pattern. |
| Matcher.LoweredPatternSameMatches | src/main.rs:140 | Lower-casing the pattern once before the workers start gives the same case-insensitive matcher as the original pattern. |
| Matcher.EmptyPatternMatchesAll | src/main.rs:204-208 | The empty pattern matches every key in both modes. |
| Matcher.SensitiveImpliesInsensitive | src/main.rs:204-208 | A key that matches case-sensitively also matches case-insensitively. |
| Matcher.CaseBlind | src/main.rs:206-208 | In case-insensitive mode, two keys that differ only in letter case both match or both fail. |
| Matcher.PrefixIsNotAMatch | src/main.rs:205 | "abcX" does not match the pattern "abc" and "Xabc" does: the anchor is the end of the key. |
| Worker.MatchingPairs | src/main.rs:164-175 | The filtered batch is no longer than the batch. It holds only keypairs from the batch that match, and it holds every keypair of the batch that matches. |
| Worker.MatchingPairsAppend | src/main.rs:164-175 | Filtering keeps batch order: filtering a concatenation gives the concatenation of the filtered parts. |
| Worker.SentCount | src/main.rs:184-191 | The send loop sends at most all matches and always sends the first one. It stops early only once found reaches the target. It never sends past the point where found reached the target. Starting below the target, found ends at most at the target. |
| Worker.BatchStep | src/main.rs:155-191 | A batch adds exactly `BATCH_SIZE` to generated, whatever the number of matches. The records sent are a prefix of the batch's matches, in batch order, with one found increment per send and at most one per keypair. Earlier sends are kept. The first match is always sent. A batch sends fewer than all its matches only once found has reached the target. |
| Worker.Search | src/main.rs:153-191 | Over a run: both counters never decrease and the channel only grows. Records sent equal found increments. A run that starts at or above the target changes nothing. A run that ends below the target consumed every batch of the source. |
| Worker.SearchKeepsFoundBelowGenerated | src/main.rs:153-191 | With full batches of `BATCH_SIZE`, generated >= found holds after the run when it held before. |
| Worker.SearchNoOvershoot | src/main.rs:186-190 | A single worker starting at or below the target ends at or below the target. |
| Worker.SearchSendsOnlyMatches | src/main.rs:164-187 | Every record a run sends has a public key that matches the target. |
| Worker.BatchBelowTargetSendsAll | src/main.rs:184-191 | A batch that leaves found below the target has sent every one of its matches, in batch order, after the earlier sends. |
| Worker.SearchBelowTargetSendsAll | src/main.rs:153-191 | A run that ends with found below the target has sent every match of every batch, in source order (`AllMatches`), after the earlier sends. |
| Worker.SearchOutcome | src/main.rs:153-191 | Starting at or below the target, a single worker ends with found equal to the target. Otherwise it consumed all the batches of the source and sent every match of the source, in source order (`AllMatches`). |
| Worker.ZeroTargetGeneratesNothing | src/main.rs:153 | With target 0, a fresh run generates nothing and sends nothing. |
| Worker.SearchState.constructor | src/main.rs:30-33 | The counters start at zero and the channel starts empty. |
| Worker.SearchState.SendMatches | src/main.rs:184-191 | The send loop appends the first `SentCount` matches to the channel in order, adds the same number to found, and leaves generated alone. |
| Worker.SearchState.RunBatch | src/main.rs:155-191 | One in-place batch leaves the counters and channel equal to `BatchStep` of the old state. |
| Worker.SearchState.Run | src/main.rs:153-192 | The in-place worker loop leaves the state equal to `Search` of the old state. It keeps found <= generated and, starting at or below the target, found <= target. |
| CsvSink.ToRow | src/main.rs:223-227 | A record's row has three fields, the third is "Generated by Vanity", and the keypair reads back from it unchanged. |
| CsvSink.Rows | src/main.rs:222-227 | There is one row per received record, in receive order, and row i is `[public key, private key, "Generated by Vanity"]` of record i. |
| CsvSink.RowsRoundTrip | src/main.rs:222-227 | Every row has three fields, and reading the keypairs back from the rows gives exactly the received records. |
| CsvSink.RowsInjective | src/main.rs:222-227 | Different record sequences give different row sequences, so nothing is dropped or duplicated. |
| CsvSink.CsvWriter.constructor | src/main.rs:221 | The pending batch and the written rows start empty. |
| CsvSink.CsvWriter.WriteBatch | src/main.rs:229-233 | Writing the batch appends every pending row to the output in order and flushes all written rows. |
| CsvSink.CsvWriter.Receive | src/main.rs:222-236 | Written rows followed by pending rows grow by exactly the new record's row. When the batch reaches 100 rows, all of them are written and the batch is emptied; otherwise nothing is written. Afterwards the batch holds fewer than 100 rows. |
| CsvSink.CsvWriter.Close | src/main.rs:238-242 | When the channel closes, the remaining rows are appended to the output in order and all written rows are flushed. The pending batch itself is left as it was. |
| CsvSink.RunCsvWriter | src/main.rs:216-243 | Once the channel closes, the rows written are exactly the rows of the received records, in receive order, and all of them are flushed. |
| CsvSink.HeaderTruncated | src/main.rs:124-129 | As written, the writer thread's `File::create` truncates the prepared header. With no matches the file is empty. With matches, its first row is a record, not the header. |
| CsvSink.CorrectedFileKeepsHeader | src/main.rs:216-219 | With the writer appending to the prepared file, the file is the header followed by exactly the received records. |
| Pipeline.SingleWorkerRun | src/main.rs:30-69 | A one-worker run: the records sent are those of `Search` from zero counters, and the rows written are their rows, one per found increment. Found <= generated and found <= target. Every row's key matches the pattern. Found below the target means the whole source was used. Target 0 generates and writes nothing. As written, the file holds only the rows: the header is lost, and with target 0 the file is empty. |

## Findings

| source | as written | input that shows it | evidently intended | confidence | as-written member | corrected member |
|---|---|---|---|---|---|---|
| src/main.rs:217 | `prepare_csv_file` writes the header line "Public Key,Private Key,Note" (src/main.rs:124-129). The writer thread then calls `File::create` on the same path, which truncates the file, so the header is lost. | Target 0: the output file is empty, not header-only. With any match, the first line is a record. | The header stays as the first line, followed by the records, for example by opening the file for append or writing the header through `wtr`. | high, not executed | CsvSink.HeaderTruncated | CsvSink.CorrectedFileKeepsHeader |

## Left out

- Threads, `Arc<Mutex<_>>` counters and the `mpsc` channel (src/main.rs:30-44, 131-150) are not modelled. The model has one sequential worker, and the channel is a sequence the sink reads after the worker has finished. With several workers, found can overshoot the target by up to the thread count minus one. That is not modelled.
- Worker.Search: the source keeps generating until the target is reached, possibly forever. The model takes a finite sequence of batches and also stops when they run out.
- Keypair generation (`Keypair::new`, `pubkey().to_string()`, `bs58::encode`, src/main.rs:157-159) is an opaque cryptographic call. Its output is an input of the model. Filling `batch_keypairs` (src/main.rs:155-161) is therefore not modelled as a separate step.
- Matcher.ToLower: only ASCII case folding is modelled. Rust's Unicode `to_lowercase` can change length for non-ASCII text. Base58 keys are ASCII, but the pattern is operator input and need not be. A non-ASCII pattern is folded differently from the program (src/main.rs:140, 208). For example, Rust lowercases U+212A KELVIN SIGN to ASCII 'k', so in case-insensitive mode the program accepts keys ending in 'k' or 'K' for that pattern, and the model rejects them.
- Worker.SearchState: the `u64` counters are modelled as unbounded naturals, so overflow is not modelled. It would need more than 2^64 generated keypairs.
- The input functions `read_vanity_string`, `read_case_sensitivity`, `read_thread_count` and `read_wallet_count_target` (src/main.rs:90-122) are stdin parsing. Their parse errors come from the standard library.
- `display_banner`, the progress-printing thread and `report_completion` (src/main.rs:47-62, 80-88, 246-265) only print. The elapsed time that `report_completion` prints is measured from an `Instant::now()` taken at its call site.
- File creation, `BufWriter` and CSV encoding (src/main.rs:124-129, 217-219) are foreign I/O. Output rows are abstract sequences of three strings, and `flush` is recorded only as a count of covered rows. Write and flush errors (`unwrap` panics) are not modelled.
- Determinism and idempotence of the matcher hold by construction, since Dafny functions are deterministic. No lemma states them.

/** One search worker, run on its own: the loop body and loop guard of the
    worker closure in `spawn_threads`. The keypair source is an input (the
    batches it would produce, in order), the shared counters and the channel
    are the fields of one `SearchState` object, and the records sent on the
    channel are the sequence `channel`. */
module Worker {
  import opened Matcher

  /** Keypairs generated per batch, and added to the generated counter per batch. */
  const BATCH_SIZE: nat := 1000

  /** A generated keypair as the worker sees it: its public key and its
      base58-encoded private key. */
  datatype Keypair = Keypair(publicKey: string, privateKey: string)

  /** The counters and the channel at one moment: `generated` is
      `wallet_count`, `found` is `found_count`, `sent` every record sent so far. */
  datatype Progress = Progress(generated: nat, found: nat, sent: seq<Keypair>)

  /** The batch's matching keypairs, in batch order (the `filter`/`collect`). */
  function MatchingPairs(batch: seq<Keypair>, t: SearchTarget): (r: seq<Keypair>)
    ensures |r| <= |batch|
    ensures forall kp :: kp in r ==> kp in batch && Matches(kp.publicKey, t)
    ensures forall kp :: kp in batch && Matches(kp.publicKey, t) ==> kp in r
  {
    if batch == [] then []
    else
      var rest := MatchingPairs(batch[1..], t);
      if Matches(batch[0].publicKey, t) then [batch[0]] + rest else rest
  }

  /** How many of `m` matches the send loop sends when `found_count` stands at
      `found`: each send is followed by an increment and the loop breaks as
      soon as the count reaches `target`. */
  function SentCount(found: nat, target: nat, m: nat): (k: nat)
    ensures k <= m
    ensures m > 0 ==> k > 0
    ensures k < m ==> found + k >= target
    ensures k > 1 ==> found + k - 1 < target
    ensures found < target ==> found + k <= target
  {
    if m == 0 then 0
    else if found + 1 >= target then 1
    else if m <= target - found then m
    else target - found
  }

  /** One pass of the worker's `while` body over `batch`. It adds exactly
      `BATCH_SIZE` to the generated counter, whatever the number of matches;
      what it sends is a prefix of the batch's matches, in batch order, with
      one increment of `found` per record sent; earlier sends are kept. The
      first match is always sent, and the batch stops short of its matches
      only once `found` has reached the target. */
  function BatchStep(p: Progress, batch: seq<Keypair>, t: SearchTarget, target: nat): (q: Progress)
    ensures q.generated == p.generated + BATCH_SIZE
    ensures p.sent <= q.sent
    ensures q.found - p.found == |q.sent| - |p.sent| <= |batch|
    ensures q.sent[|p.sent|..] <= MatchingPairs(batch, t)
    ensures |MatchingPairs(batch, t)| > 0 ==> |q.sent| > |p.sent|
    ensures |q.sent| - |p.sent| < |MatchingPairs(batch, t)| ==> q.found >= target
  {
    var matches := MatchingPairs(batch, t);
    var k := SentCount(p.found, target, |matches|);
    var q := Progress(p.generated + BATCH_SIZE, p.found + k, p.sent + matches[..k]);
    assert q.sent[|p.sent|..] == matches[..k];
    q
  }

  /** The worker's `while` loop over the batches of `source`: a batch starts
      only while `found < target`; the run also ends when the source has no
      more batches. */
  function Search(p: Progress, source: seq<seq<Keypair>>, t: SearchTarget, target: nat): (q: Progress)
    decreases |source|
    ensures p.generated <= q.generated && p.found <= q.found
    ensures p.sent <= q.sent
    ensures |q.sent| - |p.sent| == q.found - p.found
    ensures p.found >= target ==> q == p
    ensures q.found < target ==> q.generated == p.generated + BATCH_SIZE * |source|
  {
    if p.found >= target || source == [] then p
    else Search(BatchStep(p, source[0], t, target), source[1..], t, target)
  }

  /** The matching keypairs of every batch of `source`, in source order. */
  function AllMatches(source: seq<seq<Keypair>>, t: SearchTarget): seq<Keypair>
  {
    if source == [] then [] else MatchingPairs(source[0], t) + AllMatches(source[1..], t)
  }

  /** Every batch the source produces has `BATCH_SIZE` keypairs. */
  ghost predicate FullBatches(source: seq<seq<Keypair>>)
  {
    forall b :: b in source ==> |b| == BATCH_SIZE
  }

  // ---------------------------------------------------------------------------
  // Properties of one batch

  /** Filtering a concatenation filters each part: batch order is kept. */
  lemma {:induction false} MatchingPairsAppend(a: seq<Keypair>, b: seq<Keypair>, t: SearchTarget)
    ensures MatchingPairs(a + b, t) == MatchingPairs(a, t) + MatchingPairs(b, t)
  {
    if a != [] {
      assert (a + b)[1..] == a[1..] + b;
      MatchingPairsAppend(a[1..], b, t);
    } else {
      assert a + b == b;
    }
  }

  // ---------------------------------------------------------------------------
  // Properties of a whole single-worker run

  /** `generated >= found` holds before the run and after it. */
  lemma {:induction false} SearchKeepsFoundBelowGenerated(p: Progress, source: seq<seq<Keypair>>,
                                                          t: SearchTarget, target: nat)
    requires FullBatches(source)
    requires p.found <= p.generated
    ensures Search(p, source, t, target).found <= Search(p, source, t, target).generated
    decreases |source|
  {
    if p.found < target && source != [] {
      assert source[0] in source;
      assert forall b :: b in source[1..] ==> b in source;
      SearchKeepsFoundBelowGenerated(BatchStep(p, source[0], t, target), source[1..], t, target);
    }
  }

  /** A single worker starting at or below the target never overshoots it. */
  lemma {:induction false} SearchNoOvershoot(p: Progress, source: seq<seq<Keypair>>,
                                             t: SearchTarget, target: nat)
    requires p.found <= target
    ensures Search(p, source, t, target).found <= target
    decreases |source|
  {
    if p.found < target && source != [] {
      SearchNoOvershoot(BatchStep(p, source[0], t, target), source[1..], t, target);
    }
  }

  /** Every record the run sends is a keypair whose public key matches. */
  lemma {:induction false} SearchSendsOnlyMatches(p: Progress, source: seq<seq<Keypair>>,
                                                  t: SearchTarget, target: nat)
    ensures var q := Search(p, source, t, target);
      forall i :: |p.sent| <= i < |q.sent| ==> Matches(q.sent[i].publicKey, t)
    decreases |source|
  {
    if p.found < target && source != [] {
      var p' := BatchStep(p, source[0], t, target);
      var matches := MatchingPairs(source[0], t);
      var k := SentCount(p.found, target, |matches|);
      forall i | |p.sent| <= i < |p'.sent| ensures Matches(p'.sent[i].publicKey, t) {
        assert p'.sent[i] == matches[i - |p.sent|];
        assert p'.sent[i] in matches;
      }
      SearchSendsOnlyMatches(p', source[1..], t, target);
      var q := Search(p, source, t, target);
      assert q == Search(p', source[1..], t, target);
      forall i | |p.sent| <= i < |p'.sent| ensures Matches(q.sent[i].publicKey, t) {
        assert q.sent[i] == p'.sent[i];
      }
    }
  }

  /** A batch that leaves `found` below the target sent all its matches. */
  lemma BatchBelowTargetSendsAll(p: Progress, batch: seq<Keypair>, t: SearchTarget, target: nat)
    requires BatchStep(p, batch, t, target).found < target
    ensures BatchStep(p, batch, t, target).sent == p.sent + MatchingPairs(batch, t)
  {
    var matches := MatchingPairs(batch, t);
    var k := SentCount(p.found, target, |matches|);
    assert k == |matches|;
    assert matches[..k] == matches;
  }

  /** A run that ends below the target has sent every match of every batch,
      in source order. */
  lemma {:induction false} SearchBelowTargetSendsAll(p: Progress, source: seq<seq<Keypair>>,
                                                     t: SearchTarget, target: nat)
    requires Search(p, source, t, target).found < target
    ensures Search(p, source, t, target).sent == p.sent + AllMatches(source, t)
    decreases |source|
  {
    if source == [] {
      assert p.sent + [] == p.sent;
    } else {
      var p' := BatchStep(p, source[0], t, target);
      var m, rest := MatchingPairs(source[0], t), AllMatches(source[1..], t);
      assert Search(p, source, t, target) == Search(p', source[1..], t, target);
      assert p'.sent == p.sent + m by {
        BatchBelowTargetSendsAll(p, source[0], t, target);
      }
      assert Search(p', source[1..], t, target).sent == p'.sent + rest by {
        SearchBelowTargetSendsAll(p', source[1..], t, target);
      }
      assert (p.sent + m) + rest == p.sent + (m + rest);
    }
  }

  /** A single worker starting below the target stops with exactly `target`
      records found, or short of it only because the source ran out, having
      then generated every batch and sent every match. */
  lemma SearchOutcome(p: Progress, source: seq<seq<Keypair>>, t: SearchTarget, target: nat)
    requires p.found <= target
    ensures var q := Search(p, source, t, target);
      || q.found == target
      || (q.generated == p.generated + BATCH_SIZE * |source| && q.sent == p.sent + AllMatches(source, t))
  {
    SearchNoOvershoot(p, source, t, target);
    if Search(p, source, t, target).found < target {
      SearchBelowTargetSendsAll(p, source, t, target);
    }
  }

  /** With a target of 0 nothing is generated and nothing is sent. */
  lemma ZeroTargetGeneratesNothing(source: seq<seq<Keypair>>, t: SearchTarget)
    ensures Search(Progress(0, 0, []), source, t, 0) == Progress(0, 0, [])
  {
  }

  // ---------------------------------------------------------------------------
  // The worker as the source runs it: counters and channel updated in place

  class SearchState {
    var generated: nat
    var found: nat
    var channel: seq<Keypair>

    function Snapshot(): Progress
      reads this
    {
      Progress(generated, found, channel)
    }

    constructor ()
      ensures Snapshot() == Progress(0, 0, [])
    {
      generated, found, channel := 0, 0, [];
    }

    /** The send loop: send a match, increment `found`, break once `found`
        reaches the target. */
    method SendMatches(matches: seq<Keypair>, target: nat)
      modifies this
      ensures generated == old(generated)
      ensures found == old(found) + SentCount(old(found), target, |matches|)
      ensures channel == old(channel) + matches[..SentCount(old(found), target, |matches|)]
    {
      var i := 0;
      while i < |matches|
        invariant 0 <= i <= |matches|
        invariant generated == old(generated)
        invariant found == old(found) + i
        invariant channel == old(channel) + matches[..i]
        invariant i > 0 ==> found < target
      {
        channel := channel + [matches[i]];
        found := found + 1;
        i := i + 1;
        assert matches[..i] == matches[..i - 1] + [matches[i - 1]];
        if found >= target {
          break;
        }
      }
    }

    /** One batch: filter it, add `BATCH_SIZE` to `generated`, send the matches. */
    method RunBatch(batch: seq<Keypair>, t: SearchTarget, target: nat)
      modifies this
      ensures Snapshot() == BatchStep(old(Snapshot()), batch, t, target)
    {
      var matches := MatchingPairs(batch, t);
      generated := generated + BATCH_SIZE;
      SendMatches(matches, target);
    }

    /** The worker loop: batches run while `found < target` (and while the
        source has batches left). */
    method Run(source: seq<seq<Keypair>>, t: SearchTarget, target: nat)
      requires FullBatches(source) && found <= generated
      modifies this
      ensures Snapshot() == Search(old(Snapshot()), source, t, target)
      ensures found <= generated
      ensures old(found) <= target ==> found <= target
    {
      ghost var start := Snapshot();
      var i := 0;
      while found < target && i < |source|
        invariant 0 <= i <= |source|
        invariant Search(Snapshot(), source[i..], t, target) == Search(start, source, t, target)
      {
        assert source[i..][1..] == source[i + 1..];
        RunBatch(source[i], t, target);
        i := i + 1;
      }
      SearchKeepsFoundBelowGenerated(start, source, t, target);
      if start.found <= target {
        SearchNoOvershoot(start, source, t, target);
      }
    }
  }
}

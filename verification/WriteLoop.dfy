/** The loop that writes the certificate: every call offers the whole certificate again from its
    first byte, and the loop ends once enough bytes have been counted. What it leaves in the file,
    and when it ends. */
module WriteLoop {
  import opened Wide
  import opened Win32

  /** These are the outcomes of all the writes of one loop that has already counted `total` bytes. */
  predicate Complete(length: nat, writes: seq<WriteResult>, total: nat)
    decreases |writes|
  {
    if total >= length then writes == []
    else
      && writes != []
      && match writes[0]
         case WriteError(_) => |writes| == 1
         case Wrote(n) => n <= length && Complete(length, writes[1..], total + n)
  }

  predicate ErrorFree(writes: seq<WriteResult>) {
    forall i :: 0 <= i < |writes| ==> writes[i].Wrote?
  }

  /** Outcomes WriteFile can have when it is offered `length` bytes. */
  predicate Bounded(length: nat, writes: seq<WriteResult>) {
    forall i :: 0 <= i < |writes| ==> writes[i].Wrote? ==> writes[i].n <= length
  }

  function Moved(w: WriteResult): nat {
    if w.Wrote? then w.n else 0
  }

  function Sum(writes: seq<WriteResult>): nat {
    if writes == [] then 0 else Moved(writes[0]) + Sum(writes[1..])
  }

  /** What the writes leave in the file. */
  function Written(raw: Bytes, writes: seq<WriteResult>): Bytes
    requires Bounded(|raw|, writes)
  {
    if writes == [] then [] else raw[..Moved(writes[0])] + Written(raw, writes[1..])
  }

  lemma {:induction false} WrittenLength(raw: Bytes, writes: seq<WriteResult>)
    requires Bounded(|raw|, writes)
    ensures |Written(raw, writes)| == Sum(writes)
  {
    if writes != [] {
      WrittenLength(raw, writes[1..]);
    }
  }

  lemma {:induction false} CompleteSum(length: nat, writes: seq<WriteResult>, total: nat)
    requires Complete(length, writes, total) && ErrorFree(writes)
    ensures total + Sum(writes) >= length
    decreases |writes|
  {
    if total < length {
      CompleteSum(length, writes[1..], total + writes[0].n);
    }
  }

  lemma NothingWritten(raw: Bytes)
    ensures Written(raw, []) == []
  {}

  lemma {:induction false} WrittenMore(raw: Bytes, writes: seq<WriteResult>, i: nat)
    requires Bounded(|raw|, writes) && i < |writes|
    ensures Bounded(|raw|, writes[..i]) && Bounded(|raw|, writes[..i + 1])
    ensures Written(raw, writes[..i + 1]) == Written(raw, writes[..i]) + raw[..Moved(writes[i])]
  {
    if i == 0 {
      assert writes[..1][1..] == [];
    } else {
      assert writes[..i + 1][1..] == writes[1..][..i] && writes[..i][1..] == writes[1..][..i - 1];
      WrittenMore(raw, writes[1..], i - 1);
    }
  }

  /** One turn of the loop: there is an outcome for the next write; after a success the loop is at
      the next outcome, and an error is the last. */
  lemma {:induction false} LoopTurn(raw: Bytes, writes: seq<WriteResult>, i: nat, total: nat)
    requires i <= |writes| && Bounded(|raw|, writes)
    requires Complete(|raw|, writes[i..], total)
    ensures total >= |raw| <==> i == |writes|
    ensures i < |writes| ==>
      && (writes[i].Wrote? ==> writes[i].n <= |raw| && Complete(|raw|, writes[i + 1..], total + writes[i].n))
      && (writes[i].WriteError? ==> i + 1 == |writes|)
      && Bounded(|raw|, writes[..i]) && Bounded(|raw|, writes[..i + 1])
      && Written(raw, writes[..i + 1]) == Written(raw, writes[..i]) + raw[..Moved(writes[i])]
  {
    if i < |writes| {
      assert writes[i..][0] == writes[i] && writes[i..][1..] == writes[i + 1..];
      WrittenMore(raw, writes, i);
    }
  }

  // ----- termination -----

  /** Some beginning of the outcomes is a whole loop. */
  ghost predicate Halts(length: nat, outcomes: seq<WriteResult>, total: nat) {
    exists k :: 0 <= k <= |outcomes| && Complete(length, outcomes[..k], total)
  }

  /** The loop ends within the given outcomes exactly when one of them is an error or they move
      enough bytes in all. */
  lemma {:induction false} HaltsExactly(length: nat, outcomes: seq<WriteResult>, total: nat)
    requires Bounded(length, outcomes)
    ensures Halts(length, outcomes, total) <==>
              total >= length || !ErrorFree(outcomes) || total + Sum(outcomes) >= length
    decreases |outcomes|
  {
    if total >= length {
      assert Complete(length, outcomes[..0], total);
    } else if outcomes != [] {
      var rest := outcomes[1..];
      if outcomes[0].WriteError? {
        assert Complete(length, outcomes[..1], total);
      } else {
        var total' := total + outcomes[0].n;
        HaltsExactly(length, rest, total');
        assert ErrorFree(outcomes) <==> ErrorFree(rest) by {
          assert forall i :: 1 <= i < |outcomes| ==> outcomes[i] == rest[i - 1];
        }
        HaltsStep(length, outcomes, total);
      }
    }
  }

  lemma {:induction false} HaltsStep(length: nat, outcomes: seq<WriteResult>, total: nat)
    requires total < length && outcomes != [] && outcomes[0].Wrote? && outcomes[0].n <= length
    ensures Halts(length, outcomes, total) <==> Halts(length, outcomes[1..], total + outcomes[0].n)
  {
    var rest := outcomes[1..];
    forall k | 1 <= k <= |outcomes|
      ensures Complete(length, outcomes[..k], total) <==> Complete(length, rest[..k - 1], total + outcomes[0].n)
    {
      assert outcomes[..k][1..] == rest[..k - 1];
    }
    if k :| 0 <= k <= |outcomes| && Complete(length, outcomes[..k], total) {
      assert Complete(length, rest[..k - 1], total + outcomes[0].n);
    }
    if j :| 0 <= j <= |rest| && Complete(length, rest[..j], total + outcomes[0].n) {
      assert Complete(length, outcomes[..j + 1], total);
    }
  }

  /** If every write that succeeds moves a byte, the loop ends after at most `length` writes. */
  lemma {:induction false} ProgressHalts(length: nat, outcomes: seq<WriteResult>)
    requires Bounded(length, outcomes) && |outcomes| >= length
    requires forall i :: 0 <= i < |outcomes| ==> outcomes[i].Wrote? ==> outcomes[i].n > 0
    ensures Halts(length, outcomes, 0)
  {
    if ErrorFree(outcomes) {
      SumOfProgress(outcomes);
    }
    HaltsExactly(length, outcomes, 0);
  }

  lemma {:induction false} SumOfProgress(outcomes: seq<WriteResult>)
    requires forall i :: 0 <= i < |outcomes| ==> Moved(outcomes[i]) > 0
    ensures Sum(outcomes) >= |outcomes|
  {
    if outcomes != [] {
      assert forall i :: 1 <= i < |outcomes| ==> outcomes[i] == outcomes[1..][i - 1];
      SumOfProgress(outcomes[1..]);
    }
  }

  // ----- what is in the file -----

  /** A first write of the whole certificate leaves exactly the certificate. */
  lemma {:induction false} WholeFirstWrite(raw: Bytes, writes: seq<WriteResult>)
    requires Complete(|raw|, writes, 0) && Bounded(|raw|, writes)
    requires writes != [] && writes[0] == Wrote(|raw|)
    ensures Written(raw, writes) == raw
  {
    assert Written(raw, writes[1..]) == [];
  }

  /** A short first write of a certificate whose byte there differs from its first byte leaves
      something else. */
  lemma {:induction false} ShortFirstWrite(raw: Bytes, writes: seq<WriteResult>)
    requires Complete(|raw|, writes, 0) && Bounded(|raw|, writes) && ErrorFree(writes)
    requires writes != [] && 0 < writes[0].n < |raw| && raw[writes[0].n] != raw[0]
    ensures Written(raw, writes) != raw
  {
    var n := writes[0].n;
    var rest := writes[1..];
    assert forall i :: 0 <= i < |rest| ==> rest[i] == writes[i + 1];
    CompleteSum(|raw|, rest, n);
    StartsAgain(raw, rest);
    var after := Written(raw, rest);
    WrittenLength(raw, rest);
    assert Written(raw, writes)[n] == after[0];
  }

  /** Whatever is written starts with the first byte of the certificate. */
  lemma {:induction false} StartsAgain(raw: Bytes, writes: seq<WriteResult>)
    requires Bounded(|raw|, writes)
    ensures Sum(writes) > 0 ==> raw != [] && |Written(raw, writes)| > 0 && Written(raw, writes)[0] == raw[0]
  {
    WrittenLength(raw, writes);
    if writes != [] && Moved(writes[0]) == 0 {
      assert Written(raw, writes) == Written(raw, writes[1..]);
      StartsAgain(raw, writes[1..]);
    }
  }

  /** For every loop without errors the file is the certificate. */
  ghost predicate AlwaysRight(raw: Bytes) {
    forall writes :: Complete(|raw|, writes, 0) && ErrorFree(writes) && Bounded(|raw|, writes)
      ==> Written(raw, writes) == raw
  }

  /** Restarting at the first byte is right under every pattern of short writes for certificates
      of at most one byte, and for no others: a first write of one byte followed by one of the
      whole certificate leaves a byte too many. */
  lemma {:induction false} AlwaysRightExactly(raw: Bytes)
    ensures AlwaysRight(raw) <==> |raw| <= 1
  {
    if |raw| > 1 {
      var writes := [Wrote(1), Wrote(|raw|)];
      assert writes[1..] == [Wrote(|raw|)] && writes[1..][1..] == [];
      assert Complete(|raw|, writes, 0);
      WrittenLength(raw, writes);
      assert Sum(writes[1..][1..]) == 0 && Sum(writes[1..]) == |raw|;
    } else {
      forall writes | Complete(|raw|, writes, 0) && ErrorFree(writes) && Bounded(|raw|, writes)
        ensures Written(raw, writes) == raw
      {
        SmallIsRight(raw, writes);
      }
    }
  }

  lemma {:induction false} SmallIsRight(raw: Bytes, writes: seq<WriteResult>)
    requires |raw| <= 1
    requires Complete(|raw|, writes, 0) && ErrorFree(writes) && Bounded(|raw|, writes)
    ensures Written(raw, writes) == raw
  {
    if |raw| == 1 {
      var rest := writes[1..];
      assert forall i :: 0 <= i < |rest| ==> rest[i] == writes[i + 1];
      if writes[0].n == 0 {
        SmallIsRight(raw, rest);
      } else {
        assert Written(raw, rest) == [];
      }
    }
  }

  /** Every write moves all of the certificate or nothing. */
  predicate AllOrNothing(length: nat, writes: seq<WriteResult>) {
    forall i :: 0 <= i < |writes| ==> Moved(writes[i]) == 0 || Moved(writes[i]) == length
  }

  lemma {:induction false} AllOrNothingIsRight(raw: Bytes, writes: seq<WriteResult>)
    requires Complete(|raw|, writes, 0) && ErrorFree(writes) && Bounded(|raw|, writes)
    requires AllOrNothing(|raw|, writes)
    ensures Written(raw, writes) == raw
  {
    if raw != [] {
      var rest := writes[1..];
      if Moved(writes[0]) == 0 {
        assert forall i :: 0 <= i < |rest| ==> rest[i] == writes[i + 1];
        AllOrNothingIsRight(raw, rest);
      } else {
        assert Written(raw, rest) == [];
      }
    }
  }

  /** Some proper beginning of the certificate is also its end. */
  predicate Bordered(raw: Bytes) {
    exists k :: 0 < k < |raw| && raw[..k] == raw[|raw| - k..]
  }

  /** For a certificate without such a beginning: exactly the patterns that leave it. */
  lemma {:induction false} WrittenExactly(raw: Bytes, writes: seq<WriteResult>)
    requires Complete(|raw|, writes, 0) && ErrorFree(writes) && Bounded(|raw|, writes)
    requires !Bordered(raw)
    ensures Written(raw, writes) == raw <==> AllOrNothing(|raw|, writes)
  {
    if AllOrNothing(|raw|, writes) {
      AllOrNothingIsRight(raw, writes);
    } else if Written(raw, writes) == raw {
      EndsInLastWrite(raw, writes);
      var k := Moved(writes[|writes| - 1]);
      assert k == |raw|;
      OnlyLastMoves(writes);
    }
  }

  /** The last write of a loop moves something, which is what the file ends in. */
  lemma {:induction false} EndsInLastWrite(raw: Bytes, writes: seq<WriteResult>)
    requires Complete(|raw|, writes, 0) && ErrorFree(writes) && Bounded(|raw|, writes) && writes != []
    ensures var k, after := Moved(writes[|writes| - 1]), Written(raw, writes);
            && 0 < k <= |raw| && k <= |after| && after[|after| - k..] == raw[..k]
            && |after| == Sum(writes)
  {
    var last := |writes| - 1;
    LastMoves(|raw|, writes, 0);
    WrittenMore(raw, writes, last);
    WrittenLength(raw, writes);
    assert writes[..last + 1] == writes;
  }

  lemma {:induction false} LastMoves(length: nat, writes: seq<WriteResult>, total: nat)
    requires Complete(length, writes, total) && ErrorFree(writes) && writes != []
    ensures Moved(writes[|writes| - 1]) > 0
    decreases |writes|
  {
    var rest := writes[1..];
    assert forall i :: 0 <= i < |rest| ==> rest[i] == writes[i + 1];
    if rest != [] {
      LastMoves(length, rest, total + Moved(writes[0]));
    }
  }

  /** If the last write moves as much as all together, the others move nothing. */
  lemma {:induction false} OnlyLastMoves(writes: seq<WriteResult>)
    requires writes != []
    ensures Sum(writes) >= Moved(writes[|writes| - 1])
    ensures Sum(writes) == Moved(writes[|writes| - 1]) ==>
      forall i :: 0 <= i < |writes| - 1 ==> Moved(writes[i]) == 0
  {
    var rest := writes[1..];
    if rest != [] {
      assert forall i :: 1 <= i < |writes| ==> writes[i] == rest[i - 1];
      OnlyLastMoves(rest);
    }
  }

  /** For a certificate with such a beginning there is another pattern that leaves it: first what is
      in front of the end, then the beginning again. */
  lemma {:induction false} BorderIsRight(raw: Bytes, k: nat) returns (writes: seq<WriteResult>)
    requires 0 < k < |raw| && raw[..k] == raw[|raw| - k..]
    ensures Complete(|raw|, writes, 0) && ErrorFree(writes) && Bounded(|raw|, writes)
    ensures Written(raw, writes) == raw && !AllOrNothing(|raw|, writes)
  {
    writes := [Wrote(|raw| - k), Wrote(k)];
    var rest := writes[1..];
    assert rest == [Wrote(k)] && rest[1..] == [];
    assert Complete(|raw|, rest, |raw| - k);
    assert Written(raw, rest) == raw[..k];
    assert raw == raw[..|raw| - k] + raw[|raw| - k..];
    assert Moved(writes[0]) == |raw| - k;
  }

  /** Only patterns of all or nothing leave this certificate. */
  ghost predicate OnlyWholeIsRight(raw: Bytes) {
    forall writes :: Complete(|raw|, writes, 0) && ErrorFree(writes) && Bounded(|raw|, writes)
      ==> (Written(raw, writes) == raw <==> AllOrNothing(|raw|, writes))
  }

  /** That is so exactly for the certificates no proper beginning of which is also their end. */
  lemma {:induction false} OnlyWholeExactly(raw: Bytes)
    ensures OnlyWholeIsRight(raw) <==> !Bordered(raw)
  {
    if Bordered(raw) {
      var k :| 0 < k < |raw| && raw[..k] == raw[|raw| - k..];
      var writes := BorderIsRight(raw, k);
    } else {
      forall writes | Complete(|raw|, writes, 0) && ErrorFree(writes) && Bounded(|raw|, writes)
        ensures Written(raw, writes) == raw <==> AllOrNothing(|raw|, writes)
      {
        WrittenExactly(raw, writes);
      }
    }
  }

  /** Restarting at the first byte is right for every certificate of a length, under one pattern of
      writes without errors, exactly when each write moves all or nothing. */
  lemma {:induction false} PatternRightExactly(length: nat, writes: seq<WriteResult>)
    requires Complete(length, writes, 0) && ErrorFree(writes) && Bounded(length, writes)
    ensures (forall raw: Bytes :: |raw| == length ==> Written(raw, writes) == raw) <==> AllOrNothing(length, writes)
  {
    if AllOrNothing(length, writes) {
      forall raw: Bytes | |raw| == length
        ensures Written(raw, writes) == raw
      {
        AllOrNothingIsRight(raw, writes);
      }
    } else {
      var zeros: Bytes := seq(length - 1, i => 0);
      var raw := [1] + zeros;
      assert forall k :: 0 < k < |raw| ==> raw[..k][0] != raw[|raw| - k..][0];
      WrittenExactly(raw, writes);
      assert Written(raw, writes) != raw;
    }
  }

  /** In a whole loop only the last write can be an error. */
  lemma {:induction false} OnlyLastFails(length: nat, writes: seq<WriteResult>, total: nat)
    requires Complete(length, writes, total) && (writes == [] || writes[|writes| - 1].Wrote?)
    ensures ErrorFree(writes)
    decreases |writes|
  {
    if writes != [] {
      OnlyLastFails(length, writes[1..], total + Moved(writes[0]));
      assert forall i :: 1 <= i < |writes| ==> writes[i] == writes[1..][i - 1];
    }
  }

  /** What a loop would leave that passes the bytes counted so far as the index. */
  function Resumed(raw: Bytes, writes: seq<WriteResult>, total: nat): Bytes
    decreases |writes|
  {
    if writes == [] || total + Moved(writes[0]) > |raw| then []
    else raw[total..total + Moved(writes[0])] + Resumed(raw, writes[1..], total + Moved(writes[0]))
  }

  /** Each write of such a loop is offered only what is left. */
  predicate Within(length: nat, writes: seq<WriteResult>, total: nat)
    decreases |writes|
  {
    writes == [] || (total + Moved(writes[0]) <= length && Within(length, writes[1..], total + Moved(writes[0])))
  }

  /** Such a loop has made `i` writes, all successful, and counted `total` bytes, which are what the
      file holds. */
  predicate Resuming(raw: Bytes, writes: seq<WriteResult>, i: nat, total: nat) {
    && i <= |writes| && total <= |raw|
    && Complete(|raw|, writes[i..], total) && Within(|raw|, writes[i..], total)
    && ErrorFree(writes[..i])
    && raw[..total] + Resumed(raw, writes[i..], total) == Resumed(raw, writes, 0)
  }

  lemma ResumedStart(raw: Bytes, writes: seq<WriteResult>)
    requires Complete(|raw|, writes, 0) && Within(|raw|, writes, 0)
    ensures Resuming(raw, writes, 0, 0) && raw[..0] == []
    ensures ErrorFree(writes) ==> Resumed(raw, writes, 0) == raw
  {
    assert writes[0..] == writes;
    if ErrorFree(writes) {
      ResumedIsRight(raw, writes, 0);
    }
  }

  /** One turn of such a loop: it ends with the last write, and an error is the last. */
  lemma {:induction false} ResumedTurn(raw: Bytes, writes: seq<WriteResult>, i: nat, total: nat)
    requires Resuming(raw, writes, i, total)
    ensures i <= |writes|
    ensures total >= |raw| <==> i == |writes|
    ensures i == |writes| ==> ErrorFree(writes) && raw[..total] == Resumed(raw, writes, 0)
    ensures i < |writes| ==>
      var n := Moved(writes[i]);
      && total + n <= |raw|
      && raw[..total] + raw[total..total + n] == raw[..total + n]
      && (writes[i].Wrote? ==> Resuming(raw, writes, i + 1, total + n))
      && (writes[i].WriteError? ==> i + 1 == |writes| && raw[..total + n] == Resumed(raw, writes, 0))
  {
    if i < |writes| {
      assert writes[i..][0] == writes[i] && writes[i..][1..] == writes[i + 1..];
      assert writes[..i + 1] == writes[..i] + [writes[i]];
      var n := Moved(writes[i]);
      var later := Resumed(raw, writes[i + 1..], total + n);
      assert raw[..total] + (raw[total..total + n] + later) == raw[..total + n] + later;
    } else {
      assert writes[..i] == writes;
    }
  }

  /** Such a loop is right under every pattern of short writes. */
  lemma {:induction false} ResumedIsRight(raw: Bytes, writes: seq<WriteResult>, total: nat)
    requires total <= |raw| && Complete(|raw|, writes, total) && ErrorFree(writes)
    requires Within(|raw|, writes, total)
    ensures Resumed(raw, writes, total) == raw[total..]
    decreases |writes|
  {
    if total < |raw| {
      var n := writes[0].n;
      ResumedIsRight(raw, writes[1..], total + n);
      assert raw[total..] == raw[total..total + n] + raw[total + n..];
    }
  }
}

/**
 DBImpl::BuildBatchGroup on the batches themselves.
 */
module BatchGroup {
  import opened WriteBatches
  import opened WriteQueue

  // The part of DBImpl::Writer that BuildBatchGroup looks at; a flush has no batch.
  class QueuedWriter {
    const batch: WriteBatch?
    const sync: bool

    constructor (batch: WriteBatch?, sync: bool)
      ensures this.batch == batch && this.sync == sync
    {
      this.batch, this.sync := batch, sync;
    }
  }

  ghost function RequestOf(w: QueuedWriter): Request
    reads w.batch
  {
    if w.batch != null then Batch(w.batch.ops, w.sync) else Flush(w.sync)
  }

  ghost function RequestsOf(writers: seq<QueuedWriter>): (r: seq<Request>)
    reads set w | w in writers :: w.batch
    ensures |r| == |writers|
    ensures forall k :: 0 <= k < |writers| ==> r[k] == RequestOf(writers[k])
  {
    seq(|writers|, k requires 0 <= k < |writers| reads set w | w in writers :: w.batch => RequestOf(writers[k]))
  }

  lemma {:induction false} GroupOpsFit(requests: seq<Request>, n: nat)
    requires n <= |requests|
    requires forall k :: 0 <= k < |requests| && requests[k].Batch? ==> AllFit(requests[k].ops)
    requires |GroupOps(requests)| < 0x1_0000_0000
    ensures AllFit(GroupOps(requests[..n])) && |GroupOps(requests[..n])| <= |GroupOps(requests)|
    decreases |requests|
  {
    if n < |requests| {
      var front := requests[..|requests| - 1];
      GroupOpsFit(front, n);
      assert front[..n] == requests[..n];
    } else if requests != [] {
      GroupOpsFit(requests[..n - 1], n - 1);
      assert requests[..n] == requests && requests[..n - 1][..n - 1] == requests[..n - 1];
    }
  }

  lemma GroupOpsNext(requests: seq<Request>, n: nat)
    requires n < |requests|
    ensures GroupOps(requests[..n + 1]) ==
            GroupOps(requests[..n]) + if requests[n].Batch? then requests[n].ops else []
  {
    assert requests[..n + 1][..n] == requests[..n];
  }

  // The batch that stands for the group led by the first writer, and how many writers it covers.
  method BuildBatchGroup(writers: seq<QueuedWriter>, tmpBatch: WriteBatch) returns (result: WriteBatch, n: nat)
    requires writers != [] && writers[0].batch != null
    requires forall w :: w in writers && w.batch != null ==> w.batch.Valid() && w.batch != tmpBatch
    requires tmpBatch.Valid() && tmpBatch.ops == []
    // The count in a batch has 32 bits.
    requires |GroupOps(RequestsOf(writers))| < 0x1_0000_0000
    modifies tmpBatch
    ensures result.Valid() && result in {writers[0].batch, tmpBatch}
    ensures n == old(GroupMembers(RequestsOf(writers)))
    ensures result.ops == old(GroupOps(RequestsOf(writers)[..n]))
  {
    hide EncodeBatch, GroupOps, AllFit, ByteSize, GroupEnd;
    ghost var requests := RequestsOf(writers);
    var first := writers[0];
    result := first.batch;
    var size: nat := |result.rep|;
    BatchSize(result);
    var maxSize: nat := if size <= 131072 then size + 131072 else 1048576;
    n := 1;
    assert requests[..1] == [requests[0]];
    FirstOps(requests[0]);
    var more := true;
    while n < |writers| && more
      invariant 1 <= n <= |writers| && RequestsOf(writers) == requests
      invariant forall w :: w in writers && w.batch != null ==> w.batch.Valid() && w.batch != tmpBatch
      invariant result.Valid() && result.ops == GroupOps(requests[..n])
      invariant if result == first.batch then tmpBatch.Valid() && tmpBatch.ops == [] else result == tmpBatch
      invariant GroupMembers(requests) == if more then GroupEnd(requests, n, size, maxSize) else n
      decreases more, |writers| - n
    {
      var w := writers[n];
      GroupOpsNext(requests, n);
      GroupEndStep(requests, n, size, maxSize);
      assert requests[n] == RequestOf(w);
      if w.sync && !first.sync {
        more := false;
      } else {
        if w.batch != null {
          BatchSize(w.batch);
          if size + |w.batch.rep| > maxSize {
            more := false;
          } else {
            size := size + |w.batch.rep|;
            GroupFits(requests, n);
            result := Join(result, first.batch, tmpBatch, w.batch);
          }
        }
        if more {
          n := n + 1;
        }
      }
    }
    GroupEndsThere(requests, size, maxSize);
  }

  lemma GroupEndStep(requests: seq<Request>, i: nat, size: nat, maxSize: nat)
    requires 1 <= i < |requests|
    ensures var r, end := requests[i], GroupEnd(requests, i, size, maxSize);
            if r.sync && !requests[0].sync then end == i
            else if r.Flush? then end == GroupEnd(requests, i + 1, size, maxSize)
            else if size + ByteSize(r.ops) > maxSize then end == i
            else end == GroupEnd(requests, i + 1, size + ByteSize(r.ops), maxSize)
  {
    hide ByteSize;
  }

  lemma GroupEndsThere(requests: seq<Request>, size: nat, maxSize: nat)
    requires requests != []
    ensures GroupEnd(requests, |requests|, size, maxSize) == |requests|
  {
    hide ByteSize;
  }

  // Appends a batch to the group's, which is the caller's own as long as it is alone.
  method Join(group: WriteBatch, first: WriteBatch, tmpBatch: WriteBatch, batch: WriteBatch)
    returns (result: WriteBatch)
    requires group.Valid() && batch.Valid() && batch != tmpBatch && first != tmpBatch
    requires if group == first then tmpBatch.Valid() && tmpBatch.ops == [] else group == tmpBatch
    requires AllFit(group.ops) && AllFit(group.ops + batch.ops)
    modifies tmpBatch
    ensures result == tmpBatch && result.Valid() && result.ops == old(group.ops) + batch.ops
  {
    hide EncodeBatch, AllFit;
    result := group;
    if result == first {
      result := tmpBatch;
      assert [] + first.ops == first.ops;
      result.Append(first);
    }
    result.Append(batch);
  }

  lemma FirstOps(r: Request)
    requires r.Batch?
    ensures GroupOps([r]) == r.ops
  {
    assert [r][..0] == [];
  }

  lemma BatchSize(b: WriteBatch)
    requires b.Valid()
    ensures |b.rep| == ByteSize(b.ops) && AllFit(b.ops)
  {
  }

  lemma GroupFits(requests: seq<Request>, n: nat)
    requires 1 <= n < |requests|
    requires forall k :: 0 <= k < |requests| && requests[k].Batch? ==> AllFit(requests[k].ops)
    requires |GroupOps(requests)| < 0x1_0000_0000
    ensures AllFit(GroupOps(requests[..n])) && AllFit(GroupOps(requests[..n + 1]))
  {
    hide AllFit, GroupOps;
    GroupOpsFit(requests, n);
    GroupOpsFit(requests, n + 1);
  }
}

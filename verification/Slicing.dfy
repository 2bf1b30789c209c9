/** Page arithmetic and the batch/chunk loops of the mail queue: slicing loses and repeats nothing. */
module Slicing {
  function Min(a: int, b: int): int {
    if a < b then a else b
  }

  // ---------- pagination ----------

  /** Math.ceil(total / perPage), or 1 when perPage is not positive. */
  function PageCount(total: nat, perPage: int): int {
    if perPage > 0 then (total + perPage - 1) / perPage else 1
  }

  datatype SqlWindow = SqlWindow(limit: int, offset: int)

  function ToSqlPagination(page: int, perPage: int): SqlWindow {
    SqlWindow(perPage, (page - 1) * perPage)
  }

  /** The rows a query with LIMIT and OFFSET returns; a database refuses negative ones. */
  function Select<T>(rows: seq<T>, w: SqlWindow): seq<T>
    requires w.limit >= 0 && w.offset >= 0
  {
    rows[Min(w.offset, |rows|)..Min(w.offset + w.limit, |rows|)]
  }

  lemma OffsetsAreNatural(page: int, perPage: int)
    requires page >= 1 && perPage >= 1
    ensures ToSqlPagination(page, perPage).offset >= 0
    ensures ToSqlPagination(page + 1, perPage).offset == ToSqlPagination(page, perPage).offset + perPage
  {
    assert (page - 1) * perPage >= 0;
  }

  function Page<T>(rows: seq<T>, page: int, perPage: int): seq<T>
    requires page >= 1 && perPage >= 1
  {
    OffsetsAreNatural(page, perPage);
    Select(rows, ToSqlPagination(page, perPage))
  }

  /** Pages 1 to k, one after the other. */
  function FirstPages<T>(rows: seq<T>, perPage: int, k: nat): seq<T>
    requires perPage >= 1
  {
    if k == 0 then [] else FirstPages(rows, perPage, k - 1) + Page(rows, k, perPage)
  }

  lemma {:induction false} FirstPagesArePrefix<T>(rows: seq<T>, perPage: int, k: nat)
    requires perPage >= 1
    ensures k * perPage >= 0
    ensures FirstPages(rows, perPage, k) == rows[..Min(k * perPage, |rows|)]
  {
    if k > 0 {
      FirstPagesArePrefix(rows, perPage, k - 1);
      OffsetsAreNatural(k, perPage);
      var before := (k - 1) * perPage;
      assert k * perPage == before + perPage;
      assert Page(rows, k, perPage) == rows[Min(before, |rows|)..Min(before + perPage, |rows|)];
      PrefixExtended(rows, Min(before, |rows|), Min(before + perPage, |rows|));
    }
  }

  lemma PrefixExtended<T>(rows: seq<T>, i: nat, j: nat)
    requires i <= j <= |rows|
    ensures rows[..i] + rows[i..j] == rows[..j]
  {
  }

  lemma MulMonotone(a: int, b: int, q: int)
    requires q >= 1
    ensures a <= b ==> a * q <= b * q
    ensures a > b ==> a * q >= b * q + q
  {
    if a <= b {
      assert (b - a) * q >= 0;
    } else {
      assert (a - b - 1) * q >= 0;
    }
  }

  /** The page count is the least number of pages that covers all rows. */
  lemma PageCountIsLeast(total: nat, perPage: int)
    requires perPage >= 1
    ensures var n := PageCount(total, perPage);
      n >= 0 && total <= n * perPage && (total > 0 ==> n >= 1 && (n - 1) * perPage < total) && (total == 0 ==> n == 0)
  {
    var n := PageCount(total, perPage);
    var r := (total + perPage - 1) % perPage;
    assert n * perPage + r == total + perPage - 1;
    assert (n - 1) * perPage == n * perPage - perPage;
    if total == 0 {
      assert (perPage - 1) / perPage == 0;
    }
    MulMonotone(n, 0, perPage);
  }

  /** The announced pages concatenate to all rows, none of them is empty, and later pages are empty. */
  lemma PagesLoseAndRepeatNothing<T>(rows: seq<T>, perPage: int)
    requires perPage >= 1
    ensures PageCount(|rows|, perPage) >= 0
    ensures FirstPages(rows, perPage, PageCount(|rows|, perPage)) == rows
    ensures forall p :: 1 <= p <= PageCount(|rows|, perPage) ==> 0 < |Page(rows, p, perPage)| <= perPage
    ensures forall p :: p > PageCount(|rows|, perPage) ==> p >= 1 && Page(rows, p, perPage) == []
  {
    var n := PageCount(|rows|, perPage);
    PageCountIsLeast(|rows|, perPage);
    FirstPagesArePrefix(rows, perPage, n);
    forall p | 1 <= p <= n
      ensures 0 < |Page(rows, p, perPage)| <= perPage
    {
      MulMonotone(p - 1, n - 1, perPage);
      PageLength(rows, p, perPage);
    }
    forall p | p > n
      ensures p >= 1 && Page(rows, p, perPage) == []
    {
      MulMonotone(n, p - 1, perPage);
      PageLength(rows, p, perPage);
    }
  }

  lemma PageLength<T>(rows: seq<T>, page: int, perPage: int)
    requires page >= 1 && perPage >= 1
    ensures (page - 1) * perPage < |rows| ==> 0 < |Page(rows, page, perPage)| <= perPage
    ensures (page - 1) * perPage >= |rows| ==> Page(rows, page, perPage) == []
  {
    OffsetsAreNatural(page, perPage);
  }

  // ---------- the mail queue ----------

  function Flatten<T>(chunks: seq<seq<T>>): seq<T> {
    if chunks == [] then [] else Flatten(chunks[..|chunks| - 1]) + chunks[|chunks| - 1]
  }

  lemma FlattenOneMore<T>(chunks: seq<seq<T>>, chunk: seq<T>)
    ensures Flatten(chunks + [chunk]) == Flatten(chunks) + chunk
  {
    assert (chunks + [chunk])[..|chunks|] == chunks;
  }

  lemma {:induction false} FlattenConcat<T>(a: seq<seq<T>>, b: seq<seq<T>>)
    ensures Flatten(a + b) == Flatten(a) + Flatten(b)
  {
    if b == [] {
      assert a + b == a;
    } else {
      var front, last := b[..|b| - 1], b[|b| - 1];
      FlattenConcat(a, front);
      FlattenOneMore(a + front, last);
      FlattenOneMore(front, last);
      assert b == front + [last];
      assert a + b == (a + front) + [last];
    }
  }

  /** No chunk is empty or longer than the limit. */
  predicate Within<T>(chunks: seq<seq<T>>, limit: int) {
    forall k :: 0 <= k < |chunks| ==> 0 < |chunks[k]| <= limit
  }

  method ChunkArray<T>(arr: seq<T>, chunkSize: int) returns (chunks: seq<seq<T>>)
    requires chunkSize >= 1
    ensures Flatten(chunks) == arr
    ensures Within(chunks, chunkSize)
    ensures FullButLast(chunks, chunkSize)
  {
    chunks := [];
    var i := 0;
    while i < |arr|
      invariant 0 <= i
      invariant Flatten(chunks) == arr[..Min(i, |arr|)]
      invariant Within(chunks, chunkSize)
      invariant FullButLast(chunks, chunkSize)
      invariant i < |arr| && chunks != [] ==> |chunks[|chunks| - 1]| == chunkSize
    {
      var end := Min(i + chunkSize, |arr|);
      var chunk := arr[i..end];
      assert (chunks + [chunk])[..|chunks|] == chunks;
      PrefixExtended(arr, i, end);
      chunks := chunks + [chunk];
      i := i + chunkSize;
    }
  }

  /** A chunk is no longer than what it was cut from. */
  lemma {:induction false} ChunksFit<T>(chunks: seq<seq<T>>)
    ensures forall k :: 0 <= k < |chunks| ==> |chunks[k]| <= |Flatten(chunks)|
  {
    if chunks != [] {
      ChunksFit(chunks[..|chunks| - 1]);
    }
  }

  /** All chunks but the last have the given size. */
  predicate FullButLast<T>(chunks: seq<seq<T>>, size: int) {
    forall k :: 0 <= k < |chunks| - 1 ==> |chunks[k]| == size
  }

  /** What one batch comes to: groups of `concurrency` mails, the last perhaps smaller, `batchSize` mails in all. */
  predicate IsBatch<T>(groups: seq<seq<T>>, concurrency: int, batchSize: int) {
    && Within(groups, Min(concurrency, batchSize)) && FullButLast(groups, concurrency)
    && 0 < |Flatten(groups)| <= batchSize
  }

  lemma OneBatch<T>(pending: seq<T>, i: nat, end: nat, chunks: seq<seq<T>>, concurrency: int, batchSize: int)
    requires i < end <= |pending| && end <= i + batchSize && Flatten(chunks) == pending[i..end]
    requires Within(chunks, concurrency) && FullButLast(chunks, concurrency)
    ensures IsBatch(chunks, concurrency, batchSize)
  {
    ChunksFit(chunks);
  }

  /** The batches so far, all but the last of them full. */
  ghost predicate Settling<T>(
      pending: seq<T>, i: nat, batches: seq<seq<seq<T>>>, settled: seq<seq<T>>, concurrency: int, batchSize: int)
  {
    && Flatten(batches) == settled && Flatten(settled) == pending[..Min(i, |pending|)]
    && (forall b :: 0 <= b < |batches| ==> IsBatch(batches[b], concurrency, batchSize))
    && (forall b :: 0 <= b < |batches| - 1 ==> |Flatten(batches[b])| == batchSize)
    && (batches != [] && i <= |pending| ==> |Flatten(batches[|batches| - 1])| == batchSize)
  }

  lemma NextBatch<T>(
      pending: seq<T>, i: nat, batches: seq<seq<seq<T>>>, settled: seq<seq<T>>, chunks: seq<seq<T>>,
      concurrency: int, batchSize: int)
    requires concurrency >= 1 && batchSize >= 1 && i < |pending|
    requires Settling(pending, i, batches, settled, concurrency, batchSize)
    requires Flatten(chunks) == pending[i..Min(i + batchSize, |pending|)]
    requires Within(chunks, concurrency) && FullButLast(chunks, concurrency)
    ensures Settling(pending, i + batchSize, batches + [chunks], settled + chunks, concurrency, batchSize)
  {
    var end := Min(i + batchSize, |pending|);
    OneBatch(pending, i, end, chunks, concurrency, batchSize);
    assert (batches + [chunks])[..|batches|] == batches;
    FlattenConcat(settled, chunks);
    PrefixExtended(pending, i, end);
  }

  lemma SettlingEnds<T>(
      pending: seq<T>, i: nat, batches: seq<seq<seq<T>>>, settled: seq<seq<T>>, concurrency: int, batchSize: int)
    requires Settling(pending, i, batches, settled, concurrency, batchSize) && i >= |pending|
    ensures Flatten(batches) == settled && Flatten(settled) == pending
    ensures forall b :: 0 <= b < |batches| ==> IsBatch(batches[b], concurrency, batchSize)
    ensures forall b :: 0 <= b < |batches| - 1 ==> |Flatten(batches[b])| == batchSize
  {
  }

  /** The chunks of one batch, settled one after the other. */
  method SettleBatch<Mail>(before: seq<seq<Mail>>, chunks: seq<seq<Mail>>) returns (settled: seq<seq<Mail>>)
    ensures settled == before + chunks
  {
    settled := before;
    var c := 0;
    while c < |chunks|
      invariant 0 <= c <= |chunks|
      invariant settled == before + chunks[..c]
    {
      settled := settled + [chunks[c]];
      c := c + 1;
    }
    assert chunks[..c] == chunks;
  }

  /**
   * The queue loop. The result lists, in the order they are settled, the groups of mails that are sent in
   * parallel: every pending mail is in exactly one, at its own place in the order. They come batch by
   * batch: every batch but the last has `batchSize` mails, and every group but the last of its batch
   * `concurrency`.
   */
  method ProcessQueue<Mail>(pending: seq<Mail>, concurrency: int, batchSize: int)
    returns (settled: seq<seq<Mail>>, ghost batches: seq<seq<seq<Mail>>>)
    requires concurrency >= 1 && batchSize >= 1
    ensures Flatten(settled) == pending
    ensures Flatten(batches) == settled
    ensures forall b :: 0 <= b < |batches| ==> IsBatch(batches[b], concurrency, batchSize)
    ensures forall b :: 0 <= b < |batches| - 1 ==> |Flatten(batches[b])| == batchSize
  {
    settled, batches := [], [];
    if |pending| == 0 {
      return;
    }
    var i := 0;
    while i < |pending|
      invariant 0 <= i && Settling(pending, i, batches, settled, concurrency, batchSize)
    {
      var batch := pending[i..Min(i + batchSize, |pending|)];
      var chunks := ChunkArray(batch, concurrency);
      NextBatch(pending, i, batches, settled, chunks, concurrency, batchSize);
      settled := SettleBatch(settled, chunks);
      batches := batches + [chunks];
      i := i + batchSize;
    }
    SettlingEnds(pending, i, batches, settled, concurrency, batchSize);
  }
}

/** TorrentsDownloadStatistic: counts of successful and failed torrent
    downloads, each an AtomicInteger that wraps around past the largest
    `int`. */
module TorrentsDownloadStatistic {
  import opened JavaNumbers

  /** `incrementAndGet` on an AtomicInteger holding `x`. */
  function Increment(x: int): (r: int)
    requires IsInt32(x)
    ensures IsInt32(r)
    ensures x < IntMax ==> r == x + 1
    ensures x == IntMax ==> r == IntMin
  {
    Wrap(x + 1)
  }

  /** The count after `n` increments from zero, modulo the wrap-around. */
  function CountAfter(n: nat): (r: int)
    ensures IsInt32(r)
  {
    if n == 0 then 0 else Increment(CountAfter(n - 1))
  }

  /** Below the wrap-around, `n` increments from zero read back as `n`. */
  lemma {:induction false} CountAfterSmall(n: nat)
    requires n <= IntMax
    ensures CountAfter(n) == n
  {
    if n > 0 {
      CountAfterSmall(n - 1);
    }
  }

  class Statistic {
    var successfulDownloadCount: int
    var failedDownloadCount: int

    predicate Valid()
      reads this
    {
      IsInt32(successfulDownloadCount) && IsInt32(failedDownloadCount)
    }

    constructor ()
      ensures Valid()
      ensures successfulDownloadCount == 0 && failedDownloadCount == 0
    {
      successfulDownloadCount := 0;
      failedDownloadCount := 0;
    }

    method Reset()
      modifies this
      ensures Valid()
      ensures successfulDownloadCount == 0 && failedDownloadCount == 0
    {
      successfulDownloadCount := 0;
      failedDownloadCount := 0;
    }

    method FileDownloaded()
      requires Valid()
      modifies this
      ensures Valid()
      ensures successfulDownloadCount == Increment(old(successfulDownloadCount))
      ensures failedDownloadCount == old(failedDownloadCount)
    {
      successfulDownloadCount := Increment(successfulDownloadCount);
    }

    method FileDownloadFailed()
      requires Valid()
      modifies this
      ensures Valid()
      ensures failedDownloadCount == Increment(old(failedDownloadCount))
      ensures successfulDownloadCount == old(successfulDownloadCount)
    {
      failedDownloadCount := Increment(failedDownloadCount);
    }

    function SuccessfulDownloadCount(): int
      reads this
    {
      successfulDownloadCount
    }

    function FailedDownloadCount(): int
      reads this
    {
      failedDownloadCount
    }
  }

  /** Three failures and two successes read back as 3 and 2; both counts
      start at 0 and go back to 0 on reset. */
  method StatisticExample() returns (initialFailed: int, initialSuccessful: int, failed: int, successful: int,
                                 failedAfterReset: int, successfulAfterReset: int)
    ensures initialFailed == 0 && initialSuccessful == 0
    ensures failed == 3 && successful == 2
    ensures failedAfterReset == 0 && successfulAfterReset == 0
  {
    var s := new Statistic();
    initialFailed := s.FailedDownloadCount();
    initialSuccessful := s.SuccessfulDownloadCount();
    s.FileDownloadFailed();
    s.FileDownloadFailed();
    s.FileDownloadFailed();
    s.FileDownloaded();
    s.FileDownloaded();
    failed := s.FailedDownloadCount();
    successful := s.SuccessfulDownloadCount();
    s.Reset();
    failedAfterReset := s.FailedDownloadCount();
    successfulAfterReset := s.SuccessfulDownloadCount();
  }
}

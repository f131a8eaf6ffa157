/**
 * `download_if_lastdownloaded_lt_lastModifiedDate`: a feed is downloaded when
 * the remote `lastModifiedDate` is, as a Python string, greater than the one
 * stored by the most recent load of that feed, or than a fixed sentinel when
 * the feed was never loaded. The `update_history` table is a sequence of rows.
 */
module Freshness {
  import opened Wrappers
  import StrOrder
  import FeedMeta

  /** The date compared against when update_history holds no row for the feed. */
  const Sentinel := "2019-00-01T00:00:00-04:00"

  /** One row of update_history; every column is kept as the string the loader supplied. */
  datatype HistoryRow = HistoryRow(downloadName: string, downloadedDate: string, lastModifiedDate: string,
                                   size: string, zipSize: string, gzSize: string, sha256: string)

  /**
   * `select ... where download_name = url order by downloadedDate desc limit 1`:
   * the row for `url` with the greatest downloadedDate; among equal dates the
   * one appended last.
   */
  function LatestRow(history: seq<HistoryRow>, url: string): Option<HistoryRow>
  {
    if |history| == 0 then None
    else
      var best := LatestRow(history[..|history| - 1], url);
      var last := history[|history| - 1];
      if last.downloadName != url then best
      else if best.Some? && StrOrder.Less(last.downloadedDate, best.value.downloadedDate) then best
      else Some(last)
  }

  /** The row found is a row of `url` that no other row of `url` follows in downloadedDate; none is found only when `url` has no row. */
  lemma {:induction false} LatestRowIsLatest(history: seq<HistoryRow>, url: string)
    ensures LatestRow(history, url).None? <==> forall i :: 0 <= i < |history| ==> history[i].downloadName != url
    ensures LatestRow(history, url).Some? ==>
      var r := LatestRow(history, url).value;
      && r in history && r.downloadName == url
      && forall i :: 0 <= i < |history| && history[i].downloadName == url ==>
           !StrOrder.Less(r.downloadedDate, history[i].downloadedDate)
  {
    if |history| > 0 {
      var prefix := history[..|history| - 1];
      var last := history[|history| - 1];
      LatestRowIsLatest(prefix, url);
      assert forall i :: 0 <= i < |history| - 1 ==> history[i] == prefix[i];
      var best := LatestRow(prefix, url);
      if last.downloadName == url {
        if best.Some? && StrOrder.Less(last.downloadedDate, best.value.downloadedDate) {
          // best stays: it is not below any row of the prefix, nor below the last row
          StrOrder.Trichotomy(last.downloadedDate, best.value.downloadedDate);
        } else if best.Some? {
          // the last row wins: it is not below best, which is not below any row of the prefix
          forall i | 0 <= i < |history| && history[i].downloadName == url
            ensures !StrOrder.Less(last.downloadedDate, history[i].downloadedDate)
          {
            if i < |history| - 1 && StrOrder.Less(last.downloadedDate, history[i].downloadedDate) {
              StrOrder.Trichotomy(best.value.downloadedDate, last.downloadedDate);
              if best.value.downloadedDate != last.downloadedDate {
                StrOrder.Transitive(best.value.downloadedDate, last.downloadedDate, history[i].downloadedDate);
              }
            } else if i == |history| - 1 {
              StrOrder.Irreflexive(last.downloadedDate);
            }
          }
        } else {
          StrOrder.Irreflexive(last.downloadedDate);
        }
      }
    }
  }

  /** Appending a row for another feed does not change which row is latest for `url`. */
  lemma LatestRowOtherFeed(history: seq<HistoryRow>, row: HistoryRow, url: string)
    requires row.downloadName != url
    ensures LatestRow(history + [row], url) == LatestRow(history, url)
  {
    assert (history + [row])[..|history|] == history;
  }

  /** A row appended for `url` with a downloadedDate not below any earlier one of `url` becomes the latest. */
  lemma LatestRowAfterAppend(history: seq<HistoryRow>, row: HistoryRow)
    requires forall i :: 0 <= i < |history| && history[i].downloadName == row.downloadName ==>
               !StrOrder.Less(row.downloadedDate, history[i].downloadedDate)
    ensures LatestRow(history + [row], row.downloadName) == Some(row)
  {
    var h := history + [row];
    assert h[..|history|] == history;
    LatestRowIsLatest(history, row.downloadName);
  }

  /** `str(curs.fetchone()[0])`, or the sentinel when the query returned no row. */
  function PreviousDate(latest: Option<HistoryRow>): string {
    match latest
    case Some(r) => r.lastModifiedDate
    case None => Sentinel
  }

  /** The comparison `lastModifiedDate > previouslastModifiedDate`. */
  predicate NeedsDownload(remote: string, previous: string) {
    StrOrder.Less(previous, remote)
  }

  /** The whole decision for one feed URL: read the descriptor (an IndexError escapes), then compare. */
  function DownloadDecision(history: seq<HistoryRow>, url: string, checkMeta: string): (r: Result<bool>)
    ensures r.Ok? <==> FeedMeta.ParseMeta(checkMeta).Ok?
  {
    var meta :- FeedMeta.ParseMeta(checkMeta);
    Ok(NeedsDownload(meta.lastModifiedDate, PreviousDate(LatestRow(history, url))))
  }

  /** Equal dates are not staleness. */
  lemma SameDateIsFresh(date: string)
    ensures !NeedsDownload(date, date)
  {
    StrOrder.Irreflexive(date);
  }

  /** A remote date older than the stored one never triggers a download. */
  lemma OlderRemoteIsFresh(remote: string, previous: string)
    requires StrOrder.Less(remote, previous)
    ensures !NeedsDownload(remote, previous)
  {
    StrOrder.Trichotomy(remote, previous);
  }

  /** A download is needed exactly when the dates differ and the remote one is not the smaller. */
  lemma DecisionIsTrichotomous(remote: string, previous: string)
    ensures NeedsDownload(remote, previous) <==> remote != previous && !StrOrder.Less(remote, previous)
  {
    StrOrder.Trichotomy(remote, previous);
  }

  /** If a date triggers a download, every later date does too. */
  lemma LaterRemoteStaysStale(remote: string, later: string, previous: string)
    requires NeedsDownload(remote, previous) && StrOrder.Less(remote, later)
    ensures NeedsDownload(later, previous)
  {
    StrOrder.Transitive(previous, remote, later);
  }

  /** With no history for the feed, the decision is a comparison with the sentinel, not an unconditional download. */
  lemma NoHistoryUsesSentinel(history: seq<HistoryRow>, url: string, checkMeta: string)
    requires forall i :: 0 <= i < |history| ==> history[i].downloadName != url
    requires FeedMeta.ParseMeta(checkMeta).Ok?
    ensures DownloadDecision(history, url, checkMeta)
         == Ok(StrOrder.Less(Sentinel, FeedMeta.ParseMeta(checkMeta).value.lastModifiedDate))
  {
    LatestRowIsLatest(history, url);
  }

  /** A never-loaded feed whose remote date precedes the sentinel is skipped. */
  lemma NoHistoryOldFeedIsSkipped()
    ensures !NeedsDownload("2018-12-31T00:00:00-05:00", PreviousDate(None))
  {
  }

  /** A never-loaded feed dated like the source's own example is downloaded. */
  lemma NoHistoryExampleIsLoaded()
    ensures NeedsDownload("2019-10-12T20:07:56-04:00", PreviousDate(None))
  {
  }
}

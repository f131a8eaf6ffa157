/**
 * `insert_data_into_db` and `get_and_load`: for every feed judged stale, a
 * history row is written, then every CVE item is upserted into `nvd` and
 * `nvd_json`, each table write committed on its own. The connection has
 * autocommit off, so the history row becomes durable only with the first
 * commit; an exception ends the program and the server discards whatever
 * was not committed.
 */
module Loader {
  import opened Wrappers
  import opened Json
  import CveExtract
  import FeedMeta
  import Freshness
  import Feeds
  import Tables
  import StrOrder

  type NvdTable = Tables.Table<JValue, CveExtract.NvdColumns>
  type JsonTable = Tables.Table<JValue, JValue>

  /** The three tables the loader writes. */
  datatype Store = Store(nvd: NvdTable, nvdJson: JsonTable, history: seq<Freshness.HistoryRow>)

  predicate ValidStore(s: Store) {
    Tables.Valid(s.nvd) && Tables.Valid(s.nvdJson)
  }

  /**
   * What the outside world supplies for one feed: the descriptor text read by
   * the freshness check, the one read again by insert_data_into_db, the
   * decoded feed document, and the clock's `isoformat()` at load time.
   */
  datatype FeedSource = FeedSource(checkMeta: string, loadMeta: string, document: JValue, downloadedAt: string)

  /** The count returned, or the exception that ended the program. */
  datatype Outcome = Loaded(count: nat) | Crashed(error: PyError)

  /** An outcome and the committed state it leaves. */
  datatype Run = Run(outcome: Outcome, store: Store)

  function HistoryRowOf(url: string, downloadedAt: string, m: FeedMeta.Meta): Freshness.HistoryRow {
    Freshness.HistoryRow(url, downloadedAt, m.lastModifiedDate, m.size, m.zipSize, m.gzSize, m.sha256)
  }

  /** `data['CVE_Items']`, iterated. */
  function ItemsOf(data: JValue): Result<seq<JValue>> {
    var itemsValue :- Lookup(data, "CVE_Items");
    Iterate(itemsValue)
  }

  /** The two keyed writes for one CVE item. */
  function StoreRecord(s: Store, rec: CveExtract.CveRecord): Store {
    s.(nvd := Tables.Upsert(s.nvd, rec.cveId, rec.columns),
       nvdJson := Tables.Upsert(s.nvdJson, rec.cveId, rec.cveJson))
  }

  /** The state after the items stored so far, how many were stored, and the exception of the item that stopped the loop. */
  datatype Applied = Applied(store: Store, stored: nat, failure: Option<PyError>)

  /** The CVE loop: every item is stored in order until get_data raises. */
  function ApplyItems(s: Store, items: seq<JValue>): Applied
    decreases |items|, 1
  {
    if |items| == 0 then Applied(s, 0, None) else ApplyLast(s, items)
  }

  /** The last turn of that loop: the item is stored unless get_data raises for it or for an earlier one. */
  function ApplyLast(s: Store, items: seq<JValue>): Applied
    requires |items| > 0
    decreases |items|, 0
  {
    var a := ApplyItems(s, items[..|items| - 1]);
    if a.failure.Some? then a
    else match CveExtract.CveRecordOf(items[|items| - 1])
      case Err(e) => Applied(a.store, a.stored, Some(e))
      case Ok(rec) => Applied(StoreRecord(a.store, rec), a.stored + 1, None)
  }

  /** insert_data_into_db(data, url), as the committed state it leaves. */
  function InsertData(s: Store, url: string, src: FeedSource): Run
  {
    match FeedMeta.ParseMeta(src.loadMeta)
    case Err(e) => Run(Crashed(e), s)
    case Ok(meta) =>
      var written := s.(history := s.history + [HistoryRowOf(url, src.downloadedAt, meta)]);
      match ItemsOf(src.document)
      case Err(e) => Run(Crashed(e), s)
      case Ok(items) =>
        var a := ApplyItems(written, items);
        match a.failure
        case None => Run(Loaded(|items|), a.store)
        case Some(e) => Run(Crashed(e), if a.stored == 0 then s else a.store)
  }

  /** The loop of get_and_load from feed `i` on, with `count` items loaded so far. */
  function LoadFeeds(s: Store, count: nat, urls: seq<string>, sources: seq<FeedSource>, i: nat): Run
    requires |sources| == |urls| && i <= |urls|
    decreases |urls| - i, 1, 0
  {
    if i == |urls| then Run(Loaded(count), s) else VisitFeed(s, count, urls, sources, i)
  }

  /** One turn of that loop: check feed `i`, load it when stale, and go on unless it raised. */
  function VisitFeed(s: Store, count: nat, urls: seq<string>, sources: seq<FeedSource>, i: nat): Run
    requires |sources| == |urls| && i < |urls|
    decreases |urls| - i, 0, 1
  {
    match Freshness.DownloadDecision(s.history, urls[i], sources[i].checkMeta)
    case Err(e) => Run(Crashed(e), s)
    case Ok(stale) =>
      if stale then Continue(InsertData(s, urls[i], sources[i]), count, urls, sources, i)
      else LoadFeeds(s, count, urls, sources, i + 1)
  }

  /** After loading feed `i` with result `r`: the loop goes on from the state the load committed, unless it raised. */
  function Continue(r: Run, count: nat, urls: seq<string>, sources: seq<FeedSource>, i: nat): Run
    requires |sources| == |urls| && i < |urls|
    decreases |urls| - i, 0, 0
  {
    match r.outcome
    case Crashed(e) => r
    case Loaded(n) => LoadFeeds(r.store, count + n, urls, sources, i + 1)
  }

  /** A feed judged fresh is skipped. */
  lemma LoadFeedsSkip(s: Store, count: nat, urls: seq<string>, sources: seq<FeedSource>, i: nat)
    requires |sources| == |urls| && i < |urls|
    requires Freshness.DownloadDecision(s.history, urls[i], sources[i].checkMeta) == Ok(false)
    ensures VisitFeed(s, count, urls, sources, i) == LoadFeeds(s, count, urls, sources, i + 1)
  {
  }

  /** A feed judged stale is loaded, and the loop continues from the result of the load. */
  lemma LoadFeedsAdvance(s: Store, count: nat, urls: seq<string>, sources: seq<FeedSource>, i: nat)
    requires |sources| == |urls| && i < |urls|
    requires Freshness.DownloadDecision(s.history, urls[i], sources[i].checkMeta) == Ok(true)
    ensures VisitFeed(s, count, urls, sources, i) == Continue(InsertData(s, urls[i], sources[i]), count, urls, sources, i)
  {
  }

  /** When the loop goes on to a count after a load, that load ended with a count and the loop resumed from its state. */
  lemma ResumeAfter(v: Run, r: Run, count: nat, urls: seq<string>, sources: seq<FeedSource>, i: nat)
    returns (t: Store, n: nat)
    requires |sources| == |urls| && i < |urls|
    requires v == Continue(r, count, urls, sources, i) && v.outcome.Loaded?
    ensures r.outcome.Loaded? && t == r.store && n == r.outcome.count
    ensures v.outcome == LoadFeeds(t, count + n, urls, sources, i + 1).outcome
  {
    t, n := r.store, r.outcome.count;
  }

  /** The MySQL server as one connection sees it: what is committed, and what this connection has written. */
  class Database {
    var committed: Store
    var working: Store

    constructor (initial: Store)
      ensures committed == initial && working == initial
    {
      committed := initial;
      working := initial;
    }

    method Commit()
      modifies this
      ensures committed == old(working) && working == old(working)
    {
      committed := working;
    }

    /** The end of the program with a transaction open: the server discards it. */
    method Rollback()
      modifies this
      ensures working == old(committed) && committed == old(committed)
    {
      working := committed;
    }

    method InsertDataIntoDb(url: string, src: FeedSource) returns (o: Outcome)
      requires working == committed
      modifies this
      ensures Run(o, committed) == InsertData(old(committed), url, src)
      ensures working == committed
    {
      var meta := FeedMeta.ParseMeta(src.loadMeta);
      if meta.Err? {
        return Crashed(meta.error);
      }
      working := working.(history := working.history + [HistoryRowOf(url, src.downloadedAt, meta.value)]);
      ghost var written := working;
      var itemsValue := Lookup(src.document, "CVE_Items");
      if itemsValue.Err? {
        Rollback();
        return Crashed(itemsValue.error);
      }
      var items := Iterate(itemsValue.value);
      if items.Err? {
        Rollback();
        return Crashed(items.error);
      }
      var count := 0;
      for i := 0 to |items.value|
        invariant count == i
        invariant ApplyItems(written, items.value[..i]) == Applied(working, i, None)
        invariant i == 0 ==> committed == old(committed) && working == written
        invariant i > 0 ==> committed == working
      {
        assert items.value[..i + 1][..i] == items.value[..i];
        count := count + 1;
        var rec := CveExtract.GetData(items.value[i]);
        if rec.Err? {
          ApplyItemsErrStays(written, items.value, i + 1);
          Rollback();
          return Crashed(rec.error);
        }
        var key := rec.value.cveId;
        var id := Tables.IdOf(working.nvd, key);
        if id.None? {
          working := working.(nvd := Tables.Insert(working.nvd, key, rec.value.columns));
        } else {
          working := working.(nvd := Tables.ReplaceRow(working.nvd, id.value, key, rec.value.columns));
        }
        Commit();
        var jsonId := Tables.IdOf(working.nvdJson, key);
        if jsonId.None? {
          working := working.(nvdJson := Tables.Insert(working.nvdJson, key, rec.value.cveJson));
        } else {
          working := working.(nvdJson := Tables.ReplaceRow(working.nvdJson, jsonId.value, key, rec.value.cveJson));
        }
        Commit();
      }
      assert items.value[..|items.value|] == items.value;
      Commit();
      o := Loaded(count);
    }

    method GetAndLoad(mods: seq<Feeds.Modifier>, sources: seq<FeedSource>) returns (o: Outcome)
      requires |sources| == |mods| && working == committed
      modifies this
      ensures Run(o, committed) == LoadFeeds(old(committed), 0, Feeds.FeedUrls(mods), sources, 0)
      ensures working == committed
    {
      ghost var urls := Feeds.FeedUrls(mods);
      var count: nat := 0;
      for i := 0 to |mods|
        invariant working == committed
        invariant LoadFeeds(old(committed), 0, urls, sources, 0) == LoadFeeds(committed, count, urls, sources, i)
      {
        var url := Feeds.Substitute(Feeds.BaseUrl, mods[i]);
        Feeds.TemplateShapes(mods[i]);
        assert url == urls[i];
        var stale := Freshness.DownloadDecision(committed.history, url, sources[i].checkMeta);
        if stale.Err? {
          return Crashed(stale.error);
        }
        if stale.value {
          ghost var before := committed;
          var loaded := InsertDataIntoDb(url, sources[i]);
          LoadFeedsAdvance(before, count, urls, sources, i);
          if loaded.Crashed? {
            return loaded;
          }
          count := count + loaded.count;
        } else {
          LoadFeedsSkip(committed, count, urls, sources, i);
        }
      }
      o := Loaded(count);
    }
  }

  // ---------------------------------------------------------------------
  // The CVE loop
  // ---------------------------------------------------------------------

  lemma {:induction false} ApplyItemsErrStays(s: Store, items: seq<JValue>, p: nat)
    requires p <= |items| && ApplyItems(s, items[..p]).failure.Some?
    ensures ApplyItems(s, items) == ApplyItems(s, items[..p])
    decreases |items| - p
  {
    if p < |items| {
      var shorter := items[..|items| - 1];
      assert shorter[..p] == items[..p];
      ApplyItemsErrStays(s, shorter, p);
    } else {
      assert items[..p] == items;
    }
  }

  /**
   * The loop stores the items in order and stops at the first whose get_data
   * raises, with that exception; it never touches update_history.
   */
  lemma {:induction false} ApplyItemsSpec(s: Store, items: seq<JValue>)
    ensures var a := ApplyItems(s, items);
      && a.stored <= |items| && a.store.history == s.history
      && (forall i :: 0 <= i < a.stored ==> CveExtract.CveRecordOf(items[i]).Ok?)
      && (a.failure.None? <==> a.stored == |items|)
      && (a.failure.Some? ==> CveExtract.CveRecordOf(items[a.stored]) == Err(a.failure.value))
  {
    if |items| > 0 {
      var prefix := items[..|items| - 1];
      ApplyItemsSpec(s, prefix);
      assert forall i :: 0 <= i < |items| - 1 ==> prefix[i] == items[i];
    }
  }

  /** Storing keeps both tables valid: ids ascending, one row per CVE id. */
  lemma {:induction false} ApplyItemsValid(s: Store, items: seq<JValue>)
    requires ValidStore(s)
    ensures ValidStore(ApplyItems(s, items).store)
  {
    if |items| > 0 {
      var prefix := items[..|items| - 1];
      ApplyItemsValid(s, prefix);
      var a := ApplyItems(s, prefix);
      var r := CveExtract.CveRecordOf(items[|items| - 1]);
      if a.failure.None? && r.Ok? {
        Tables.UpsertValid(a.store.nvd, r.value.cveId, r.value.columns);
        Tables.UpsertValid(a.store.nvdJson, r.value.cveId, r.value.cveJson);
      }
    }
  }

  /** No item with the CVE id `k` was stored. */
  predicate NoStoredItemFor(items: seq<JValue>, k: JValue) {
    forall i :: 0 <= i < |items| ==> CveExtract.CveRecordOf(items[i]).Ok? ==> CveExtract.CveRecordOf(items[i]).value.cveId != k
  }

  /** Rows of CVE ids that no stored item carries are unchanged. */
  lemma {:induction false} ApplyItemsOthers(s: Store, items: seq<JValue>, k: JValue)
    requires ValidStore(s) && NoStoredItemFor(items, k)
    ensures Tables.RowFor(ApplyItems(s, items).store.nvd, k) == Tables.RowFor(s.nvd, k)
    ensures Tables.RowFor(ApplyItems(s, items).store.nvdJson, k) == Tables.RowFor(s.nvdJson, k)
  {
    if |items| > 0 {
      var prefix := items[..|items| - 1];
      assert NoStoredItemFor(prefix, k) by {
        assert forall i :: 0 <= i < |items| - 1 ==> prefix[i] == items[i];
      }
      ApplyItemsOthers(s, prefix, k);
      ApplyItemsValid(s, prefix);
      var a := ApplyItems(s, prefix);
      var r := CveExtract.CveRecordOf(items[|items| - 1]);
      if a.failure.None? && r.Ok? {
        Tables.UpsertOthers(a.store.nvd, r.value.cveId, r.value.columns, k);
        Tables.UpsertOthers(a.store.nvdJson, r.value.cveId, r.value.cveJson, k);
      }
    }
  }

  /** A CVE id that already had a row keeps that row's id, in both tables, however often it is stored. */
  lemma {:induction false} ApplyItemsKeepsIds(s: Store, items: seq<JValue>, k: JValue)
    requires ValidStore(s)
    ensures Tables.RowFor(s.nvd, k).Some? ==>
      var r := Tables.RowFor(ApplyItems(s, items).store.nvd, k);
      r.Some? && r.value.id == Tables.RowFor(s.nvd, k).value.id
    ensures Tables.RowFor(s.nvdJson, k).Some? ==>
      var r := Tables.RowFor(ApplyItems(s, items).store.nvdJson, k);
      r.Some? && r.value.id == Tables.RowFor(s.nvdJson, k).value.id
  {
    if |items| > 0 {
      var prefix := items[..|items| - 1];
      ApplyItemsKeepsIds(s, prefix, k);
      ApplyItemsValid(s, prefix);
      var a := ApplyItems(s, prefix);
      var r := CveExtract.CveRecordOf(items[|items| - 1]);
      if a.failure.None? && r.Ok? {
        if r.value.cveId == k {
          Tables.UpsertRow(a.store.nvd, k, r.value.columns);
          Tables.UpsertRow(a.store.nvdJson, k, r.value.cveJson);
        } else {
          Tables.UpsertOthers(a.store.nvd, r.value.cveId, r.value.columns, k);
          Tables.UpsertOthers(a.store.nvdJson, r.value.cveId, r.value.cveJson, k);
        }
      }
    }
  }

  /** Storing a list is storing its first part, then, unless that stopped, the rest. */
  lemma {:induction false} ApplyItemsConcat(s: Store, a: seq<JValue>, b: seq<JValue>)
    ensures ApplyItems(s, a + b) ==
      var x := ApplyItems(s, a);
      if x.failure.Some? then x
      else var y := ApplyItems(x.store, b); Applied(y.store, x.stored + y.stored, y.failure)
  {
    if |b| == 0 {
      assert a + b == a;
    } else {
      var b' := b[..|b| - 1];
      ApplyItemsConcat(s, a, b');
      assert (a + b)[..|a + b| - 1] == a + b';
      assert (a + b)[|a + b| - 1] == b[|b| - 1];
    }
  }

  /** When every item is stored, so is every prefix, and the rest is stored on top of it. */
  lemma ApplyItemsSplitAt(s: Store, items: seq<JValue>, p: nat)
    requires p <= |items| && ApplyItems(s, items).failure.None?
    ensures ApplyItems(s, items[..p]).failure.None?
    ensures ApplyItems(s, items).store == ApplyItems(ApplyItems(s, items[..p]).store, items[p..]).store
  {
    assert items == items[..p] + items[p..];
    ApplyItemsConcat(s, items[..p], items[p..]);
  }

  /** After a stored item, both tables hold its columns under its CVE id. */
  lemma LastStoredRow(s: Store, items: seq<JValue>)
    requires ValidStore(s) && |items| > 0 && ApplyItems(s, items).failure.None?
    ensures CveExtract.CveRecordOf(items[|items| - 1]).Ok?
    ensures var rec := CveExtract.CveRecordOf(items[|items| - 1]).value;
      var t := ApplyItems(s, items).store;
      && Tables.RowFor(t.nvd, rec.cveId).Some? && Tables.RowFor(t.nvd, rec.cveId).value.cols == rec.columns
      && Tables.RowFor(t.nvdJson, rec.cveId).Some? && Tables.RowFor(t.nvdJson, rec.cveId).value.cols == items[|items| - 1]
  {
    var prefix := items[..|items| - 1];
    var before := ApplyItems(s, prefix);
    var rec := CveExtract.CveRecordOf(items[|items| - 1]).value;
    ApplyItemsValid(s, prefix);
    CveExtract.RecordKeepsMandatoryValues(items[|items| - 1]);
    Tables.UpsertRow(before.store.nvd, rec.cveId, rec.columns);
    Tables.UpsertRow(before.store.nvdJson, rec.cveId, rec.cveJson);
  }

  /**
   * When every item is stored, the row of a CVE id holds the columns of the
   * last item carrying that id: later duplicates overwrite earlier ones.
   */
  lemma LastItemWins(s: Store, items: seq<JValue>, j: nat)
    requires ValidStore(s) && ApplyItems(s, items).failure.None? && j < |items|
    requires CveExtract.CveRecordOf(items[j]).Ok?
    requires NoStoredItemFor(items[j + 1..], CveExtract.CveRecordOf(items[j]).value.cveId)
    ensures var rec := CveExtract.CveRecordOf(items[j]).value;
      var t := ApplyItems(s, items).store;
      && Tables.RowFor(t.nvd, rec.cveId).Some? && Tables.RowFor(t.nvd, rec.cveId).value.cols == rec.columns
      && Tables.RowFor(t.nvdJson, rec.cveId).Some? && Tables.RowFor(t.nvdJson, rec.cveId).value.cols == items[j]
  {
    var key := CveExtract.CveRecordOf(items[j]).value.cveId;
    var upTo := items[..j + 1];
    ApplyItemsSplitAt(s, items, j + 1);
    var x := ApplyItems(s, upTo).store;
    assert upTo[|upTo| - 1] == items[j];
    LastStoredRow(s, upTo);
    ApplyItemsValid(s, upTo);
    ApplyItemsOthers(x, items[j + 1..], key);
  }

  // ---------------------------------------------------------------------
  // insert_data_into_db
  // ---------------------------------------------------------------------

  /**
   * The history row survives exactly when the descriptor parses, `CVE_Items`
   * can be iterated, and the first item (if any) is stored: the first
   * per-item commit makes it durable.
   */
  predicate HistoryCommitted(src: FeedSource) {
    && FeedMeta.ParseMeta(src.loadMeta).Ok?
    && ItemsOf(src.document).Ok?
    && var items := ItemsOf(src.document).value;
       |items| == 0 || CveExtract.CveRecordOf(items[0]).Ok?
  }

  /** The items of a document that can be iterated, or none. */
  function ItemCount(src: FeedSource): nat {
    match ItemsOf(src.document)
    case Ok(items) => |items|
    case Err(_) => 0
  }

  /**
   * A call returns the number of CVE items, duplicates included, exactly when
   * every item is stored; update_history then holds one more row, for `url`.
   */
  lemma InsertDataLoaded(s: Store, url: string, src: FeedSource)
    ensures var r := InsertData(s, url, src);
      r.outcome.Loaded? <==>
        && FeedMeta.ParseMeta(src.loadMeta).Ok? && ItemsOf(src.document).Ok?
        && forall i :: 0 <= i < |ItemsOf(src.document).value| ==> CveExtract.CveRecordOf(ItemsOf(src.document).value[i]).Ok?
    ensures var r := InsertData(s, url, src);
      r.outcome.Loaded? ==> r.outcome.count == ItemCount(src)
  {
    var meta := FeedMeta.ParseMeta(src.loadMeta);
    var items := ItemsOf(src.document);
    if meta.Ok? && items.Ok? {
      var written := s.(history := s.history + [HistoryRowOf(url, src.downloadedAt, meta.value)]);
      ApplyItemsSpec(written, items.value);
    }
  }

  /** update_history gains the row for `url` exactly when the first commit happens; otherwise it is as before. */
  lemma InsertDataHistory(s: Store, url: string, src: FeedSource)
    ensures InsertData(s, url, src).store.history ==
      if HistoryCommitted(src)
      then s.history + [HistoryRowOf(url, src.downloadedAt, FeedMeta.ParseMeta(src.loadMeta).value)]
      else s.history
  {
    var meta := FeedMeta.ParseMeta(src.loadMeta);
    var items := ItemsOf(src.document);
    if meta.Ok? && items.Ok? {
      var written := s.(history := s.history + [HistoryRowOf(url, src.downloadedAt, meta.value)]);
      ApplyItemsSpec(written, items.value);
    }
  }

  /** A call keeps both tables valid. */
  lemma InsertDataValid(s: Store, url: string, src: FeedSource)
    requires ValidStore(s)
    ensures ValidStore(InsertData(s, url, src).store)
  {
    var meta := FeedMeta.ParseMeta(src.loadMeta);
    var items := ItemsOf(src.document);
    if meta.Ok? && items.Ok? {
      var written := s.(history := s.history + [HistoryRowOf(url, src.downloadedAt, meta.value)]);
      ApplyItemsValid(written, items.value);
    }
  }

  /**
   * Once the history row is committed, the feed is judged fresh for the date
   * it recorded, even when a later item made the load crash: a partly loaded
   * feed is not downloaded again until NVD publishes a newer date.
   */
  lemma CommittedFeedLooksFresh(s: Store, url: string, src: FeedSource, checkMeta: string)
    requires HistoryCommitted(src)
    requires forall i :: 0 <= i < |s.history| && s.history[i].downloadName == url ==>
               !StrOrder.Less(src.downloadedAt, s.history[i].downloadedDate)
    requires FeedMeta.ParseMeta(checkMeta).Ok?
    requires FeedMeta.ParseMeta(checkMeta).value.lastModifiedDate == FeedMeta.ParseMeta(src.loadMeta).value.lastModifiedDate
    ensures Freshness.DownloadDecision(InsertData(s, url, src).store.history, url, checkMeta) == Ok(false)
  {
    var row := HistoryRowOf(url, src.downloadedAt, FeedMeta.ParseMeta(src.loadMeta).value);
    InsertDataHistory(s, url, src);
    Freshness.LatestRowAfterAppend(s.history, row);
    Freshness.SameDateIsFresh(row.lastModifiedDate);
  }

  /** A crash on the very first item leaves the database as it was: the feed stays as stale as before. */
  lemma FirstItemCrashChangesNothing(s: Store, url: string, src: FeedSource)
    requires FeedMeta.ParseMeta(src.loadMeta).Ok? && ItemsOf(src.document).Ok?
    requires |ItemsOf(src.document).value| > 0 && CveExtract.CveRecordOf(ItemsOf(src.document).value[0]).Err?
    ensures InsertData(s, url, src) == Run(Crashed(CveExtract.CveRecordOf(ItemsOf(src.document).value[0]).error), s)
  {
    var items := ItemsOf(src.document).value;
    var meta := FeedMeta.ParseMeta(src.loadMeta).value;
    ApplyItemsFirstFails(s.(history := s.history + [HistoryRowOf(url, src.downloadedAt, meta)]), items);
  }

  /** When get_data raises for the first item, the loop stores nothing and stops with that exception. */
  lemma ApplyItemsFirstFails(s: Store, items: seq<JValue>)
    requires |items| > 0 && CveExtract.CveRecordOf(items[0]).Err?
    ensures ApplyItems(s, items) == Applied(s, 0, Some(CveExtract.CveRecordOf(items[0]).error))
  {
    var e := CveExtract.CveRecordOf(items[0]).error;
    var first := items[..1];
    assert first[..0] == [] && first[0] == items[0];
    assert ApplyItems(s, []) == Applied(s, 0, None);
    assert ApplyItems(s, first) == Applied(s, 0, Some(e));
    ApplyItemsErrStays(s, items, 1);
  }

  // ---------------------------------------------------------------------
  // get_and_load
  // ---------------------------------------------------------------------

  /** The items of the feeds from `i` on that are judged stale against `history`. */
  function StaleCount(history: seq<Freshness.HistoryRow>, urls: seq<string>, sources: seq<FeedSource>, i: nat): nat
    requires |sources| == |urls| && i <= |urls|
    decreases |urls| - i
  {
    if i == |urls| then 0
    else
      (if Freshness.DownloadDecision(history, urls[i], sources[i].checkMeta) == Ok(true)
       then ItemCount(sources[i]) else 0)
      + StaleCount(history, urls, sources, i + 1)
  }

  /** Rows for other feeds appended after `history` do not change the latest row of `url`. */
  lemma {:induction false} LatestRowIgnoresOthers(history: seq<Freshness.HistoryRow>, extra: seq<Freshness.HistoryRow>, url: string)
    requires forall k :: 0 <= k < |extra| ==> extra[k].downloadName != url
    ensures Freshness.LatestRow(history + extra, url) == Freshness.LatestRow(history, url)
  {
    if |extra| > 0 {
      var e' := extra[..|extra| - 1];
      assert forall k :: 0 <= k < |e'| ==> e'[k] == extra[k];
      LatestRowIgnoresOthers(history, e', url);
      assert history + extra == (history + e') + [extra[|extra| - 1]];
      Freshness.LatestRowOtherFeed(history + e', extra[|extra| - 1], url);
    } else {
      assert history + extra == history;
    }
  }

  /** No feed URL appears twice in the list. */
  predicate DistinctUrls(urls: seq<string>) {
    forall i, j :: 0 <= i < j < |urls| ==> urls[i] != urls[j]
  }

  /** The rows of `history` past `base` belong to none of the feeds from `i` on. */
  predicate ExtendsWithOthers(history: seq<Freshness.HistoryRow>, base: seq<Freshness.HistoryRow>, urls: seq<string>, i: nat) {
    && |base| <= |history| && history[..|base|] == base
    && forall k, j :: |base| <= k < |history| && i <= j < |urls| ==> history[k].downloadName != urls[j]
  }

  /** The decision for feed `i` is the one it would get against `base`. */
  lemma DecisionAgainstBase(history: seq<Freshness.HistoryRow>, base: seq<Freshness.HistoryRow>,
                            urls: seq<string>, i: nat, checkMeta: string)
    requires i < |urls| && ExtendsWithOthers(history, base, urls, i)
    ensures Freshness.DownloadDecision(history, urls[i], checkMeta)
         == Freshness.DownloadDecision(base, urls[i], checkMeta)
  {
    var extra := history[|base|..];
    assert history == base + extra;
    LatestRowIgnoresOthers(base, extra, urls[i]);
  }

  /** A load appends to update_history only rows for its own URL. */
  lemma InsertDataOwnRows(s: Store, url: string, src: FeedSource)
    ensures var h := InsertData(s, url, src).store.history;
      && |s.history| <= |h| && h[..|s.history|] == s.history
      && forall k :: |s.history| <= k < |h| ==> h[k].downloadName == url
  {
    InsertDataHistory(s, url, src);
  }

  /** Rows appended for feed `i` keep the later feeds' rows as they were. */
  lemma ExtendsWithOwnRows(before: seq<Freshness.HistoryRow>, after: seq<Freshness.HistoryRow>,
                           base: seq<Freshness.HistoryRow>, urls: seq<string>, i: nat)
    requires i < |urls| && DistinctUrls(urls) && ExtendsWithOthers(before, base, urls, i)
    requires |before| <= |after| && after[..|before|] == before
    requires forall k :: |before| <= k < |after| ==> after[k].downloadName == urls[i]
    ensures ExtendsWithOthers(after, base, urls, i + 1)
  {
    assert after[..|base|] == base by {
      assert before[..|base|] == base;
    }
    forall k, j | |base| <= k < |after| && i + 1 <= j < |urls|
      ensures after[k].downloadName != urls[j]
    {
      if k < |before| {
        assert after[k] == before[k];
      }
    }
  }

  /**
   * A stale feed in a run that ends with a count was loaded in full: the
   * run goes on from the state `t` the load committed, `n` items further,
   * and that load appended history rows for this feed only.
   */
  lemma StaleFeedLoaded(s: Store, count: nat, urls: seq<string>, sources: seq<FeedSource>, i: nat)
    returns (t: Store, n: nat)
    requires |sources| == |urls| && i < |urls|
    requires Freshness.DownloadDecision(s.history, urls[i], sources[i].checkMeta) == Ok(true)
    requires VisitFeed(s, count, urls, sources, i).outcome.Loaded?
    ensures n == ItemCount(sources[i])
    ensures VisitFeed(s, count, urls, sources, i).outcome == LoadFeeds(t, count + n, urls, sources, i + 1).outcome
    ensures |s.history| <= |t.history| && t.history[..|s.history|] == s.history
    ensures forall k :: |s.history| <= k < |t.history| ==> t.history[k].downloadName == urls[i]
  {
    var r := InsertData(s, urls[i], sources[i]);
    LoadFeedsAdvance(s, count, urls, sources, i);
    t, n := ResumeAfter(VisitFeed(s, count, urls, sources, i), r, count, urls, sources, i);
    InsertDataLoaded(s, urls[i], sources[i]);
    InsertDataOwnRows(s, urls[i], sources[i]);
  }

  /** From feed `i` on, a run that ends with a count adds the items of the feeds stale against `base`. */
  lemma {:induction false} LoadFeedsCountFrom(s: Store, base: seq<Freshness.HistoryRow>, count: nat,
                                              urls: seq<string>, sources: seq<FeedSource>, i: nat)
    requires |sources| == |urls| && i <= |urls| && DistinctUrls(urls) && ExtendsWithOthers(s.history, base, urls, i)
    requires LoadFeeds(s, count, urls, sources, i).outcome.Loaded?
    ensures LoadFeeds(s, count, urls, sources, i).outcome.count == count + StaleCount(base, urls, sources, i)
    decreases |urls| - i, 1
  {
    if i < |urls| {
      VisitFeedCount(s, base, count, urls, sources, i);
    }
  }

  /** The same for the turn of feed `i`: it adds that feed's items exactly when the feed is stale against `base`. */
  lemma {:induction false} VisitFeedCount(s: Store, base: seq<Freshness.HistoryRow>, count: nat,
                                          urls: seq<string>, sources: seq<FeedSource>, i: nat)
    requires |sources| == |urls| && i < |urls| && DistinctUrls(urls) && ExtendsWithOthers(s.history, base, urls, i)
    requires VisitFeed(s, count, urls, sources, i).outcome.Loaded?
    ensures VisitFeed(s, count, urls, sources, i).outcome.count == count + StaleCount(base, urls, sources, i)
    decreases |urls| - i, 0
  {
    DecisionAgainstBase(s.history, base, urls, i, sources[i].checkMeta);
    if Freshness.DownloadDecision(s.history, urls[i], sources[i].checkMeta) == Ok(true) {
      var t, n := StaleFeedLoaded(s, count, urls, sources, i);
      ExtendsWithOwnRows(s.history, t.history, base, urls, i);
      LoadFeedsCountFrom(t, base, count + n, urls, sources, i + 1);
    } else {
      LoadFeedsSkip(s, count, urls, sources, i);
      LoadFeedsCountFrom(s, base, count, urls, sources, i + 1);
    }
  }

  /**
   * get_and_load returns the sum of the item counts of exactly the feeds that
   * were stale when the run started: loading one feed only adds history rows
   * for its own URL, which no other feed of the list shares.
   */
  lemma RunCountsStaleFeeds(s: Store, getAllData: bool, thisYear: int, mods: seq<Feeds.Modifier>, sources: seq<FeedSource>)
    requires Feeds.IsModifierList(mods, getAllData, thisYear) && |sources| == |mods|
    requires LoadFeeds(s, 0, Feeds.FeedUrls(mods), sources, 0).outcome.Loaded?
    ensures LoadFeeds(s, 0, Feeds.FeedUrls(mods), sources, 0).outcome.count == StaleCount(s.history, Feeds.FeedUrls(mods), sources, 0)
  {
    var urls := Feeds.FeedUrls(mods);
    Feeds.FeedsDistinct(mods, getAllData, thisYear);
    assert DistinctUrls(urls);
    assert s.history[..|s.history|] == s.history;
    LoadFeedsCountFrom(s, s.history, 0, urls, sources, 0);
  }
}

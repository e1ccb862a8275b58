/** The workbook pipeline, `parseAndSaveExcel` (lib/excel-parser.ts,
    lines 5-120): every sheet in order is checked, its metadata and header
    read, its rows turned into a batch, and a non-empty batch replaces the
    stored records of its (event name, category) key. */
module Pipeline {
  import opened JsText
  import opened Cells
  import opened Metadata
  import opened Scoring
  import opened HeaderLocator
  import opened SheetRows
  import opened ResultModel
  import opened Store

  /** Sheets with fewer rows than this are skipped. */
  const MinRows := 5

  /** The row holding the event name and the category label. */
  const EventRowIndex := 2

  /** A worksheet: its name and its rows, blank cells read as "". */
  datatype Sheet = Sheet(name: string, rows: seq<Row>)

  /** What one sheet sends to the store: its key and its non-empty batch. */
  datatype Upload = Upload(key: EventKey, batch: seq<ResultRecord>)

  /** The value `parseAndSaveExcel` returns. */
  datatype Summary = Summary(success: bool, count: nat, events: seq<string>)

  /** The per-row context of a sheet long enough to hold an event row. */
  function ContextOf(sheet: Sheet): SheetContext
    requires |sheet.rows| >= MinRows
  {
    var eventRow := sheet.rows[EventRowIndex];
    var eventName := EventName(eventRow);
    SheetContext(sheet.name, eventName, Category(eventRow), FindHeader(sheet.rows).cols, IsGroup(eventName))
  }

  /** What a sheet contributes: nothing when it is too short, has no event
      name or yields no record; otherwise its key and batch. */
  function SheetUpload(sheet: Sheet): Option<Upload>
  {
    if |sheet.rows| < MinRows then None
    else
      var ctx := ContextOf(sheet);
      if ctx.eventName == "" then None
      else
        var batch := DataRecords(sheet.rows, DataStart(FindHeader(sheet.rows)), ctx);
        if |batch| == 0 then None else Some(Upload(EventKey(ctx.eventName, ctx.category), batch))
  }

  /** What each sheet of a workbook yields, sheet by sheet. */
  function SheetResults(sheets: seq<Sheet>): (r: seq<Option<Upload>>)
    ensures |r| == |sheets|
  {
    seq(|sheets|, i requires 0 <= i < |sheets| => SheetUpload(sheets[i]))
  }

  /** The uploads among the per-sheet results, in sheet order. */
  function Present(results: seq<Option<Upload>>): seq<Upload>
  {
    if results == [] then []
    else
      var front := Present(results[..|results| - 1]);
      match results[|results| - 1]
      case None => front
      case Some(u) => front + [u]
  }

  /** The uploads of a whole workbook. */
  function AllUploads(sheets: seq<Sheet>): seq<Upload>
  {
    Present(SheetResults(sheets))
  }

  /** The store after replacing key by key, in upload order. */
  function ApplyAll(rs: seq<ResultRecord>, ups: seq<Upload>): seq<ResultRecord>
  {
    if ups == [] then rs
    else
      var u := ups[|ups| - 1];
      Replace(ApplyAll(rs, ups[..|ups| - 1]), u.key, u.batch)
  }

  /** `totalProcessed`: the sum of the batch lengths. */
  function TotalCount(ups: seq<Upload>): nat
  {
    if ups == [] then 0 else TotalCount(ups[..|ups| - 1]) + |ups[|ups| - 1].batch|
  }

  /** `eventsProcessed`: one event name per upload, duplicates kept. */
  function EventList(ups: seq<Upload>): seq<string>
  {
    seq(|ups|, i requires 0 <= i < |ups| => ups[i].key.eventName)
  }

  /** The event list of two runs of uploads is the first run's list followed
      by the second's: `events` only ever grows at its end, one name per upload. */
  lemma EventListConcat(a: seq<Upload>, b: seq<Upload>)
    ensures EventList(a + b) == EventList(a) + EventList(b)
  {
    assert forall i :: 0 <= i < |a + b| ==> (a + b)[i] == if i < |a| then a[i] else b[i - |a|];
  }

  /** The keys the uploads touch. */
  function KeysOf(ups: seq<Upload>): set<EventKey>
  {
    set i | 0 <= i < |ups| :: ups[i].key
  }

  /** One more upload: one more replace, its batch length counted, its event listed. */
  lemma AppendUpload(rs: seq<ResultRecord>, ups: seq<Upload>, u: Upload)
    ensures ApplyAll(rs, ups + [u]) == Replace(ApplyAll(rs, ups), u.key, u.batch)
    ensures TotalCount(ups + [u]) == TotalCount(ups) + |u.batch|
    ensures EventList(ups + [u]) == EventList(ups) + [u.key.eventName]
  {
    assert (ups + [u])[..|ups|] == ups;
  }

  /** One more sheet: nothing changes when it yields no upload; otherwise one
      more replace, its batch counted and its event listed. */
  lemma SheetStep(rs: seq<ResultRecord>, results: seq<Option<Upload>>, o: Option<Upload>)
    ensures o.None? ==> Present(results + [o]) == Present(results)
    ensures o.Some? ==>
      && Present(results + [o]) == Present(results) + [o.value]
      && ApplyAll(rs, Present(results + [o])) == Replace(ApplyAll(rs, Present(results)), o.value.key, o.value.batch)
      && TotalCount(Present(results + [o])) == TotalCount(Present(results)) + |o.value.batch|
      && EventList(Present(results + [o])) == EventList(Present(results)) + [o.value.key.eventName]
  {
    assert (results + [o])[..|results|] == results;
    if o.Some? {
      AppendUpload(rs, Present(results), o.value);
    }
  }

  lemma PrefixStep<T>(s: seq<T>, k: nat)
    requires k < |s|
    ensures s[..k + 1] == s[..k] + [s[k]]
  {
  }

  /** The per-sheet work of the loop body (lines 16-116, without the store calls). */
  method ProcessSheet(sheet: Sheet) returns (upload: Option<Upload>)
    ensures upload == SheetUpload(sheet)
  {
    var rows := sheet.rows;
    if |rows| < MinRows {
      return None;
    }
    var eventRow := rows[EventRowIndex];
    var eventName := EventName(eventRow);
    if eventName == "" {
      return None;
    }
    var category := Category(eventRow);
    var headerRowIndex, colMap := LocateHeader(rows);
    var isGroup := IsGroup(eventName);
    var dataStartIndex := if headerRowIndex != -1 then headerRowIndex + 1 else DefaultDataStart;
    var ctx := SheetContext(sheet.name, eventName, category, colMap, isGroup);
    var resultsToSave := CollectRows(rows, dataStartIndex, ctx);
    if |resultsToSave| > 0 {
      upload := Some(Upload(EventKey(eventName, category), resultsToSave));
    } else {
      upload := None;
    }
  }

  /** `parseAndSaveExcel` over an already-read workbook: the store ends up
      with every sheet's batch replacing its key in sheet order, and the
      summary counts the records inserted and lists the events. */
  method ParseAndSave(store: ResultStore, workbook: seq<Sheet>) returns (summary: Summary)
    modifies store
    ensures store.records == ApplyAll(old(store.records), AllUploads(workbook))
    ensures summary == Summary(true, TotalCount(AllUploads(workbook)), EventList(AllUploads(workbook)))
  {
    ghost var results := SheetResults(workbook);
    var totalProcessed := 0;
    var eventsProcessed: seq<string> := [];
    for k := 0 to |workbook|
      invariant store.records == ApplyAll(old(store.records), Present(results[..k]))
      invariant totalProcessed == TotalCount(Present(results[..k]))
      invariant eventsProcessed == EventList(Present(results[..k]))
    {
      var upload := ProcessSheet(workbook[k]);
      assert upload == results[k];
      PrefixStep(results, k);
      SheetStep(old(store.records), results[..k], upload);
      if upload.Some? {
        var u := upload.value;
        ghost var before := store.records;
        store.DeleteMany(u.key);
        store.InsertMany(u.batch);
        assert store.records == Replace(before, u.key, u.batch);
        totalProcessed := totalProcessed + |u.batch|;
        eventsProcessed := eventsProcessed + [u.key.eventName];
      }
    }
    assert results[..|workbook|] == results;
    summary := Summary(true, totalProcessed, eventsProcessed);
  }

  /** A sheet yields an upload exactly when it has at least five rows, a
      non-blank event name and a data row that is not skipped; the upload's
      key is the event name and category of row 2, and its batch is
      well-formed for the sheet and carries that key. */
  lemma SheetUploadSpec(sheet: Sheet)
    ensures SheetUpload(sheet).Some? <==>
      && |sheet.rows| >= MinRows
      && EventName(sheet.rows[EventRowIndex]) != ""
      && exists i :: DataStart(FindHeader(sheet.rows)) <= i < |sheet.rows|
           && !Rejected(sheet.rows[i], FindHeader(sheet.rows).cols)
    ensures SheetUpload(sheet).Some? ==>
      var u := SheetUpload(sheet).value;
      var eventRow := sheet.rows[EventRowIndex];
      && u.key == EventKey(EventName(eventRow), Category(eventRow))
      && u.key.eventName != "" && IsTrimmed(u.key.eventName)
      && u.batch != [] && KeyedBy(u.batch, u.key)
      && forall r :: r in u.batch ==> WellFormed(r, ContextOf(sheet)) && r.eventCode == sheet.name
  {
    if |sheet.rows| >= MinRows {
      EventNameSpec(sheet.rows[EventRowIndex]);
      var h := FindHeader(sheet.rows);
      var ctx := ContextOf(sheet);
      var start := DataStart(h);
      if start <= |sheet.rows| {
        RecordsEmpty(sheet.rows, start, |sheet.rows|, ctx);
        RecordsWellFormed(sheet.rows, start, |sheet.rows|, ctx);
      }
    }
  }

  /** A sheet with fewer than five rows, or whose row-2 first cell is blank
      once a leading `EVENT:` label is stripped, adds nothing. */
  lemma SkippedSheet(sheet: Sheet)
    requires |sheet.rows| < MinRows
      || AllWhitespace(StripEventLabel(FieldText(sheet.rows[EventRowIndex], 0)))
    ensures SheetUpload(sheet) == None
  {
    if |sheet.rows| >= MinRows {
      EventNameSpec(sheet.rows[EventRowIndex]);
    }
  }

  /** What every upload satisfies: a non-empty batch carrying its key, and a
      non-blank, trimmed event name. */
  predicate WellKeyed(ups: seq<Upload>)
  {
    forall i :: 0 <= i < |ups| ==>
      ups[i].batch != [] && KeyedBy(ups[i].batch, ups[i].key)
      && ups[i].key.eventName != "" && IsTrimmed(ups[i].key.eventName)
  }

  /** The upload of one sheet, if any, is well keyed. */
  lemma UploadWellKeyed(sheet: Sheet)
    requires SheetUpload(sheet).Some?
    ensures WellKeyed([SheetUpload(sheet).value])
  {
    SheetUploadSpec(sheet);
  }

  lemma WellKeyedAppend(a: seq<Upload>, b: seq<Upload>)
    requires WellKeyed(a) && WellKeyed(b)
    ensures WellKeyed(a + b)
  {
    assert forall i :: 0 <= i < |a| + |b| ==> (a + b)[i] == if i < |a| then a[i] else b[i - |a|];
  }

  /** The uploads among well-keyed per-sheet results are well keyed. */
  lemma {:induction false} PresentWellKeyed(results: seq<Option<Upload>>)
    requires forall i :: 0 <= i < |results| && results[i].Some? ==> WellKeyed([results[i].value])
    ensures WellKeyed(Present(results))
  {
    if results != [] {
      var front := results[..|results| - 1];
      var o := results[|results| - 1];
      PresentWellKeyed(front);
      SheetStep([], front, o);
      assert results == front + [o];
      if o.Some? {
        WellKeyedAppend(Present(front), [o.value]);
      }
    }
  }

  /** The uploads of a workbook are well keyed. */
  lemma UploadsWellKeyed(sheets: seq<Sheet>)
    ensures WellKeyed(AllUploads(sheets))
  {
    var results := SheetResults(sheets);
    forall i | 0 <= i < |results| && results[i].Some? ensures WellKeyed([results[i].value]) {
      UploadWellKeyed(sheets[i]);
    }
    PresentWellKeyed(results);
  }

  /** The batch of the last upload with key `k`, if any. */
  function LastBatch(ups: seq<Upload>, k: EventKey): (r: Option<seq<ResultRecord>>)
    ensures r.Some? <==> k in KeysOf(ups)
    ensures r.Some? ==> exists i :: 0 <= i < |ups| && ups[i].key == k && ups[i].batch == r.value
                                    && forall j :: i < j < |ups| ==> ups[j].key != k
  {
    if ups == [] then None
    else
      var u := ups[|ups| - 1];
      if u.key == k then
        assert ups[|ups| - 1].key == k;
        Some(u.batch)
      else
        var r := LastBatch(ups[..|ups| - 1], k);
        assert forall i :: 0 <= i < |ups| - 1 ==> ups[..|ups| - 1][i] == ups[i];
        r
  }

  /** Last write wins: after the uploads, the records with key `k` are the
      batch of the last upload with that key, or, when no upload has it, the
      records that were stored before. */
  lemma {:induction false} ApplyAllSelect(rs: seq<ResultRecord>, ups: seq<Upload>, k: EventKey)
    requires WellKeyed(ups)
    ensures Select(ApplyAll(rs, ups), k) == match LastBatch(ups, k)
      case Some(b) => b
      case None => Select(rs, k)
  {
    if ups != [] {
      var u := ups[|ups| - 1];
      var front := ups[..|ups| - 1];
      assert WellKeyed(front) by {
        assert forall i :: 0 <= i < |front| ==> front[i] == ups[i];
      }
      ApplyAllSelect(rs, front, k);
      if u.key == k {
        ReplaceSelectsBatch(ApplyAll(rs, front), u.key, u.batch);
      } else {
        ReplaceOtherKey(ApplyAll(rs, front), u.key, u.batch, k);
      }
    }
  }

  /** A key no sheet uploads keeps its stored records. */
  lemma UntouchedKey(rs: seq<ResultRecord>, ups: seq<Upload>, k: EventKey)
    requires WellKeyed(ups) && k !in KeysOf(ups)
    ensures Select(ApplyAll(rs, ups), k) == Select(rs, k)
  {
    ApplyAllSelect(rs, ups, k);
  }

  /** One more upload adds its key to the touched keys. */
  lemma KeysOfAppend(ups: seq<Upload>, u: Upload)
    ensures KeysOf(ups + [u]) == KeysOf(ups) + {u.key}
  {
    assert forall i :: 0 <= i < |ups| ==> (ups + [u])[i] == ups[i];
    assert (ups + [u])[|ups|] == u;
  }

  /** One replace on top of the shape of `ApplyAllShape`, on plain sequences. */
  lemma ShapeStep(rs: seq<ResultRecord>, kf: set<EventKey>, a: seq<ResultRecord>, k: EventKey, b: seq<ResultRecord>)
    ensures Keep(Keep(rs, kf) + a, {k}) + b == Keep(rs, kf + {k}) + (Keep(a, {k}) + b)
  {
    var front := Keep(Keep(rs, kf), {k});
    var tail := Keep(a, {k});
    calc {
      Keep(Keep(rs, kf) + a, {k}) + b;
      == { KeepConcat(Keep(rs, kf), a, {k}); }
      (front + tail) + b;
      ==
      front + (tail + b);
      == { KeepKeep(rs, kf, {k}); }
      Keep(rs, kf + {k}) + (tail + b);
    }
  }

  /** The store after the uploads: the old records whose keys no upload
      touches, in their order, followed by what the uploads leave behind
      when they start from an empty store. */
  lemma {:induction false} ApplyAllShape(rs: seq<ResultRecord>, ups: seq<Upload>)
    ensures ApplyAll(rs, ups) == Keep(rs, KeysOf(ups)) + ApplyAll([], ups)
    decreases |ups|
  {
    if ups == [] {
      assert KeysOf(ups) == {};
      KeepNone(rs, {});
    } else {
      var u := ups[|ups| - 1];
      var front := ups[..|ups| - 1];
      assert ups == front + [u];
      var kf := KeysOf(front);
      var a := ApplyAll([], front);
      ApplyAllShape(rs, front);
      AppendUpload(rs, front, u);
      AppendUpload([], front, u);
      KeysOfAppend(front, u);
      ShapeStep(rs, kf, a, u.key, u.batch);
    }
  }

  /** What the uploads leave in an empty store carries only their keys. */
  lemma {:induction false} ApplyAllKeys(ups: seq<Upload>)
    requires WellKeyed(ups)
    ensures forall x :: x in ApplyAll([], ups) ==> x.Key() in KeysOf(ups)
  {
    if ups != [] {
      var u := ups[|ups| - 1];
      var front := ups[..|ups| - 1];
      assert forall i :: 0 <= i < |front| ==> front[i] == ups[i];
      ApplyAllKeys(front);
    }
  }

  /** Uploading the same workbook twice leaves the store as uploading it once. */
  lemma ReuploadIdempotent(rs: seq<ResultRecord>, ups: seq<Upload>)
    requires WellKeyed(ups)
    ensures ApplyAll(ApplyAll(rs, ups), ups) == ApplyAll(rs, ups)
  {
    var ks := KeysOf(ups);
    var start := ApplyAll([], ups);
    var once := ApplyAll(rs, ups);
    ApplyAllShape(rs, ups);
    ApplyAllShape(once, ups);
    assert once == Keep(rs, ks) + start;
    assert ApplyAll(once, ups) == Keep(once, ks) + start;
    KeepConcat(Keep(rs, ks), start, ks);
    KeepKeep(rs, ks, ks);
    assert ks + ks == ks;
    ApplyAllKeys(ups);
    KeepNoneLeft(start, ks);
    assert Keep(once, ks) == Keep(rs, ks);
  }

  /** The uploads of a workbook have pairwise different keys. */
  predicate DistinctKeys(ups: seq<Upload>)
  {
    forall i, j :: 0 <= i < j < |ups| ==> ups[i].key != ups[j].key
  }

  /** When no two sheets share a key, `count` is the number of records the
      uploads put in an empty store; with a repeated key it counts the
      replaced batch as well. */
  lemma {:induction false} CountWhenKeysDistinct(ups: seq<Upload>)
    requires WellKeyed(ups) && DistinctKeys(ups)
    ensures |ApplyAll([], ups)| == TotalCount(ups)
  {
    if ups != [] {
      var u := ups[|ups| - 1];
      var front := ups[..|ups| - 1];
      assert forall i :: 0 <= i < |front| ==> front[i] == ups[i];
      CountWhenKeysDistinct(front);
      ApplyAllKeys(front);
      KeepNone(ApplyAll([], front), {u.key});
    }
  }

  /** Two sheets with the same event name and category: the later batch
      alone stays in the store, yet `count` adds both batches and `events`
      lists the name twice. */
  lemma RepeatedKey(rs: seq<ResultRecord>, first: Upload, second: Upload)
    requires WellKeyed([first, second]) && first.key == second.key
    ensures Select(ApplyAll(rs, [first, second]), second.key) == second.batch
    ensures TotalCount([first, second]) == |first.batch| + |second.batch|
    ensures EventList([first, second]) == [first.key.eventName, first.key.eventName]
  {
    ApplyAllSelect(rs, [first, second], second.key);
    assert [first, second][..1] == [first];
    assert [first][..0] == [];
    assert TotalCount([first]) == |first.batch|;
  }

  /** Every upload counts at least one record. */
  lemma {:induction false} CountAtLeastEvents(ups: seq<Upload>)
    requires WellKeyed(ups)
    ensures TotalCount(ups) >= |EventList(ups)|
  {
    if ups != [] {
      var front := ups[..|ups| - 1];
      assert forall i :: 0 <= i < |front| ==> front[i] == ups[i];
      CountAtLeastEvents(front);
    }
  }

  /** The summary of a workbook: one event per upload, each a non-blank
      trimmed name, and at least one record counted per event. */
  lemma SummaryFacts(workbook: seq<Sheet>)
    ensures var ups := AllUploads(workbook);
      && |EventList(ups)| <= TotalCount(ups)
      && forall e :: e in EventList(ups) ==> e != "" && IsTrimmed(e)
  {
    UploadsWellKeyed(workbook);
    CountAtLeastEvents(AllUploads(workbook));
  }
}

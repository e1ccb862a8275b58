/** The persisted collection of results, reduced to the two bulk operations
    the parser issues (lib/excel-parser.ts, lines 112-113). */
module Store {
  import opened ResultModel

  class ResultStore {
    /** The stored records, in insertion order. */
    var records: seq<ResultRecord>

    constructor (initial: seq<ResultRecord>)
      ensures records == initial
    {
      records := initial;
    }

    /** `deleteMany({eventName, category})`: every record with that key goes,
        the others stay in their order. */
    method DeleteMany(key: EventKey)
      modifies this
      ensures records == Keep(old(records), {key})
      ensures Select(records, key) == []
    {
      records := Keep(records, {key});
      SelectKeep(old(records), {key}, key);
    }

    /** `insertMany(batch)`: the batch is appended. */
    method InsertMany(batch: seq<ResultRecord>)
      modifies this
      ensures records == old(records) + batch
    {
      records := records + batch;
    }
  }
}

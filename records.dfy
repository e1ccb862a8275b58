/** The stored result record and the replace-by-key semantics of the store
    (lib/excel-parser.ts, lines 99-108 and 111-113). */
module ResultModel {

  /** The replace key of a record. */
  datatype EventKey = EventKey(eventName: string, category: string)

  /** One stored result. `eventCode` is the worksheet's name. */
  datatype ResultRecord = ResultRecord(
    eventCode: string, eventName: string, category: string,
    studentName: string, school: string, grade: string, place: string,
    points: int)
  {
    function Key(): EventKey { EventKey(eventName, category) }
  }

  /** The records whose key is not in `drop`, in their order: what is left
      after `deleteMany` with each key of `drop`. */
  function Keep(rs: seq<ResultRecord>, drop: set<EventKey>): (r: seq<ResultRecord>)
    ensures forall x :: x in r <==> x in rs && x.Key() !in drop
    ensures |r| <= |rs|
  {
    if rs == [] then []
    else (if rs[0].Key() in drop then [] else [rs[0]]) + Keep(rs[1..], drop)
  }

  /** The records with key `k`, in their order: what a query on that key returns. */
  function Select(rs: seq<ResultRecord>, k: EventKey): (r: seq<ResultRecord>)
    ensures forall x :: x in r <==> x in rs && x.Key() == k
    ensures |r| <= |rs|
  {
    if rs == [] then []
    else (if rs[0].Key() == k then [rs[0]] else []) + Select(rs[1..], k)
  }

  /** All records of a batch carry the key `k`. */
  predicate KeyedBy(batch: seq<ResultRecord>, k: EventKey)
  {
    forall x :: x in batch ==> x.Key() == k
  }

  /** `deleteMany({eventName, category})` followed by `insertMany(batch)`. */
  function Replace(rs: seq<ResultRecord>, k: EventKey, batch: seq<ResultRecord>): seq<ResultRecord>
  {
    Keep(rs, {k}) + batch
  }

  lemma {:induction false} KeepConcat(a: seq<ResultRecord>, b: seq<ResultRecord>, drop: set<EventKey>)
    ensures Keep(a + b, drop) == Keep(a, drop) + Keep(b, drop)
  {
    if a != [] {
      assert (a + b)[1..] == a[1..] + b;
      KeepConcat(a[1..], b, drop);
    } else {
      assert a + b == b;
    }
  }

  lemma {:induction false} SelectConcat(a: seq<ResultRecord>, b: seq<ResultRecord>, k: EventKey)
    ensures Select(a + b, k) == Select(a, k) + Select(b, k)
  {
    if a != [] {
      assert (a + b)[1..] == a[1..] + b;
      SelectConcat(a[1..], b, k);
    } else {
      assert a + b == b;
    }
  }

  /** Deleting by one set of keys and then by another is deleting by both. */
  lemma {:induction false} KeepKeep(rs: seq<ResultRecord>, d1: set<EventKey>, d2: set<EventKey>)
    ensures Keep(Keep(rs, d1), d2) == Keep(rs, d1 + d2)
  {
    if rs != [] {
      KeepKeep(rs[1..], d1, d2);
      var head := if rs[0].Key() in d1 then [] else [rs[0]];
      KeepConcat(head, Keep(rs[1..], d1), d2);
    }
  }

  /** Deleting keys no record carries changes nothing. */
  lemma {:induction false} KeepNone(rs: seq<ResultRecord>, drop: set<EventKey>)
    requires forall x :: x in rs ==> x.Key() !in drop
    ensures Keep(rs, drop) == rs
  {
    if rs != [] {
      KeepNone(rs[1..], drop);
      assert rs == [rs[0]] + rs[1..];
    }
  }

  /** Selecting the key every record carries returns them all. */
  lemma {:induction false} SelectAll(rs: seq<ResultRecord>, k: EventKey)
    requires KeyedBy(rs, k)
    ensures Select(rs, k) == rs
  {
    if rs != [] {
      SelectAll(rs[1..], k);
      assert rs == [rs[0]] + rs[1..];
    }
  }

  /** After deleting `k` nothing with key `k` is left, and selecting any other
      key sees the records it saw before. */
  lemma {:induction false} SelectKeep(rs: seq<ResultRecord>, drop: set<EventKey>, k: EventKey)
    ensures k in drop ==> Select(Keep(rs, drop), k) == []
    ensures k !in drop ==> Select(Keep(rs, drop), k) == Select(rs, k)
  {
    if rs != [] {
      SelectKeep(rs[1..], drop, k);
      var head := if rs[0].Key() in drop then [] else [rs[0]];
      SelectConcat(head, Keep(rs[1..], drop), k);
    }
  }

  /** Deleting the keys every record carries leaves nothing. */
  lemma KeepNoneLeft(rs: seq<ResultRecord>, drop: set<EventKey>)
    requires forall x :: x in rs ==> x.Key() in drop
    ensures Keep(rs, drop) == []
  {
  }

  /** Selecting a key no record carries returns nothing. */
  lemma SelectNone(rs: seq<ResultRecord>, k: EventKey)
    requires forall x :: x in rs ==> x.Key() != k
    ensures Select(rs, k) == []
  {
  }

  /** Replace-by-key: afterwards the records with key `k` are exactly the new
      batch, in its order, and the records with any other key are those that
      were there before, in their order. */
  lemma ReplaceSpec(rs: seq<ResultRecord>, k: EventKey, batch: seq<ResultRecord>)
    requires KeyedBy(batch, k)
    ensures Select(Replace(rs, k, batch), k) == batch
    ensures Keep(Replace(rs, k, batch), {k}) == Keep(rs, {k})
    ensures forall k' :: k' != k ==> Select(Replace(rs, k, batch), k') == Select(rs, k')
  {
    ReplaceSelectsBatch(rs, k, batch);
    ReplaceKeepsOthers(rs, k, batch);
    forall k' | k' != k ensures Select(Replace(rs, k, batch), k') == Select(rs, k') {
      ReplaceOtherKey(rs, k, batch, k');
    }
  }

  lemma ReplaceSelectsBatch(rs: seq<ResultRecord>, k: EventKey, batch: seq<ResultRecord>)
    requires KeyedBy(batch, k)
    ensures Select(Replace(rs, k, batch), k) == batch
  {
    SelectConcat(Keep(rs, {k}), batch, k);
    SelectKeep(rs, {k}, k);
    SelectAll(batch, k);
  }

  lemma ReplaceKeepsOthers(rs: seq<ResultRecord>, k: EventKey, batch: seq<ResultRecord>)
    requires KeyedBy(batch, k)
    ensures Keep(Replace(rs, k, batch), {k}) == Keep(rs, {k})
  {
    KeepConcat(Keep(rs, {k}), batch, {k});
    KeepKeep(rs, {k}, {k});
    assert {k} + {k} == {k};
    KeepNoneLeft(batch, {k});
  }

  lemma ReplaceOtherKey(rs: seq<ResultRecord>, k: EventKey, batch: seq<ResultRecord>, k': EventKey)
    requires KeyedBy(batch, k) && k' != k
    ensures Select(Replace(rs, k, batch), k') == Select(rs, k')
  {
    SelectConcat(Keep(rs, {k}), batch, k');
    SelectKeep(rs, {k}, k');
    SelectNone(batch, k');
  }

  /** Replacing a key by the same batch twice is replacing it once. */
  lemma ReplaceIdempotent(rs: seq<ResultRecord>, k: EventKey, batch: seq<ResultRecord>)
    requires KeyedBy(batch, k)
    ensures Replace(Replace(rs, k, batch), k, batch) == Replace(rs, k, batch)
  {
    ReplaceSpec(rs, k, batch);
  }
}

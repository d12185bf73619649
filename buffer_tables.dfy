/**
 * The two tables behind `ponto.buffer`: one header per (provider, date) and the
 * buffer lines each header owns, together with the store routine stated as
 * functions over their contents: look up or create the header of a date, keep
 * the bucket's transactions whose id the header does not hold yet, append them.
 */
module BufferTables {
  import opened Bucketing

  datatype Option<T> = None | Some(value: T)

  /** A `ponto.buffer` record: provider_id and date. */
  datatype Header = Header(id: nat, providerId: nat, date: string)

  /** A `ponto.buffer.line` record, owned by the header whose id is `bufferId`. */
  datatype Line = Line(bufferId: nat, pontoId: string, dateTime: string, transactionData: string)

  /** Both tables, and the id the next created header receives. */
  datatype Tables = Tables(headers: seq<Header>, lines: seq<Line>, nextId: nat)

  predicate Matches(h: Header, providerId: nat, date: string) {
    h.providerId == providerId && h.date == date
  }

  predicate HasHeader(headers: seq<Header>, providerId: nat, date: string) {
    exists i :: 0 <= i < |headers| && Matches(headers[i], providerId, date)
  }

  /** Header ids are distinct and below `nextId`, and every line belongs to a header. */
  predicate WellFormed(db: Tables) {
    && (forall i :: 0 <= i < |db.headers| ==> db.headers[i].id < db.nextId)
    && DistinctIds(db.headers)
    && (forall l :: l in db.lines ==> IsHeaderId(db.headers, l.bufferId))
  }

  /** Some header has id `id`. */
  predicate IsHeaderId(headers: seq<Header>, id: nat) {
    exists i :: 0 <= i < |headers| && headers[i].id == id
  }

  predicate DistinctIds(headers: seq<Header>) {
    forall i, j :: 0 <= i < |headers| && 0 <= j < |headers| && headers[i].id == headers[j].id ==> i == j
  }

  /** At most one header per (provider, date). */
  predicate UniqueKeys(headers: seq<Header>) {
    forall i, j :: 0 <= i < j < |headers| ==>
      !Matches(headers[j], headers[i].providerId, headers[i].date)
  }

  /** `search([("provider_id", "=", providerId), ("date", "=", date)], limit=1)`:
      the position of the first matching header, if any. */
  function Search(headers: seq<Header>, providerId: nat, date: string): (r: Option<nat>)
    ensures r.Some? ==> r.value < |headers| && Matches(headers[r.value], providerId, date)
    ensures r.Some? ==> forall j :: 0 <= j < r.value ==> !Matches(headers[j], providerId, date)
    ensures r.None? <==> !HasHeader(headers, providerId, date)
  {
    if headers == [] then None
    else if Matches(headers[0], providerId, date) then Some(0)
    else match Search(headers[1..], providerId, date)
      case None => None
      case Some(i) => Some(i + 1)
  }

  /** `search(...) or create(...)`: the tables afterwards and the header's id. */
  function FindOrCreate(db: Tables, providerId: nat, date: string): (r: (Tables, nat))
    ensures r.0.lines == db.lines
    ensures HasHeader(db.headers, providerId, date) ==> r.0 == db
    ensures !HasHeader(db.headers, providerId, date) ==>
              && r.0.headers == db.headers + [Header(db.nextId, providerId, date)]
              && r.0.nextId == db.nextId + 1
    ensures Search(r.0.headers, providerId, date).Some?
    ensures r.1 == r.0.headers[Search(r.0.headers, providerId, date).value].id
  {
    match Search(db.headers, providerId, date)
    case Some(i) => (db, db.headers[i].id)
    case None =>
      var h := Header(db.nextId, providerId, date);
      assert Matches((db.headers + [h])[|db.headers|], providerId, date);
      (db.(headers := db.headers + [h], nextId := db.nextId + 1), db.nextId)
  }

  /** `buffer_line_ids.mapped("ponto_id")`: the ids stored under header `bufferId`. */
  function PontoIds(lines: seq<Line>, bufferId: nat): set<string> {
    set l | l in lines && l.bufferId == bufferId :: l.pontoId
  }

  /** The line stored for transaction `t` under header `bufferId`. */
  function LineFor(bufferId: nat, t: Transaction, dumps: Transaction -> string): Line
    requires HasStringId(t)
  {
    Line(bufferId, IdOf(t), DateTime(t), dumps(t))
  }

  /** How many positions of the bucket hold an id that is not in `already`. */
  function FreshCount(bucket: seq<Transaction>, already: set<string>): nat
    requires AllHaveIds(bucket)
  {
    if bucket == [] then 0
    else (if IdOf(bucket[0]) in already then 0 else 1) + FreshCount(bucket[1..], already)
  }

  /** When no id of the bucket is present yet, every position counts, even
      when the same id occurs twice in the bucket. */
  lemma {:induction false} FreshCountAllNew(bucket: seq<Transaction>, already: set<string>)
    requires AllHaveIds(bucket)
    requires forall t :: t in bucket ==> IdOf(t) !in already
    ensures FreshCount(bucket, already) == |bucket|
  {
    if bucket != [] {
      assert bucket[0] in bucket;
      assert forall t :: t in bucket[1..] ==> t in bucket;
      FreshCountAllNew(bucket[1..], already);
    }
  }

  /** The `(0, 0, vals)` commands of one bucket: one line for each of its
      transactions whose id was not present before the write. Ids repeated
      within the bucket are not merged. */
  function NewLines(bufferId: nat, bucket: seq<Transaction>, already: set<string>,
                    dumps: Transaction -> string): (r: seq<Line>)
    requires AllHaveIds(bucket)
    ensures |r| == FreshCount(bucket, already)
  {
    if bucket == [] then []
    else
      var rest := NewLines(bufferId, bucket[1..], already, dumps);
      if IdOf(bucket[0]) in already then rest
      else [LineFor(bufferId, bucket[0], dumps)] + rest
  }

  /** The lines are those of the bucket's transactions whose id is not present,
      one for each of them; there are none exactly when every id is present. */
  lemma {:induction false} NewLinesSpec(bufferId: nat, bucket: seq<Transaction>, already: set<string>,
                                        dumps: Transaction -> string)
    requires AllHaveIds(bucket)
    ensures var r := NewLines(bufferId, bucket, already, dumps);
            && (forall l :: l in r ==>
                  exists t :: t in bucket && IdOf(t) !in already && l == LineFor(bufferId, t, dumps))
            && (forall t :: t in bucket && IdOf(t) !in already ==> LineFor(bufferId, t, dumps) in r)
            && (r == [] <==> forall t :: t in bucket ==> IdOf(t) in already)
  {
    if bucket != [] {
      var rest := bucket[1..];
      assert forall t :: t in rest ==> t in bucket;
      NewLinesSpec(bufferId, rest, already, dumps);
      assert forall t :: t in bucket ==> t == bucket[0] || t in rest;
      assert bucket[0] in bucket;
    }
  }

  /** The line at each position of the result: the transaction at position `p`
      of the bucket, when its id is absent, gets the line right after those of
      the absent transactions before it. This fixes the result completely:
      repeated ids each get their own line, in bucket order. */
  lemma {:induction false} NewLinesAt(bufferId: nat, bucket: seq<Transaction>, already: set<string>,
                                      dumps: Transaction -> string, p: nat)
    requires AllHaveIds(bucket) && p < |bucket| && IdOf(bucket[p]) !in already
    ensures AllHaveIds(bucket[..p])
    ensures FreshCount(bucket[..p], already) < |NewLines(bufferId, bucket, already, dumps)|
    ensures NewLines(bufferId, bucket, already, dumps)[FreshCount(bucket[..p], already)]
         == LineFor(bufferId, bucket[p], dumps)
  {
    assert forall t :: t in bucket[..p] ==> t in bucket;
    assert forall t :: t in bucket[1..] ==> t in bucket;
    assert bucket[0] in bucket;
    if p > 0 {
      NewLinesAt(bufferId, bucket[1..], already, dumps, p - 1);
      assert bucket[..p][1..] == bucket[1..][..p - 1];
    }
  }

  /** One round of the second loop: the header of `date`, then the write of the
      bucket's new lines, skipped when there are none. */
  function StoreBucket(db: Tables, providerId: nat, date: string, bucket: seq<Transaction>,
                       dumps: Transaction -> string): Tables
    requires AllHaveIds(bucket)
  {
    var (db1, bufferId) := FindOrCreate(db, providerId, date);
    var newLines := NewLines(bufferId, bucket, PontoIds(db1.lines, bufferId), dumps);
    if newLines == [] then db1 else db1.(lines := db1.lines + newLines)
  }

  /** The second loop over the buckets named by `ks`, in that order. */
  function StoreAll(db: Tables, providerId: nat, ks: seq<string>, ts: seq<Transaction>,
                    dumps: Transaction -> string): Tables
    requires AllHaveIds(ts)
  {
    if ks == [] then db
    else
      var k := ks[|ks| - 1];
      StoreBucket(StoreAll(db, providerId, ks[..|ks| - 1], ts, dumps), providerId, k, Bucket(ts, k), dumps)
  }

  /** One more round of the second loop, for key `ks[j]`. */
  lemma StoreAllStep(db: Tables, providerId: nat, ks: seq<string>, j: nat, ts: seq<Transaction>,
                     dumps: Transaction -> string)
    requires AllHaveIds(ts) && j < |ks|
    ensures StoreAll(db, providerId, ks[..j + 1], ts, dumps)
         == StoreBucket(StoreAll(db, providerId, ks[..j], ts, dumps), providerId, ks[j], Bucket(ts, ks[j]), dumps)
  {
    PrefixOfPrefix(ks, j, j + 1);
  }

  /** The whole store of a stamped batch: every bucket, in order of first occurrence. */
  function Store(db: Tables, providerId: nat, ts: seq<Transaction>, dumps: Transaction -> string): Tables
    requires AllHaveIds(ts)
  {
    StoreAll(db, providerId, BucketKeys(ts), ts, dumps)
  }

  /** The header of (providerId, date) holds every id of `bucket`. */
  predicate Covered(db: Tables, providerId: nat, date: string, bucket: seq<Transaction>) {
    match Search(db.headers, providerId, date)
    case None => false
    case Some(i) =>
      i < |db.headers| &&
      forall t :: t in bucket ==> HasStringId(t) && IdOf(t) in PontoIds(db.lines, db.headers[i].id)
  }

  // ---- single bucket ----

  lemma PontoIdsAppend(lines: seq<Line>, more: seq<Line>, bufferId: nat)
    ensures PontoIds(lines + more, bufferId) == PontoIds(lines, bufferId) + PontoIds(more, bufferId)
  {
  }

  /** Appending headers does not move the first match of a key that already has one. */
  lemma {:induction false} SearchAppend(headers: seq<Header>, more: seq<Header>, providerId: nat, date: string)
    requires HasHeader(headers, providerId, date)
    ensures Search(headers + more, providerId, date) == Search(headers, providerId, date)
  {
    var i := Search(headers, providerId, date).value;
    var r := Search(headers + more, providerId, date);
    assert (headers + more)[i] == headers[i];
  }

  /** The frame of one round: headers as FindOrCreate leaves them, lines only
      appended, and every appended line under the date's header. */
  lemma StoreBucketFrame(db: Tables, providerId: nat, date: string, bucket: seq<Transaction>,
                         dumps: Transaction -> string)
    requires AllHaveIds(bucket)
    ensures var r := StoreBucket(db, providerId, date, bucket, dumps);
            var found := FindOrCreate(db, providerId, date);
            && r.headers == found.0.headers
            && r.nextId == found.0.nextId
            && db.lines <= r.lines
            && forall n :: |db.lines| <= n < |r.lines| ==> r.lines[n].bufferId == found.1
  {
    var (db1, bufferId) := FindOrCreate(db, providerId, date);
    var newLines := NewLines(bufferId, bucket, PontoIds(db1.lines, bufferId), dumps);
    NewLinesSpec(bufferId, bucket, PontoIds(db1.lines, bufferId), dumps);
    forall n | 0 <= n < |newLines| ensures newLines[n].bufferId == bufferId {
      assert newLines[n] in newLines;
    }
  }

  /** What one round does: reuse the date's header or append one, append only
      lines for ids the header did not hold, under that header, exactly one for
      each position of the bucket whose id is absent and in bucket order, and
      write nothing when every id is already there. */
  lemma StoreBucketEffect(db: Tables, providerId: nat, date: string, bucket: seq<Transaction>,
                          dumps: Transaction -> string)
    requires AllHaveIds(bucket)
    ensures var r := StoreBucket(db, providerId, date, bucket, dumps);
            var bufferId := FindOrCreate(db, providerId, date).1;
            var added := r.lines[|db.lines|..];
            && db.lines <= r.lines
            && r.headers == FindOrCreate(db, providerId, date).0.headers
            && (forall l :: l in added ==> l.bufferId == bufferId && l.pontoId !in PontoIds(db.lines, bufferId))
            && (forall t :: t in bucket && IdOf(t) !in PontoIds(db.lines, bufferId) ==>
                  LineFor(bufferId, t, dumps) in added)
            && |added| == FreshCount(bucket, PontoIds(db.lines, bufferId))
            && (forall p :: 0 <= p < |bucket| && IdOf(bucket[p]) !in PontoIds(db.lines, bufferId) ==>
                  && AllHaveIds(bucket[..p])
                  && FreshCount(bucket[..p], PontoIds(db.lines, bufferId)) < |added|
                  && added[FreshCount(bucket[..p], PontoIds(db.lines, bufferId))] == LineFor(bufferId, bucket[p], dumps))
            && ((forall t :: t in bucket ==> IdOf(t) in PontoIds(db.lines, bufferId)) ==> r.lines == db.lines)
  {
    var r := StoreBucket(db, providerId, date, bucket, dumps);
    var (db1, bufferId) := FindOrCreate(db, providerId, date);
    var already := PontoIds(db1.lines, bufferId);
    var newLines := NewLines(bufferId, bucket, already, dumps);
    NewLinesSpec(bufferId, bucket, already, dumps);
    assert r.lines[|db.lines|..] == newLines;
    forall p | 0 <= p < |bucket| && IdOf(bucket[p]) !in already
      ensures AllHaveIds(bucket[..p]) && FreshCount(bucket[..p], already) < |newLines|
      ensures newLines[FreshCount(bucket[..p], already)] == LineFor(bufferId, bucket[p], dumps)
    {
      NewLinesAt(bufferId, bucket, already, dumps, p);
    }
  }

  /** After one round the date's header holds every id of the bucket. */
  lemma StoreBucketCovers(db: Tables, providerId: nat, date: string, bucket: seq<Transaction>,
                          dumps: Transaction -> string)
    requires AllHaveIds(bucket)
    ensures Covered(StoreBucket(db, providerId, date, bucket, dumps), providerId, date, bucket)
  {
    var r := StoreBucket(db, providerId, date, bucket, dumps);
    var (db1, bufferId) := FindOrCreate(db, providerId, date);
    var already := PontoIds(db1.lines, bufferId);
    var newLines := NewLines(bufferId, bucket, already, dumps);
    NewLinesSpec(bufferId, bucket, already, dumps);
    assert r.headers == db1.headers;
    assert r.lines == db1.lines + newLines;
    PontoIdsAppend(db1.lines, newLines, bufferId);
    forall t | t in bucket ensures IdOf(t) in PontoIds(r.lines, bufferId) {
      if IdOf(t) !in already {
        assert LineFor(bufferId, t, dumps) in newLines;
      }
    }
  }

  /** A round whose header already holds every id of the bucket changes nothing. */
  lemma StoreBucketCoveredNoop(db: Tables, providerId: nat, date: string, bucket: seq<Transaction>,
                               dumps: Transaction -> string)
    requires AllHaveIds(bucket)
    requires Covered(db, providerId, date, bucket)
    ensures StoreBucket(db, providerId, date, bucket, dumps) == db
  {
    var bufferId := FindOrCreate(db, providerId, date).1;
    NewLinesSpec(bufferId, bucket, PontoIds(db.lines, bufferId), dumps);
  }

  /** A round keeps every header that held some ids holding them: the header
      search finds for any provider `p` and date `k` stays the one it finds,
      and keeps all of its ids. */
  lemma StoreBucketKeepsCovered(db: Tables, providerId: nat, date: string, bucket: seq<Transaction>,
                                p: nat, k: string, other: seq<Transaction>, dumps: Transaction -> string)
    requires AllHaveIds(bucket)
    requires Covered(db, p, k, other)
    ensures Search(StoreBucket(db, providerId, date, bucket, dumps).headers, p, k) == Search(db.headers, p, k)
    ensures Covered(StoreBucket(db, providerId, date, bucket, dumps), p, k, other)
  {
    var r := StoreBucket(db, providerId, date, bucket, dumps);
    StoreBucketFrame(db, providerId, date, bucket, dumps);
    var i := Search(db.headers, p, k).value;
    assert r.headers == db.headers + r.headers[|db.headers|..];
    SearchAppend(db.headers, r.headers[|db.headers|..], p, k);
    assert r.lines == db.lines + r.lines[|db.lines|..];
    PontoIdsAppend(db.lines, r.lines[|db.lines|..], db.headers[i].id);
  }

  /** Finding or creating a header keeps header ids distinct and below
      `nextId`, and keeps every existing header id. */
  lemma FindOrCreateIds(db: Tables, providerId: nat, date: string)
    requires WellFormed(db)
    ensures var r := FindOrCreate(db, providerId, date).0;
            && (forall i :: 0 <= i < |r.headers| ==> r.headers[i].id < r.nextId)
            && DistinctIds(r.headers)
            && db.headers <= r.headers
  {
  }

  lemma StoreBucketWellFormed(db: Tables, providerId: nat, date: string, bucket: seq<Transaction>,
                              dumps: Transaction -> string)
    requires AllHaveIds(bucket)
    requires WellFormed(db)
    ensures WellFormed(StoreBucket(db, providerId, date, bucket, dumps))
  {
    var r := StoreBucket(db, providerId, date, bucket, dumps);
    StoreBucketFrame(db, providerId, date, bucket, dumps);
    FindOrCreateIds(db, providerId, date);
    var (db1, bufferId) := FindOrCreate(db, providerId, date);
    var i := Search(db1.headers, providerId, date).value;
    forall l | l in r.lines
      ensures IsHeaderId(r.headers, l.bufferId)
    {
      if l in db.lines {
        var j :| 0 <= j < |db.headers| && db.headers[j].id == l.bufferId;
        assert r.headers[j] == db.headers[j];
      } else {
        assert r.lines == db.lines + r.lines[|db.lines|..];
        assert l in r.lines[|db.lines|..];
        assert r.headers[i].id == l.bufferId;
      }
    }
  }

  // ---- the whole batch ----

  /** Existing headers and lines are kept as they are: both tables only grow at the end. */
  lemma {:induction false} StoreAllAppendOnly(db: Tables, providerId: nat, ks: seq<string>,
                                              ts: seq<Transaction>, dumps: Transaction -> string)
    requires AllHaveIds(ts)
    ensures var r := StoreAll(db, providerId, ks, ts, dumps);
            db.headers <= r.headers && db.lines <= r.lines && db.nextId <= r.nextId
  {
    if ks != [] {
      var k := ks[|ks| - 1];
      var mid := StoreAll(db, providerId, ks[..|ks| - 1], ts, dumps);
      StoreAllAppendOnly(db, providerId, ks[..|ks| - 1], ts, dumps);
      StoreBucketFrame(mid, providerId, k, Bucket(ts, k), dumps);
    }
  }

  /** `h` is a header for this provider and one of `ks`, whose (provider, date)
      had no header in `db`. */
  predicate AddedFor(db: Tables, providerId: nat, ks: seq<string>, h: Header) {
    h.providerId == providerId && h.date in ks && !HasHeader(db.headers, providerId, h.date)
  }

  /** The headers from position `from` on have pairwise different dates. */
  predicate DatesDistinctFrom(headers: seq<Header>, from: nat) {
    forall i, j :: from <= i < j < |headers| ==> headers[i].date != headers[j].date
  }

  /** One round keeps the headers added since `db` as described, with its own
      date joining the dates processed so far. */
  lemma StoreBucketAdded(db: Tables, mid: Tables, providerId: nat, done: seq<string>, date: string,
                         bucket: seq<Transaction>, dumps: Transaction -> string)
    requires AllHaveIds(bucket)
    requires db.headers <= mid.headers
    requires forall i :: |db.headers| <= i < |mid.headers| ==> AddedFor(db, providerId, done, mid.headers[i])
    ensures var r := StoreBucket(mid, providerId, date, bucket, dumps);
            && db.headers <= r.headers && mid.headers <= r.headers
            && (|r.headers| > |mid.headers| ==>
                  && |r.headers| == |mid.headers| + 1
                  && Matches(r.headers[|mid.headers|], providerId, date)
                  && !HasHeader(mid.headers, providerId, date))
            && (forall i :: |db.headers| <= i < |r.headers| ==> AddedFor(db, providerId, done + [date], r.headers[i]))
  {
    var r := StoreBucket(mid, providerId, date, bucket, dumps);
    StoreBucketFrame(mid, providerId, date, bucket, dumps);
    forall i | |db.headers| <= i < |mid.headers| ensures AddedFor(db, providerId, done + [date], r.headers[i]) {
      assert r.headers[i] == mid.headers[i];
      assert AddedFor(db, providerId, done, mid.headers[i]);
    }
    if !HasHeader(mid.headers, providerId, date) {
      forall j | 0 <= j < |db.headers| ensures !Matches(db.headers[j], providerId, date) {
        assert mid.headers[j] == db.headers[j];
      }
      assert AddedFor(db, providerId, done + [date], r.headers[|mid.headers|]);
    }
  }

  /** The headers a call adds are all for this provider and one of the batch's
      dates, each for a (provider, date) that had no header before. */
  lemma {:induction false} StoreAllAdded(db: Tables, providerId: nat, ks: seq<string>,
                                         ts: seq<Transaction>, dumps: Transaction -> string)
    requires AllHaveIds(ts)
    ensures var r := StoreAll(db, providerId, ks, ts, dumps);
            && db.headers <= r.headers
            && (forall i :: |db.headers| <= i < |r.headers| ==> AddedFor(db, providerId, ks, r.headers[i]))
  {
    if ks != [] {
      var k, init := ks[|ks| - 1], ks[..|ks| - 1];
      StoreAllAdded(db, providerId, init, ts, dumps);
      StoreBucketAdded(db, StoreAll(db, providerId, init, ts, dumps), providerId, init, k, Bucket(ts, k), dumps);
      SnocLast(ks);
    }
  }

  /** No two of the headers a call adds are for the same date. */
  lemma {:induction false} StoreAllHeaders(db: Tables, providerId: nat, ks: seq<string>,
                                           ts: seq<Transaction>, dumps: Transaction -> string)
    requires AllHaveIds(ts)
    ensures DatesDistinctFrom(StoreAll(db, providerId, ks, ts, dumps).headers, |db.headers|)
  {
    if ks != [] {
      var k, init := ks[|ks| - 1], ks[..|ks| - 1];
      var mid := StoreAll(db, providerId, init, ts, dumps);
      var r := StoreBucket(mid, providerId, k, Bucket(ts, k), dumps);
      StoreAllHeaders(db, providerId, init, ts, dumps);
      StoreAllAdded(db, providerId, init, ts, dumps);
      StoreBucketFrame(mid, providerId, k, Bucket(ts, k), dumps);
      if !HasHeader(mid.headers, providerId, k) {
        assert r.headers == mid.headers + [Header(mid.nextId, providerId, k)];
        forall i | |db.headers| <= i < |mid.headers| ensures r.headers[i].date != k {
          assert AddedFor(db, providerId, init, mid.headers[i]);
          assert !Matches(mid.headers[i], providerId, k);
        }
      }
    }
  }

  /** A call never gives a (provider, date) a second header. */
  lemma StoreAllKeepsUniqueKeys(db: Tables, providerId: nat, ks: seq<string>,
                                ts: seq<Transaction>, dumps: Transaction -> string)
    requires AllHaveIds(ts)
    requires UniqueKeys(db.headers)
    ensures UniqueKeys(StoreAll(db, providerId, ks, ts, dumps).headers)
  {
    var r := StoreAll(db, providerId, ks, ts, dumps);
    StoreAllAdded(db, providerId, ks, ts, dumps);
    StoreAllHeaders(db, providerId, ks, ts, dumps);
    forall i, j | 0 <= i < j < |r.headers|
      ensures !Matches(r.headers[j], r.headers[i].providerId, r.headers[i].date)
    {
      if j >= |db.headers| && i < |db.headers| {
        assert r.headers[i] == db.headers[i];
        if Matches(r.headers[j], r.headers[i].providerId, r.headers[i].date) {
          assert Matches(db.headers[i], providerId, r.headers[j].date);
          assert false;
        }
      } else if i < |db.headers| {
        assert r.headers[i] == db.headers[i] && r.headers[j] == db.headers[j];
      }
    }
  }

  lemma {:induction false} StoreAllWellFormed(db: Tables, providerId: nat, ks: seq<string>,
                                              ts: seq<Transaction>, dumps: Transaction -> string)
    requires AllHaveIds(ts)
    requires WellFormed(db)
    ensures WellFormed(StoreAll(db, providerId, ks, ts, dumps))
  {
    if ks != [] {
      var k := ks[|ks| - 1];
      StoreAllWellFormed(db, providerId, ks[..|ks| - 1], ts, dumps);
      StoreBucketWellFormed(StoreAll(db, providerId, ks[..|ks| - 1], ts, dumps), providerId, k, Bucket(ts, k), dumps);
    }
  }

  /** Every line of `r` past those of `db` belongs to a header of `providerId` for one of `ks`. */
  predicate LinesOwned(db: Tables, r: Tables, providerId: nat, ks: seq<string>) {
    forall n :: |db.lines| <= n < |r.lines| ==>
      exists i :: 0 <= i < |r.headers| && r.headers[i].id == r.lines[n].bufferId
        && r.headers[i].providerId == providerId && r.headers[i].date in ks
  }

  /** Every line a call adds belongs to a header of this provider for one of the
      batch's dates, so the lines of every other header stay as they were. */
  lemma {:induction false} StoreAllLinesOwned(db: Tables, providerId: nat, ks: seq<string>,
                                              ts: seq<Transaction>, dumps: Transaction -> string)
    requires AllHaveIds(ts)
    ensures LinesOwned(db, StoreAll(db, providerId, ks, ts, dumps), providerId, ks)
  {
    if ks != [] {
      var k, init := ks[|ks| - 1], ks[..|ks| - 1];
      var mid := StoreAll(db, providerId, init, ts, dumps);
      var r := StoreBucket(mid, providerId, k, Bucket(ts, k), dumps);
      StoreAllLinesOwned(db, providerId, init, ts, dumps);
      StoreAllAppendOnly(db, providerId, init, ts, dumps);
      StoreBucketFrame(mid, providerId, k, Bucket(ts, k), dumps);
      var found := FindOrCreate(mid, providerId, k);
      var h := Search(found.0.headers, providerId, k).value;
      assert mid.headers <= r.headers;
      forall n | |db.lines| <= n < |r.lines|
        ensures exists i :: 0 <= i < |r.headers| && r.headers[i].id == r.lines[n].bufferId
                  && r.headers[i].providerId == providerId && r.headers[i].date in ks
      {
        if n < |mid.lines| {
          assert r.lines[n] == mid.lines[n];
          var i :| 0 <= i < |mid.headers| && mid.headers[i].id == mid.lines[n].bufferId
                   && mid.headers[i].providerId == providerId && mid.headers[i].date in init;
          assert r.headers[i] == mid.headers[i];
        } else {
          assert r.headers[h].id == r.lines[n].bufferId;
        }
      }
    }
  }

  /** `l` is header `h`'s line for a transaction of `ts` whose date is the header's. */
  predicate LineFrom(h: Header, l: Line, ts: seq<Transaction>, dumps: Transaction -> string) {
    l.bufferId == h.id &&
    exists t :: t in ts && HasStringId(t) && KeyOf(t) == h.date && l == LineFor(h.id, t, dumps)
  }

  /** Every line of `r` past those of `db` is the line, under a header of
      `providerId`, of a transaction of `ts` dated as that header. */
  predicate LinesFromBatch(db: Tables, r: Tables, providerId: nat, ts: seq<Transaction>,
                           dumps: Transaction -> string) {
    forall n :: |db.lines| <= n < |r.lines| ==>
      exists i :: 0 <= i < |r.headers| && r.headers[i].providerId == providerId
        && LineFrom(r.headers[i], r.lines[n], ts, dumps)
  }

  /** Every line a call adds is the line of one of the batch's transactions,
      stored under this provider's header for that transaction's own date. */
  lemma {:induction false} StoreAllLinesFromBatch(db: Tables, providerId: nat, ks: seq<string>,
                                                  ts: seq<Transaction>, dumps: Transaction -> string)
    requires AllHaveIds(ts)
    ensures LinesFromBatch(db, StoreAll(db, providerId, ks, ts, dumps), providerId, ts, dumps)
  {
    if ks != [] {
      var k, init := ks[|ks| - 1], ks[..|ks| - 1];
      var mid := StoreAll(db, providerId, init, ts, dumps);
      var bucket := Bucket(ts, k);
      var r := StoreBucket(mid, providerId, k, bucket, dumps);
      StoreAllLinesFromBatch(db, providerId, init, ts, dumps);
      StoreAllAppendOnly(db, providerId, init, ts, dumps);
      StoreBucketFrame(mid, providerId, k, bucket, dumps);
      var found := FindOrCreate(mid, providerId, k);
      var h := Search(found.0.headers, providerId, k).value;
      var already := PontoIds(found.0.lines, found.1);
      var newLines := NewLines(found.1, bucket, already, dumps);
      NewLinesSpec(found.1, bucket, already, dumps);
      BucketMembers(ts, k);
      assert mid.headers <= r.headers;
      assert r.lines == mid.lines + newLines;
      forall n | |db.lines| <= n < |r.lines|
        ensures exists i :: 0 <= i < |r.headers| && r.headers[i].providerId == providerId
                  && LineFrom(r.headers[i], r.lines[n], ts, dumps)
      {
        if n < |mid.lines| {
          assert r.lines[n] == mid.lines[n];
          var i :| 0 <= i < |mid.headers| && mid.headers[i].providerId == providerId
                   && LineFrom(mid.headers[i], mid.lines[n], ts, dumps);
          assert r.headers[i] == mid.headers[i];
        } else {
          assert r.lines[n] in newLines;
          var t :| t in bucket && IdOf(t) !in already && r.lines[n] == LineFor(found.1, t, dumps);
          assert LineFrom(r.headers[h], r.lines[n], ts, dumps);
        }
      }
    }
  }

  /** With distinct header ids: a header for another provider or another date
      receives no line. */
  lemma StoreLeavesOtherHeadersAlone(db: Tables, providerId: nat, ks: seq<string>,
                                     ts: seq<Transaction>, dumps: Transaction -> string)
    requires AllHaveIds(ts)
    requires WellFormed(db)
    ensures var r := StoreAll(db, providerId, ks, ts, dumps);
            forall j, n :: 0 <= j < |r.headers| && |db.lines| <= n < |r.lines| && r.lines[n].bufferId == r.headers[j].id ==>
              r.headers[j].providerId == providerId && r.headers[j].date in ks
  {
    var r := StoreAll(db, providerId, ks, ts, dumps);
    StoreAllWellFormed(db, providerId, ks, ts, dumps);
    assert DistinctIds(r.headers);
    StoreAllLinesOwned(db, providerId, ks, ts, dumps);
    assert LinesOwned(db, r, providerId, ks);
    forall j, n | 0 <= j < |r.headers| && |db.lines| <= n < |r.lines| && r.lines[n].bufferId == r.headers[j].id
      ensures r.headers[j].providerId == providerId && r.headers[j].date in ks
    {
      assert exists i :: 0 <= i < |r.headers| && r.headers[i].id == r.lines[n].bufferId
               && r.headers[i].providerId == providerId && r.headers[i].date in ks;
      var i :| 0 <= i < |r.headers| && r.headers[i].id == r.lines[n].bufferId
               && r.headers[i].providerId == providerId && r.headers[i].date in ks;
      assert r.headers[i].id == r.headers[j].id;
    }
  }

  /** After a call, the header of each processed date holds the ids of its whole bucket. */
  lemma {:induction false} StoreAllCovers(db: Tables, providerId: nat, ks: seq<string>,
                                          ts: seq<Transaction>, dumps: Transaction -> string)
    requires AllHaveIds(ts)
    ensures forall k :: k in ks ==> Covered(StoreAll(db, providerId, ks, ts, dumps), providerId, k, Bucket(ts, k))
  {
    if ks != [] {
      var k, init := ks[|ks| - 1], ks[..|ks| - 1];
      var mid := StoreAll(db, providerId, init, ts, dumps);
      StoreAllCovers(db, providerId, init, ts, dumps);
      StoreBucketCovers(mid, providerId, k, Bucket(ts, k), dumps);
      forall d | d in ks
        ensures Covered(StoreBucket(mid, providerId, k, Bucket(ts, k), dumps), providerId, d, Bucket(ts, d))
      {
        if d != k {
          assert d in init;
          StoreBucketKeepsCovered(mid, providerId, k, Bucket(ts, k), providerId, d, Bucket(ts, d), dumps);
        }
      }
    }
  }

  /** Rounds over dates whose headers already hold their buckets change nothing. */
  lemma {:induction false} StoreAllCoveredNoop(db: Tables, providerId: nat, ks: seq<string>,
                                               ts: seq<Transaction>, dumps: Transaction -> string)
    requires AllHaveIds(ts)
    requires forall k :: k in ks ==> Covered(db, providerId, k, Bucket(ts, k))
    ensures StoreAll(db, providerId, ks, ts, dumps) == db
  {
    if ks != [] {
      var k, init := ks[|ks| - 1], ks[..|ks| - 1];
      assert forall d :: d in init ==> d in ks;
      StoreAllCoveredNoop(db, providerId, init, ts, dumps);
      StoreBucketCoveredNoop(db, providerId, k, Bucket(ts, k), dumps);
    }
  }

  /** After a call every transaction of the batch is stored: the header of its
      date holds its id. */
  lemma StoreStoresEvery(db: Tables, providerId: nat, ts: seq<Transaction>,
                         dumps: Transaction -> string, n: nat)
    requires AllHaveIds(ts)
    requires n < |ts|
    ensures var r := Store(db, providerId, ts, dumps);
            && Search(r.headers, providerId, KeyOf(ts[n])).Some?
            && IdOf(ts[n]) in PontoIds(r.lines, r.headers[Search(r.headers, providerId, KeyOf(ts[n])).value].id)
  {
    StoreAllCovers(db, providerId, BucketKeys(ts), ts, dumps);
    InExactlyOneBucket(ts, n, KeyOf(ts[n]));
  }

  /** Storing the same batch a second time creates no header and no line. */
  lemma StoreIdempotent(db: Tables, providerId: nat, ts: seq<Transaction>, dumps: Transaction -> string)
    requires AllHaveIds(ts)
    ensures var r := Store(db, providerId, ts, dumps);
            Store(r, providerId, ts, dumps) == r
  {
    var r := Store(db, providerId, ts, dumps);
    StoreAllCovers(db, providerId, BucketKeys(ts), ts, dumps);
    StoreAllCoveredNoop(r, providerId, BucketKeys(ts), ts, dumps);
  }

  /** Fetching the same transactions twice: the second call stamps an already
      stamped batch and stores it, which changes neither the batch, as long as
      the provider reads the same date-time from a stamped transaction, nor
      the tables. */
  lemma StoreTwice(db: Tables, providerId: nat, fetched: seq<Transaction>,
                   datetimeOf: Transaction -> string, dumps: Transaction -> string)
    requires AllHaveIds(fetched)
    requires forall i :: 0 <= i < |fetched| ==>
               datetimeOf(Stamp(fetched[i], datetimeOf(fetched[i]))) == datetimeOf(fetched[i])
    ensures AllHaveIds(Stamped(fetched, datetimeOf))
    ensures Stamped(Stamped(fetched, datetimeOf), datetimeOf) == Stamped(fetched, datetimeOf)
    ensures var once := Stamped(fetched, datetimeOf);
            var r := Store(db, providerId, once, dumps);
            Store(r, providerId, Stamped(once, datetimeOf), dumps) == r
  {
    StampedKeepsIds(fetched, datetimeOf);
    StampedIdempotent(fetched, datetimeOf);
    StoreIdempotent(db, providerId, Stamped(fetched, datetimeOf), dumps);
  }
}

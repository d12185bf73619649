/**
 * The `ponto.buffer` model: the header and line tables as fields of one object,
 * and `_store_transactions`, which stamps a batch of transactions in place,
 * groups them per date and appends the lines that are not stored yet.
 */
module Ponto {
  import opened Bucketing
  import opened BufferTables

  /** The online statement provider: its record id, and the date-time it reads
      from a transaction, already in isoformat. */
  datatype Provider = Provider(id: nat, transactionDatetime: Transaction -> string)

  class PontoBuffer {
    var headers: seq<Header>
    var lines: seq<Line>
    var nextId: nat

    function Contents(): Tables
      reads this
    {
      Tables(headers, lines, nextId)
    }

    ghost predicate Valid()
      reads this
    {
      WellFormed(Contents())
    }

    constructor ()
      ensures Valid()
      ensures headers == [] && lines == [] && nextId == 1
    {
      headers, lines, nextId := [], [], 1;
    }

    /** `create({"provider_id": providerId, "date": date})`. */
    method Create(providerId: nat, date: string) returns (id: nat)
      modifies this
      ensures id == old(nextId)
      ensures headers == old(headers) + [Header(id, providerId, date)]
      ensures nextId == old(nextId) + 1 && lines == old(lines)
    {
      id := nextId;
      headers := headers + [Header(id, providerId, date)];
      nextId := nextId + 1;
    }

    /** `write({"buffer_line_ids": [(0, 0, vals), ...]})`: appends the lines. */
    method Write(newLines: seq<Line>)
      modifies this
      ensures lines == old(lines) + newLines
      ensures headers == old(headers) && nextId == old(nextId)
    {
      lines := lines + newLines;
    }

    /** One round of the second loop of `_store_transactions`: find or create
        the header of `date`, then write the bucket's lines whose ids that
        header does not hold yet, if there are any. */
    method StoreDate(providerId: nat, date: string, bucket: seq<Transaction>,
                     dumps: Transaction -> string)
      requires Valid() && AllHaveIds(bucket)
      modifies this
      ensures Valid()
      ensures Contents() == StoreBucket(old(Contents()), providerId, date, bucket, dumps)
    {
      var found := Search(headers, providerId, date);
      var bufferId: nat;
      if found.Some? {
        bufferId := headers[found.value].id;
      } else {
        bufferId := Create(providerId, date);
      }
      var already := PontoIds(lines, bufferId);
      var newLines := NewLines(bufferId, bucket, already, dumps);
      if newLines != [] {
        Write(newLines);
      }
      StoreBucketWellFormed(old(Contents()), providerId, date, bucket, dumps);
    }

    /** The stamping step of the first loop, for the transaction at position
        `i`: read its date-time from the provider, render it without "T",
        write it into the transaction and return the bucket key. */
    static method StampAt(provider: Provider, transactions: array<Transaction>, i: nat)
        returns (key: string)
      requires i < transactions.Length
      modifies transactions
      ensures transactions[..] ==
                old(transactions[..])[i := Stamp(old(transactions[i]), provider.transactionDatetime(old(transactions[i])))]
      ensures key == KeyOf(transactions[i])
    {
      var transaction := transactions[i];
      var dateTime := provider.transactionDatetime(transaction);
      var dateTimeIso := Render(dateTime);
      transactions[i] := transaction["date_time" := JString(dateTimeIso)];
      key := DateKey(dateTimeIso);
    }

    /** The filing step of the first loop: files a stamped transaction under
        its key, opening a new bucket when the key is new. The keys and buckets
        of the transactions filed so far, `done`, become those of `done + [t]`. */
    static method File(keys: seq<string>, buckets: map<string, seq<Transaction>>,
                       key: string, t: Transaction, ghost done: seq<Transaction>)
        returns (keys': seq<string>, buckets': map<string, seq<Transaction>>)
      requires keys == BucketKeys(done) && buckets == Buckets(done) && key == KeyOf(t)
      ensures keys' == BucketKeys(done + [t]) && buckets' == Buckets(done + [t])
    {
      BucketsSnoc(done, t);
      BucketSnoc(done, t);
      if key !in buckets {
        keys', buckets' := keys + [key], buckets[key := [t]];
      } else {
        keys', buckets' := keys, buckets[key := buckets[key] + [t]];
      }
    }

    /** After `i` rounds of the first loop: the first `i` transactions are
        stamped, the others untouched, and `keys` and `buckets` group the
        stamped ones. */
    static ghost predicate FiledUpTo(current: seq<Transaction>, original: seq<Transaction>,
                                     datetimeOf: Transaction -> string, i: nat,
                                     keys: seq<string>, buckets: map<string, seq<Transaction>>)
    {
      && |current| == |original| && i <= |original|
      && current == Stamped(original, datetimeOf)[..i] + original[i..]
      && keys == BucketKeys(current[..i]) && buckets == Buckets(current[..i])
    }

    /** One round of the first loop: stamps the transaction at position `i`
        and files it. */
    static method FileNext(provider: Provider, transactions: array<Transaction>, i: nat,
                           keys: seq<string>, buckets: map<string, seq<Transaction>>,
                           ghost original: seq<Transaction>)
        returns (keys': seq<string>, buckets': map<string, seq<Transaction>>)
      requires i < transactions.Length
      requires FiledUpTo(transactions[..], original, provider.transactionDatetime, i, keys, buckets)
      modifies transactions
      ensures FiledUpTo(transactions[..], original, provider.transactionDatetime, i + 1, keys', buckets')
    {
      ghost var target := Stamped(original, provider.transactionDatetime);
      SpliceStep(transactions[..], target, original, i);
      assert transactions[..i] == target[..i];
      var key := StampAt(provider, transactions, i);
      assert transactions[..i + 1] == transactions[..i] + [transactions[i]];
      keys', buckets' := File(keys, buckets, key, transactions[i], transactions[..i]);
    }

    /** The first loop of `_store_transactions`: writes each transaction's
        rendered date-time into it and files it under the first ten characters
        of that string. Buckets are listed in order of first occurrence. */
    static method GroupByDate(provider: Provider, transactions: array<Transaction>)
        returns (keys: seq<string>, buckets: map<string, seq<Transaction>>)
      modifies transactions
      ensures transactions[..] == Stamped(old(transactions[..]), provider.transactionDatetime)
      ensures keys == BucketKeys(transactions[..]) && buckets == Buckets(transactions[..])
    {
      ghost var original := transactions[..];
      keys, buckets := [], map[];
      for i := 0 to transactions.Length
        invariant FiledUpTo(transactions[..], original, provider.transactionDatetime, i, keys, buckets)
      {
        keys, buckets := FileNext(provider, transactions, i, keys, buckets, original);
      }
      assert transactions[..transactions.Length] == transactions[..];
    }

    /** The second loop of `_store_transactions`: stores the buckets one date
        at a time, in order of first occurrence. */
    method StoreGroups(providerId: nat, keys: seq<string>, buckets: map<string, seq<Transaction>>,
                       ghost ts: seq<Transaction>, dumps: Transaction -> string)
      requires Valid() && AllHaveIds(ts) && keys == BucketKeys(ts) && buckets == Buckets(ts)
      modifies this
      ensures Valid()
      ensures Contents() == StoreAll(old(Contents()), providerId, keys, ts, dumps)
    {
      for j := 0 to |keys|
        invariant Valid()
        invariant Contents() == StoreAll(old(Contents()), providerId, keys[..j], ts, dumps)
      {
        var key := keys[j];
        BucketsAt(ts, key);
        StoreAllStep(old(Contents()), providerId, keys, j, ts, dumps);
        StoreDate(providerId, key, buckets[key], dumps);
      }
      assert keys[..|keys|] == keys;
    }

    /** `_store_transactions(provider, transactions)`. Each transaction gets its
        rendered date-time written into it; the tables end up as the store of
        the stamped batch describes. */
    method StoreTransactions(provider: Provider, transactions: array<Transaction>,
                             dumps: Transaction -> string)
      requires Valid() && AllHaveIds(transactions[..])
      modifies this, transactions
      ensures Valid()
      ensures transactions[..] == Stamped(old(transactions[..]), provider.transactionDatetime)
      ensures AllHaveIds(transactions[..])
      ensures Contents() == Store(old(Contents()), provider.id, transactions[..], dumps)
    {
      ghost var original := transactions[..];
      var keys, buckets := GroupByDate(provider, transactions);
      StampedKeepsIds(original, provider.transactionDatetime);
      StoreGroups(provider.id, keys, buckets, transactions[..], dumps);
    }
  }
}

/**
 * Transactions as fetched from Ponto, the date-time stamp written into each of
 * them, and the grouping of a batch into one bucket per calendar date.
 */
module Bucketing {

  /** A value of a transaction record: strings are kept as such, any other JSON
      value (number, object, list, ...) is carried as its text. */
  datatype Json = JString(s: string) | JOther(text: string)

  /** A transaction is a loosely typed record: field name to value. */
  type Transaction = map<string, Json>

  /** The transaction carries an external id that is a string. */
  predicate HasStringId(t: Transaction) {
    "id" in t && t["id"].JString?
  }

  /** The external id, `t.get("id")`. */
  function IdOf(t: Transaction): string
    requires HasStringId(t)
  {
    t["id"].s
  }

  predicate AllHaveIds(ts: seq<Transaction>) {
    forall t :: t in ts ==> HasStringId(t)
  }

  /** `t.get("date_time")` when it holds a string; the empty string otherwise. */
  function DateTime(t: Transaction): string {
    if "date_time" in t && t["date_time"].JString? then t["date_time"].s else ""
  }

  /** The isoformat string with every "T" replaced by a space. */
  function Render(iso: string): (r: string)
    ensures |r| == |iso|
    ensures 'T' !in r
  {
    if iso == [] then []
    else [if iso[0] == 'T' then ' ' else iso[0]] + Render(iso[1..])
  }

  /** Rendering changes each "T" into a space and keeps every other character. */
  lemma {:induction false} RenderAt(iso: string, i: nat)
    requires i < |iso|
    ensures Render(iso)[i] == if iso[i] == 'T' then ' ' else iso[i]
  {
    if i > 0 {
      RenderAt(iso[1..], i - 1);
    }
  }

  /** The bucket key: the slice `[0:10]` of the rendered string, which stops
      early on a shorter string. */
  function DateKey(rendered: string): (k: string)
    ensures k <= rendered
    ensures |k| == if |rendered| < 10 then |rendered| else 10
  {
    if |rendered| <= 10 then rendered else rendered[..10]
  }

  /** The transaction with its rendered date-time written into field "date_time". */
  function Stamp(t: Transaction, iso: string): (r: Transaction)
    ensures "date_time" in r && r["date_time"] == JString(Render(iso))
    ensures DateTime(r) == Render(iso)
    ensures r.Keys == t.Keys + {"date_time"}
    ensures forall k :: k in t && k != "date_time" ==> r[k] == t[k]
    ensures HasStringId(t) ==> HasStringId(r) && IdOf(r) == IdOf(t)
  {
    t["date_time" := JString(Render(iso))]
  }

  /** Every transaction of a batch stamped with the date-time its provider gives it. */
  function Stamped(ts: seq<Transaction>, datetimeOf: Transaction -> string): seq<Transaction> {
    seq(|ts|, i requires 0 <= i < |ts| => Stamp(ts[i], datetimeOf(ts[i])))
  }

  /** The bucket a stamped transaction belongs to. */
  function KeyOf(t: Transaction): string {
    DateKey(DateTime(t))
  }

  /** No string occurs twice in `ks`. */
  predicate Distinct(ks: seq<string>) {
    forall m, n :: 0 <= m < n < |ks| ==> ks[m] != ks[n]
  }

  /** Dropping the last element of a list without repeats leaves a list
      without repeats that does not hold the dropped element. */
  lemma DistinctLast(ks: seq<string>)
    requires ks != [] && Distinct(ks)
    ensures ks[|ks| - 1] !in ks[..|ks| - 1] && Distinct(ks[..|ks| - 1])
  {
  }

  /** The keys of the buckets, in order of first occurrence in the batch. */
  function BucketKeys(ts: seq<Transaction>): (ks: seq<string>)
    ensures Distinct(ks)
  {
    if ts == [] then []
    else
      var ks := BucketKeys(ts[..|ts| - 1]);
      var k := KeyOf(ts[|ts| - 1]);
      if k in ks then ks else ks + [k]
  }

  /** The key of every transaction of the batch is one of its keys. */
  lemma {:induction false} KeyListed(ts: seq<Transaction>, i: nat)
    requires i < |ts|
    ensures KeyOf(ts[i]) in BucketKeys(ts)
  {
    var init := ts[..|ts| - 1];
    if i < |init| {
      KeyListed(init, i);
      assert init[i] == ts[i];
    }
  }

  /** Every key of the batch is the key of some transaction of it. */
  lemma {:induction false} KeyWitness(ts: seq<Transaction>, k: string) returns (i: nat)
    requires k in BucketKeys(ts)
    ensures i < |ts| && KeyOf(ts[i]) == k
  {
    var init := ts[..|ts| - 1];
    if k in BucketKeys(init) {
      i := KeyWitness(init, k);
      assert init[i] == ts[i];
    } else {
      i := |ts| - 1;
    }
  }

  /** A key is one of the batch's keys exactly when some transaction has it. */
  lemma BucketKeysMembers(ts: seq<Transaction>, k: string)
    ensures k in BucketKeys(ts) <==> exists i :: 0 <= i < |ts| && KeyOf(ts[i]) == k
  {
    if k in BucketKeys(ts) {
      var i := KeyWitness(ts, k);
    }
    forall i | 0 <= i < |ts| && KeyOf(ts[i]) == k ensures k in BucketKeys(ts) {
      KeyListed(ts, i);
    }
  }

  /** The transactions of bucket `k`, in input order. */
  function Bucket(ts: seq<Transaction>, k: string): (b: seq<Transaction>)
    ensures AllHaveIds(ts) ==> AllHaveIds(b)
    ensures |b| <= |ts|
  {
    if ts == [] then []
    else
      var b := Bucket(ts[..|ts| - 1], k);
      if KeyOf(ts[|ts| - 1]) == k then b + [ts[|ts| - 1]] else b
  }

  /** Bucket `k` holds transactions of the batch with key `k`, and each of them. */
  lemma {:induction false} BucketMembers(ts: seq<Transaction>, k: string)
    ensures forall t :: t in Bucket(ts, k) ==> t in ts && KeyOf(t) == k
    ensures forall i :: 0 <= i < |ts| && KeyOf(ts[i]) == k ==> ts[i] in Bucket(ts, k)
  {
    if ts != [] {
      var init, t := ts[..|ts| - 1], ts[|ts| - 1];
      BucketMembers(init, k);
      assert ts == init + [t];
      forall i | 0 <= i < |ts| && KeyOf(ts[i]) == k ensures ts[i] in Bucket(ts, k) {
        if i < |init| {
          assert ts[i] == init[i];
        }
      }
    }
  }

  /** The buckets named by `ks`, one after the other. */
  function Concat(ts: seq<Transaction>, ks: seq<string>): seq<Transaction> {
    if ks == [] then [] else Concat(ts, ks[..|ks| - 1]) + Bucket(ts, ks[|ks| - 1])
  }

  /** One more transaction at the end of the batch: where it goes. */
  lemma BucketSnoc(ts: seq<Transaction>, t: Transaction)
    ensures BucketKeys(ts + [t]) == if KeyOf(t) in BucketKeys(ts) then BucketKeys(ts) else BucketKeys(ts) + [KeyOf(t)]
    ensures forall k :: Bucket(ts + [t], k) == if KeyOf(t) == k then Bucket(ts, k) + [t] else Bucket(ts, k)
  {
    assert (ts + [t])[..|ts|] == ts;
  }

  /** A non-empty sequence is its front followed by its last element. */
  lemma SnocLast<T>(s: seq<T>)
    requires s != []
    ensures s[..|s| - 1] + [s[|s| - 1]] == s
  {
  }

  /** A prefix of a prefix is a prefix. */
  lemma PrefixOfPrefix<T>(s: seq<T>, i: nat, j: nat)
    requires i <= j <= |s|
    ensures s[..j][..i] == s[..i]
  {
  }

  /** Overwriting position `i` of a half-done copy with the new value moves
      the boundary between the done and the pending part by one. */
  lemma SpliceStep<T>(a: seq<T>, done: seq<T>, pending: seq<T>, i: nat)
    requires |done| == |pending| && i < |done|
    requires a == done[..i] + pending[i..]
    ensures a[i := done[i]] == done[..i + 1] + pending[i + 1..]
    ensures done[..i + 1] == done[..i] + [done[i]]
  {
  }

  /** The dictionary of buckets the first loop builds: each transaction in
      turn is appended to the bucket of its key, which is opened when the key
      is new. */
  function Buckets(ts: seq<Transaction>): map<string, seq<Transaction>> {
    if ts == [] then map[]
    else
      var m, t := Buckets(ts[..|ts| - 1]), ts[|ts| - 1];
      var k := KeyOf(t);
      if k in m then m[k := m[k] + [t]] else m[k := [t]]
  }

  /** Filing one more transaction: the dictionary changes at its key only,
      and the key was already there exactly when it is one of the batch's keys. */
  lemma BucketsSnoc(ts: seq<Transaction>, t: Transaction)
    ensures Buckets(ts + [t]) == var m, k := Buckets(ts), KeyOf(t);
                                 if k in m then m[k := m[k] + [t]] else m[k := [t]]
    ensures KeyOf(t) in Buckets(ts) <==> KeyOf(t) in BucketKeys(ts)
  {
    assert (ts + [t])[..|ts|] == ts;
    BucketsAgree(ts);
  }

  /** The dictionary holds a bucket for exactly the batch's keys, and the
      bucket of each key is the batch's transactions with that key, in order. */
  lemma {:induction false} BucketsAgree(ts: seq<Transaction>)
    ensures forall k :: k in Buckets(ts) <==> k in BucketKeys(ts)
    ensures forall k :: k in Buckets(ts) ==> Buckets(ts)[k] == Bucket(ts, k)
  {
    if ts != [] {
      var init, t := ts[..|ts| - 1], ts[|ts| - 1];
      assert ts == init + [t];
      BucketsAgree(init);
      BucketSnoc(init, t);
      var m, k := Buckets(init), KeyOf(t);
      forall k' | k' in Buckets(ts) ensures Buckets(ts)[k'] == Bucket(ts, k') {
        if k' == k && k !in m {
          BucketEmpty(init, k);
        }
      }
    }
  }

  /** The dictionary's entry for one of the batch's keys is that key's bucket. */
  lemma BucketsAt(ts: seq<Transaction>, k: string)
    requires k in BucketKeys(ts)
    ensures k in Buckets(ts) && Buckets(ts)[k] == Bucket(ts, k)
  {
    BucketsAgree(ts);
  }

  /** Transaction `i` of a stamped batch holds, as a string in "date_time",
      its provider date-time with "T" replaced, and its key is the first ten
      characters of that string. */
  lemma StampedAt(ts: seq<Transaction>, datetimeOf: Transaction -> string, i: nat)
    requires i < |ts|
    ensures |Stamped(ts, datetimeOf)| == |ts|
    ensures Stamped(ts, datetimeOf)[i]["date_time"] == JString(Render(datetimeOf(ts[i])))
    ensures DateTime(Stamped(ts, datetimeOf)[i]) == Render(datetimeOf(ts[i]))
    ensures KeyOf(Stamped(ts, datetimeOf)[i]) == DateKey(Render(datetimeOf(ts[i])))
  {
  }

  /** Stamping keeps every transaction's id. */
  lemma StampedKeepsIds(ts: seq<Transaction>, datetimeOf: Transaction -> string)
    requires AllHaveIds(ts)
    ensures AllHaveIds(Stamped(ts, datetimeOf))
    ensures forall i :: 0 <= i < |ts| ==> IdOf(Stamped(ts, datetimeOf)[i]) == IdOf(ts[i])
  {
    var s := Stamped(ts, datetimeOf);
    forall t | t in s ensures HasStringId(t) {
      var i :| 0 <= i < |s| && s[i] == t;
      assert ts[i] in ts;
    }
    forall i | 0 <= i < |ts| ensures IdOf(s[i]) == IdOf(ts[i]) {
      assert ts[i] in ts;
    }
  }

  /** Stamping an already stamped batch again changes nothing, provided the
      provider gives a stamped transaction the same date-time as before. */
  lemma StampedIdempotent(ts: seq<Transaction>, datetimeOf: Transaction -> string)
    requires forall i :: 0 <= i < |ts| ==>
               datetimeOf(Stamp(ts[i], datetimeOf(ts[i]))) == datetimeOf(ts[i])
    ensures Stamped(Stamped(ts, datetimeOf), datetimeOf) == Stamped(ts, datetimeOf)
  {
    var s := Stamped(ts, datetimeOf);
    var s2 := Stamped(s, datetimeOf);
    forall i | 0 <= i < |ts| ensures s2[i] == s[i] {
      assert datetimeOf(s[i]) == datetimeOf(ts[i]);
    }
  }

  /** A bucket is empty exactly when its key is not one of the batch's keys. */
  lemma BucketEmpty(ts: seq<Transaction>, k: string)
    ensures Bucket(ts, k) == [] <==> k !in BucketKeys(ts)
  {
    BucketKeysMembers(ts, k);
    BucketMembers(ts, k);
    var b := Bucket(ts, k);
    if b != [] {
      assert b[0] in ts;
      var i :| 0 <= i < |ts| && ts[i] == b[0];
      assert KeyOf(ts[i]) == k;
    }
    if k in BucketKeys(ts) {
      var i :| 0 <= i < |ts| && KeyOf(ts[i]) == k;
      assert ts[i] in b;
    }
  }

  /** Each transaction lies in the bucket of its own key and in no other. */
  lemma InExactlyOneBucket(ts: seq<Transaction>, i: nat, k: string)
    requires i < |ts|
    ensures KeyOf(ts[i]) in BucketKeys(ts)
    ensures ts[i] in Bucket(ts, k) <==> k == KeyOf(ts[i])
  {
    KeyListed(ts, i);
    BucketMembers(ts, k);
  }

  /** Adding one transaction at the end adds it to the buckets among `ks` that
      carry its key. */
  lemma {:induction false} ConcatSnoc(ts: seq<Transaction>, t: Transaction, ks: seq<string>)
    requires Distinct(ks)
    ensures multiset(Concat(ts + [t], ks))
         == multiset(Concat(ts, ks)) + (if KeyOf(t) in ks then multiset{t} else multiset{})
  {
    if ks != [] {
      var init, last := ks[..|ks| - 1], ks[|ks| - 1];
      ConcatSnoc(ts, t, init);
      BucketSnocCount(ts, t, last);
      assert Concat(ts + [t], ks) == Concat(ts + [t], init) + Bucket(ts + [t], last);
      assert Concat(ts, ks) == Concat(ts, init) + Bucket(ts, last);
      var extraInit := if KeyOf(t) in init then multiset{t} else multiset{};
      var extraLast := if KeyOf(t) == last then multiset{t} else multiset{};
      MultisetConcatGrows(Concat(ts, init), Concat(ts + [t], init), Bucket(ts, last), Bucket(ts + [t], last),
                          extraInit, extraLast);
      DistinctLast(ks);
      SnocLast(ks);
      assert (if KeyOf(t) in ks then multiset{t} else multiset{}) == extraInit + extraLast;
    }
  }

  /** Growing both halves of a concatenation grows the whole by both amounts. */
  lemma MultisetConcatGrows<T>(a: seq<T>, a': seq<T>, b: seq<T>, b': seq<T>, ea: multiset<T>, eb: multiset<T>)
    requires multiset(a') == multiset(a) + ea && multiset(b') == multiset(b) + eb
    ensures multiset(a' + b') == multiset(a + b) + (ea + eb)
  {
  }

  /** One more transaction at the end adds one occurrence of it to its own
      bucket and nothing to the others. */
  lemma BucketSnocCount(ts: seq<Transaction>, t: Transaction, k: string)
    ensures multiset(Bucket(ts + [t], k))
         == multiset(Bucket(ts, k)) + (if KeyOf(t) == k then multiset{t} else multiset{})
  {
    BucketSnoc(ts, t);
  }

  /** The buckets partition the batch: together they hold every transaction
      exactly as often as the batch does. */
  lemma {:induction false} BucketsPartition(ts: seq<Transaction>)
    ensures multiset(Concat(ts, BucketKeys(ts))) == multiset(ts)
  {
    if ts != [] {
      var init, t := ts[..|ts| - 1], ts[|ts| - 1];
      assert ts == init + [t];
      var ks, k := BucketKeys(init), KeyOf(t);
      BucketsPartition(init);
      ConcatSnoc(init, t, ks);
      if k in ks {
        assert BucketKeys(ts) == ks;
      } else {
        assert BucketKeys(ts) == ks + [k];
        BucketEmpty(init, k);
        assert Bucket(ts, k) == [t];
        assert (ks + [k])[..|ks|] == ks;
        assert Concat(ts, ks + [k]) == Concat(ts, ks) + [t];
      }
    }
  }

  /** The keys found in a prefix of the batch are a prefix of the batch's keys:
      buckets are ordered by the first occurrence of their date. */
  lemma {:induction false} BucketKeysPrefix(ts: seq<Transaction>, i: nat)
    requires i <= |ts|
    ensures BucketKeys(ts[..i]) <= BucketKeys(ts)
  {
    if i < |ts| {
      var init := ts[..|ts| - 1];
      BucketKeysPrefix(init, i);
      assert init[..i] == ts[..i];
    } else {
      assert ts[..i] == ts;
    }
  }

  /** The bucket of a prefix of the batch is a prefix of the bucket: each
      bucket keeps the transactions in input order. */
  lemma {:induction false} BucketPrefix(ts: seq<Transaction>, i: nat, k: string)
    requires i <= |ts|
    ensures Bucket(ts[..i], k) <= Bucket(ts, k)
  {
    if i < |ts| {
      var init := ts[..|ts| - 1];
      BucketPrefix(init, i, k);
      assert init[..i] == ts[..i];
    } else {
      assert ts[..i] == ts;
    }
  }
}

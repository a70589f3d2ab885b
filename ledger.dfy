/** The tracker's records and the two aggregation shapes every report is
    built from: a filtered `reduce` of amounts, and the loop that fills a
    plain object `groups[key] = (groups[key] || 0) + t.amount`. */
module Ledger {
  import opened Text
  import opened Seqs
  import opened Calendar

  /** A stored transaction. Its `date` is the calendar day that the stored
      "YYYY-MM-DD" string names. */
  datatype Transaction = Transaction(
    id: string,
    description: string,
    amount: real,
    category: string,
    date: Date,
    createdAt: string,
    updatedAt: string)

  /** The "YYYY-MM-DD" string a date is stored as. */
  function DateString(d: Date): string {
    PadStart(IntToString(d.year), 4, '0') + "-" + Pad2(d.month) + "-" + Pad2(d.day)
  }

  /** For years 0 to 9999 the stored string has fixed positions from which
      year, month and day read back. */
  lemma DateStringParse(d: Date)
    requires 0 <= d.year <= 9999
    ensures var s := DateString(d);
      && |s| == 10 && s[4] == '-' && s[7] == '-'
      && AllDigits(s[..4]) && ParseDigits(s[..4]) == d.year
      && AllDigits(s[5..7]) && ParseDigits(s[5..7]) == d.month
      && AllDigits(s[8..]) && ParseDigits(s[8..]) == d.day
  {
    var ys, ms, ds := PadStart(IntToString(d.year), 4, '0'), Pad2(d.month), Pad2(d.day);
    assert Pow10(4) == 10000;
    ZeroPadParse(d.year, 4);
    Pad2Parse(d.month);
    Pad2Parse(d.day);
    FieldsParse(ys, ms, ds, d.year, d.month, d.day);
  }

  /** Three digit fields joined by hyphens read back field by field. */
  lemma FieldsParse(ys: string, ms: string, ds: string, y: int, m: int, day: int)
    requires |ys| == 4 && AllDigits(ys) && ParseDigits(ys) == y
    requires |ms| == 2 && AllDigits(ms) && ParseDigits(ms) == m
    requires |ds| == 2 && AllDigits(ds) && ParseDigits(ds) == day
    ensures var s := ys + "-" + ms + "-" + ds;
      && |s| == 10 && s[4] == '-' && s[7] == '-'
      && AllDigits(s[..4]) && ParseDigits(s[..4]) == y
      && AllDigits(s[5..7]) && ParseDigits(s[5..7]) == m
      && AllDigits(s[8..]) && ParseDigits(s[8..]) == day
  {
    SplitDateString(ys, ms, ds);
  }

  lemma SplitDateString(ys: string, ms: string, ds: string)
    requires |ys| == 4 && |ms| == 2 && |ds| == 2
    ensures var s := ys + "-" + ms + "-" + ds;
      |s| == 10 && s[4] == '-' && s[7] == '-' && s[..4] == ys && s[5..7] == ms && s[8..] == ds
  {
  }

  /** Different dates (years 0 to 9999) are stored as different strings. */
  lemma DateStringInjective(a: Date, b: Date)
    requires 0 <= a.year <= 9999 && 0 <= b.year <= 9999
    requires DateString(a) == DateString(b)
    ensures a == b
  {
    DateStringParse(a);
    DateStringParse(b);
  }

  function Amount(t: Transaction): real { t.amount }

  /** `data.reduce((s, t) => s + t.amount, 0)`. */
  function Total(ts: seq<Transaction>): real {
    SumBy(ts, Amount)
  }

  /** `data.filter(p)`: the elements satisfying `p`, in their order. */
  function Filter(ts: seq<Transaction>, p: Transaction -> bool): (r: seq<Transaction>)
    ensures |r| <= |ts|
  {
    if ts == [] then []
    else
      var f := Filter(ts[..|ts| - 1], p);
      if p(ts[|ts| - 1]) then f + [ts[|ts| - 1]] else f
  }

  /** The kept elements are exactly the elements that satisfy `p`. */
  lemma {:induction false} FilterMembers(ts: seq<Transaction>, p: Transaction -> bool)
    ensures forall t :: t in Filter(ts, p) <==> t in ts && p(t)
    decreases |ts|
  {
    if ts != [] {
      FilterMembers(ts[..|ts| - 1], p);
      assert ts == ts[..|ts| - 1] + [ts[|ts| - 1]];
    }
  }

  /** A filter that keeps nothing returns the empty list. */
  lemma {:induction false} FilterNone(ts: seq<Transaction>, p: Transaction -> bool)
    requires forall i :: 0 <= i < |ts| ==> !p(ts[i])
    ensures Filter(ts, p) == []
    decreases |ts|
  {
    if ts != [] {
      FilterNone(ts[..|ts| - 1], p);
    }
  }

  /** `data.filter(p).reduce((s, t) => s + t.amount, 0)`. */
  function SumWhere(ts: seq<Transaction>, p: Transaction -> bool): real {
    Total(Filter(ts, p))
  }

  predicate NonNegative(ts: seq<Transaction>) {
    forall i :: 0 <= i < |ts| ==> ts[i].amount >= 0.0
  }

  /** One more transaction adds its amount exactly when it passes the filter. */
  lemma SumWhereSnoc(ts: seq<Transaction>, t: Transaction, p: Transaction -> bool)
    ensures SumWhere(ts + [t], p) == SumWhere(ts, p) + (if p(t) then t.amount else 0.0)
  {
    assert (ts + [t])[..|ts|] == ts;
  }

  /** A filter that keeps everything keeps the total. */
  lemma {:induction false} SumWhereAll(ts: seq<Transaction>, p: Transaction -> bool)
    requires forall i :: 0 <= i < |ts| ==> p(ts[i])
    ensures SumWhere(ts, p) == Total(ts)
    decreases |ts|
  {
    if ts != [] {
      SumWhereAll(ts[..|ts| - 1], p);
      assert ts == ts[..|ts| - 1] + [ts[|ts| - 1]];
    }
  }

  /** A filter that keeps nothing sums to zero. */
  lemma {:induction false} SumWhereNone(ts: seq<Transaction>, p: Transaction -> bool)
    requires forall i :: 0 <= i < |ts| ==> !p(ts[i])
    ensures SumWhere(ts, p) == 0.0
    decreases |ts|
  {
    if ts != [] {
      SumWhereNone(ts[..|ts| - 1], p);
    }
  }

  /** With non-negative amounts, a wider filter never sums to less. */
  lemma {:induction false} SumWhereMonotone(ts: seq<Transaction>, p: Transaction -> bool, q: Transaction -> bool)
    requires NonNegative(ts)
    requires forall i :: 0 <= i < |ts| ==> p(ts[i]) ==> q(ts[i])
    ensures SumWhere(ts, p) <= SumWhere(ts, q)
    decreases |ts|
  {
    if ts != [] {
      SumWhereMonotone(ts[..|ts| - 1], p, q);
    }
  }

  /** Two filters that agree on every element give the same sum. */
  lemma {:induction false} SumWhereCongruent(ts: seq<Transaction>, p: Transaction -> bool, q: Transaction -> bool)
    requires forall i :: 0 <= i < |ts| ==> p(ts[i]) == q(ts[i])
    ensures SumWhere(ts, p) == SumWhere(ts, q)
    decreases |ts|
  {
    if ts != [] {
      SumWhereCongruent(ts[..|ts| - 1], p, q);
    }
  }

  /** Filtering twice is filtering once by the conjunction. */
  lemma {:induction false} SumWhereOfFilter(ts: seq<Transaction>, p: Transaction -> bool, q: Transaction -> bool, r: Transaction -> bool)
    requires forall i :: 0 <= i < |ts| ==> r(ts[i]) == (p(ts[i]) && q(ts[i]))
    ensures SumWhere(Filter(ts, p), q) == SumWhere(ts, r)
    decreases |ts|
  {
    if ts != [] {
      var init := ts[..|ts| - 1];
      var t := ts[|ts| - 1];
      SumWhereOfFilter(init, p, q, r);
      if p(t) {
        SumWhereSnoc(Filter(init, p), t, q);
      }
    }
  }

  /** With non-negative amounts every filtered sum lies between 0 and the total. */
  lemma SumWhereBounds(ts: seq<Transaction>, p: Transaction -> bool)
    requires NonNegative(ts)
    ensures 0.0 <= SumWhere(ts, p) <= Total(ts)
  {
    SumWhereNone(ts, t => false);
    SumWhereMonotone(ts, t => false, p);
    SumWhereMonotone(ts, p, t => true);
    SumWhereAll(ts, t => true);
  }

  // ----- plain objects keyed by strings ------------------------------------

  /** A plain object from string keys to amounts: its entries in the order
      the keys were first set. */
  type Entries = seq<(string, real)>

  function KeysOf(e: Entries): (ks: seq<string>)
    ensures |ks| == |e| && forall i :: 0 <= i < |e| ==> ks[i] == e[i].0
  {
    seq(|e|, i requires 0 <= i < |e| => e[i].0)
  }

  function EntryValue(e: (string, real)): real { e.1 }

  /** The sum of an object's values. */
  function SumValues(e: Entries): real {
    SumBy(e, EntryValue)
  }

  /** The position of key `k`, or -1 when the object has no such key. */
  function IndexOfKey(e: Entries, k: string): (i: int)
    ensures -1 <= i < |e|
    ensures i >= 0 ==> e[i].0 == k && forall j :: 0 <= j < i ==> e[j].0 != k
    ensures i < 0 ==> forall j :: 0 <= j < |e| ==> e[j].0 != k
    decreases |e|
  {
    if e == [] then -1
    else if e[0].0 == k then 0
    else
      var j := IndexOfKey(e[1..], k);
      if j < 0 then -1 else j + 1
  }

  /** `obj[k] || 0`. */
  function Lookup(e: Entries, k: string): real {
    var i := IndexOfKey(e, k);
    if i < 0 then 0.0 else e[i].1
  }

  /** `obj[k] = v`: overwrites the value in place, or appends a new key. */
  function Put(e: Entries, k: string, v: real): (r: Entries)
    ensures KeysOf(r) == if k in KeysOf(e) then KeysOf(e) else KeysOf(e) + [k]
  {
    var i := IndexOfKey(e, k);
    if i < 0 then e + [(k, v)] else e[i := (k, v)]
  }

  /** `obj[k] = (obj[k] || 0) + a`. */
  function AddTo(e: Entries, k: string, a: real): Entries {
    Put(e, k, Lookup(e, k) + a)
  }

  /** Adding to one key adds the same amount to the object's sum. */
  lemma AddToSum(e: Entries, k: string, a: real)
    ensures SumValues(AddTo(e, k, a)) == SumValues(e) + a
  {
    var i := IndexOfKey(e, k);
    if i < 0 {
      SumByAppend(e, [(k, a)], EntryValue);
    } else {
      SumByUpdate(e, i, (k, e[i].1 + a), EntryValue);
    }
  }

  /** In an object with distinct keys, `AddTo` changes only the value of `k`. */
  lemma AddToValues(e: Entries, k: string, a: real)
    requires Distinct(KeysOf(e))
    ensures var r := AddTo(e, k, a);
      && Distinct(KeysOf(r))
      && forall j :: 0 <= j < |r| ==>
           r[j].1 == (if j < |e| then e[j].1 else 0.0) + (if r[j].0 == k then a else 0.0)
  {
  }

  /** `k => obj[k] || 0` for a fixed object. */
  function LookupIn(e: Entries): string -> real {
    k => Lookup(e, k)
  }

  /** In an object with distinct keys, looking up an entry's key finds that entry. */
  lemma LookupDistinct(e: Entries, j: int)
    requires Distinct(KeysOf(e)) && 0 <= j < |e|
    ensures Lookup(e, e[j].0) == e[j].1
  {
    var i := IndexOfKey(e, e[j].0);
    assert KeysOf(e)[i] == KeysOf(e)[j];
  }

  /** Summing the looked-up values over the keys gives the sum of the values. */
  lemma SumOverKeys(e: Entries)
    requires Distinct(KeysOf(e))
    ensures SumBy(KeysOf(e), LookupIn(e)) == SumValues(e)
  {
    forall j | 0 <= j < |e| ensures LookupIn(e)(KeysOf(e)[j]) == EntryValue(e[j]) {
      LookupDistinct(e, j);
    }
    SumByPointwise(KeysOf(e), LookupIn(e), e, EntryValue);
  }

  // ----- grouping ----------------------------------------------------------

  /** The key each transaction is grouped under, in order. */
  function KeySeq(ts: seq<Transaction>, key: Transaction -> string): (ks: seq<string>)
    ensures |ks| == |ts| && forall i :: 0 <= i < |ts| ==> ks[i] == key(ts[i])
  {
    seq(|ts|, i requires 0 <= i < |ts| => key(ts[i]))
  }

  function HasKey(key: Transaction -> string, k: string): Transaction -> bool {
    (t: Transaction) => key(t) == k
  }

  /** What the grouping loop has built after reading `ts`: one entry per
      distinct key in order of first appearance, each holding the sum of the
      amounts under that key. */
  ghost predicate GroupsOf(groups: Entries, ts: seq<Transaction>, key: Transaction -> string) {
    && KeysOf(groups) == Dedup(KeySeq(ts, key))
    && (forall j :: 0 <= j < |groups| ==> groups[j].1 == SumWhere(ts, HasKey(key, groups[j].0)))
    && SumValues(groups) == Total(ts)
  }

  lemma GroupKeysStep(groups: Entries, ts: seq<Transaction>, t: Transaction, key: Transaction -> string)
    requires KeysOf(groups) == Dedup(KeySeq(ts, key))
    ensures KeysOf(AddTo(groups, key(t), t.amount)) == Dedup(KeySeq(ts + [t], key))
  {
    assert KeySeq(ts + [t], key) == KeySeq(ts, key) + [key(t)];
    DedupSnoc(KeySeq(ts, key), key(t));
  }

  lemma GroupValuesStep(groups: Entries, ts: seq<Transaction>, t: Transaction, key: Transaction -> string)
    requires KeysOf(groups) == Dedup(KeySeq(ts, key))
    requires forall j :: 0 <= j < |groups| ==> groups[j].1 == SumWhere(ts, HasKey(key, groups[j].0))
    ensures var r := AddTo(groups, key(t), t.amount);
      forall j :: 0 <= j < |r| ==> r[j].1 == SumWhere(ts + [t], HasKey(key, r[j].0))
  {
    var k := key(t);
    var r := AddTo(groups, k, t.amount);
    AddToValues(groups, k, t.amount);
    forall j | 0 <= j < |r| ensures r[j].1 == SumWhere(ts + [t], HasKey(key, r[j].0)) {
      SumWhereSnoc(ts, t, HasKey(key, r[j].0));
      if j == |groups| {
        assert r[j].0 == k;
        assert k !in KeysOf(groups);
        assert k !in KeySeq(ts, key);
        SumWhereNone(ts, HasKey(key, k));
      }
    }
  }

  /** One step of the loop keeps `GroupsOf`. */
  lemma GroupsOfStep(groups: Entries, ts: seq<Transaction>, t: Transaction, key: Transaction -> string)
    requires GroupsOf(groups, ts, key)
    ensures GroupsOf(AddTo(groups, key(t), t.amount), ts + [t], key)
  {
    GroupKeysStep(groups, ts, t, key);
    GroupValuesStep(groups, ts, t, key);
    AddToSum(groups, key(t), t.amount);
    assert (ts + [t])[..|ts|] == ts;
  }

  /** The `forEach` that fills `groups[key(t)] = (groups[key(t)] || 0) + t.amount`. */
  method GroupBy(ts: seq<Transaction>, key: Transaction -> string) returns (groups: Entries)
    ensures KeysOf(groups) == Dedup(KeySeq(ts, key))
    ensures forall j :: 0 <= j < |groups| ==> groups[j].1 == SumWhere(ts, HasKey(key, groups[j].0))
    ensures SumValues(groups) == Total(ts)
  {
    groups := [];
    var i := 0;
    while i < |ts|
      invariant 0 <= i <= |ts|
      invariant GroupsOf(groups, ts[..i], key)
    {
      GroupsOfStep(groups, ts[..i], ts[i], key);
      TakeSnoc(ts, i);
      groups := AddTo(groups, key(ts[i]), ts[i].amount);
      i := i + 1;
    }
    assert ts[..i] == ts;
  }
}

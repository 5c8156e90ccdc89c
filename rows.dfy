/** The canonical price record and the merge that both fetchers apply to a
    partition: concatenate the existing rows with the incoming ones, drop
    duplicate `(date, ticker)` keys keeping the last row, sort by
    `(date, ticker)`. */
module Rows {
  import opened Text
  import opened Seqs

  /** A calendar day as a day ordinal (day 1 is 0001-01-01). */
  type Date = int
  type Ticker = string
  /** Adjusted close prices are only carried, compared for presence and
      overwritten, never computed with. */
  type Price(==, !new)

  datatype RowKey = RowKey(date: Date, ticker: Ticker)

  /** One `(date, ticker, adj_close)` row. */
  datatype Row = Row(date: Date, ticker: Ticker, price: Price)
  {
    function Key(): RowKey
    {
      RowKey(date, ticker)
    }
  }

  // ---------------------------------------------------------------------------
  // Order on keys: by date, then by ticker as Python compares strings
  // ---------------------------------------------------------------------------

  predicate KeyLess(a: RowKey, b: RowKey)
  {
    a.date < b.date || (a.date == b.date && LexLess(a.ticker, b.ticker))
  }

  lemma KeyLessIrreflexive(a: RowKey)
    ensures !KeyLess(a, a)
  {
    LexIrreflexive(a.ticker);
  }

  lemma KeyLessTransitive(a: RowKey, b: RowKey, c: RowKey)
    requires KeyLess(a, b) && KeyLess(b, c)
    ensures KeyLess(a, c)
  {
    if a.date == b.date == c.date {
      LexTransitive(a.ticker, b.ticker, c.ticker);
    }
  }

  lemma KeyLessTotal(a: RowKey, b: RowKey)
    requires a != b
    ensures KeyLess(a, b) || KeyLess(b, a)
  {
    if a.date == b.date {
      LexTotal(a.ticker, b.ticker);
    }
  }

  lemma KeyLessAsymmetric(a: RowKey, b: RowKey)
    requires KeyLess(a, b)
    ensures !KeyLess(b, a)
  {
    if a.date == b.date {
      LexAsymmetric(a.ticker, b.ticker);
    }
  }

  /** Ascending by key, ties allowed (what `sort_values` promises). */
  predicate SortedByKey(s: seq<Row>)
  {
    forall i, j :: 0 <= i < j < |s| ==> !KeyLess(s[j].Key(), s[i].Key())
  }

  /** Strictly ascending by key: sorted and no key twice. */
  predicate StrictlySorted(s: seq<Row>)
  {
    forall i, j :: 0 <= i < j < |s| ==> KeyLess(s[i].Key(), s[j].Key())
  }

  predicate DistinctKeys(s: seq<Row>)
  {
    forall i, j :: 0 <= i < j < |s| ==> s[i].Key() != s[j].Key()
  }

  function KeysOf(s: seq<Row>): set<RowKey>
  {
    set r | r in s :: r.Key()
  }

  function DatesOf(s: seq<Row>): set<Date>
  {
    set r | r in s :: r.date
  }

  lemma StrictlySortedDistinct(s: seq<Row>)
    requires StrictlySorted(s)
    ensures DistinctKeys(s)
  {
    forall i, j | 0 <= i < j < |s| ensures s[i].Key() != s[j].Key() {
      if s[i].Key() == s[j].Key() {
        KeyLessIrreflexive(s[i].Key());
      }
    }
  }

  lemma SortedDistinctIsStrict(s: seq<Row>)
    requires SortedByKey(s) && DistinctKeys(s)
    ensures StrictlySorted(s)
  {
    forall i, j | 0 <= i < j < |s| ensures KeyLess(s[i].Key(), s[j].Key()) {
      KeyLessTotal(s[i].Key(), s[j].Key());
    }
  }

  // ---------------------------------------------------------------------------
  // The key map: what a sequence of rows says about each key, later rows
  // overriding earlier ones
  // ---------------------------------------------------------------------------

  /** The price each key ends up with when the rows are read in order and a
      later row for a key overrides an earlier one. */
  function KeyMap(s: seq<Row>): (m: map<RowKey, Price>)
    ensures m.Keys == KeysOf(s)
    decreases |s|
  {
    if s == [] then map[]
    else
      var m := KeyMap(s[1..]);
      assert s == [s[0]] + s[1..];
      if s[0].Key() in m then m else m[s[0].Key() := s[0].price]
  }

  /** The key map of a row followed by more rows, at one of its keys. */
  lemma KeyMapConsAt(x: Row, t: seq<Row>, k: RowKey)
    requires k == x.Key() || k in KeyMap(t)
    ensures k in KeyMap([x] + t)
    ensures KeyMap([x] + t)[k] == if k in KeyMap(t) then KeyMap(t)[k] else x.price
  {
    assert ([x] + t)[1..] == t;
  }

  /** Adding a key to the left operand of a union: hidden when the right
      operand has it, otherwise the same as adding it to the union. */
  lemma UnionUpdate(m: map<RowKey, Price>, n: map<RowKey, Price>, k: RowKey, p: Price)
    ensures k in n ==> m[k := p] + n == m + n
    ensures k !in n ==> m[k := p] + n == (m + n)[k := p]
  {
    if k in n {
      assert (m[k := p] + n).Keys == (m + n).Keys;
    } else {
      assert (m[k := p] + n).Keys == (m + n)[k := p].Keys;
    }
  }

  /** Reading `a` then `b` is reading `a` and letting `b` override it. */
  lemma {:induction false} KeyMapAppend(a: seq<Row>, b: seq<Row>)
    ensures KeyMap(a + b) == KeyMap(a) + KeyMap(b)
    decreases |a|
  {
    if a == [] {
      assert a + b == b;
    } else {
      assert (a + b)[0] == a[0];
      assert (a + b)[1..] == a[1..] + b;
      KeyMapAppend(a[1..], b);
      UnionUpdate(KeyMap(a[1..]), KeyMap(b), a[0].Key(), a[0].price);
    }
  }

  /** `s[i]` is the last row of `s` with its key. */
  predicate LastOfKey(s: seq<Row>, i: int)
  {
    0 <= i < |s| && forall j :: i < j < |s| ==> s[j].Key() != s[i].Key()
  }

  /** The key map holds the price of the last row with each key. */
  lemma {:induction false} KeyMapAtLast(s: seq<Row>, i: int)
    requires LastOfKey(s, i)
    ensures KeyMap(s)[s[i].Key()] == s[i].price
    decreases |s|
  {
    var t := s[1..];
    if i == 0 {
      forall r | r in t ensures r.Key() != s[0].Key() {
        var j :| 0 <= j < |t| && t[j] == r;
        assert s[j + 1] == r;
      }
    } else {
      KeyMapAtLast(t, i - 1);
      assert t[i - 1] == s[i];
    }
  }

  /** With distinct keys every row is the last of its key. */
  lemma KeyMapDistinct(s: seq<Row>, i: int)
    requires DistinctKeys(s) && 0 <= i < |s|
    ensures KeyMap(s)[s[i].Key()] == s[i].price
  {
    KeyMapAtLast(s, i);
  }

  // ---------------------------------------------------------------------------
  // drop_duplicates(subset=["date", "ticker"], keep="last")
  // ---------------------------------------------------------------------------

  /** Putting a row with a new key in front keeps the keys distinct. */
  lemma ConsDistinct(x: Row, t: seq<Row>)
    requires DistinctKeys(t) && x.Key() !in KeysOf(t)
    ensures DistinctKeys([x] + t)
  {
    var s := [x] + t;
    forall i, j | 0 <= i < j < |s| ensures s[i].Key() != s[j].Key() {
      if i == 0 {
        assert s[j] in t;
      } else {
        assert s[i] == t[i - 1] && s[j] == t[j - 1];
      }
    }
  }

  /** Every row whose key does not occur again later, in the original order. */
  function KeepLast(s: seq<Row>): (r: seq<Row>)
    ensures DistinctKeys(r)
    ensures KeyMap(r) == KeyMap(s)
    ensures forall x :: x in r ==> x in s
    ensures Subsequence(r, s)
    decreases |s|
  {
    if s == [] then []
    else
      var t := s[1..];
      var rest := KeepLast(t);
      assert s == [s[0]] + t;
      if s[0].Key() in KeysOf(t) then
        assert KeyMap(s) == KeyMap(t);
        rest
      else
        var r := [s[0]] + rest;
        assert r[1..] == rest;
        ConsDistinct(s[0], rest);
        assert KeyMap(r) == KeyMap(rest)[s[0].Key() := s[0].price];
        r
  }

  // ---------------------------------------------------------------------------
  // sort_values(["date", "ticker"])
  // ---------------------------------------------------------------------------

  /** No row of `t` has a key below `y`'s. */
  predicate NotBelow(t: seq<Row>, y: Row)
  {
    forall z :: z in t ==> !KeyLess(z.Key(), y.Key())
  }

  lemma ConsSorted(y: Row, t: seq<Row>)
    requires SortedByKey(t) && NotBelow(t, y)
    ensures SortedByKey([y] + t)
  {
    var s := [y] + t;
    forall i, j | 0 <= i < j < |s| ensures !KeyLess(s[j].Key(), s[i].Key()) {
      if i > 0 {
        assert s[i] == t[i - 1] && s[j] == t[j - 1];
      } else {
        assert s[j] in t;
      }
    }
  }

  /** If `x` is below the head of a sorted `s`, no row of `s` is below `x`. */
  lemma BelowHead(s: seq<Row>, x: Row)
    requires SortedByKey(s) && s != [] && KeyLess(x.Key(), s[0].Key())
    ensures NotBelow(s, x)
  {
    forall z | z in s ensures !KeyLess(z.Key(), x.Key()) {
      var k :| 0 <= k < |s| && s[k] == z;
      if k == 0 {
        KeyLessAsymmetric(x.Key(), s[0].Key());
      } else if KeyLess(z.Key(), x.Key()) {
        KeyLessTransitive(z.Key(), x.Key(), s[0].Key());
      }
    }
  }

  /** Inserts `x` after every row whose key is not above its own. */
  function Insert(s: seq<Row>, x: Row): (r: seq<Row>)
    requires SortedByKey(s)
    ensures SortedByKey(r)
    ensures multiset(r) == multiset(s) + multiset{x}
    decreases |s|
  {
    if s == [] then [x]
    else if KeyLess(x.Key(), s[0].Key()) then
      BelowHead(s, x);
      ConsSorted(x, s);
      [x] + s
    else
      var rest := Insert(s[1..], x);
      assert s == [s[0]] + s[1..];
      assert NotBelow(rest, s[0]) by {
        forall z | z in rest ensures !KeyLess(z.Key(), s[0].Key()) {
          assert z in multiset(rest);
          if z != x {
            var k :| 0 <= k < |s[1..]| && s[1..][k] == z;
            assert s[k + 1] == z;
          }
        }
      }
      ConsSorted(s[0], rest);
      [s[0]] + rest
  }

  /** Insertion sort by key; stable, so rows with equal keys keep their order. */
  function SortRows(s: seq<Row>): (r: seq<Row>)
    ensures SortedByKey(r)
    ensures multiset(r) == multiset(s)
    decreases |s|
  {
    if s == [] then []
    else
      assert s == s[..|s| - 1] + [s[|s| - 1]];
      Insert(SortRows(s[..|s| - 1]), s[|s| - 1])
  }

  /** Two rows that are equal occur at most once in a sequence with distinct keys. */
  lemma {:induction false} DistinctKeysCount(s: seq<Row>, x: Row)
    requires DistinctKeys(s)
    ensures multiset(s)[x] <= 1
    decreases |s|
  {
    if s != [] {
      var t := s[..|s| - 1];
      assert s == t + [s[|s| - 1]];
      DistinctKeysCount(t, x);
      if s[|s| - 1] == x {
        forall j | 0 <= j < |t| ensures t[j] != x {
          assert s[j] == t[j];
        }
      }
    }
  }

  /** A permutation of a sequence with distinct keys has distinct keys. */
  lemma PermutationDistinct(s: seq<Row>, r: seq<Row>)
    requires DistinctKeys(s) && multiset(r) == multiset(s)
    ensures DistinctKeys(r)
  {
    forall i, j | 0 <= i < j < |r| ensures r[i].Key() != r[j].Key() {
      if r[i] == r[j] {
        assert r == r[..j] + [r[j]] + r[j + 1..];
        assert r[i] in r[..j];
        DistinctKeysCount(s, r[i]);
      } else {
        assert r[i] in multiset(s) && r[j] in multiset(s);
      }
    }
  }

  /** Permuting rows with distinct keys keeps their key map. */
  lemma PermutationKeyMap(s: seq<Row>, r: seq<Row>)
    requires DistinctKeys(s) && multiset(r) == multiset(s)
    ensures KeyMap(r) == KeyMap(s)
  {
    PermutationDistinct(s, r);
    assert forall x :: x in r <==> x in s by {
      forall x ensures x in r <==> x in s {
        assert x in r <==> x in multiset(r);
        assert x in s <==> x in multiset(s);
      }
    }
    forall k | k in KeyMap(r) ensures k in KeyMap(s) && KeyMap(r)[k] == KeyMap(s)[k] {
      var x :| x in r && x.Key() == k;
      var i :| 0 <= i < |r| && r[i] == x;
      var p :| 0 <= p < |s| && s[p] == x;
      KeyMapDistinct(r, i);
      KeyMapDistinct(s, p);
    }
  }

  // ---------------------------------------------------------------------------
  // The partition merge
  // ---------------------------------------------------------------------------

  /** The rewritten partition: existing rows followed by the incoming chunk,
      de-duplicated on `(date, ticker)` keeping the last row, then sorted. */
  function MergeRows(existing: seq<Row>, chunk: seq<Row>): seq<Row>
  {
    SortRows(KeepLast(existing + chunk))
  }

  /** A merged partition is strictly ascending by `(date, ticker)` and holds,
      for every key of the existing rows or the chunk, the chunk's last row if
      the chunk has that key and the existing partition's last row otherwise. */
  lemma MergeCanonical(existing: seq<Row>, chunk: seq<Row>)
    ensures StrictlySorted(MergeRows(existing, chunk))
    ensures KeyMap(MergeRows(existing, chunk)) == KeyMap(existing) + KeyMap(chunk)
  {
    var d := KeepLast(existing + chunk);
    var m := SortRows(d);
    PermutationDistinct(d, m);
    SortedDistinctIsStrict(m);
    PermutationKeyMap(d, m);
    KeyMapAppend(existing, chunk);
  }

  /** Every merged row is one of the existing or incoming rows. */
  lemma MergeRowsFrom(existing: seq<Row>, chunk: seq<Row>, x: Row)
    requires x in MergeRows(existing, chunk)
    ensures x in existing || x in chunk
  {
    var d := KeepLast(existing + chunk);
    assert x in multiset(SortRows(d));
    assert x in d;
  }

  /** The head of a strictly sorted sequence has its least key. */
  lemma HeadIsLeast(a: seq<Row>, k: RowKey)
    requires StrictlySorted(a) && a != []
    requires k in KeysOf(a) && k != a[0].Key()
    ensures KeyLess(a[0].Key(), k)
  {
    var r :| r in a && r.Key() == k;
    var p :| 0 <= p < |a| && a[p] == r;
  }

  /** Dropping the head of a strictly sorted sequence drops its key from the key map. */
  lemma TailKeyMap(a: seq<Row>)
    requires StrictlySorted(a) && a != []
    ensures a[0].Key() !in KeyMap(a[1..])
    ensures KeyMap(a) == KeyMap(a[1..])[a[0].Key() := a[0].price]
  {
    var t := a[1..];
    forall r | r in t ensures r.Key() != a[0].Key() {
      var p :| 0 <= p < |t| && t[p] == r;
      assert KeyLess(a[0].Key(), a[p + 1].Key());
      KeyLessIrreflexive(a[0].Key());
    }
  }

  lemma EmptyKeyMap(a: seq<Row>)
    ensures KeyMap(a) == map[] <==> a == []
  {
    if a != [] {
      assert a[0].Key() in KeysOf(a);
    }
  }

  /** Two strictly sorted sequences with the same key map start with the same row. */
  lemma HeadsEqual(a: seq<Row>, b: seq<Row>)
    requires StrictlySorted(a) && StrictlySorted(b) && a != [] && b != []
    requires KeyMap(a) == KeyMap(b)
    ensures a[0] == b[0]
  {
    var ka, kb := a[0].Key(), b[0].Key();
    assert ka in KeysOf(b) && kb in KeysOf(a);
    if ka != kb {
      HeadIsLeast(a, kb);
      HeadIsLeast(b, ka);
      KeyLessAsymmetric(ka, kb);
    }
    TailKeyMap(a);
    TailKeyMap(b);
  }

  /** Adding the same entry for a new key to two maps gives equal maps only
      when the maps were equal. */
  lemma UpdateCancel(m: map<RowKey, Price>, n: map<RowKey, Price>, k: RowKey, p: Price)
    requires k !in m && k !in n && m[k := p] == n[k := p]
    ensures m == n
  {
    assert m.Keys == m[k := p].Keys - {k};
    assert n.Keys == n[k := p].Keys - {k};
    forall x | x in m ensures m[x] == n[x] {
      assert m[x] == m[k := p][x];
      assert n[x] == n[k := p][x];
    }
  }

  lemma TailsSameMap(a: seq<Row>, b: seq<Row>)
    requires StrictlySorted(a) && StrictlySorted(b) && a != [] && b != []
    requires KeyMap(a) == KeyMap(b) && a[0] == b[0]
    ensures KeyMap(a[1..]) == KeyMap(b[1..])
  {
    TailKeyMap(a);
    TailKeyMap(b);
    UpdateCancel(KeyMap(a[1..]), KeyMap(b[1..]), a[0].Key(), a[0].price);
  }

  lemma ConsEqual(a: seq<Row>, b: seq<Row>)
    requires a != [] && b != [] && a[0] == b[0] && a[1..] == b[1..]
    ensures a == b
  {
    assert a == [a[0]] + a[1..] && b == [b[0]] + b[1..];
  }

  /** A strictly sorted sequence of rows is determined by its key map. */
  lemma {:induction false} CanonicalUnique(a: seq<Row>, b: seq<Row>)
    requires StrictlySorted(a) && StrictlySorted(b)
    requires KeyMap(a) == KeyMap(b)
    ensures a == b
    decreases |a|
  {
    if a == [] || b == [] {
      EmptyKeyMap(a);
      EmptyKeyMap(b);
    } else {
      HeadsEqual(a, b);
      TailsSameMap(a, b);
      CanonicalUnique(a[1..], b[1..]);
      ConsEqual(a, b);
    }
  }

  /** Merging the same chunk a second time changes nothing. */
  lemma MergeIdempotent(existing: seq<Row>, chunk: seq<Row>)
    ensures MergeRows(MergeRows(existing, chunk), chunk) == MergeRows(existing, chunk)
  {
    var once := MergeRows(existing, chunk);
    MergeCanonical(existing, chunk);
    MergeCanonical(once, chunk);
    var e, c := KeyMap(existing), KeyMap(chunk);
    assert (e + c) + c == e + c;
    CanonicalUnique(MergeRows(once, chunk), once);
  }

  /** Merging nothing into a partition that is already strictly sorted leaves it as it is. */
  lemma MergeEmptyChunk(existing: seq<Row>)
    requires StrictlySorted(existing)
    ensures MergeRows(existing, []) == existing
  {
    MergeCanonical(existing, []);
    assert KeyMap(existing) + KeyMap([]) == KeyMap(existing);
    CanonicalUnique(MergeRows(existing, []), existing);
  }

  /** No history is lost: the merged keys are exactly the old keys and the
      incoming keys. */
  lemma MergeKeys(existing: seq<Row>, chunk: seq<Row>)
    ensures KeysOf(MergeRows(existing, chunk)) == KeysOf(existing) + KeysOf(chunk)
  {
    MergeCanonical(existing, chunk);
  }

  /** Last write wins: the last incoming row of each key is in the merged
      partition, whatever the existing partition held for that key. */
  lemma MergeChunkWins(existing: seq<Row>, chunk: seq<Row>, i: int)
    requires LastOfKey(chunk, i)
    ensures chunk[i] in MergeRows(existing, chunk)
  {
    var m := MergeRows(existing, chunk);
    MergeCanonical(existing, chunk);
    KeyMapAtLast(chunk, i);
    MergedRowAt(m, chunk[i]);
  }

  /** A key the chunk does not mention keeps the existing partition's last row for it. */
  lemma MergeExistingKept(existing: seq<Row>, chunk: seq<Row>, i: int)
    requires LastOfKey(existing, i) && existing[i].Key() !in KeysOf(chunk)
    ensures existing[i] in MergeRows(existing, chunk)
  {
    var m := MergeRows(existing, chunk);
    MergeCanonical(existing, chunk);
    KeyMapAtLast(existing, i);
    MergedRowAt(m, existing[i]);
  }

  /** In a strictly sorted sequence, the key map's entry for a row's key gives that row. */
  lemma MergedRowAt(m: seq<Row>, x: Row)
    requires StrictlySorted(m)
    requires x.Key() in KeyMap(m) && KeyMap(m)[x.Key()] == x.price
    ensures x in m
  {
    StrictlySortedDistinct(m);
    var y :| y in m && y.Key() == x.Key();
    var p :| 0 <= p < |m| && m[p] == y;
    KeyMapDistinct(m, p);
  }
}

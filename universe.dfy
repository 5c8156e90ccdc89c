/** Building the ticker universe of `src/generate_universe.py`: reading
    index-constituent tables, picking unused tickers up to a quota, filling
    the groups in a fixed order, topping up, and truncating. */
module Universe {
  import opened Wrappers
  import opened Text
  import opened Seqs
  import opened Tables

  // ---------------------------------------------------------------------------
  // read_symbols
  // ---------------------------------------------------------------------------

  /** Column names tried, in order. */
  const SymbolColumns: seq<string> := ["Symbol", "symbol", "Ticker", "ticker"]

  /** A symbol survives the cleanup when it is not empty and not an index (`^...`). */
  predicate KeepSymbol(s: string)
  {
    s != "" && !StartsWith(s, '^')
  }

  /** `[s for s in symbols if s and not s.startswith("^")]`. */
  function KeepSymbols(values: seq<string>): (kept: seq<string>)
    ensures forall s :: s in kept <==> s in values && KeepSymbol(s)
    ensures Subsequence(kept, values)
    decreases |values|
  {
    if values == [] then []
    else
      var rest := KeepSymbols(values[1..]);
      assert forall s :: s in values <==> s == values[0] || s in values[1..];
      assert values == [values[0]] + values[1..];
      if KeepSymbol(values[0]) then [values[0]] + rest else rest
  }

  /** Filtering keeps every occurrence of a kept symbol and no other:
      duplicates in the column stay duplicates. */
  lemma {:induction false} KeepSymbolsCount(values: seq<string>)
    ensures forall s :: multiset(KeepSymbols(values))[s] == if KeepSymbol(s) then multiset(values)[s] else 0
    decreases |values|
  {
    if values != [] {
      KeepSymbolsCount(values[1..]);
      assert values == [values[0]] + values[1..];
      assert multiset(values) == multiset{values[0]} + multiset(values[1..]);
    }
  }

  /** `read_symbols` on the downloaded table: the first symbol column present,
      stripped, without blanks and index symbols; no such column is an error. */
  function ReadSymbols(t: Frame): (r: Outcome<seq<string>>)
    ensures r.MissingColumn? <==> forall c :: c in SymbolColumns ==> c !in t.columns
    ensures r.Ok? ==> forall s :: s in r.value ==> Strip(s) == s && s != "" && !StartsWith(s, '^')
    ensures r.Ok? ==>
      exists c :: c in SymbolColumns && c in t.columns && (forall s :: s in r.value <==> s in StrippedColumn(t, c) && KeepSymbol(s))
  {
    var col := ProbeColumn(t, SymbolColumns);
    if col.MissingColumn? then MissingColumn else Ok(KeepSymbols(col.value))
  }

  /** The column read is the first symbol column present, and its kept
      symbols stay in the column's order. */
  lemma ReadSymbolsFirstColumn(t: Frame)
    ensures var r := ReadSymbols(t);
      r.Ok? ==>
        exists k :: 0 <= k < |SymbolColumns| && SymbolColumns[k] in t.columns
          && r.value == KeepSymbols(StrippedColumn(t, SymbolColumns[k]))
          && Subsequence(r.value, StrippedColumn(t, SymbolColumns[k]))
          && (forall k' :: 0 <= k' < k ==> SymbolColumns[k'] !in t.columns)
  {
  }

  // ---------------------------------------------------------------------------
  // take_unique
  // ---------------------------------------------------------------------------

  /** What `take_unique(items, n, used)` returns: the unused items in order,
      stopping once `n` have been picked. The count is checked after each
      item, so `n <= 0` still lets the first item through when it is unused. */
  function PickFrom(items: seq<string>, n: int, used: set<string>): (picked: seq<string>)
    decreases |items|
  {
    if items == [] then []
    else
      var x := items[0];
      if x !in used then
        if n <= 1 then [x]
        else
          var rest := PickFrom(items[1..], n - 1, used + {x});
          [x] + rest
      else if n <= 0 then []
      else PickFrom(items[1..], n, used)
  }

  /** The picks are distinct unused items of the pool, at most `n` of them
      (one when `n < 1`). */
  lemma {:induction false} PickShape(items: seq<string>, n: int, used: set<string>)
    ensures Distinct(PickFrom(items, n, used))
    ensures forall x :: x in PickFrom(items, n, used) ==> x in items && x !in used
    ensures |PickFrom(items, n, used)| <= (if n < 1 then 1 else n)
    decreases |items|
  {
    if items != [] {
      var x := items[0];
      assert forall y :: y in items <==> y == x || y in items[1..];
      if x !in used {
        if n > 1 {
          PickShape(items[1..], n - 1, used + {x});
        }
      } else if n > 0 {
        PickShape(items[1..], n, used);
      }
    }
  }

  /** One step of `take_unique` at position `i` of the pool. */
  lemma PickAt(items: seq<string>, i: nat, n: int, used: set<string>)
    requires i < |items|
    ensures var x := items[i];
      PickFrom(items[i..], n, used) ==
        if x !in used then
          if n <= 1 then [x] else [x] + PickFrom(items[i + 1..], n - 1, used + {x})
        else if n <= 0 then []
        else PickFrom(items[i + 1..], n, used)
  {
    assert items[i..][0] == items[i];
    assert items[i..][1..] == items[i + 1..];
  }

  /** How one item of the pool moves `take_unique` forward: the picks so
      far, followed by what the rest of the pool yields, stay the result. */
  lemma PickAdvance(items: seq<string>, i: nat, n: int, seen: set<string>, picked: seq<string>, total: seq<string>)
    requires i < |items|
    requires total == picked + PickFrom(items[i..], n - |picked|, seen)
    ensures var x := items[i];
      var picked' := if x !in seen then picked + [x] else picked;
      var seen' := if x !in seen then seen + {x} else seen;
      if |picked'| >= n then total == picked'
      else total == picked' + PickFrom(items[i + 1..], n - |picked'|, seen')
  {
    var x := items[i];
    var m := n - |picked|;
    PickAt(items, i, m, seen);
    if x !in seen && m > 1 {
      ConcatAssoc(picked, [x], PickFrom(items[i + 1..], m - 1, seen + {x}));
    } else if x in seen && m <= 0 {
      assert picked + [] == picked;
    }
  }

  /** Once the pool is exhausted the picks are the result. */
  lemma PickEnd(items: seq<string>, n: int, seen: set<string>, picked: seq<string>, total: seq<string>)
    requires total == picked + PickFrom(items[|items|..], n, seen)
    ensures total == picked
  {
    assert items[|items|..] == [];
    assert picked + [] == picked;
  }

  /** The picks are a subsequence of the pool. */
  lemma {:induction false} PickSubsequence(items: seq<string>, n: int, used: set<string>)
    ensures Subsequence(PickFrom(items, n, used), items)
    decreases |items|
  {
    if items != [] {
      var x := items[0];
      if x !in used {
        if n <= 1 {
          SubsequenceOfTail([], items[1..]);
        } else {
          PickSubsequence(items[1..], n - 1, used + {x});
        }
      } else if n > 0 {
        PickSubsequence(items[1..], n, used);
      } else {
        SubsequenceOfTail([], items[1..]);
      }
    }
  }

  lemma {:induction false} SubsequenceOfTail(a: seq<string>, b: seq<string>)
    requires a == []
    ensures Subsequence(a, b)
    decreases |b|
  {
    if b != [] {
      SubsequenceOfTail(a, b[1..]);
    }
  }

  /** Picking fewer than `n` means the pool ran dry: every item was already
      used or has just been picked. */
  lemma {:induction false} PickExhausted(items: seq<string>, n: int, used: set<string>)
    requires |PickFrom(items, n, used)| < n
    ensures forall x :: x in items ==> x in used || x in PickFrom(items, n, used)
    decreases |items|
  {
    if items != [] {
      var x := items[0];
      assert forall y :: y in items <==> y == x || y in items[1..];
      if x !in used {
        PickExhausted(items[1..], n - 1, used + {x});
      } else {
        PickExhausted(items[1..], n, used);
      }
    }
  }

  /** The items not in `used`, each kept once, in order of first occurrence:
      the reference `take_unique` is measured against. */
  function Unused(items: seq<string>, used: set<string>): (r: seq<string>)
    ensures Distinct(r)
    ensures forall x :: x in r <==> x in items && x !in used
    decreases |items|
  {
    if items == [] then []
    else
      var x := items[0];
      assert forall y :: y in items <==> y == x || y in items[1..];
      if x in used then Unused(items[1..], used)
      else [x] + Unused(items[1..], used + {x})
  }

  /** `take_unique` picks the first `n` unused items; with `n < 1` it still
      looks at the first item before the count stops it. */
  lemma {:induction false} PickFirstUnused(items: seq<string>, n: int, used: set<string>)
    ensures n >= 1 ==> PickFrom(items, n, used) == Take(Unused(items, used), n)
    ensures n < 1 ==> PickFrom(items, n, used) == Unused(Take(items, 1), used)
    decreases |items|
  {
    if items == [] {
    } else if n < 1 {
      PickNonPositive(items, n, used);
      var first := Take(items, 1);
      assert first == [items[0]] && first[1..] == [];
    } else {
      var x := items[0];
      if x !in used {
        TakeCons(x, Unused(items[1..], used + {x}), n);
        if n > 1 {
          PickFirstUnused(items[1..], n - 1, used + {x});
        }
      } else {
        PickFirstUnused(items[1..], n, used);
      }
    }
  }

  /** With `n <= 0`, exactly the first item is picked when it is unused. */
  lemma PickNonPositive(items: seq<string>, n: int, used: set<string>)
    requires n <= 0
    ensures PickFrom(items, n, used) == if items != [] && items[0] !in used then [items[0]] else []
  {
  }

  // ---------------------------------------------------------------------------
  // Groups and selections
  // ---------------------------------------------------------------------------

  /** A line of the universe: the group it was picked for and the ticker. */
  datatype Entry = Entry(group: string, ticker: string)

  function Tag(group: string, ts: seq<string>): (es: seq<Entry>)
    ensures |es| == |ts|
    ensures forall i :: 0 <= i < |ts| ==> es[i] == Entry(group, ts[i])
  {
    seq(|ts|, i requires 0 <= i < |ts| => Entry(group, ts[i]))
  }

  function Tickers(es: seq<Entry>): (ts: seq<string>)
    ensures |ts| == |es|
    ensures forall i :: 0 <= i < |es| ==> ts[i] == es[i].ticker
  {
    seq(|es|, i requires 0 <= i < |es| => es[i].ticker)
  }

  function Elems(ts: seq<string>): set<string>
  {
    set t | t in ts
  }

  lemma ElemsSnoc(p: seq<string>, x: string)
    ensures Elems(p + [x]) == Elems(p) + {x}
  {
  }

  /** The state `main` threads through every pick: the shared `used` set and
      the `final` list. */
  datatype Selection = Selection(used: set<string>, final: seq<Entry>)

  /** One `take_unique` followed by appending its picks under `name`. */
  function AddPicked(s: Selection, name: string, pool: seq<string>, n: int): Selection
  {
    var p := PickFrom(pool, n, s.used);
    Selection(s.used + Elems(p), s.final + Tag(name, p))
  }

  /** A row of `targets`: group name, source keys, quota. */
  datatype Target = Target(group: string, keys: seq<string>, quota: int)

  const Italia: string := "ITALIA"
  const Fill: string := "FILL"

  const Targets: seq<Target> := [
    Target("USA", ["sp500", "nasdaq100", "dowjones"], 550),
    Target("EUROPA", ["ftse100", "dax"], 200),
    Target(Italia, [], 40),
    Target("HK", ["hsi"], 50),
    Target("CINA", ["csi300", "csi500", "csi1000"], 160)
  ]

  /** The fixed Italian list `ITALY_MI`. */
  const ItalyMi: seq<string> := [
    "ENEL.MI", "ENI.MI", "ISP.MI", "UCG.MI", "STM.MI", "G.MI", "PRY.MI", "SRG.MI", "TEN.MI", "TRN.MI",
    "HER.MI", "BAMI.MI", "LDO.MI", "AMP.MI", "BPE.MI", "CPR.MI", "MONC.MI", "ERG.MI", "DIA.MI", "A2A.MI",
    "INW.MI", "IG.MI", "MB.MI", "SPM.MI", "BZU.MI", "PST.MI", "NEXI.MI", "TIT.MI", "UNI.MI", "REC.MI",
    "AZM.MI", "BMED.MI", "BMPS.MI", "BPSO.MI", "SFER.MI", "LUX.MI", "RACE.MI", "IP.MI", "CVAL.MI", "BFF.MI"
  ]

  const FillFirst: seq<string> := ["csi1000", "csi500", "csi300"]
  const FillSecond: seq<string> := ["sp500"]

  /** Target size of the universe. */
  const UniverseSize: int := 1000

  /** The downloaded table behind each key of `SOURCES`. */
  type Sources = string -> Frame

  /** The symbols one table contributes, none when it lacks a symbol column. */
  function SymbolsOf(fetch: Sources, key: string): seq<string>
  {
    var r := ReadSymbols(fetch(key));
    if r.Ok? then r.value else []
  }

  /** The symbols of the tables of `keys`, concatenated in key order. */
  function Symbols(fetch: Sources, keys: seq<string>): seq<string>
    decreases |keys|
  {
    if keys == [] then [] else SymbolsOf(fetch, keys[0]) + Symbols(fetch, keys[1..])
  }

  lemma {:induction false} SymbolsSnoc(fetch: Sources, keys: seq<string>, key: string)
    ensures Symbols(fetch, keys + [key]) == Symbols(fetch, keys) + SymbolsOf(fetch, key)
    decreases |keys|
  {
    if keys == [] {
      assert Symbols(fetch, [key]) == SymbolsOf(fetch, key) + Symbols(fetch, []);
    } else {
      assert (keys + [key])[1..] == keys[1..] + [key];
      SymbolsSnoc(fetch, keys[1..], key);
      ConcatAssoc(SymbolsOf(fetch, keys[0]), Symbols(fetch, keys[1..]), SymbolsOf(fetch, key));
    }
  }

  lemma SymbolsLast(fetch: Sources, keys: seq<string>)
    requires keys != []
    ensures Symbols(fetch, keys) == Symbols(fetch, keys[..|keys| - 1]) + SymbolsOf(fetch, keys[|keys| - 1])
  {
    SplitLast(keys);
    SymbolsSnoc(fetch, keys[..|keys| - 1], keys[|keys| - 1]);
  }

  /** `pool.extend(read_symbols(SOURCES[k]))` for each key in order (see
      PoolSymbols and PoolFails for what it yields). */
  function Pool(fetch: Sources, keys: seq<string>): Outcome<seq<string>>
    decreases |keys|
  {
    if keys == [] then Ok([])
    else
      var prefix := keys[..|keys| - 1];
      var key := keys[|keys| - 1];
      var init := Pool(fetch, prefix);
      var last := ReadSymbols(fetch(key));
      if init.MissingColumn? || last.MissingColumn? then MissingColumn
      else Ok(init.value + last.value)
  }

  /** A pool that does not fail holds the symbols of every table, in key order. */
  lemma {:induction false} PoolSymbols(fetch: Sources, keys: seq<string>)
    ensures Pool(fetch, keys).Ok? ==> Pool(fetch, keys).value == Symbols(fetch, keys)
    decreases |keys|
  {
    if keys != [] && Pool(fetch, keys).Ok? {
      PoolSymbols(fetch, keys[..|keys| - 1]);
      SymbolsLast(fetch, keys);
    }
  }

  /** The pool fails exactly when one of its tables has no symbol column. */
  lemma {:induction false} PoolFails(fetch: Sources, keys: seq<string>)
    ensures Pool(fetch, keys).MissingColumn? <==> exists k :: k in keys && ReadSymbols(fetch(k)).MissingColumn?
    decreases |keys|
  {
    if keys != [] {
      var prefix := keys[..|keys| - 1];
      var key := keys[|keys| - 1];
      PoolFails(fetch, prefix);
      assert forall k :: k in keys <==> k in prefix || k == key;
    }
  }

  /** One group of the `targets` loop on a selection that has not failed. */
  function Group(fetch: Sources, r: Outcome<Selection>, t: Target): Outcome<Selection>
  {
    if r.MissingColumn? then MissingColumn
    else
      var pool := Pool(fetch, t.keys);
      if pool.MissingColumn? then MissingColumn else Ok(AddPicked(r.value, t.group, pool.value, t.quota))
  }

  /** The `targets` loop from a given row on; `ITALIA` is skipped there. */
  function RunTargets(fetch: Sources, r: Outcome<Selection>, ts: seq<Target>): Outcome<Selection>
    decreases |ts|
  {
    if ts == [] then r
    else RunTargets(fetch, if ts[0].group == Italia then r else Group(fetch, r, ts[0]), ts[1..])
  }

  /** `fill_from(keys, 1000 - len(final), "FILL")` under `if len(final) < 1000`. */
  function FillUp(fetch: Sources, r: Outcome<Selection>, keys: seq<string>): Outcome<Selection>
  {
    if r.MissingColumn? || |r.value.final| >= UniverseSize then r
    else
      var pool := Pool(fetch, keys);
      if pool.MissingColumn? then MissingColumn
      else Ok(AddPicked(r.value, Fill, pool.value, UniverseSize - |r.value.final|))
  }

  /** Below the target size the fill picks from the pool, unless a table
      lacks its symbol column. */
  lemma FillUpShort(fetch: Sources, s: Selection, keys: seq<string>)
    requires |s.final| < UniverseSize
    ensures FillUp(fetch, Ok(s), keys) ==
      if Pool(fetch, keys).MissingColumn? then MissingColumn
      else Ok(AddPicked(s, Fill, Pool(fetch, keys).value, UniverseSize - |s.final|))
  {
    var r := Ok(s);
    assert !r.MissingColumn? && |r.value.final| < UniverseSize;
  }

  /** The universe `main` computes before rendering, or the error `read_symbols` raised. */
  function SelectUniverse(fetch: Sources): Outcome<seq<Entry>>
  {
    var italia := AddPicked(Selection({}, []), Italia, ItalyMi, 40);
    var grouped := RunTargets(fetch, Ok(italia), Targets);
    var filled := FillUp(fetch, FillUp(fetch, grouped, FillFirst), FillSecond);
    if filled.MissingColumn? then MissingColumn else Ok(Take(filled.value.final, 1000))
  }

  /** What `main` ends with when the Italian picks are `start` and the
      `targets` table is `ts`. */
  function Completed(fetch: Sources, start: Selection, ts: seq<Target>): Outcome<seq<Entry>>
  {
    var filled := FillUp(fetch, FillUp(fetch, RunTargets(fetch, Ok(start), ts), FillFirst), FillSecond);
    if filled.MissingColumn? then MissingColumn else Ok(Take(filled.value.final, 1000))
  }

  // ---------------------------------------------------------------------------
  // Properties of the selection
  // ---------------------------------------------------------------------------

  /** `used` holds exactly the tickers of `final`, and those are distinct. */
  ghost predicate Fresh(s: Selection)
  {
    s.used == Elems(Tickers(s.final)) && Distinct(Tickers(s.final))
  }

  lemma TickersAppend(a: seq<Entry>, name: string, p: seq<string>)
    ensures Tickers(a + Tag(name, p)) == Tickers(a) + p
  {
  }

  /** Every pick keeps the shared `used` set in step with `final`, so no ticker
      is ever listed twice. */
  lemma AddPickedFresh(s: Selection, name: string, pool: seq<string>, n: int)
    requires Fresh(s)
    ensures Fresh(AddPicked(s, name, pool, n))
  {
    var p := PickFrom(pool, n, s.used);
    var ts := Tickers(s.final);
    PickShape(pool, n, s.used);
    TickersAppend(s.final, name, p);
    assert Tickers(s.final + Tag(name, p)) == ts + p;
    assert Elems(ts + p) == Elems(ts) + Elems(p);
    forall i, j | 0 <= i < j < |ts + p| ensures (ts + p)[i] != (ts + p)[j] {
      if j >= |ts| && i < |ts| {
        assert (ts + p)[j] in p;
        assert (ts + p)[i] in ts;
      }
    }
  }

  /** Position of a group in the rendered universe. */
  function Rank(group: string): int
  {
    if group == Italia then 0
    else if group == "USA" then 1
    else if group == "EUROPA" then 2
    else if group == "HK" then 3
    else if group == "CINA" then 4
    else 5
  }

  /** Groups appear in rank order and none above `top`. */
  ghost predicate Ranked(es: seq<Entry>, top: int)
  {
    (forall i, j :: 0 <= i < j < |es| ==> Rank(es[i].group) <= Rank(es[j].group))
    && (forall e :: e in es ==> Rank(e.group) <= top)
  }

  lemma AddPickedRanked(s: Selection, name: string, pool: seq<string>, n: int, top: int)
    requires Ranked(s.final, top) && top <= Rank(name)
    ensures Ranked(AddPicked(s, name, pool, n).final, Rank(name))
  {
    var es := s.final + Tag(name, PickFrom(pool, n, s.used));
    forall e | e in es ensures Rank(e.group) <= Rank(name) {
    }
    forall i, j | 0 <= i < j < |es| ensures Rank(es[i].group) <= Rank(es[j].group) {
      if j >= |s.final| {
        assert es[i] in es;
        assert es[j].group == name;
      }
    }
  }

  /** Number of entries of a group. */
  function Count(es: seq<Entry>, group: string): (c: nat)
    ensures c <= |es|
    decreases |es|
  {
    if es == [] then 0
    else (if es[|es| - 1].group == group then 1 else 0) + Count(es[..|es| - 1], group)
  }

  lemma {:induction false} CountAppend(a: seq<Entry>, b: seq<Entry>, group: string)
    ensures Count(a + b, group) == Count(a, group) + Count(b, group)
    decreases |b|
  {
    if b != [] {
      assert (a + b)[..|a + b| - 1] == a + b[..|b| - 1];
      assert (a + b)[|a + b| - 1] == b[|b| - 1];
      CountAppend(a, b[..|b| - 1], group);
    } else {
      assert a + b == a;
    }
  }

  lemma {:induction false} CountTag(name: string, p: seq<string>, group: string)
    ensures Count(Tag(name, p), group) == if group == name then |p| else 0
    decreases |p|
  {
    if p != [] {
      assert Tag(name, p)[..|p| - 1] == Tag(name, p[..|p| - 1]);
      CountTag(name, p[..|p| - 1], group);
    }
  }

  lemma {:induction false} CountAbsent(es: seq<Entry>, group: string)
    requires forall e :: e in es ==> e.group != group
    ensures Count(es, group) == 0
    decreases |es|
  {
    if es != [] {
      assert forall e :: e in es[..|es| - 1] ==> e in es;
      CountAbsent(es[..|es| - 1], group);
    }
  }

  lemma {:induction false} CountPrefix(es: seq<Entry>, k: nat, group: string)
    requires k <= |es|
    ensures Count(es[..k], group) <= Count(es, group)
    decreases |es| - k
  {
    if k < |es| {
      CountPrefix(es, k + 1, group);
      assert es[..k + 1][..k] == es[..k];
    } else {
      assert es[..k] == es;
    }
  }

  /** The quota of each named group. */
  ghost predicate WithinQuotas(es: seq<Entry>)
  {
    Count(es, Italia) <= 40 && Count(es, "USA") <= 550 && Count(es, "EUROPA") <= 200
    && Count(es, "HK") <= 50 && Count(es, "CINA") <= 160
  }

  /** A group appended after all lower-ranked groups holds exactly its picks;
      every other group keeps its count. */
  lemma AddPickedCount(s: Selection, name: string, pool: seq<string>, n: int, top: int, group: string)
    requires Ranked(s.final, top) && top < Rank(name)
    ensures Count(AddPicked(s, name, pool, n).final, group)
         == if group == name then |PickFrom(pool, n, s.used)| else Count(s.final, group)
  {
    var p := PickFrom(pool, n, s.used);
    CountAppend(s.final, Tag(name, p), group);
    CountTag(name, p, group);
    if group == name {
      CountAbsent(s.final, group);
    }
  }

  /** Where a ticker may come from: the Italian list or a downloaded table. */
  ghost predicate Sourced(fetch: Sources, t: string)
  {
    t in ItalyMi || exists k :: ReadSymbols(fetch(k)).Ok? && t in ReadSymbols(fetch(k)).value
  }

  lemma AddPickedSourced(fetch: Sources, s: Selection, name: string, pool: seq<string>, n: int)
    requires forall e :: e in s.final ==> Sourced(fetch, e.ticker)
    requires forall x :: x in pool ==> Sourced(fetch, x)
    ensures forall e :: e in AddPicked(s, name, pool, n).final ==> Sourced(fetch, e.ticker)
  {
    var p := PickFrom(pool, n, s.used);
    PickShape(pool, n, s.used);
    forall e | e in s.final + Tag(name, p) ensures Sourced(fetch, e.ticker) {
      if e !in s.final {
        var i :| 0 <= i < |p| && Tag(name, p)[i] == e;
        assert p[i] in pool;
      }
    }
  }

  lemma PoolSourced(fetch: Sources, keys: seq<string>)
    ensures Pool(fetch, keys).Ok? ==> forall x :: x in Pool(fetch, keys).value ==> Sourced(fetch, x)
  {
    PoolSymbols(fetch, keys);
    SymbolsSourced(fetch, keys);
  }

  lemma {:induction false} SymbolsSourced(fetch: Sources, keys: seq<string>)
    ensures forall x :: x in Symbols(fetch, keys) ==> Sourced(fetch, x)
    decreases |keys|
  {
    if keys != [] {
      SymbolsSourced(fetch, keys[1..]);
      forall x | x in SymbolsOf(fetch, keys[0]) ensures Sourced(fetch, x) {
        assert ReadSymbols(fetch(keys[0])).Ok?;
      }
    }
  }

  lemma {:induction false} RunTargetsSourced(fetch: Sources, r: Outcome<Selection>, ts: seq<Target>)
    requires r.Ok? ==> forall e :: e in r.value.final ==> Sourced(fetch, e.ticker)
    ensures var g := RunTargets(fetch, r, ts); g.Ok? ==> forall e :: e in g.value.final ==> Sourced(fetch, e.ticker)
    decreases |ts|
  {
    if ts != [] {
      if ts[0].group != Italia && r.Ok? {
        PoolSourced(fetch, ts[0].keys);
        var pool := Pool(fetch, ts[0].keys);
        if pool.Ok? {
          AddPickedSourced(fetch, r.value, ts[0].group, pool.value, ts[0].quota);
        }
      }
      RunTargetsSourced(fetch, if ts[0].group == Italia then r else Group(fetch, r, ts[0]), ts[1..]);
    }
  }

  lemma FillSourced(fetch: Sources, r: Outcome<Selection>, keys: seq<string>)
    requires r.Ok? ==> forall e :: e in r.value.final ==> Sourced(fetch, e.ticker)
    ensures var f := FillUp(fetch, r, keys); f.Ok? ==> forall e :: e in f.value.final ==> Sourced(fetch, e.ticker)
  {
    if r.Ok? && |r.value.final| < UniverseSize {
      PoolSourced(fetch, keys);
      var pool := Pool(fetch, keys);
      if pool.Ok? {
        var s := AddPicked(r.value, Fill, pool.value, UniverseSize - |r.value.final|);
        AddPickedSourced(fetch, r.value, Fill, pool.value, UniverseSize - |r.value.final|);
        assert FillUp(fetch, r, keys) == Ok(s);
      }
    }
  }

  /** Every ticker of the universe is from the Italian list or from one of
      the downloaded tables' symbol columns. */
  lemma SelectSourced(fetch: Sources)
    ensures var r := SelectUniverse(fetch); r.Ok? ==> forall e :: e in r.value ==> Sourced(fetch, e.ticker)
  {
    var italia := AddPicked(Selection({}, []), Italia, ItalyMi, 40);
    ItaliaSourced(fetch);
    RunTargetsSourced(fetch, Ok(italia), Targets);
    FilledSourced(fetch, RunTargets(fetch, Ok(italia), Targets));
  }

  lemma ItaliaSourced(fetch: Sources)
    ensures forall e :: e in AddPicked(Selection({}, []), Italia, ItalyMi, 40).final ==> Sourced(fetch, e.ticker)
  {
    assert forall x :: x in ItalyMi ==> Sourced(fetch, x);
    AddPickedSourced(fetch, Selection({}, []), Italia, ItalyMi, 40);
  }

  lemma FilledSourced(fetch: Sources, grouped: Outcome<Selection>)
    requires grouped.Ok? ==> forall e :: e in grouped.value.final ==> Sourced(fetch, e.ticker)
    ensures var f := FillUp(fetch, FillUp(fetch, grouped, FillFirst), FillSecond);
      f.Ok? ==> forall e :: e in Take(f.value.final, 1000) ==> Sourced(fetch, e.ticker)
  {
    var f1 := FillUp(fetch, grouped, FillFirst);
    FillSourced(fetch, grouped, FillFirst);
    FillSourced(fetch, f1, FillSecond);
    var f2 := FillUp(fetch, f1, FillSecond);
    if f2.Ok? {
      forall e | e in Take(f2.value.final, 1000) ensures Sourced(fetch, e.ticker) {
        TakeMember(f2.value.final, 1000, e);
      }
    }
  }

  /** The `targets` loop, written out for the fixed table (`ITALIA` skipped). */
  lemma RunTargetsUnrolled(fetch: Sources, r: Outcome<Selection>)
    ensures RunTargets(fetch, r, Targets)
         == Group(fetch, Group(fetch, Group(fetch, Group(fetch, r, Targets[0]), Targets[1]), Targets[3]), Targets[4])
  {
    var t := Targets;
    var r1 := Group(fetch, r, t[0]);
    var r2 := Group(fetch, r1, t[1]);
    var r3 := Group(fetch, r2, t[3]);
    var r4 := Group(fetch, r3, t[4]);
    assert t[1..][0] == t[1] && t[1..][1..] == t[2..];
    assert t[2..][0] == t[2] && t[2..][1..] == t[3..];
    assert t[3..][0] == t[3] && t[3..][1..] == t[4..];
    assert t[4..][0] == t[4] && t[4..][1..] == [];
    assert RunTargets(fetch, r4, []) == r4;
    assert RunTargets(fetch, r3, t[4..]) == r4;
    assert RunTargets(fetch, r2, t[3..]) == r4;
    assert RunTargets(fetch, r2, t[2..]) == r4;
    assert RunTargets(fetch, r1, t[1..]) == r4;
  }

  /** The selection after each stage, when no table was missing its column. */
  ghost predicate Stage(s: Selection, top: int, length: int)
  {
    Fresh(s) && Ranked(s.final, top) && WithinQuotas(s.final) && |s.final| <= length
  }

  lemma GroupStage(fetch: Sources, r: Outcome<Selection>, t: Target, top: int, length: int)
    requires r.Ok? ==> Stage(r.value, top, length)
    requires top < Rank(t.group) && t.quota >= 1
    requires t.group == "USA" ==> t.quota <= 550
    requires t.group == "EUROPA" ==> t.quota <= 200
    requires t.group == "HK" ==> t.quota <= 50
    requires t.group == "CINA" ==> t.quota <= 160
    requires t.group != Italia
    ensures Group(fetch, r, t).Ok? ==> r.Ok? && Stage(Group(fetch, r, t).value, Rank(t.group), length + t.quota)
  {
    var g := Group(fetch, r, t);
    if g.Ok? {
      var s := r.value;
      var pool := Pool(fetch, t.keys).value;
      PickShape(pool, t.quota, s.used);
      AddPickedFresh(s, t.group, pool, t.quota);
      AddPickedRanked(s, t.group, pool, t.quota, top);
      AddPickedCount(s, t.group, pool, t.quota, top, Italia);
      AddPickedCount(s, t.group, pool, t.quota, top, "USA");
      AddPickedCount(s, t.group, pool, t.quota, top, "EUROPA");
      AddPickedCount(s, t.group, pool, t.quota, top, "HK");
      AddPickedCount(s, t.group, pool, t.quota, top, "CINA");
    }
  }

  /** The fixed Italian list starts the universe. */
  lemma ItaliaStage()
    ensures Stage(AddPicked(Selection({}, []), Italia, ItalyMi, 40), 0, 40)
  {
    var s0 := Selection({}, []);
    assert Fresh(s0);
    PickShape(ItalyMi, 40, {});
    AddPickedFresh(s0, Italia, ItalyMi, 40);
    AddPickedRanked(s0, Italia, ItalyMi, 40, 0);
    AddPickedCount(s0, Italia, ItalyMi, 40, -1, Italia);
    AddPickedCount(s0, Italia, ItalyMi, 40, -1, "USA");
    AddPickedCount(s0, Italia, ItalyMi, 40, -1, "EUROPA");
    AddPickedCount(s0, Italia, ItalyMi, 40, -1, "HK");
    AddPickedCount(s0, Italia, ItalyMi, 40, -1, "CINA");
  }

  /** The four downloaded groups, appended after a selection of at most 40
      Italian tickers. */
  lemma TargetsStage(fetch: Sources, r: Outcome<Selection>)
    requires r.Ok? ==> Stage(r.value, 0, 40)
    ensures var g := RunTargets(fetch, r, Targets); g.Ok? ==> Stage(g.value, 4, 1000)
  {
    var usa := Target("USA", ["sp500", "nasdaq100", "dowjones"], 550);
    var europa := Target("EUROPA", ["ftse100", "dax"], 200);
    var hk := Target("HK", ["hsi"], 50);
    var cina := Target("CINA", ["csi300", "csi500", "csi1000"], 160);
    assert Targets[0] == usa && Targets[1] == europa && Targets[3] == hk && Targets[4] == cina;
    var r1 := Group(fetch, r, usa);
    GroupStage(fetch, r, usa, 0, 40);
    var r2 := Group(fetch, r1, europa);
    GroupStage(fetch, r1, europa, 1, 590);
    var r3 := Group(fetch, r2, hk);
    GroupStage(fetch, r2, hk, 2, 790);
    GroupStage(fetch, r3, cina, 3, 840);
    RunTargetsUnrolled(fetch, r);
  }

  /** After the Italian list and the four downloaded groups, at most 1000
      tickers are listed, distinct, in group order, each group within its quota. */
  lemma GroupedStage(fetch: Sources)
    ensures var italia := AddPicked(Selection({}, []), Italia, ItalyMi, 40);
      var grouped := RunTargets(fetch, Ok(italia), Targets);
      grouped.Ok? ==> Stage(grouped.value, 4, 1000)
  {
    ItaliaStage();
    TargetsStage(fetch, Ok(AddPicked(Selection({}, []), Italia, ItalyMi, 40)));
  }

  /** Entries tagged `FILL` count towards no named group's quota. */
  lemma FillKeepsQuotas(es: seq<Entry>, added: seq<string>)
    requires WithinQuotas(es)
    ensures WithinQuotas(es + Tag(Fill, added))
  {
    var more := Tag(Fill, added);
    CountAppend(es, more, Italia);
    CountTag(Fill, added, Italia);
    CountAppend(es, more, "USA");
    CountTag(Fill, added, "USA");
    CountAppend(es, more, "EUROPA");
    CountTag(Fill, added, "EUROPA");
    CountAppend(es, more, "HK");
    CountTag(Fill, added, "HK");
    CountAppend(es, more, "CINA");
    CountTag(Fill, added, "CINA");
  }

  lemma FillStage(fetch: Sources, r: Outcome<Selection>, keys: seq<string>, top: int)
    requires r.Ok? ==> Stage(r.value, top, 1000) && top <= 5
    ensures FillUp(fetch, r, keys).Ok? ==> r.Ok? && Stage(FillUp(fetch, r, keys).value, 5, 1000)
    ensures FillUp(fetch, r, keys).Ok? && |r.value.final| >= 1000 ==> FillUp(fetch, r, keys) == r
  {
    if r.Ok? && |r.value.final| < UniverseSize {
      FillUpShort(fetch, r.value, keys);
      if Pool(fetch, keys).Ok? {
        FillPickStage(r.value, Pool(fetch, keys).value, top);
      }
    }
  }

  /** Filling up to the target size keeps every stage property. */
  lemma FillPickStage(s: Selection, pool: seq<string>, top: int)
    requires Stage(s, top, 1000) && top <= 5 && |s.final| < UniverseSize
    ensures Stage(AddPicked(s, Fill, pool, UniverseSize - |s.final|), 5, 1000)
  {
    var n := UniverseSize - |s.final|;
    PickShape(pool, n, s.used);
    AddPickedFresh(s, Fill, pool, n);
    AddPickedRanked(s, Fill, pool, n, top);
    FillKeepsQuotas(s.final, PickFrom(pool, n, s.used));
    assert Rank(Fill) == 5;
  }

  /** The universe `main` writes: distinct tickers, groups in the order
      ITALIA, USA, EUROPA, HK, CINA, FILL, each named group within its quota,
      and at most 1000 entries, so the final `[:1000]` never cuts anything. */
  lemma SelectUniverseShape(fetch: Sources)
    ensures var r := SelectUniverse(fetch);
      r.Ok? ==> Distinct(Tickers(r.value)) && |r.value| <= 1000 && Ranked(r.value, 5) && WithinQuotas(r.value)
    ensures var italia := AddPicked(Selection({}, []), Italia, ItalyMi, 40);
      var grouped := RunTargets(fetch, Ok(italia), Targets);
      var filled := FillUp(fetch, FillUp(fetch, grouped, FillFirst), FillSecond);
      filled.Ok? ==> |filled.value.final| <= 1000 && SelectUniverse(fetch) == Ok(filled.value.final)
  {
    var italia := AddPicked(Selection({}, []), Italia, ItalyMi, 40);
    var grouped := RunTargets(fetch, Ok(italia), Targets);
    GroupedStage(fetch);
    var f1 := FillUp(fetch, grouped, FillFirst);
    FillStage(fetch, grouped, FillFirst, 4);
    var f2 := FillUp(fetch, f1, FillSecond);
    FillStage(fetch, f1, FillSecond, 5);
    if f2.Ok? {
      assert Take(f2.value.final, 1000) == f2.value.final;
    }
  }

  lemma FullSkipsFill(fetch: Sources, grouped: Outcome<Selection>)
    requires grouped.Ok? ==> Stage(grouped.value, 4, 1000)
    ensures grouped.Ok? && |grouped.value.final| >= 1000 ==>
      && FillUp(fetch, FillUp(fetch, grouped, FillFirst), FillSecond) == grouped
      && Take(grouped.value.final, 1000) == grouped.value.final
      && Count(grouped.value.final, Fill) == 0
  {
    if grouped.Ok? && |grouped.value.final| >= 1000 {
      var es := grouped.value.final;
      assert forall e :: e in es ==> e.group != Fill by {
        forall e | e in es ensures e.group != Fill {
          assert Rank(e.group) <= 4;
        }
      }
      CountAbsent(es, Fill);
    }
  }

  /** No top-up happens when the groups already reached 1000 tickers. */
  lemma NoFillWhenFull(fetch: Sources)
    ensures var italia := AddPicked(Selection({}, []), Italia, ItalyMi, 40);
      var grouped := RunTargets(fetch, Ok(italia), Targets);
      grouped.Ok? && |grouped.value.final| >= 1000 ==>
        SelectUniverse(fetch) == Ok(grouped.value.final) && Count(grouped.value.final, Fill) == 0
  {
    GroupedStage(fetch);
    FullSkipsFill(fetch, RunTargets(fetch, Ok(AddPicked(Selection({}, []), Italia, ItalyMi, 40)), Targets));
  }

  // ---------------------------------------------------------------------------
  // The imperative run of main
  // ---------------------------------------------------------------------------

  /** One more table read: its symbols extend the pool. */
  lemma PoolSnoc(fetch: Sources, keys: seq<string>, i: nat, pool: seq<string>)
    requires i < |keys| && Pool(fetch, keys[..i]) == Ok(pool)
    requires ReadSymbols(fetch(keys[i])).Ok?
    ensures Pool(fetch, keys[..i + 1]) == Ok(pool + ReadSymbols(fetch(keys[i])).value)
  {
    var s := keys[..i + 1];
    assert s[..|s| - 1] == keys[..i] && s[|s| - 1] == keys[i];
    assert Pool(fetch, s) == Ok(Pool(fetch, keys[..i]).value + ReadSymbols(fetch(keys[i])).value);
  }

  /** A table without a symbol column makes the whole pool fail. */
  lemma PoolMissingAt(fetch: Sources, keys: seq<string>, i: nat)
    requires i < |keys| && ReadSymbols(fetch(keys[i])).MissingColumn?
    ensures Pool(fetch, keys).MissingColumn?
  {
    PoolFails(fetch, keys);
    assert keys[i] in keys;
  }

  /** `for k in keys: pool.extend(read_symbols(SOURCES[k]))`. */
  method BuildPool(fetch: Sources, keys: seq<string>) returns (r: Outcome<seq<string>>)
    ensures r == Pool(fetch, keys)
  {
    var pool: seq<string> := [];
    var i := 0;
    while i < |keys|
      invariant 0 <= i <= |keys|
      invariant Pool(fetch, keys[..i]) == Ok(pool)
    {
      var symbols := ReadSymbols(fetch(keys[i]));
      if symbols.MissingColumn? {
        PoolMissingAt(fetch, keys, i);
        return MissingColumn;
      }
      PoolSnoc(fetch, keys, i, pool);
      pool := pool + symbols.value;
      i := i + 1;
    }
    assert keys[..i] == keys;
    r := Ok(pool);
  }

  lemma {:induction false} RunTargetsMissing(fetch: Sources, ts: seq<Target>)
    ensures RunTargets(fetch, MissingColumn, ts) == MissingColumn
    decreases |ts|
  {
    if ts != [] {
      RunTargetsMissing(fetch, ts[1..]);
    }
  }

  /** The loop of `take_unique`: walks `items`, picks each one not yet seen
      and marks it seen, and stops once `n` are picked. */
  method PickUnique(items: seq<string>, n: int, used: set<string>) returns (picked: seq<string>, seen: set<string>)
    ensures picked == PickFrom(items, n, used)
    ensures seen == used + Elems(picked)
  {
    ghost var total := PickFrom(items, n, used);
    picked := [];
    seen := used;
    var i := 0;
    while i < |items|
      invariant 0 <= i <= |items|
      invariant seen == used + Elems(picked)
      invariant total == picked + PickFrom(items[i..], n - |picked|, seen)
      invariant i > 0 ==> |picked| < n
    {
      var x := items[i];
      PickAdvance(items, i, n, seen, picked, total);
      if x !in seen {
        ElemsSnoc(picked, x);
        seen := seen + {x};
        picked := picked + [x];
      }
      if |picked| >= n {
        break;
      }
      i := i + 1;
    }
    if i == |items| {
      PickEnd(items, n - |picked|, seen, picked, total);
    }
  }

  /** The shared state of `main`: the `used` set every `take_unique` call
      updates and the `final` list of `(group, ticker)` pairs. */
  class UniverseState {
    var used: set<string>
    var final: seq<Entry>

    constructor ()
      ensures used == {} && final == []
    {
      used := {};
      final := [];
    }

    function Snapshot(): Selection
      reads this
    {
      Selection(used, final)
    }

    /** `take_unique(items, n, used)`: the picks of the walk, with every
        pick added to the shared `used` set. */
    method TakeUnique(items: seq<string>, n: int) returns (picked: seq<string>)
      modifies this
      ensures picked == PickFrom(items, n, old(used))
      ensures used == old(used) + Elems(picked) && final == old(final)
    {
      var seen;
      picked, seen := PickUnique(items, n, used);
      used := seen;
    }

    /** `for t in picked: final.append((group, t))`. */
    method AppendTagged(name: string, picked: seq<string>)
      modifies this
      ensures final == old(final) + Tag(name, picked) && used == old(used)
    {
      var j := 0;
      while j < |picked|
        invariant 0 <= j <= |picked|
        invariant final == old(final) + Tag(name, picked[..j]) && used == old(used)
      {
        assert Tag(name, picked[..j + 1]) == Tag(name, picked[..j]) + [Entry(name, picked[j])];
        final := final + [Entry(name, picked[j])];
        j := j + 1;
      }
      assert picked[..j] == picked;
    }

    /** One group: pick from the pool under the shared `used` set, then list the picks. */
    method AddGroup(name: string, pool: seq<string>, n: int)
      modifies this
      ensures Snapshot() == AddPicked(old(Snapshot()), name, pool, n)
    {
      var picked := TakeUnique(pool, n);
      AppendTagged(name, picked);
    }

    /** `fill_from(keys, want, label)`: false when a table lacks its symbol column. */
    method FillFrom(fetch: Sources, keys: seq<string>, want: int, name: string) returns (ok: bool)
      modifies this
      ensures ok == Pool(fetch, keys).Ok?
      ensures ok ==> Snapshot() == AddPicked(old(Snapshot()), name, Pool(fetch, keys).value, want)
    {
      var pool := BuildPool(fetch, keys);
      if pool.MissingColumn? {
        return false;
      }
      AddGroup(name, pool.value, want);
      ok := true;
    }

    /** The `targets` loop of `main`: each group but `ITALIA` picks from its
        pool; false when `read_symbols` raised. */
    method RunGroups(fetch: Sources, ts: seq<Target>) returns (ok: bool)
      modifies this
      ensures ok == RunTargets(fetch, Ok(old(Snapshot())), ts).Ok?
      ensures ok ==> Snapshot() == RunTargets(fetch, Ok(old(Snapshot())), ts).value
    {
      ghost var goal := RunTargets(fetch, Ok(Snapshot()), ts);
      var i := 0;
      while i < |ts|
        invariant 0 <= i <= |ts|
        invariant RunTargets(fetch, Ok(Snapshot()), ts[i..]) == goal
      {
        var t := ts[i];
        assert ts[i..][1..] == ts[i + 1..];
        if t.group == Italia {
          i := i + 1;
          continue;
        }
        var pool := BuildPool(fetch, t.keys);
        if pool.MissingColumn? {
          RunTargetsMissing(fetch, ts[i + 1..]);
          return false;
        }
        AddGroup(t.group, pool.value, t.quota);
        i := i + 1;
      }
      ok := true;
    }

    /** `if len(final) < 1000: fill_from(keys, 1000 - len(final), "FILL")`. */
    method FillStep(fetch: Sources, keys: seq<string>) returns (ok: bool)
      modifies this
      ensures ok == FillUp(fetch, Ok(old(Snapshot())), keys).Ok?
      ensures ok ==> Snapshot() == FillUp(fetch, Ok(old(Snapshot())), keys).value
    {
      if |final| >= UniverseSize {
        return true;
      }
      FillUpShort(fetch, Snapshot(), keys);
      ok := FillFrom(fetch, keys, UniverseSize - |final|, Fill);
    }

    /** The rest of `main` after the Italian picks. */
    method Complete(fetch: Sources, ts: seq<Target>) returns (ok: bool)
      modifies this
      ensures ok == Completed(fetch, old(Snapshot()), ts).Ok?
      ensures ok ==> final == Completed(fetch, old(Snapshot()), ts).value
    {
      ok := RunGroups(fetch, ts);
      if !ok {
        return;
      }
      ok := FillStep(fetch, FillFirst);
      if !ok {
        return;
      }
      ok := FillStep(fetch, FillSecond);
      if !ok {
        return;
      }
      final := Take(final, 1000);
    }

    /** `main` up to `final = final[:1000]`: false when `read_symbols` raised. */
    method Build(fetch: Sources) returns (ok: bool)
      modifies this
      ensures ok == SelectUniverse(fetch).Ok?
      ensures ok ==> final == SelectUniverse(fetch).value
    {
      used := {};
      final := [];
      AddGroup(Italia, ItalyMi, 40);
      ok := Complete(fetch, Targets);
    }
  }
}

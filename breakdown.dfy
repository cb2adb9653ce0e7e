// The expense breakdown behind the pie chart and its legend: the expense
// records folded into a category -> sum dictionary, its entries in the
// dictionary's key order, then sorted by non-increasing amount.

module Breakdown {
  import opened Transactions
  import Summary

  datatype Entry = Entry(category: string, total: real)

  // ---------------------------------------------------------------- specification

  /** The sum of the amounts of the expense records of category `c`, added
      in list order as the reduce visits them. */
  function CategoryTotal(s: seq<Tx>, c: string): real
  {
    if s == [] then 0.0
    else
      var t := s[|s| - 1];
      CategoryTotal(s[..|s| - 1], c) + (if t.kind == Expense && t.category == c then t.amount else 0.0)
  }

  /** The categories of the expense records. */
  function ExpenseCategories(s: seq<Tx>): set<string>
  {
    set i | 0 <= i < |s| && s[i].kind == Expense :: s[i].category
  }

  /** The order in which the dictionary first receives each category: the
      property order `Object.entries` reports, naming no category twice. */
  function KeyOrder(s: seq<Tx>): (r: seq<string>)
    ensures Distinct(r)
  {
    if s == [] then []
    else
      var keys := KeyOrder(s[..|s| - 1]);
      var t := s[|s| - 1];
      if t.kind == Expense && t.category !in keys then keys + [t.category] else keys
  }

  predicate Distinct(keys: seq<string>)
  {
    forall i, j :: 0 <= i < j < |keys| ==> keys[i] != keys[j]
  }

  predicate DistinctCategories(es: seq<Entry>)
  {
    forall i, j :: 0 <= i < j < |es| ==> es[i].category != es[j].category
  }

  /** The order the comparator `(a, b) => b[1] - a[1]` asks for. */
  predicate NonIncreasing(es: seq<Entry>)
  {
    forall i, j :: 0 <= i < j < |es| ==> es[i].total >= es[j].total
  }

  /** `entries.reduce((s, e) => s + e[1], 0)` */
  function SumTotals(es: seq<Entry>): real
  {
    if es == [] then 0.0 else es[0].total + SumTotals(es[1..])
  }

  // ---------------------------------------------------------------- key order

  lemma CategoriesStep(s: seq<Tx>)
    requires s != []
    ensures var t := s[|s| - 1];
      ExpenseCategories(s) == ExpenseCategories(s[..|s| - 1]) + (if t.kind == Expense then {t.category} else {})
  {
  }

  /** The key order lists each expense category exactly once, and a category
      that is not listed has total zero. */
  lemma {:induction false} KeyOrderFacts(s: seq<Tx>)
    ensures Distinct(KeyOrder(s))
    ensures forall c :: c in KeyOrder(s) <==> c in ExpenseCategories(s)
    ensures forall c :: c !in KeyOrder(s) ==> CategoryTotal(s, c) == 0.0
  {
    if s != [] {
      KeyOrderFacts(s[..|s| - 1]);
      CategoriesStep(s);
    }
  }

  /** The sum of the category totals over a list of distinct keys. */
  function KeyedSum(keys: seq<string>, s: seq<Tx>): real
  {
    if keys == [] then 0.0 else KeyedSum(keys[..|keys| - 1], s) + CategoryTotal(s, keys[|keys| - 1])
  }

  /** Appending one record adds its amount to the keyed sum exactly when it is
      an expense whose category is one of the keys. */
  lemma {:induction false} KeyedSumStep(keys: seq<string>, p: seq<Tx>, t: Tx)
    requires Distinct(keys)
    ensures KeyedSum(keys, p + [t]) ==
      KeyedSum(keys, p) + (if t.kind == Expense && t.category in keys then t.amount else 0.0)
  {
    var s := p + [t];
    assert s[..|s| - 1] == p;
    if keys != [] {
      var init := keys[..|keys| - 1];
      KeyedSumStep(init, p, t);
      assert keys == init + [keys[|keys| - 1]];
    }
  }

  /** Summing the category totals over the key order gives the expense total:
      grouping neither loses nor double-counts an expense. */
  lemma {:induction false} KeyedSumIsExpense(s: seq<Tx>)
    ensures KeyedSum(KeyOrder(s), s) == Summary.KindSum(s, Expense)
  {
    if s != [] {
      var p := s[..|s| - 1];
      var t := s[|s| - 1];
      assert s == p + [t];
      KeyedSumIsExpense(p);
      KeyOrderFacts(p);
      KeyedSumStep(KeyOrder(p), p, t);
      Summary.KindSumAppend(p, [t], Expense);
      assert [t][1..] == [];
      if t.kind == Expense && t.category !in KeyOrder(p) {
        var keys := KeyOrder(p) + [t.category];
        assert keys[..|keys| - 1] == KeyOrder(p);
      }
    }
  }

  // ---------------------------------------------------------------- entries

  /** `Object.entries(byCat)`: one entry per key, in key order. */
  function Entries(keys: seq<string>, byCat: map<string, real>): (es: seq<Entry>)
    requires forall k :: k in keys ==> k in byCat
    ensures |es| == |keys|
    ensures forall i :: 0 <= i < |es| ==> es[i] == Entry(keys[i], byCat[keys[i]])
    ensures forall e :: e in es <==> e.category in keys && e.total == byCat[e.category]
    ensures Distinct(keys) ==> DistinctCategories(es)
  {
    seq(|keys|, i requires 0 <= i < |keys| => Entry(keys[i], byCat[keys[i]]))
  }

  lemma {:induction false} SumTotalsAppend(a: seq<Entry>, b: seq<Entry>)
    ensures SumTotals(a + b) == SumTotals(a) + SumTotals(b)
  {
    if a == [] {
      assert a + b == b;
    } else {
      SumTotalsAppend(a[1..], b);
      assert (a + b)[1..] == a[1..] + b;
    }
  }

  lemma EntriesSnoc(keys: seq<string>, byCat: map<string, real>)
    requires keys != [] && forall k :: k in keys ==> k in byCat
    ensures var k := keys[|keys| - 1];
      Entries(keys, byCat) == Entries(keys[..|keys| - 1], byCat) + [Entry(k, byCat[k])]
  {
    var init := keys[..|keys| - 1];
    var k := keys[|keys| - 1];
    var es := Entries(keys, byCat);
    var rs := Entries(init, byCat) + [Entry(k, byCat[k])];
    assert |es| == |rs|;
    forall i | 0 <= i < |es| ensures es[i] == rs[i] {
      if i < |init| {
        assert keys[i] == init[i];
      }
    }
  }

  lemma {:induction false} EntriesSum(keys: seq<string>, byCat: map<string, real>, s: seq<Tx>)
    requires forall k :: k in keys ==> k in byCat && byCat[k] == CategoryTotal(s, k)
    ensures SumTotals(Entries(keys, byCat)) == KeyedSum(keys, s)
  {
    if keys != [] {
      var init := keys[..|keys| - 1];
      var k := keys[|keys| - 1];
      EntriesSum(init, byCat, s);
      EntriesSnoc(keys, byCat);
      SumTotalsAppend(Entries(init, byCat), [Entry(k, byCat[k])]);
    }
  }

  // ---------------------------------------------------------------- sorting

  /** Inserts `e` before the first entry whose amount does not exceed its
      own, so equal amounts keep their earlier order. */
  function Insert(e: Entry, s: seq<Entry>): (r: seq<Entry>)
    ensures multiset(r) == multiset(s) + multiset{e}
  {
    if s == [] || s[0].total <= e.total then [e] + s
    else
      assert s == [s[0]] + s[1..];
      [s[0]] + Insert(e, s[1..])
  }

  /** `entries.sort((a, b) => b[1] - a[1])`, a stable sort by non-increasing
      amount: a permutation of its input whose amounts do not increase. */
  function SortByAmount(es: seq<Entry>): (r: seq<Entry>)
    ensures multiset(r) == multiset(es)
    ensures NonIncreasing(r)
  {
    if es == [] then []
    else
      var rest := SortByAmount(es[1..]);
      InsertSorted(es[0], rest);
      assert es == [es[0]] + es[1..];
      Insert(es[0], rest)
  }

  lemma ConsSorted(x: Entry, t: seq<Entry>)
    requires NonIncreasing(t) && forall y :: y in t ==> y.total <= x.total
    ensures NonIncreasing([x] + t)
  {
  }

  lemma ConsDistinct(x: Entry, t: seq<Entry>)
    requires DistinctCategories(t) && forall y :: y in t ==> y.category != x.category
    ensures DistinctCategories([x] + t)
  {
  }

  /** Insertion adds exactly one entry, `e`, and its amount to the total. */
  lemma {:induction false} InsertPerm(e: Entry, s: seq<Entry>)
    ensures multiset(Insert(e, s)) == multiset(s) + multiset{e}
    ensures SumTotals(Insert(e, s)) == e.total + SumTotals(s)
    ensures forall x :: x in Insert(e, s) <==> x == e || x in s
  {
    if s == [] || s[0].total <= e.total {
      assert ([e] + s)[1..] == s;
    } else {
      var tail := Insert(e, s[1..]);
      InsertPerm(e, s[1..]);
      assert s == [s[0]] + s[1..];
      assert ([s[0]] + tail)[1..] == tail;
    }
    var r := Insert(e, s);
    forall x ensures x in r <==> x == e || x in s {
      assert x in r <==> x in multiset(r);
      assert x in s <==> x in multiset(s);
    }
  }

  lemma {:induction false} InsertSorted(e: Entry, s: seq<Entry>)
    requires NonIncreasing(s)
    ensures NonIncreasing(Insert(e, s))
  {
    if s == [] || s[0].total <= e.total {
      forall y | y in s ensures y.total <= e.total {
        var k :| 0 <= k < |s| && s[k] == y;
      }
      ConsSorted(e, s);
    } else {
      var tail := Insert(e, s[1..]);
      assert NonIncreasing(s[1..]);
      InsertSorted(e, s[1..]);
      InsertPerm(e, s[1..]);
      forall y | y in tail ensures y.total <= s[0].total {
        if y != e {
          var k :| 0 <= k < |s[1..]| && s[1..][k] == y;
          assert s[k + 1] == y;
        }
      }
      ConsSorted(s[0], tail);
    }
  }

  lemma {:induction false} InsertDistinct(e: Entry, s: seq<Entry>)
    requires DistinctCategories(s) && forall x :: x in s ==> x.category != e.category
    ensures DistinctCategories(Insert(e, s))
  {
    if s == [] || s[0].total <= e.total {
      ConsDistinct(e, s);
    } else {
      var tail := Insert(e, s[1..]);
      assert DistinctCategories(s[1..]);
      InsertDistinct(e, s[1..]);
      InsertPerm(e, s[1..]);
      forall y | y in tail ensures y.category != s[0].category {
        if y != e {
          var k :| 0 <= k < |s[1..]| && s[1..][k] == y;
          assert s[k + 1] == y;
        }
      }
      ConsDistinct(s[0], tail);
    }
  }

  /** The sort returns a permutation of its input with the same grand total. */
  lemma {:induction false} SortPerm(es: seq<Entry>)
    ensures multiset(SortByAmount(es)) == multiset(es)
    ensures SumTotals(SortByAmount(es)) == SumTotals(es)
  {
    if es != [] {
      SortPerm(es[1..]);
      InsertPerm(es[0], SortByAmount(es[1..]));
      assert es == [es[0]] + es[1..];
    }
  }

  /** Sorting cannot make two entries share a category. */
  lemma {:induction false} SortDistinct(es: seq<Entry>)
    requires DistinctCategories(es)
    ensures DistinctCategories(SortByAmount(es))
  {
    if es != [] {
      var rest := SortByAmount(es[1..]);
      assert DistinctCategories(es[1..]);
      SortDistinct(es[1..]);
      SortPerm(es[1..]);
      forall x | x in rest ensures x.category != es[0].category {
        assert x in multiset(es[1..]);
        var k :| 0 <= k < |es[1..]| && es[1..][k] == x;
        assert es[k + 1] == x;
      }
      InsertDistinct(es[0], rest);
    }
  }

  // ---------------------------------------------------------------- the fold

  /** The reduce of `drawPie` over the expense records, with a dictionary that
      holds only the categories it was given (see `GroupAsWritten` for the
      plain-object accumulator of the page). Also returns the dictionary's
      key order. */
  method GroupByCategory(txs: seq<Tx>) returns (byCat: map<string, real>, keys: seq<string>)
    ensures keys == KeyOrder(txs)
    ensures byCat.Keys == ExpenseCategories(txs)
    ensures forall c :: c in byCat ==> byCat[c] == CategoryTotal(txs, c)
  {
    byCat, keys := map[], [];
    for i := 0 to |txs|
      invariant keys == KeyOrder(txs[..i])
      invariant byCat.Keys == ExpenseCategories(txs[..i])
      invariant forall c :: c in byCat ==> byCat[c] == CategoryTotal(txs[..i], c)
    {
      var t := txs[i];
      ghost var seen := txs[..i];
      assert txs[..i + 1][..i] == seen && txs[..i + 1][i] == t;
      KeyOrderFacts(seen);
      CategoriesStep(txs[..i + 1]);
      if t.kind == Expense {
        var sum := if t.category in byCat then byCat[t.category] else 0.0;
        if t.category !in byCat {
          keys := keys + [t.category];
        }
        byCat := byCat[t.category := sum + t.amount];
      }
    }
    assert txs[..|txs|] == txs;
  }

  /** What `drawPie` derives from the list: the dictionary and its entries
      sorted for the slices and the legend. Every entry is one category with
      its sum, each category appears once, the amounts do not increase, they
      add up to the expense total, and there are no entries (the "No expense
      data" placeholder) exactly when there is no expense record. */
  method ExpenseBreakdown(txs: seq<Tx>) returns (byCat: map<string, real>, entries: seq<Entry>)
    ensures byCat.Keys == ExpenseCategories(txs)
    ensures forall c :: c in byCat ==> byCat[c] == CategoryTotal(txs, c)
    ensures forall e :: e in entries <==> e.category in byCat && e.total == byCat[e.category]
    ensures DistinctCategories(entries)
    ensures NonIncreasing(entries)
    ensures SumTotals(entries) == Summary.ExpenseTotal(txs)
    ensures entries == [] <==> Summary.OfKind(txs, Expense) == []
  {
    var keys;
    byCat, keys := GroupByCategory(txs);
    KeyOrderFacts(txs);
    var unsorted := Entries(keys, byCat);
    entries := SortByAmount(unsorted);
    SortPerm(unsorted);
    SortDistinct(unsorted);
    SameMembers(entries, unsorted);
    EntriesSum(keys, byCat, txs);
    KeyedSumIsExpense(txs);
    Summary.FilterReduceIsKindSum(txs, Expense);
    NoEntriesIffNoExpense(txs, byCat, entries);
  }

  lemma SameMembers(a: seq<Entry>, b: seq<Entry>)
    requires multiset(a) == multiset(b)
    ensures forall e :: e in a <==> e in b
  {
    forall e: Entry ensures e in a <==> e in b {
      assert e in a <==> e in multiset(a);
      assert e in b <==> e in multiset(b);
    }
  }

  lemma NoEntriesIffNoExpense(txs: seq<Tx>, byCat: map<string, real>, entries: seq<Entry>)
    requires byCat.Keys == ExpenseCategories(txs)
    requires forall e :: e in entries <==> e.category in byCat && e.total == byCat[e.category]
    ensures entries == [] <==> Summary.OfKind(txs, Expense) == []
  {
    Summary.OfKindEmpty(txs, Expense);
    if entries != [] {
      assert entries[0] in entries;
      var i :| 0 <= i < |txs| && txs[i].kind == Expense && txs[i].category == entries[0].category;
    }
    if Summary.OfKind(txs, Expense) != [] {
      var i :| 0 <= i < |txs| && txs[i].kind == Expense;
      var c := txs[i].category;
      assert c in ExpenseCategories(txs);
      assert Entry(c, byCat[c]) in entries;
    }
  }

  // ---------------------------------------------------------------- as written

  /** The members a plain `{}` inherits from `Object.prototype`. */
  const InheritedNames: set<string> := {
    "constructor", "hasOwnProperty", "isPrototypeOf", "propertyIsEnumerable",
    "toLocaleString", "toString", "valueOf", "__defineGetter__", "__defineSetter__",
    "__lookupGetter__", "__lookupSetter__", "__proto__" }

  /** A property value of the accumulator: a number, or the string that `+`
      produces when its left operand is an inherited function or object. */
  datatype Slot = Number(value: real) | Text

  /** `acc[c] || 0`: an own value, else an inherited member (truthy), else 0. */
  function ReadSlot(acc: map<string, Slot>, c: string): Slot
  {
    if c in acc then acc[c] else if c in InheritedNames then Text else Number(0.0)
  }

  /** `x + t.amount`: numeric addition on a number, concatenation otherwise. */
  function AddAmount(x: Slot, amount: real): Slot
  {
    match x
    case Number(v) => Number(v + amount)
    case Text => Text
  }

  /** The reduce exactly as the page runs it, on the accumulator `{}`.
      Assigning a string to `__proto__` is silently ignored, so that key is
      never an own property; every own property is an expense category. */
  function GroupAsWritten(s: seq<Tx>): (r: map<string, Slot>)
    ensures forall c :: c in r ==> c in ExpenseCategories(s) && c != "__proto__"
  {
    if s == [] then map[]
    else
      var acc := GroupAsWritten(s[..|s| - 1]);
      var t := s[|s| - 1];
      CategoriesStep(s);
      if t.kind != Expense || t.category == "__proto__" then acc
      else acc[t.category := AddAmount(ReadSlot(acc, t.category), t.amount)]
  }

  /** While no expense category names an inherited member, the page's
      reduce computes exactly the category sums. */
  lemma {:induction false} AsWrittenAgreesOtherwise(s: seq<Tx>)
    requires forall i :: 0 <= i < |s| && s[i].kind == Expense ==> s[i].category !in InheritedNames
    ensures forall c :: c in GroupAsWritten(s) <==> c in ExpenseCategories(s)
    ensures forall c :: c in GroupAsWritten(s) ==> GroupAsWritten(s)[c] == Number(CategoryTotal(s, c))
  {
    if s != [] {
      var p := s[..|s| - 1];
      assert forall i :: 0 <= i < |p| ==> p[i] == s[i];
      AsWrittenAgreesOtherwise(p);
      CategoriesStep(s);
      KeyOrderFacts(p);
    }
  }

  /** A single expense of 5 in the category "toString": the chart receives a
      string where the sum 5 belongs. */
  lemma InheritedNameCorrupts(id: string, date: string, note: string)
    ensures var s := [Tx(id, Expense, "toString", 5.0, date, note)];
      GroupAsWritten(s)["toString"] == Text && CategoryTotal(s, "toString") == 5.0
  {
  }

  /** A single expense in the category "__proto__" never reaches the chart. */
  lemma ProtoCategoryDropped(id: string, date: string, note: string)
    ensures var s := [Tx(id, Expense, "__proto__", 5.0, date, note)];
      "__proto__" !in GroupAsWritten(s) && "__proto__" in ExpenseCategories(s)
  {
  }
}

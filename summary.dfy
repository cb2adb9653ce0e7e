// The totals `render` shows: income, expense, balance and savings.

module Summary {
  import opened Transactions

  /** `txs.filter(t => t.type === kind)` */
  function OfKind(s: seq<Tx>, kind: TxKind): (r: seq<Tx>)
    ensures |r| <= |s|
    ensures forall i :: 0 <= i < |r| ==> r[i].kind == kind && r[i] in s
    ensures forall i :: 0 <= i < |s| && s[i].kind == kind ==> s[i] in r
  {
    if s == [] then []
    else if s[0].kind == kind then [s[0]] + OfKind(s[1..], kind)
    else OfKind(s[1..], kind)
  }

  /** The filter comes back empty exactly when no record has that kind. */
  lemma {:induction false} OfKindEmpty(s: seq<Tx>, kind: TxKind)
    ensures OfKind(s, kind) == [] <==> forall i :: 0 <= i < |s| ==> s[i].kind != kind
  {
    if s != [] {
      OfKindEmpty(s[1..], kind);
      assert forall i :: 1 <= i < |s| ==> s[i] == s[1..][i - 1];
    }
  }

  /** Filtering keeps the order: the filter of a concatenation is the
      concatenation of the filters. */
  lemma {:induction false} OfKindAppend(a: seq<Tx>, b: seq<Tx>, kind: TxKind)
    ensures OfKind(a + b, kind) == OfKind(a, kind) + OfKind(b, kind)
  {
    if a == [] {
      assert a + b == b;
    } else {
      var ab := a + b;
      assert ab[0] == a[0];
      assert ab[1..] == a[1..] + b;
      OfKindAppend(a[1..], b, kind);
    }
  }

  /** `.reduce((s, t) => s + t.amount, 0)`, adding from the left; with
      positive amounts it is never negative. */
  function Total(s: seq<Tx>): (r: real)
    ensures AllPositive(s) ==> r >= 0.0
  {
    if s == [] then 0.0 else Total(s[..|s| - 1]) + s[|s| - 1].amount
  }

  /** The income figure: the amounts of exactly the income records. */
  function IncomeTotal(s: seq<Tx>): (r: real)
    ensures r == KindSum(s, Income)
  {
    FilterReduceIsKindSum(s, Income);
    Total(OfKind(s, Income))
  }

  /** The expense figure: the amounts of exactly the expense records. */
  function ExpenseTotal(s: seq<Tx>): (r: real)
    ensures r == KindSum(s, Expense)
  {
    FilterReduceIsKindSum(s, Expense);
    Total(OfKind(s, Expense))
  }

  function Max(a: real, b: real): real
  {
    if a >= b then a else b
  }

  datatype Totals = Totals(income: real, expense: real, balance: real, savings: real)

  /** The four figures of the summary panel. */
  function Summarize(s: seq<Tx>): (r: Totals)
    ensures r.balance == r.income - r.expense
    ensures r.savings >= 0.0 && r.savings >= r.balance
    ensures r.savings == 0.0 || r.savings == r.balance
  {
    var income := IncomeTotal(s);
    var expense := ExpenseTotal(s);
    var balance := income - expense;
    Totals(income, expense, balance, Max(0.0, balance))
  }

  // ---------------------------------------------------------------- reference sums

  /** What a record contributes to the total of records of `kind`. */
  function Share(t: Tx, kind: TxKind): real
  {
    if t.kind == kind then t.amount else 0.0
  }

  /** A reference definition: each record adds its amount to its own kind only. */
  function KindSum(s: seq<Tx>, kind: TxKind): real
  {
    if s == [] then 0.0 else Share(s[0], kind) + KindSum(s[1..], kind)
  }

  /** The amount as the list shows it: `+` for income, `-` for expense. */
  function Signed(t: Tx): real
  {
    if t.kind == Expense then -t.amount else t.amount
  }

  function SignedSum(s: seq<Tx>): real
  {
    if s == [] then 0.0 else Signed(s[0]) + SignedSum(s[1..])
  }

  lemma {:induction false} TotalAppend(a: seq<Tx>, b: seq<Tx>)
    ensures Total(a + b) == Total(a) + Total(b)
  {
    if b == [] {
      assert a + b == a;
    } else {
      TotalAppend(a, b[..|b| - 1]);
      assert (a + b)[..|a + b| - 1] == a + b[..|b| - 1];
    }
  }

  /** The left-to-right reduce over the filtered list adds up exactly the
      amounts of the records of that kind. */
  lemma {:induction false} FilterReduceIsKindSum(s: seq<Tx>, kind: TxKind)
    ensures Total(OfKind(s, kind)) == KindSum(s, kind)
  {
    if s != [] {
      FilterReduceIsKindSum(s[1..], kind);
      if s[0].kind == kind {
        TotalAppend([s[0]], OfKind(s[1..], kind));
        assert Total([s[0]]) == s[0].amount by {
          assert [s[0]][..0] == [];
        }
      }
    }
  }

  /** Only income records move the income total and only expense records the
      expense total; the balance is the signed sum of all records. */
  lemma {:induction false} BalanceIsSignedSum(s: seq<Tx>)
    ensures IncomeTotal(s) == KindSum(s, Income)
    ensures ExpenseTotal(s) == KindSum(s, Expense)
    ensures Summarize(s).balance == SignedSum(s)
  {
    FilterReduceIsKindSum(s, Income);
    FilterReduceIsKindSum(s, Expense);
    SignedSplit(s);
  }

  lemma {:induction false} SignedSplit(s: seq<Tx>)
    ensures SignedSum(s) == KindSum(s, Income) - KindSum(s, Expense)
  {
    if s != [] {
      SignedSplit(s[1..]);
    }
  }

  /** Prepending a record (what a valid submit does) adds its amount to the
      total of its own kind and leaves the other total alone. */
  lemma PrependTotals(t: Tx, s: seq<Tx>)
    ensures IncomeTotal([t] + s) == Share(t, Income) + IncomeTotal(s)
    ensures ExpenseTotal([t] + s) == Share(t, Expense) + ExpenseTotal(s)
  {
    assert ([t] + s)[1..] == s;
    BalanceIsSignedSum([t] + s);
    BalanceIsSignedSum(s);
  }

  /** With positive amounts both totals are non-negative, and a total is
      positive exactly when a record of that kind exists. */
  lemma {:induction false} TotalsOfPositive(s: seq<Tx>, kind: TxKind)
    requires AllPositive(s)
    ensures KindSum(s, kind) >= 0.0
    ensures KindSum(s, kind) > 0.0 <==> exists i :: 0 <= i < |s| && s[i].kind == kind
  {
    if s != [] {
      assert AllPositive(s[1..]) by {
        forall i | 0 <= i < |s| - 1 ensures s[1..][i].amount > 0.0 {
          assert s[1..][i] == s[i + 1];
        }
      }
      TotalsOfPositive(s[1..], kind);
      if exists i :: 0 <= i < |s[1..]| && s[1..][i].kind == kind {
        var i :| 0 <= i < |s[1..]| && s[1..][i].kind == kind;
        assert s[i + 1].kind == kind;
      }
      if exists i :: 0 <= i < |s| && s[i].kind == kind {
        var i :| 0 <= i < |s| && s[i].kind == kind;
        if i > 0 {
          assert s[1..][i - 1].kind == kind;
        }
      }
    }
  }

  /** Deleting with unique ids takes the removed record's amount off its own total. */
  lemma DeleteTotals(s: seq<Tx>, k: nat)
    requires UniqueIds(s) && k < |s|
    ensures IncomeTotal(Without(s, s[k].id)) == IncomeTotal(s) - Share(s[k], Income)
    ensures ExpenseTotal(Without(s, s[k].id)) == ExpenseTotal(s) - Share(s[k], Expense)
  {
    WithoutUnique(s, k, s[k].id);
    KindSumSplit(s, k, Income);
    KindSumSplit(s, k, Expense);
    BalanceIsSignedSum(s);
    BalanceIsSignedSum(Without(s, s[k].id));
  }

  lemma KindSumSplit(s: seq<Tx>, k: nat, kind: TxKind)
    requires k < |s|
    ensures KindSum(s, kind) == KindSum(s[..k] + s[k + 1..], kind) + Share(s[k], kind)
  {
    var tail := s[k + 1..];
    assert s == s[..k] + ([s[k]] + tail);
    KindSumAppend(s[..k], [s[k]] + tail, kind);
    KindSumAppend(s[..k], tail, kind);
    assert ([s[k]] + tail)[1..] == tail;
  }

  lemma {:induction false} KindSumAppend(a: seq<Tx>, b: seq<Tx>, kind: TxKind)
    ensures KindSum(a + b, kind) == KindSum(a, kind) + KindSum(b, kind)
  {
    if a == [] {
      assert a + b == b;
    } else {
      KindSumAppend(a[1..], b, kind);
      assert (a + b)[1..] == a[1..] + b;
    }
  }

  /** An example: income Salary 50000 after expense Rent 15000 gives
      totals 50000, 15000 and a balance and savings of 35000. */
  lemma ExampleTotals(a: string, b: string, d1: string, d2: string)
    ensures Summarize([Tx(b, Expense, "Rent", 15000.0, d2, ""), Tx(a, Income, "Salary", 50000.0, d1, "")])
      == Totals(50000.0, 15000.0, 35000.0, 35000.0)
  {
    var s := [Tx(b, Expense, "Rent", 15000.0, d2, ""), Tx(a, Income, "Salary", 50000.0, d1, "")];
    BalanceIsSignedSum(s);
    assert s[1..][1..] == [];
    assert KindSum(s[1..], Income) == 50000.0;
    assert KindSum(s, Income) == 50000.0;
    assert KindSum(s, Expense) == 15000.0;
  }
}

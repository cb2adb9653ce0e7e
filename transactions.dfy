// The transaction record and the pure list operations the handlers of the
// tracker apply to it (field defaults, amount validation, the delete filter).

module Transactions {
  import opened Text

  datatype TxKind = Income | Expense

  /** One stored record `{id, type, category, amount, date, note}`.
      Amounts are exact: the model does not round like IEEE doubles. */
  datatype Tx = Tx(id: string, kind: TxKind, category: string, amount: real, date: string, note: string)

  /** The outcome of `parseFloat` on the amount field. */
  datatype ParsedNumber = NaN | Num(value: real)

  /** The submit handler rejects `isNaN(amount) || amount <= 0`. */
  predicate Accepts(amount: ParsedNumber)
  {
    !(amount.NaN? || amount.value <= 0.0)
  }

  /** `category.trim() || 'Misc'`: the trimmed text, or "Misc" when that is empty. */
  function CategoryOf(input: string): (r: string)
    ensures r != []
    ensures AllWhitespace(input) ==> r == "Misc"
    ensures !AllWhitespace(input) ==> r == Trim(input)
  {
    TrimEmptyIff(input);
    var t := Trim(input);
    if t == [] then "Misc" else t
  }

  /** A category that came out of the form carries no surrounding whitespace. */
  lemma CategoryIsTrimmed(input: string)
    ensures Trim(CategoryOf(input)) == CategoryOf(input)
  {
    var t := Trim(input);
    if t == [] {
      assert !IsJsWhitespace('M') && !IsJsWhitespace('c');
      assert TrimStart("Misc") == "Misc";
    } else {
      TrimIdempotent(input);
    }
  }

  /** `date || today`: the picker's value, or today's date when it is blank. */
  function DateOf(input: string, today: string): string
  {
    if input == [] then today else input
  }

  /** The record the submit handler builds from the form fields. */
  function NewTx(id: string, kind: TxKind, category: string, amount: real, date: string, note: string, today: string): (t: Tx)
    ensures t.id == id && t.kind == kind && t.amount == amount
    ensures t.category != [] && Trim(t.category) == t.category
    ensures Trim(t.note) == t.note
    ensures t.date != [] || today == []
  {
    CategoryIsTrimmed(category);
    TrimIdempotent(note);
    Tx(id, kind, CategoryOf(category), amount, DateOf(date, today), Trim(note))
  }

  // ---------------------------------------------------------------- invariants

  predicate AllPositive(s: seq<Tx>)
  {
    forall i :: 0 <= i < |s| ==> s[i].amount > 0.0
  }

  predicate HasId(s: seq<Tx>, id: string)
  {
    exists i :: 0 <= i < |s| && s[i].id == id
  }

  predicate UniqueIds(s: seq<Tx>)
  {
    forall i, j :: 0 <= i < j < |s| ==> s[i].id != s[j].id
  }

  /** Prepending a record with a positive amount and an unused id keeps the
      store's invariants. */
  lemma PrependKeepsInvariants(t: Tx, s: seq<Tx>)
    ensures AllPositive(s) && t.amount > 0.0 ==> AllPositive([t] + s)
    ensures UniqueIds(s) && !HasId(s, t.id) ==> UniqueIds([t] + s)
  {
  }

  // ---------------------------------------------------------------- delete

  /** `txs.filter(t => t.id !== id)` */
  function Without(s: seq<Tx>, id: string): (r: seq<Tx>)
    ensures |r| <= |s|
  {
    if s == [] then []
    else if s[0].id != id then [s[0]] + Without(s[1..], id)
    else Without(s[1..], id)
  }

  /** A record survives the filter exactly when it was there and has another id. */
  lemma {:induction false} WithoutMembers(s: seq<Tx>, id: string, t: Tx)
    ensures t in Without(s, id) <==> t in s && t.id != id
  {
    if s != [] {
      WithoutMembers(s[1..], id, t);
      assert s == [s[0]] + s[1..];
    }
  }

  /** The filter keeps order: filtering a concatenation filters each part. */
  lemma {:induction false} WithoutAppend(a: seq<Tx>, b: seq<Tx>, id: string)
    ensures Without(a + b, id) == Without(a, id) + Without(b, id)
  {
    if a != [] {
      WithoutAppend(a[1..], b, id);
      assert (a + b)[1..] == a[1..] + b;
    } else {
      assert a + b == b;
    }
  }

  /** Deleting an id that no record carries leaves the list as it was. */
  lemma {:induction false} WithoutAbsent(s: seq<Tx>, id: string)
    requires !HasId(s, id)
    ensures Without(s, id) == s
  {
    if s != [] {
      assert !HasId(s[1..], id) by {
        forall i | 0 <= i < |s[1..]| ensures s[1..][i].id != id {
          assert s[1..][i] == s[i + 1];
        }
      }
      WithoutAbsent(s[1..], id);
    }
  }

  /** With unique ids, deleting the id of record k removes exactly that record. */
  lemma WithoutUnique(s: seq<Tx>, k: nat, id: string)
    requires UniqueIds(s) && k < |s| && s[k].id == id
    ensures Without(s, id) == s[..k] + s[k + 1..]
    ensures |Without(s, id)| == |s| - 1
  {
    assert s == s[..k] + ([s[k]] + s[k + 1..]);
    WithoutAppend(s[..k], [s[k]] + s[k + 1..], id);
    WithoutAppend([s[k]], s[k + 1..], id);
    assert !HasId(s[..k], id) by {
      forall i | 0 <= i < k ensures s[..k][i].id != id {
        assert s[..k][i] == s[i];
      }
    }
    var tail := s[k + 1..];
    assert !HasId(tail, id) by {
      forall i | 0 <= i < |tail| ensures tail[i].id != id {
        assert tail[i] == s[k + 1 + i];
      }
    }
    WithoutAbsent(s[..k], id);
    WithoutAbsent(s[k + 1..], id);
    assert Without([s[k]], id) == [];
  }

  /** The filter keeps every record it keeps in the same relative order, so
      it cannot break the store's invariants. */
  lemma {:induction false} WithoutKeepsInvariants(s: seq<Tx>, id: string)
    ensures AllPositive(s) ==> AllPositive(Without(s, id))
    ensures UniqueIds(s) ==> UniqueIds(Without(s, id))
    ensures !HasId(Without(s, id), id)
  {
    var r := Without(s, id);
    forall t | t in r ensures t in s && t.id != id {
      WithoutMembers(s, id, t);
    }
    if s != [] {
      WithoutKeepsInvariants(s[1..], id);
      if s[0].id != id && UniqueIds(s) {
        var rest := Without(s[1..], id);
        assert UniqueIds(s[1..]);
        forall i | 0 <= i < |rest| ensures rest[i].id != s[0].id {
          WithoutMembers(s[1..], id, rest[i]);
          var j :| 0 <= j < |s[1..]| && s[1..][j] == rest[i];
          assert s[j + 1] == rest[i];
        }
      }
    }
  }

  // ---------------------------------------------------------------- seeding

  /** The four sample records written when storage holds no transactions;
      `ids` are four `uid()` results and `dates` are today(-2), today(-25),
      today(-8) and today(-3). */
  function SeedList(ids: seq<string>, dates: seq<string>): (r: seq<Tx>)
    requires |ids| == 4 && |dates| == 4
    ensures |r| == 4 && AllPositive(r)
    ensures forall i :: 0 <= i < 4 ==> r[i].id == ids[i] && r[i].date == dates[i]
  {
    [ Tx(ids[0], Income, "Salary", 50000.0, dates[0], "September salary"),
      Tx(ids[1], Expense, "Rent", 15000.0, dates[1], ""),
      Tx(ids[2], Expense, "Groceries", 4200.0, dates[2], "Weekly groceries"),
      Tx(ids[3], Expense, "Transport", 800.0, dates[3], "Fuel") ]
  }
}

// The module-level transaction list and the three handlers that change it
// (submit, delete, clear all), plus the seeding done at start-up. Every
// change that the page persists is followed by `save()`, modelled as copying
// the list into `stored`, the durable mirror.

module Ledger {
  import opened Text
  import opened Transactions

  class Store {
    /** The session's list, newest record first. */
    var txs: seq<Tx>
    /** What the last `save()` wrote (or what `load()` read at start-up). */
    var stored: seq<Tx>

    /** Storage mirrors the list between handler calls. */
    ghost predicate Valid()
      reads this
    {
      stored == txs
    }

    /** Start-up: take the loaded list, or write the four sample records
        when storage held none. */
    constructor Open(loaded: seq<Tx>, seedIds: seq<string>, seedDates: seq<string>)
      requires |seedIds| == 4 && |seedDates| == 4
      ensures Valid()
      ensures loaded != [] ==> txs == loaded
      ensures loaded == [] ==> txs == SeedList(seedIds, seedDates) && AllPositive(txs)
    {
      txs := loaded;
      stored := loaded;
      if |loaded| == 0 {
        txs := SeedList(seedIds, seedDates);
        stored := txs;
      }
    }

    /** The form's submit handler. `amount` is what `parseFloat` made of the
        amount field; `freshId` is the `uid()` result and `today` the
        current date. An invalid amount changes and writes nothing. */
    method Submit(kind: TxKind, category: string, amount: ParsedNumber, date: string, note: string,
                  freshId: string, today: string) returns (ok: bool)
      requires Valid()
      modifies this
      ensures Valid()
      ensures ok <==> amount.Num? && amount.value > 0.0
      ensures !ok ==> txs == old(txs) && stored == old(stored)
      ensures ok ==> txs == [NewTx(freshId, kind, category, amount.value, date, note, today)] + old(txs)
      ensures ok ==> |txs| == |old(txs)| + 1 && txs[1..] == old(txs)
      ensures ok ==> txs[0].category == (if AllWhitespace(category) then "Misc" else Trim(category))
      ensures ok ==> txs[0].date == (if date == [] then today else date)
      ensures ok ==> txs[0].note == Trim(note)
      ensures AllPositive(old(txs)) ==> AllPositive(txs)
      ensures UniqueIds(old(txs)) && !HasId(old(txs), freshId) ==> UniqueIds(txs)
    {
      ok := Accepts(amount);
      if ok {
        var tx := NewTx(freshId, kind, category, amount.value, date, note, today);
        assert tx.category == (if AllWhitespace(category) then "Misc" else Trim(category));
        PrependKeepsInvariants(tx, txs);
        txs := [tx] + txs;
        stored := txs;
      }
    }

    /** A delete button's handler: keep the records whose id differs. */
    method Delete(id: string)
      requires Valid()
      modifies this
      ensures Valid()
      ensures txs == Without(old(txs), id)
      ensures !HasId(old(txs), id) ==> txs == old(txs)
      ensures forall k :: 0 <= k < |old(txs)| && UniqueIds(old(txs)) && old(txs)[k].id == id ==>
        txs == old(txs)[..k] + old(txs)[k + 1..]
      ensures AllPositive(old(txs)) ==> AllPositive(txs)
      ensures UniqueIds(old(txs)) ==> UniqueIds(txs)
    {
      WithoutKeepsInvariants(txs, id);
      if !HasId(txs, id) {
        WithoutAbsent(txs, id);
      }
      forall k | 0 <= k < |txs| && UniqueIds(txs) && txs[k].id == id
        ensures Without(txs, id) == txs[..k] + txs[k + 1..]
      {
        WithoutUnique(txs, k, id);
      }
      txs := Without(txs, id);
      stored := txs;
    }

    /** The clear-all handler; `confirmed` is the user's answer to `confirm`. */
    method ClearAll(confirmed: bool)
      requires Valid()
      modifies this
      ensures Valid()
      ensures confirmed ==> txs == []
      ensures !confirmed ==> txs == old(txs) && stored == old(stored)
    {
      if !confirmed {
        return;
      }
      txs := [];
      stored := txs;
    }
  }
}

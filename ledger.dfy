/** The transaction record every extractor produces. */
module Ledger {
  import opened Text

  /** `'credit'` or `'debit'`: which way the money moved. */
  datatype Direction = Credit | Debit

  /** The `'type'` string of a transaction; `ParseDirection` reads it back. */
  function DirectionName(d: Direction): (r: string)
    ensures ParseDirection(r) == Some(d)
  {
    match d
    case Credit => "credit"
    case Debit => "debit"
  }

  /** `s in ['credit', 'debit']`, read back as a direction. */
  function ParseDirection(s: string): (r: Option<Direction>)
    ensures r == Some(Credit) <==> s == "credit"
    ensures r == Some(Debit) <==> s == "debit"
  {
    if s == "credit" then Some(Credit)
    else if s == "debit" then Some(Debit)
    else None
  }

  /** A transaction dictionary with the keys every extractor sets.  The
      amount is an exact real; `id` is renumbered after extraction. */
  datatype Transaction = Transaction(
    id: nat,
    date: string,
    description: string,
    amount: real,
    kind: Direction,
    category: string,
    frequency: string)

  /** Ids `1..n` in list order, everything else unchanged: what the
      extraction loops (`transaction['id'] = len(transactions) + 1`), the
      de-duplicator and `normalize_transactions` give the transactions they
      keep. */
  function Renumber(ts: seq<Transaction>): (r: seq<Transaction>)
    ensures |r| == |ts|
    ensures forall i :: 0 <= i < |ts| ==> r[i] == ts[i].(id := i + 1)
  {
    seq(|ts|, i requires 0 <= i < |ts| => ts[i].(id := i + 1))
  }

  /** Appending one transaction numbers it after the others. */
  lemma {:induction false} RenumberSnoc(ts: seq<Transaction>, t: Transaction)
    ensures Renumber(ts + [t]) == Renumber(ts) + [t.(id := |ts| + 1)]
  {
    var r := Renumber(ts + [t]);
    var q := Renumber(ts) + [t.(id := |ts| + 1)];
    assert |r| == |q|;
    forall i | 0 <= i < |r| ensures r[i] == q[i] {
      if i < |ts| { assert (ts + [t])[i] == ts[i]; }
    }
  }

  /** Numbering numbered transactions again changes nothing. */
  lemma {:induction false} RenumberIdempotent(ts: seq<Transaction>)
    ensures Renumber(Renumber(ts)) == Renumber(ts)
  {
    var r := Renumber(ts);
    assert forall i :: 0 <= i < |r| ==> r[i].(id := i + 1) == r[i];
  }
}

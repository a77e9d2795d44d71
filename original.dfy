/** The original wallet page the refactoring starts from: a `switch`-based
    priority, a filter written with nested `if`s, a three-way comparator, a
    formatting pass whose result the rows never read, and one row per sorted
    balance. */
module Original {
  import opened JsArray
  import R = Refactored

  /** The `switch` getPriority. */
  function GetPriority(blockchain: string): (r: int)
    ensures r == -99 <==>
            blockchain !in {"Osmosis", "Ethereum", "Arbitrum", "Zilliqa", "Neo"}
  {
    match blockchain
    case "Osmosis" => 100
    case "Ethereum" => 50
    case "Arbitrum" => 30
    case "Zilliqa" => 20
    case "Neo" => 20
    case _ => -99
  }

  /** The switch and the refactored table give every string the same rank. */
  lemma SwitchAgreesWithTable(blockchain: string)
    ensures GetPriority(blockchain) == R.GetPriority(blockchain)
  {
  }

  lemma SwitchTable()
    ensures GetPriority("Osmosis") == 100 && GetPriority("Ethereum") == 50
    ensures GetPriority("Arbitrum") == 30
    ensures GetPriority("Zilliqa") == 20 && GetPriority("Neo") == 20
    ensures GetPriority("Solana") == -99
  {
  }

  /** The filter callback with the balance's own priority in place of the
      undeclared `lhsPriority`: keep a balance whose priority is above -99 and
      whose amount is at most zero. */
  predicate Keeps(balance: R.Balance)
  {
    var balancePriority := GetPriority(balance.blockchain);
    if balancePriority > -99 then
      if balance.amount <= 0.0 then true else false
    else false
  }

  /** Every rank is one of 100, 50, 30, 20 or exactly -99, so `> -99` and
      `!== OTHERS_BLOCKCHAIN_PRIORITY` keep the same balances. */
  lemma KeepsAgreesWithRefactored(balance: R.Balance)
    ensures Keeps(balance) == R.IsValidBalance(balance)
  {
    SwitchAgreesWithTable(balance.blockchain);
  }

  /** The sort callback: -1 when the left balance ranks higher, 1 when the
      right one does, and no return value on a tie, which the sort reads as 0. */
  function Comparator(lhs: R.Balance, rhs: R.Balance): int
  {
    var leftPriority := GetPriority(lhs.blockchain);
    var rightPriority := GetPriority(rhs.blockchain);
    if leftPriority > rightPriority then -1
    else if rightPriority > leftPriority then 1
    else 0
  }

  /** The three-way comparator always has the sign of the shorter
      rightPriority - leftPriority. */
  lemma ComparatorSign(lhs: R.Balance, rhs: R.Balance)
    ensures Comparator(lhs, rhs) < 0 <==> R.PriorityComparator(lhs, rhs) < 0
    ensures Comparator(lhs, rhs) == 0 <==> R.PriorityComparator(lhs, rhs) == 0
    ensures Comparator(lhs, rhs) > 0 <==> R.PriorityComparator(lhs, rhs) > 0
    ensures Comparator(lhs, rhs) in {-1, 0, 1}
  {
    SwitchAgreesWithTable(lhs.blockchain);
    SwitchAgreesWithTable(rhs.blockchain);
  }

  /** sortedBalances: filter, then stable sort. */
  function SortedBalances(balances: seq<R.Balance>): seq<R.Balance>
  {
    SortBy(Filter(balances, Keeps), Comparator)
  }

  /** With the intended table lookup the refactoring changes nothing: both
      pages rank every balance list the same way. (The refactored lookup as
      written differs on the names inherited from Object.prototype; see
      Refactored.InheritedNameEscapesSentinel.) */
  lemma SortedBalancesIsRank(balances: seq<R.Balance>)
    ensures SortedBalances(balances) == R.Rank(balances)
  {
    forall b ensures Keeps(b) == R.IsValidBalance(b) {
      KeepsAgreesWithRefactored(b);
    }
    FilterSameCallback(balances, Keeps, R.IsValidBalance);
    forall lhs, rhs ensures (Comparator(lhs, rhs) <= 0) == (R.PriorityComparator(lhs, rhs) <= 0) {
      ComparatorSign(lhs, rhs);
    }
    SortBySameSign(Filter(balances, R.IsValidBalance), Comparator, R.PriorityComparator);
  }

  // --------------------------------------------------------------- the rows

  /** A sorted balance with its amount formatted by toFixed(). */
  datatype FormattedBalance =
    FormattedBalance(currency: string, amount: real, blockchain: string, formatted: string)

  /** formattedBalances: `{...balance, formatted: balance.amount.toFixed()}`. */
  function FormattedBalances(sorted: seq<R.Balance>, toFixed: real -> string): seq<FormattedBalance>
  {
    seq(|sorted|, i requires 0 <= i < |sorted| =>
      var b := sorted[i];
      FormattedBalance(b.currency, b.amount, b.blockchain, toFixed(b.amount)))
  }

  /** A formatted balance without its `formatted` property. */
  function Unformat(formatted: seq<FormattedBalance>): seq<R.Balance>
  {
    seq(|formatted|, i requires 0 <= i < |formatted| =>
      R.Balance(formatted[i].currency, formatted[i].amount, formatted[i].blockchain))
  }

  /** Formatting only adds a property: taking it away again gives back the
      sorted balances, and what was added is each amount's toFixed(). */
  lemma FormattedBalancesRoundTrip(sorted: seq<R.Balance>, toFixed: real -> string)
    ensures Unformat(FormattedBalances(sorted, toFixed)) == sorted
    ensures forall i :: 0 <= i < |sorted| ==>
              FormattedBalances(sorted, toFixed)[i].formatted == toFixed(sorted[i].amount)
  {
    var u := Unformat(FormattedBalances(sorted, toFixed));
    assert |u| == |sorted|;
    forall i | 0 <= i < |sorted| ensures u[i] == sorted[i] {
    }
  }

  /** The rows as written: they are mapped from sortedBalances, whose
      elements have no `formatted` property, so every row is passed
      undefined as its formatted amount. */
  function RowsAsWritten(sorted: seq<R.Balance>): seq<R.Row>
  {
    seq(|sorted|, i requires 0 <= i < |sorted| => R.Row(i, sorted[i].amount, R.None))
  }

  /** Any non-empty page renders rows without formatted amounts, unlike the
      refactored page. */
  lemma RowsAsWrittenLoseFormatting(sorted: seq<R.Balance>, toFixed: real -> string)
    requires |sorted| > 0
    ensures forall i :: 0 <= i < |RowsAsWritten(sorted)| ==>
              RowsAsWritten(sorted)[i].formattedAmount == R.None
    ensures RowsAsWritten(sorted) != R.Rows(sorted, toFixed)
  {
    assert RowsAsWritten(sorted)[0] != R.Rows(sorted, toFixed)[0];
  }

  /** Apart from the missing formatted amount the rows as written are the
      refactored page's rows: one per sorted balance, keyed by its position,
      showing its amount. */
  lemma RowsAsWrittenDifferOnlyInFormatting(sorted: seq<R.Balance>, toFixed: real -> string)
    ensures |RowsAsWritten(sorted)| == |R.Rows(sorted, toFixed)| == |sorted|
    ensures forall i :: 0 <= i < |sorted| ==>
              RowsAsWritten(sorted)[i] == R.Rows(sorted, toFixed)[i].(formattedAmount := R.None)
  {
  }

  /** The rows the code evidently means: mapped from formattedBalances. */
  function RowsFromFormatted(formatted: seq<FormattedBalance>): seq<R.Row>
  {
    seq(|formatted|, i requires 0 <= i < |formatted| =>
      R.Row(i, formatted[i].amount, R.Some(formatted[i].formatted)))
  }

  /** Mapped from formattedBalances, the original page renders the same rows
      as the refactored one: one per ranked balance, in ranked order, keyed by
      position, each with its formatted amount. */
  lemma RowsFromFormattedMatchRefactored(balances: seq<R.Balance>, toFixed: real -> string)
    ensures RowsFromFormatted(FormattedBalances(SortedBalances(balances), toFixed)) ==
            R.Rows(R.Rank(balances), toFixed)
  {
    SortedBalancesIsRank(balances);
  }
}

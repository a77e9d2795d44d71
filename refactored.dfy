/** The refactored wallet page: a priority table from blockchain name to rank,
    a filter that keeps the balances on a ranked chain with a non-positive
    amount, a sort by rank (highest first), and one row per ranked balance. */
module Refactored {
  import opened JsArray

  datatype Option<T> = None | Some(value: T)

  /** A wallet balance. Amounts are JavaScript numbers; only their sign
      matters to the ranking, so they are modelled as reals. */
  datatype Balance = Balance(currency: string, amount: real, blockchain: string)

  /** The rank of a chain that is not in the table. */
  const OthersBlockchainPriority: int := -99

  const BlockchainPriorityMap: map<string, int> :=
    map["Osmosis" := 100, "Ethereum" := 50, "Arbitrum" := 30, "Zilliqa" := 20, "Neo" := 20]

  /** getPriority: the table's rank for a listed chain, the sentinel for any
      other name. (This is the lookup the code evidently intends; what the
      object-literal lookup really does for inherited names is
      GetPriorityAsWritten below.) */
  function GetPriority(blockchain: string): (r: int)
    ensures r == OthersBlockchainPriority <==> blockchain !in BlockchainPriorityMap
    ensures r in {100, 50, 30, 20, OthersBlockchainPriority}
  {
    if blockchain in BlockchainPriorityMap then BlockchainPriorityMap[blockchain]
    else OthersBlockchainPriority
  }

  lemma GetPriorityTable()
    ensures GetPriority("Osmosis") == 100 && GetPriority("Ethereum") == 50
    ensures GetPriority("Arbitrum") == 30
    ensures GetPriority("Zilliqa") == 20 && GetPriority("Neo") == 20
    ensures GetPriority("Unknown") == -99 && GetPriority("osmosis") == -99
  {
  }

  // ------------------------------------ the object-literal lookup as written

  /** What reading a property of a JavaScript object literal yields: one of
      its own number-valued properties, a member every object literal
      inherits from Object.prototype (a function, or the prototype object
      itself for "__proto__"), or undefined. */
  datatype JsValue = Number(n: int) | Inherited(name: string) | Undefined

  /** The names an object literal inherits from Object.prototype. */
  const ObjectPrototypeMembers: set<string> :=
    {"constructor", "hasOwnProperty", "isPrototypeOf", "propertyIsEnumerable",
     "toLocaleString", "toString", "valueOf", "__proto__", "__defineGetter__",
     "__defineSetter__", "__lookupGetter__", "__lookupSetter__"}

  /** obj[key] on an object literal whose own properties are obj. */
  function LiteralLookup(obj: map<string, int>, key: string): JsValue
  {
    if key in obj then Number(obj[key])
    else if key in ObjectPrototypeMembers then Inherited(key)
    else Undefined
  }

  /** `v ?? fallback`: only undefined (or null) is replaced. */
  function NullishOr(v: JsValue, fallback: int): JsValue
  {
    if v.Undefined? then Number(fallback) else v
  }

  /** getPriority exactly as written: `blockchainPriorityMap[blockchain] ??
      OTHERS_BLOCKCHAIN_PRIORITY` on a plain object literal. */
  function GetPriorityAsWritten(blockchain: string): (v: JsValue)
    ensures blockchain !in ObjectPrototypeMembers ==> v == Number(GetPriority(blockchain))
    ensures blockchain in ObjectPrototypeMembers ==> v == Inherited(blockchain)
  {
    NullishOr(LiteralLookup(BlockchainPriorityMap, blockchain), OthersBlockchainPriority)
  }

  /** The filter as written compares the looked-up value with -99 by `!==`,
      which an inherited member never equals. */
  predicate IsValidBalanceAsWritten(b: Balance)
  {
    GetPriorityAsWritten(b.blockchain) != Number(OthersBlockchainPriority) && b.amount <= 0.0
  }

  /** An unlisted chain named "toString" gets an inherited function instead
      of the sentinel, so the filter as written keeps its balance while the
      intended lookup drops it. */
  lemma InheritedNameEscapesSentinel()
    ensures GetPriorityAsWritten("toString") == Inherited("toString")
    ensures GetPriority("toString") == OthersBlockchainPriority
    ensures Filter([Balance("ETH", -1.0, "toString")], IsValidBalanceAsWritten) ==
            [Balance("ETH", -1.0, "toString")]
    ensures Filter([Balance("ETH", -1.0, "toString")], IsValidBalance) == []
  {
    assert "toString" !in BlockchainPriorityMap;
  }

  /** Away from the inherited names the two lookups keep the same balances. */
  lemma AsWrittenAgreesOffPrototype(b: Balance)
    requires b.blockchain !in ObjectPrototypeMembers
    ensures IsValidBalanceAsWritten(b) == IsValidBalance(b)
  {
  }

  // --------------------------------------------------------- the pipeline

  /** The filter callback: a ranked chain and an amount of at most zero. */
  predicate IsValidBalance(b: Balance)
  {
    GetPriority(b.blockchain) != OthersBlockchainPriority && b.amount <= 0.0
  }

  function Priority(b: Balance): int
  {
    GetPriority(b.blockchain)
  }

  /** The sort callback getPriority(right) - getPriority(left): negative when
      the left balance ranks strictly higher, zero on a tie, positive when
      the right one ranks strictly higher. */
  function PriorityComparator(left: Balance, right: Balance): (d: int)
    ensures d < 0 <==> Priority(left) > Priority(right)
    ensures d == 0 <==> Priority(left) == Priority(right)
    ensures d > 0 <==> Priority(right) > Priority(left)
  {
    GetPriority(right.blockchain) - GetPriority(left.blockchain)
  }

  /** Zilliqa and Neo tie. */
  lemma ZilliqaNeoTie(currency1: string, amount1: real, currency2: string, amount2: real)
    ensures PriorityComparator(Balance(currency1, amount1, "Zilliqa"),
                               Balance(currency2, amount2, "Neo")) == 0
  {
  }

  lemma PriorityComparatorOrdersByPriority()
    ensures OrdersByKeyDescending(PriorityComparator, Priority)
  {
  }

  /** The body of the memoised computation: filter, then stable sort. */
  function Rank(balances: seq<Balance>): seq<Balance>
  {
    SortBy(Filter(balances, IsValidBalance), PriorityComparator)
  }

  /** The same computation on an array: `filter` builds a new array, which
      `sort` then reorders in place, so the input is never touched. */
  method RankBalances(balances: seq<Balance>) returns (sorted: seq<Balance>)
    ensures sorted == Rank(balances)
  {
    var valid := Filter(balances, IsValidBalance);
    var a := new Balance[|valid|](i requires 0 <= i < |valid| => valid[i]);
    assert a[..] == valid;
    SortInPlace(a, PriorityComparator);
    sorted := a[..];
  }

  /** The ranked balances are exactly the valid input balances: each one
      passes the filter, and each valid balance occurs as often as in the
      input. */
  lemma RankIsValidBalances(balances: seq<Balance>, b: Balance)
    ensures forall i :: 0 <= i < |Rank(balances)| ==> IsValidBalance(Rank(balances)[i])
    ensures multiset(Rank(balances)) == multiset(Filter(balances, IsValidBalance))
    ensures multiset(Rank(balances))[b] == if IsValidBalance(b) then multiset(balances)[b] else 0
    ensures b in Rank(balances) <==> b in balances && IsValidBalance(b)
  {
    var valid := Filter(balances, IsValidBalance);
    SortByPermutes(valid, PriorityComparator);
    FilterCounts(balances, IsValidBalance, b);
    assert b in Rank(balances) <==> multiset(Rank(balances))[b] > 0;
    forall i | 0 <= i < |Rank(balances)|
      ensures IsValidBalance(Rank(balances)[i])
    {
      var x := Rank(balances)[i];
      assert x in multiset(Rank(balances));
      assert x in valid;
    }
  }

  /** Consecutive ranked balances never go up in priority. */
  lemma RankOrderedByPriority(balances: seq<Balance>)
    ensures forall i :: 0 < i < |Rank(balances)| ==>
              GetPriority(Rank(balances)[i].blockchain) <= GetPriority(Rank(balances)[i - 1].blockchain)
  {
    PriorityComparatorOrdersByPriority();
    SortByNonIncreasing(Filter(balances, IsValidBalance), PriorityComparator, Priority);
  }

  /** Ties keep input order: the ranked balances of priority p are the
      valid input balances of priority p, in input order. */
  lemma RankStable(balances: seq<Balance>, p: int)
    ensures WithKey(Rank(balances), Priority, p) == WithKey(Filter(balances, IsValidBalance), Priority, p)
  {
    PriorityComparatorOrdersByPriority();
    SortByStable(Filter(balances, IsValidBalance), PriorityComparator, Priority, p);
  }

  /** Any stable sort of the valid balances by this comparator gives Rank. */
  lemma RankIsTheStableSort(balances: seq<Balance>, t: seq<Balance>)
    requires forall i :: 0 < i < |t| ==> Priority(t[i]) <= Priority(t[i - 1])
    requires forall p :: WithKey(t, Priority, p) == WithKey(Filter(balances, IsValidBalance), Priority, p)
    ensures t == Rank(balances)
  {
    PriorityComparatorOrdersByPriority();
    StableSortIsSortBy(Filter(balances, IsValidBalance), t, PriorityComparator, Priority);
  }

  /** Ranking an already ranked list gives it back unchanged. */
  lemma RankIdempotent(balances: seq<Balance>)
    ensures Rank(Rank(balances)) == Rank(balances)
  {
    var ranked := Rank(balances);
    RankIsValidBalances(balances, Balance("", 0.0, ""));
    FilterOfAccepted(ranked, IsValidBalance);
    RankOrderedByPriority(balances);
    PriorityComparatorOrdersByPriority();
    SortByOfNonIncreasing(ranked, PriorityComparator, Priority);
  }

  /** Unlisted chains and positive amounts are dropped; Osmosis comes before
      Ethereum whatever the input order. */
  lemma RankExample()
    ensures Rank([Balance("ETH", -2.0, "Ethereum"), Balance("OSMO", -1.0, "Osmosis"),
                  Balance("X", -1.0, "Unknown"), Balance("ARB", 5.0, "Arbitrum")]) ==
            [Balance("OSMO", -1.0, "Osmosis"), Balance("ETH", -2.0, "Ethereum")]
  {
    var input := [Balance("ETH", -2.0, "Ethereum"), Balance("OSMO", -1.0, "Osmosis"),
                  Balance("X", -1.0, "Unknown"), Balance("ARB", 5.0, "Arbitrum")];
    assert "Unknown" !in BlockchainPriorityMap;
    var eth, osmo := Balance("ETH", -2.0, "Ethereum"), Balance("OSMO", -1.0, "Osmosis");
    assert Filter(input, IsValidBalance) == [eth, osmo];
    assert [eth, osmo][..1] == [eth];
    assert SortBy([eth], PriorityComparator) == [eth];
    assert PriorityComparator(eth, osmo) > 0;
    assert Insert(osmo, [eth], PriorityComparator) == [osmo, eth];
  }

  // --------------------------------------------------------------- the rows

  /** The props of one rendered row: its React key, the amount, and the
      formatted amount (None where the code passes undefined). */
  datatype Row = Row(key: nat, amount: real, formattedAmount: Option<string>)

  /** `sorted.map((balance, index) => row)` with the amount formatted by
      toFixed(), given as a parameter because number formatting is not modelled. */
  function Rows(sorted: seq<Balance>, toFixed: real -> string): seq<Row>
  {
    seq(|sorted|, i requires 0 <= i < |sorted| =>
      Row(i, sorted[i].amount, Some(toFixed(sorted[i].amount))))
  }

  /** The page renders one row per balance that passes the filter, and every
      row shows a non-positive amount together with its formatted text. */
  lemma RowsShowValidBalances(balances: seq<Balance>, toFixed: real -> string)
    ensures |Rows(Rank(balances), toFixed)| == |Filter(balances, IsValidBalance)|
    ensures forall i :: 0 <= i < |Rows(Rank(balances), toFixed)| ==>
              Rows(Rank(balances), toFixed)[i].amount <= 0.0 &&
              Rows(Rank(balances), toFixed)[i].formattedAmount.Some?
  {
    RankIsValidBalances(balances, Balance("", 0.0, ""));
    assert |multiset(Rank(balances))| == |multiset(Filter(balances, IsValidBalance))|;
  }
}

/** The closed set of fulfillment statuses, and the check that turns a raw symbol
    (for example one read from a persisted row) into one of them. */
module Status {
  import opened Results

  datatype FulfillmentStatus = Pending | Paid | Processing | Shipped | Complete

  /** The name of the Ruby symbol that stands for each status. */
  function SymbolName(s: FulfillmentStatus): string
  {
    match s
    case Pending => "pending"
    case Paid => "paid"
    case Processing => "processing"
    case Shipped => "shipped"
    case Complete => "complete"
  }

  /** The symbol the constructor uses when no status is given. */
  const DefaultStatusSymbol: string := "pending"

  /** The allowed symbols, in the order the membership check lists them. */
  const AllowedSymbols: seq<string> := ["pending", "paid", "processing", "shipped", "complete"]

  /** Membership check on a symbol: fails with InvalidStatus for any symbol outside the five. */
  function ParseStatus(symbol: string): (r: Result<FulfillmentStatus>)
    ensures r.Success? <==> symbol in AllowedSymbols
    ensures r.Failure? ==> r.error == InvalidStatus
    ensures r.Success? ==> SymbolName(r.value) == symbol
  {
    if symbol == "pending" then Success(Pending)
    else if symbol == "paid" then Success(Paid)
    else if symbol == "processing" then Success(Processing)
    else if symbol == "shipped" then Success(Shipped)
    else if symbol == "complete" then Success(Complete)
    else Failure(InvalidStatus)
  }

  /** Every status is accepted under its own symbol: parsing is the inverse of naming. */
  lemma ParseSymbolName(s: FulfillmentStatus)
    ensures ParseStatus(SymbolName(s)) == Success(s)
  {
  }

  /** The name of every status is one of the allowed symbols. */
  lemma SymbolNameAllowed(s: FulfillmentStatus)
    ensures SymbolName(s) in AllowedSymbols
  {
  }

  /** The default symbol is accepted and means Pending. */
  lemma DefaultIsPending()
    ensures ParseStatus(DefaultStatusSymbol) == Success(Pending)
  {
  }
}

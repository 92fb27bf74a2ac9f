# Order entity of the grocery store, in Dafny

This project models the `Order` class of the grocery-store library (`lib/order.rb`) and proves
properties of the model. An order has an integer id, a product table mapping product names to
prices, a customer and a fulfillment status. The modelled behaviour:

- construction, which accepts only the five statuses `pending`, `paid`, `processing`, `shipped`
  and `complete`;
- the tax-inclusive total;
- adding and removing products, which keeps names unique;
- loading orders from persisted rows, including the lenient parser of the `;`-separated product
  field;
- the two queries over the loaded orders: `find` by id and `find_by_customer`.

Modules, one per file:

- `Results` (`results.dfy`): the failure kinds and the `Option`/`Result` wrappers.
- `Status` (`status.dfy`): the status datatype and the membership check on a raw symbol.
- `Money` (`money.dfy`): rounding to two decimals, with a tie going away from zero as Ruby's
  `Float#round(2)` does, on exact reals.
- `ProductTable` (`product_table.dfy`): the name-to-price map, its add and remove rules, and the
  exact subtotal.
- `Numerals` (`numerals.dfy`): `String#to_i` and `String#to_f` as prefix readers.
- `ProductParser` (`product_parser.dfy`): `String#split(';')`, the two regular expressions
  `/.*:/` and `/:.*/`, and `to_products` as a loop over the entries.
- `Orders` (`order.dfy`): the `Order` class, loading orders from rows, and the queries.

`Order` is a class. Its `products` field is a `map` that `AddProduct` and `RemoveProduct`
update in place under `modifies this`. The other three fields are `const`, because the source
only reads them. Prices are exact `real` values. The query functions take the loaded list as a
parameter, so `all()` is an input sequence of orders. Loading itself is the method
`Order.All`, which works over rows already split into their four text fields.

Where the written description of the system and the code disagree, the model follows the code:

- The name of a product entry is everything up to the entry's last `:` (the regular expression
  `.*:` is greedy), with every `:` then deleted. It is not the text before the first `:`. For
  example, `a:1:2` reads as name `a1` and price text `12` (`EntryTwoColons`).
- A malformed entry never fails. An entry without `:` reads as the empty name with price 0
  (`EntryWithoutColon`). A price with no leading numeral reads as 0 (`NoNumeralIsZero`).
- The code checks no invariant on values. The model does not require an id to be
  non-negative, a name to be non-empty or a price to be non-negative. `Total` states its
  non-negativity only under the hypothesis that every price is non-negative.

## Model

| member | source | states |
|---|---|---|
| Status.ParseStatus | lib/order.rb:15 | a symbol is accepted exactly when it is one of the five allowed names; a rejected symbol fails with InvalidStatus; an accepted one yields the status with that name |
| Status.ParseSymbolName | lib/order.rb:15 | the check accepts every status under its own name: parsing inverts naming |
| Status.DefaultIsPending | lib/order.rb:9 | the default status symbol is accepted and means Pending |
| Orders.Order.constructor | lib/order.rb:17-20 | the new order holds exactly the given id, products, customer and status |
| Orders.Order.Create | lib/order.rb:9-21 | construction fails, with InvalidStatus, exactly when the status symbol is not allowed; otherwise the fresh order holds the given id, products and customer, and the status named by the symbol |
| Orders.Order.Total | lib/order.rb:23-29 | an empty table totals 0; otherwise the total is the subtotal plus 7.5 % tax rounded once to cents, within half a cent of the exact taxed sum; it is always a whole number of cents, and non-negative when every price is |
| Orders.ExampleTotal | lib/order.rb:23-29 | the table book 20.00, pen 1.00 totals 22.58 |
| Orders.TotalRoundsOnce | lib/order.rb:27-28 | rounding applies to the whole taxed sum (two products of 1.00 total 2.15), which differs from adding the per-product rounded prices (2.16) |
| Money.Round2 | lib/order.rb:28 | the result is a whole number of cents within half a cent of the argument, a tie going away from zero, with the sign of the argument |
| Money.Round2OfCents | lib/order.rb:28 | a value already in cents is left unchanged |
| Money.Round2Idempotent | lib/order.rb:28 | rounding a rounded value changes nothing |
| Money.Round2Negate | lib/order.rb:28 | rounding commutes with negation (ties go away from zero) |
| Money.Round2Monotonic | lib/order.rb:28 | rounding preserves the order of two values |
| ProductTable.SubtotalSplit | lib/order.rb:27 | the sum of the prices does not depend on the order of the entries: any entry can be split off first |
| ProductTable.SubtotalAdd | lib/order.rb:27 | storing a new name raises the subtotal by exactly its price |
| ProductTable.SubtotalRemove | lib/order.rb:27 | deleting a name lowers the subtotal by exactly its price |
| ProductTable.SubtotalNonNegative | lib/order.rb:27 | non-negative prices give a non-negative subtotal |
| ProductTable.SubtotalSingle | lib/order.rb:27 | a one-product table sums to that product's price |
| ProductTable.Add | lib/order.rb:35-36 | adding fails with DuplicateProduct exactly when the name is present; otherwise the keys gain exactly the name, it maps to the price, and every other entry is kept |
| ProductTable.Remove | lib/order.rb:41-43 | removing fails with ProductNotFound exactly when the name is absent; otherwise the keys lose exactly the name and every remaining entry is kept |
| ProductTable.AddThenRemove | lib/order.rb:32-44 | adding a new name and removing it restores the original table |
| ProductTable.RemoveThenAdd | lib/order.rb:32-44 | removing a name and adding it back with its old price restores the original table |
| Orders.Order.AddProduct | lib/order.rb:32-37 | a duplicate name fails with DuplicateProduct and leaves the table unchanged; otherwise the table becomes the Add result and the price is returned |
| Orders.Order.RemoveProduct | lib/order.rb:39-44 | a missing name fails with ProductNotFound and leaves the table unchanged; otherwise the table becomes the Remove result and the removed price is returned |
| Orders.Order.Find | lib/order.rb:52-55 | none exactly when no order has the id; otherwise the order at the first position holding that id |
| Orders.FindAppend | lib/order.rb:54 | on a list made of two parts, find answers from the first part when it has a match, and otherwise from the second |
| Orders.WithCustomer | lib/order.rb:59 | the selected orders all belong to the customer id and come from the list, and every order of the list with that customer id is selected |
| Orders.WithCustomerAppend | lib/order.rb:59 | selecting by customer distributes over concatenation, so list order is kept |
| Orders.Order.FindByCustomer | lib/order.rb:57-61 | none exactly when no order has the customer id; otherwise the non-empty selection in list order |
| Orders.Order.FromRow | lib/order.rb:48 | a row becomes an order whose id and customer id are read with to_i, whose products are the parsed product field and whose status is the row's symbol; it fails with InvalidStatus exactly when that symbol is not allowed |
| Orders.Order.All | lib/order.rb:46-50 | loading fails with InvalidStatus exactly when some row's status is not allowed; otherwise it yields one fresh order per row, in row order, each loaded from its row |
| ProductParser.ToProducts | lib/order.rb:65-72 | the loop stores every entry of the split field in turn, so the table equals the left fold of the entries |
| ProductParser.CollectKeys | lib/order.rb:69 | the keys of the table are exactly the names of the entries, one per entry |
| ProductParser.CollectLastWins | lib/order.rb:69 | the price under a name is the price of the last entry with that name |
| ProductParser.KeysAreClean | lib/order.rb:65-72 | no key holds a ':' or a ';' or a line break |
| ProductParser.Fields | lib/order.rb:66 | at least one field, none holding a ';' |
| ProductParser.JoinFields | lib/order.rb:66 | joining the fields with ';' gives back the text |
| ProductParser.FieldsJoin | lib/order.rb:66 | fields without ';', joined and split again, come back unchanged |
| ProductParser.DropTrailingEmpty | lib/order.rb:66 | a prefix of the fields, the removed ones all empty, ending in a non-empty field or empty |
| ProductParser.Split | lib/order.rb:66 | no entry holds a ';' |
| ProductParser.SplitEmpty | lib/order.rb:66 | the empty field has no entries, so it gives the empty table |
| ProductParser.SplitJoin | lib/order.rb:66 | entries without ';', the last non-empty, joined with ';' split back into those entries |
| ProductParser.SplitTwo | lib/order.rb:66 | two such entries joined by ';' split into exactly those two |
| ProductParser.DeleteColons | lib/order.rb:69 | the result holds no ':' and is unchanged text when there was none |
| ProductParser.DeleteColonsAppend | lib/order.rb:69 | colon deletion distributes over concatenation |
| ProductParser.ColonLine | lib/order.rb:69 | the line both patterns match within holds a ':' and no line break, and is the whole entry when the entry is one line |
| ProductParser.EntryNameClean | lib/order.rb:69 | a name holds no ':' or line break, and no ';' that its entry lacked |
| ProductParser.EntryWithoutColon | lib/order.rb:69 | an entry without ':' has the empty name and price 0 |
| ProductParser.EntryWellFormed | lib/order.rb:69 | the entry name:price, neither part holding ':' or a line break, reads as that name and the to_f of that price text |
| ProductParser.EntryTwoColons | lib/order.rb:69 | x:y:z reads as name x followed by y and price to_f of y followed by z (greedy last-colon name, every colon deleted) |
| ProductParser.TwoEntryField | lib/order.rb:65-72 | a field of two well-formed entries with different names gives exactly those two products |
| Numerals.ToIShow | lib/order.rb:48 | to_i reads back a decimal numeral, with or without a minus sign, as its value |
| Numerals.ToFDecimal | lib/order.rb:69 | to_f reads whole.fraction as the whole part plus the fraction's value over its power of ten |
| Numerals.ToFZeroCents | lib/order.rb:69 | a whole amount written with zero decimals, such as 20.00, reads as that whole amount |
| Numerals.ToFWhole | lib/order.rb:69 | to_f reads a numeral without a point as its value |
| Numerals.NoNumeralIsZero | lib/order.rb:48 | text that does not start, after whitespace, with a sign, digit or point reads as 0 under both to_i and to_f |

## Left out

- Reading the persisted file (`File.read` and `CSV.parse` at lib/order.rb:47) is I/O. `Order.All` takes the rows already split into their four text fields. The queries take the loaded list as a parameter rather than re-reading it on every call.
- `Customer.find` and the `Customer` class (lib/customer.rb) are not part of this model. A customer is a value with an integer id, and the lookup is a total function passed in. The failure when the lookup finds no customer is therefore not modelled.
- `arg_class_check` from the `ArgError` mixin (lib/arg_error.rb) is not part of this model. Dafny's parameter types make these class checks unnecessary.
- Error message texts are not modelled. Every failure is one case of `OrderError`, tagged by kind.
- Floating point: prices and the tax rate are exact reals, and `Float#round(2)` is exact round-half-away-from-zero. Binary floating-point representation errors are not modelled.
- `String#to_f` and `String#to_i` are modelled as decimal prefix readers (whitespace, sign, digits and, for to_f, a fraction). Underscores between digits and exponents are not modelled.
- `String#split(';')` is modelled as a split on every `;` with trailing empty fields dropped. Splitting with a limit or with an empty pattern does not occur in the source.
- Aliasing: Ruby stores the caller's hash without copying it (lib/order.rb:18). The model stores a map value, so a later change through another reference to the same hash is not modelled.
- A missing products or status field in a row (`nil.split`, `nil.to_sym`) crashes the source. The model's rows always carry text.
- The default status argument (lib/order.rb:9) is `Status.DefaultStatusSymbol`. Dafny has no default parameters, so `Order.Create` always takes a symbol.
- Orders.Order.Total: it is a ghost function, because the subtotal sums a map picked apart key by key. The amount is the same, but it cannot be computed in compiled code.
- Orders.Order.All: its postcondition does not say which row caused a failure. Every failure is InvalidStatus, and the loop stops at the first such row.
- An end-to-end lemma for the concrete row `7,book:20.00;pen:1.00,3,paid` is not included. Its parts are proved in general: `TwoEntryField`, `ToFZeroCents`, `ToIShow`, `FromRow` and `ExampleTotal`.

# Relational-algebra `Table` in Dafny

This project models `Table.java`, a teaching implementation of a
relational database table. A table has:

- a name;
- parallel arrays of attribute names and attribute domains (Java classes);
- a primary key;
- a mutable list of tuples;
- a map `col` from attribute name to column number.

Operators derive new tables from it:

- `selt`, by a predicate or by a three-token condition string;
- `union`, `minus` and `proj`;
- three forms of `join`.

Each derived table is named with the source table's name followed by a
static counter. `add` appends a tuple in place.

The model is in these modules:

- `Outcomes` (outcomes.dfy): `Option`, and `Outcome`, which is either a
  returned value or one of the Java exceptions the code can raise:
  `NullPointer`, `IndexOutOfBounds` or `ClassCast`.
- `Values` (values.dfy):
  - the domain classes, with `findClass` as a name lookup;
  - the closed union of cell values;
  - `compareTo`, with its total-order lemmas;
  - conversion of a condition literal to a column's domain.
- `JavaStrings` (strings.dfy): `String.split (" ")`, including Java's
  removal of trailing empty strings, and the decimal rendering of `int`
  used in `name + count`. Both come with their inverses.
- `Schema` (schema.dfy):
  - the `col` map built by the constructors;
  - `concat`;
  - the key rule of `proj`;
  - the domain lookup of `getDom`.
- `Rows` (rows.dfy): the stream filter behind `selt (predicate)`, and the
  first-occurrence de-duplicating append behind `union`.
- `Condition` (condition.dfy): `satifies`, and the row loop of
  `selt (condition)` as a specification function.
- `Tables` (table.dfy):
  - the `Table` class, whose `tuples` field the methods update in place;
  - the derived-name counter, as a `NameCounter` object;
  - every operator as a method proved against the functions above.
- `DocumentedIntent` (intent.dfy): row semantics for the operators whose
  code is a stub. These come from their doc comments, not from the code.
- `BankScenarios` (bank.dfy): the sample data and queries of Bank.java,
  worked out with the model. `FilterUnrolled` there is a proof device,
  not part of the model: `Filter`'s recursion without its membership
  facts, which makes the seven-row selections cheap to prove.
  `FilterUnrolledIsFilter` shows the two agree.

## Where the code and its documentation differ

The model follows the code in each of these cases.

- **Quoted literals in `selt (condition)`.** The usage comment of
  `selt (condition)` shows `"bname == 'Alps'"`. `satifies` compares the
  literal verbatim, quotes included, so that query selects no row
  (`BankScenarios.QuotedAlpsSelectsNothing`). The unquoted
  `"bname == Alps"` selects the Alps rows
  (`BankScenarios.UnquotedAlpsSelectsAlps`).
- **Stub operators.** `proj`, `minus` and the three joins build an empty
  row list. The `Tables.Table` methods return exactly that. What their
  comments describe is kept apart in `DocumentedIntent`.
- **No renaming in joins.** The join comments promise to rename duplicate
  attributes with a `"2"` suffix. The code concatenates the two schemas
  as they are. For a name on both sides, the new table's `col` points at
  the right-hand column (`Schema.ColumnMapConcat`).
- **No type check in `add`.** `add` states that type checking is not
  implemented, and it appends any tuple.
- **`flaw` is only a return value.** `flaw` prints a message and returns
  false. Here it appears as the `false`, `null` or empty result at each
  place the code calls it.

## Model

| member | source | states |
|---|---|---|
| Values.FindClass | Table.java:128-142 | A name resolves exactly when it is one of the six value classes, and then to the class of that name. Any other name leaves the slot unresolved, standing for the `null` a failed lookup leaves. |
| Tables.Table.FindClasses | Table.java:128-142 | The array loop of `findClass` gives one slot per name, and each slot is the lookup of that name. |
| Values.CompareStrings | Table.java:264-269 | `String.compareTo` by sign: the result is in -1..1, and it is 0 exactly when the strings are equal. |
| Values.CompareStringsLexicographic | Table.java:264-269 | The string order is lexicographic. A proper prefix is smaller, a proper extension is larger, and at the first index where the strings differ the string with the smaller character is the smaller. |
| Values.CompareStringsAntisymmetric | Table.java:264-269 | Swapping the two strings negates the comparison. |
| Values.CompareStringsTransitive | Table.java:264-269 | `<=` on strings is transitive. |
| Values.CompareTo | Table.java:263-271 | `compareTo` is defined exactly when both operands have the same class; otherwise it throws `ClassCastException`. Its sign is in -1..1 and is 0 exactly when the values are equal. It is negative exactly when the left operand is smaller: by numeric value for Integer and Long, by rank for Double and Float, by code point for Character, and by `CompareStrings` for String. |
| Values.CompareToAntisymmetric | Table.java:263-271 | Swapping the operands negates the result, and it is defined in both orders or in neither. |
| Values.CompareToTransitive | Table.java:263-271 | `compareTo <= 0` is transitive among values of one class. |
| Values.ConvertLiteral | Table.java:246-262 | The literal converts to a value of the column's class, or to a String for an unresolved class. A Character literal converts exactly when it is non-empty, to its first character. A String literal is kept verbatim, quotes included. A numeric literal converts exactly when the parser for its class accepts it, and then to the parsed number. |
| JavaStrings.Split | Table.java:222 | `split (" ")` gives tokens without spaces. The last token is non-empty unless the input is empty, and `""` splits to `[""]`. |
| JavaStrings.SplitJoin | Table.java:222 | A string not ending in a space is the tokens of its split joined back with single spaces. |
| JavaStrings.JoinSplit | Table.java:98 | Non-empty, space-free tokens joined with single spaces split back into exactly those tokens. |
| JavaStrings.DecimalRoundTrip | Table.java:175 | The decimal text of `count` reads back as the same integer. |
| JavaStrings.DecimalStringInjective | Table.java:175 | Different counter values appended to the same name give different names. |
| Schema.ColumnMap | Table.java:84-85 | `col` holds exactly the attribute names. Each maps to a position holding that name, and to its last such position, because a later `put` overwrites. |
| Schema.ColumnMapInverse | Table.java:118-119 | With distinct attribute names, `col` maps `attribute[i]` to `i` and is the inverse of the attribute array. |
| Schema.ColumnMapConcat | Table.java:363-364 | In a joined schema, a name that occurs on the right maps to its right-hand column shifted by the left width. A left-only name keeps its left position. |
| Schema.Concat | Table.java:416-421 | `concat` has the combined length, with the first array as prefix and the second as suffix. |
| Schema.ProjKey | Table.java:170 | The old key is kept exactly when every key attribute is projected; otherwise the projected attributes become the key. Either way the key lies within the projection. |
| Schema.DomainsFor | Table.java:184-193 | `getDom` returns when every attribute has a column inside the domain array, and then yields `domain[col[attrs[j]]]` for each `j` in order. Otherwise the first failing attribute decides the exception: `NullPointer` for a missing name, `IndexOutOfBounds` for a column outside the array. |
| Rows.Filter | Table.java:206-207 | The filtered rows are at most as many as the input, and are exactly the input rows satisfying the predicate. |
| Rows.FilterAppend | Table.java:206-207 | Filtering a concatenation filters each part, so the filter keeps the original order. |
| Rows.FilterKeepsAll | Table.java:206-207 | A list whose rows all satisfy the predicate filters to itself. |
| Rows.FilterKeepsNone | Table.java:206-207 | A list none of whose rows satisfies the predicate filters to nothing. |
| Rows.FilterIdempotent | Table.java:203-208 | Selecting twice with the same predicate is selecting once. |
| Rows.AppendAbsent | Table.java:290-301 | The nested loop of `union` from an accumulated list never shrinks it, and adds at most one row per right row. |
| Rows.UnionRows | Table.java:282-303 | The union has at least the left rows and at most both operands' rows, and its rows are exactly those of either operand. |
| Rows.FirstOccurrences | Table.java:290-301 | The reference account of what `union` appends, read from the back of the right rows, contains only right rows absent from the accumulation. |
| Rows.AppendAbsentSnoc | Table.java:290-301 | One more right row adds that row at the end, exactly when no equal row has been accumulated so far. |
| Rows.AppendAbsentOrder | Table.java:290-301 | The inner loop yields the accumulated rows followed by `FirstOccurrences`: in right order, the first occurrence of each right row not accumulated already. |
| Rows.AppendAbsentDisjoint | Table.java:290-301 | When no right row is accumulated already and no right row repeats, every right row is appended in order. |
| Rows.AppendAbsentPrefix | Table.java:290-301 | The inner loop keeps the accumulated rows as the prefix of the result. |
| Rows.AppendAbsentMembers | Table.java:290-301 | The rows of the result are exactly the accumulated rows and the right rows, so no right row is lost. |
| Rows.AppendAbsentFresh | Table.java:290-301 | Every row appended is a right row that was not already accumulated. |
| Rows.AppendAbsentNoDuplicates | Table.java:290-301 | The appended rows contain no row twice. |
| Rows.FirstOccurrencesNoDuplicates | Table.java:290-301 | The reference account of the appended rows never lists a row twice. |
| Rows.AppendAbsentShape | Table.java:290-301 | The inner loop keeps the accumulated rows as prefix. It appends only right rows not already present, never appends one row twice, and loses no right row. |
| Rows.UnionRowsSetSemantics | Table.java:282-303 | The union begins with the left rows in order. Its rows are those of either operand, and it has no duplicates when the left operand has none. |
| Condition.Holds | Table.java:263-269 | The six cases of the `switch` by the sign of `compareTo`: on 0 exactly `==`, `<=` and `>=` hold; on a negative sign exactly `!=`, `<` and `<=`; on a positive sign exactly `!=`, `>` and `>=`. |
| Condition.Satisfies | Table.java:241-272 | Covers every outcome of `satifies`. A column past the row throws `IndexOutOfBounds`, because `t[colNo]` is read outside the `try`. A column past the domain array gives false, because that read is inside the `try` and the `catch` returns `flaw`. A literal that does not convert gives false, as does an unknown operator. When the literal converts and the classes agree, each of the six operators returns `Holds` of the sign of `compareTo (t[colNo], literal)`. `==` and `!=` hold exactly when the converted literal equals, or differs from, the cell. `ClassCastException` is thrown exactly when the cell's class differs from the literal's. |
| Condition.SatisfiesComplements | Table.java:263-271 | Once the literal converts and the comparison runs, all six operators return, `!=`, `>=` and `<=` negate `==`, `<` and `>`, and `<=` is `<` or `==`. |
| Condition.CompareConverse | Table.java:264-269 | `t[c] < v` exactly when `v > t[c]`, and likewise for `<=` and `>=`. |
| Condition.SelectRows | Table.java:221-226 | A selection that returns holds at most the input rows, and only input rows. |
| Condition.SelectRowsIsFilter | Table.java:219-229 | `selt (condition)` returns exactly when `satifies` throws on no row. The rows it returns are then the filter of the table's rows by "`satifies` holds", in order, which is `selt (predicate)` with that predicate. |
| Condition.SelectRowsIdempotent | Table.java:219-229 | Selecting the selected rows again with the same condition returns them unchanged. |
| Tables.Successor | Table.java:54 | `count++` on a Java `int` wraps from the largest int to the smallest. |
| JavaStrings.DecimalString | Table.java:175 | `Integer.toString` is a well-formed decimal: digits, after a minus sign exactly when the number is negative. |
| Tables.DerivedName | Table.java:175 | `name + count` strictly extends `name`, and what follows `name` reads back as `count`. |
| Tables.DerivedNamesDiffer | Table.java:175 | Tables derived from one table at different counter values get different names. |
| Tables.NameCounter.constructor | Table.java:54 | The counter starts at 0. |
| Tables.NameCounter.Next | Table.java:175 | `count++` yields the old value and advances the counter by one, with wrap-around. |
| Tables.Table.BuildColumnMap | Table.java:84-85 | The constructor loop builds exactly `ColumnMap (attribute)`. |
| Tables.Table.constructor | Table.java:77-86 | The new table stores the given schema and key, starts with no tuples, and has the column map of its attributes. |
| Tables.Table.FromStrings | Table.java:96-99 | The attributes and the key are the splits of their strings. Each domain is the class looked up for the corresponding token. The table starts with no tuples and has a valid column map. |
| Tables.Table.WithTuples | Table.java:110-120 | The new table stores the given schema, key and tuples, and has the column map of its attributes. |
| Tables.Table.Add | Table.java:150-155 | `add` appends the tuple at the end, leaves every earlier row unchanged, and returns the same table. |
| Tables.Table.ColumnNumber | Table.java:223 | `col.get (a)` is present exactly when `a` is an attribute, and then names a column holding `a`. |
| Tables.Table.GetDom | Table.java:184-193 | The array loop of `getDom` returns or throws exactly as `DomainsFor` does. |
| Tables.Table.Proj | Table.java:166-176 | If `getDom` throws, `proj` throws the same exception and the counter is not advanced. Otherwise the new table has the split attributes, their domains, the key from `ProjKey` and no rows, is named `name + count`, and the counter advances by one. |
| Tables.Table.SeltPredicate | Table.java:203-208 | The new table has the same schema and key, and holds the filtered rows in order. It is named `name + count`, and the counter advances by one. |
| Tables.Table.SelectLoop | Table.java:221-226 | The row loop of `selt (condition)` returns or throws exactly as `SelectRows` does. |
| Tables.Table.SeltCondition | Table.java:219-229 | A condition made only of spaces splits to no tokens and throws `IndexOutOfBounds`. Otherwise the loop returns exactly when `SelectRows` does, with the same rows, the same schema and key, the name `name + count` and the counter advanced. When `SelectRows` throws, the loop throws the same exception and the counter is unchanged. |
| Tables.Table.Compatible | Table.java:312-321 | `compatible` is true exactly when both domain arrays have the same length and agree at every position. |
| Tables.Table.Union | Table.java:282-303 | An incompatible operand gives `null` and leaves the counter unchanged. Otherwise the result has the left schema and key and the rows `UnionRows (left, right)`, is named `name + count`, and the counter advances. Neither operand is modified. |
| Tables.Table.Minus | Table.java:331-339 | An incompatible operand gives `null`. Otherwise the result is a table with the left schema and key and no rows, and the counter advances. |
| Tables.Table.JoinSchema | Table.java:363-364 | The table every join returns: attributes and domains are the concatenations of both operands, the key is the left key, there are no rows, and the counter advances. |
| Tables.Table.EquiJoin | Table.java:354-365 | The equi-join's result has the concatenated schema, the left key and no rows, and the counter advances. |
| Tables.Table.ThetaJoin | Table.java:378-385 | The theta-join's result has the concatenated schema, the left key and no rows, and the counter advances. |
| Tables.Table.NaturalJoin | Table.java:397-405 | The natural join's result keeps the duplicate columns: it has the concatenated schema, the left key and no rows, and the counter advances. |
| DocumentedIntent.ProjectRow | Table.java:157-159 | Documented intent: a projected row has one cell per chosen column, and every cell comes from the original row. |
| DocumentedIntent.ProjectRows | Table.java:157-159 | Documented intent: one projected row per input row, each holding only the chosen columns. |
| DocumentedIntent.ProjectOntoAll | Table.java:157-159 | Documented intent: projecting onto every attribute in schema order keeps every row. |
| DocumentedIntent.MinusRows | Table.java:323-324 | Documented intent: the difference has at most the left rows, and holds only left rows that are not on the right. |
| DocumentedIntent.MinusRowsSemantics | Table.java:323-324 | Documented intent: a row is in the difference exactly when it is on the left and not on the right. A table minus itself is empty, and every left row is in the difference or on the right. |
| DocumentedIntent.MinusWithinUnion | Table.java:323-324 | Documented intent: the difference lies within the union. |
| DocumentedIntent.JoinOne | Table.java:342-345 | Documented intent: the inner loop for one left row yields at most one row per right row. |
| DocumentedIntent.NestedLoopJoin | Table.java:342-345 | Documented intent: a nested-loop join yields at most as many rows as the cartesian product. |
| DocumentedIntent.EquiJoinRows | Table.java:342-345 | Documented intent: the equi-join's rows are exactly the concatenations `t + u` of a left row and a right row that agree on every compared column pair, and there are at most as many as the cartesian product. |
| DocumentedIntent.ThetaJoinRows | Table.java:368-370 | Documented intent: the theta-join's rows are exactly the concatenations `t + u` of a left row and a right row whose compared cells satisfy the operator by `compareTo`, and there are at most as many as the cartesian product. |
| DocumentedIntent.JoinOneMembers | Table.java:342-345 | Documented intent: the inner loop for one left row yields one combined row per matching right row, and no other rows. |
| DocumentedIntent.NestedLoopJoinMembers | Table.java:342-345 | Documented intent: the nested-loop join holds one row per matching pair, and its rows are exactly the combinations of matching pairs. |
| DocumentedIntent.CartesianCount | Table.java:342-345 | Documented intent: when every pair matches, the join has as many rows as the cartesian product. |
| DocumentedIntent.MatchAll | Table.java:342-345 | Documented intent: when every pair matches, each left row matches every right row. |
| DocumentedIntent.DisambiguatedDistinct | Table.java:343-344 | Documented intent: when both schemas have distinct names and no `x2` name clashes, the `"2"` renaming gives a joined schema with distinct names. |
| DocumentedIntent.Disambiguate | Table.java:343-344 | Documented intent: one name per right-hand name, each starting with the original and at most one character longer. A name stays unchanged exactly when the left schema lacks it, and otherwise the added character is `'2'`. |
| DocumentedIntent.Shared | Table.java:388-390 | Documented intent: the shared attributes are exactly the names present on both sides. |
| DocumentedIntent.Positions | Table.java:388-390 | Documented intent: each shared name is located at a column holding that name. |
| DocumentedIntent.DropColumns | Table.java:388-390 | Documented intent: eliminating the duplicate columns removes one cell per listed position and keeps only cells of the row; `DropColumnsAt` fixes where each kept cell lands. |
| DocumentedIntent.DropColumnsAt | Table.java:388-390 | Documented intent: the surviving cells keep their order, the cell at unlisted position `i` landing at `i` minus the number of listed positions before it. |
| DocumentedIntent.DropColumnsKeeps | Table.java:388-390 | Documented intent: the cell at every position not listed survives the elimination. |
| DocumentedIntent.DropColumnsUnlisted | Table.java:388-390 | Documented intent: a row with no listed position is unchanged by the elimination. |
| DocumentedIntent.EquiJoinDropping | Table.java:388-390 | Documented intent: a joined row is exactly a left row followed by a matching right row with the right-hand matched columns dropped, and there are at most as many rows as pairs. |
| DocumentedIntent.NaturalJoinRows | Table.java:388-390 | Documented intent: the natural join has at most as many rows as the cartesian product. Its rows are exactly `t + DropColumns (u, cols2)` for a left row `t` and a right row `u` that agree on every shared attribute, where `cols2` (`SharedRight`) are the right-hand positions of the shared attributes. |
| DocumentedIntent.JoinCountIgnoresLayout | Table.java:387-390 | Documented intent: how the matched rows are laid out does not change how many rows the join has. |
| DocumentedIntent.NaturalJoinCountsAsEquiJoin | Table.java:387-390 | Documented intent: dropping the duplicate columns leaves a natural join with as many rows as the equi-join on the shared attributes. |
| BankScenarios.DepositAttributesSplit | Bank.java:23-24 | `"bname accno cname balance"` splits into the four deposit attributes. |
| BankScenarios.DepositDomainsSplit | Bank.java:23-24 | `"String Integer String Double"` splits into its four class names. |
| BankScenarios.DepositClassesResolve | Bank.java:23-24 | Those class names resolve to the deposit domains. |
| BankScenarios.DepositColumns | Bank.java:23-24 | The deposit column map sends each deposit attribute to its position. |
| BankScenarios.QuotedConditionTokens | Bank.java:57 | `"bname == 'Alps'"` splits into `bname`, `==` and `'Alps'`, with the quotes kept. |
| BankScenarios.UnquotedConditionTokens | Bank.java:57 | `"bname == Alps"` splits into `bname`, `==` and `Alps`. |
| BankScenarios.FilterDepositAlps | Bank.java:38-44 | Any predicate that holds on the two Alps deposit rows and on no other keeps exactly those two, in table order. |
| BankScenarios.QuotedAlpsSelectsNothing | Bank.java:57 | The driver's quoted condition selects none of the seven deposit rows. |
| BankScenarios.UnquotedAlpsSelectsAlps | Bank.java:57 | A variant the driver does not run: without quotes, the condition of Bank.java:57 selects the two Alps rows `Alps903` and `Alps906`. |
| BankScenarios.PredicateAlpsSelectsAlps | Bank.java:56 | The predicate query selects the two Alps rows `Alps903` and `Alps906` of the seven. |
| BankScenarios.UnknownAttributeThrows | Table.java:223-225 | A condition on a missing attribute throws `NullPointerException` once there is a row to test, and selects nothing from an empty table. |
| BankScenarios.DomainsForPair | Table.java:184-193 | `getDom` of two resolvable names returns their two domains in order. |
| BankScenarios.DepositProjection | Bank.java:55 | `deposit.proj ("bname cname")` has two String domains. |
| BankScenarios.DepositProjectionKey | Bank.java:55 | `deposit.proj ("bname cname")` does not project the key `accno`, so it takes the projected attributes as its key. |
| BankScenarios.SampleDeposit | Bank.java:38-44 | `deposit` after its seven `add` calls holds exactly those rows, in order. |
| BankScenarios.SampleLoan | Bank.java:46-51 | `loan` after its six `add` calls holds exactly those rows, in order. |
| BankScenarios.LoanRowsFresh | Bank.java:38-51 | No two sample loan rows are equal, and no loan row equals a deposit row. |
| BankScenarios.DepositUnionLoan | Bank.java:58 | `deposit.union (loan)` on the sample rows is the seven deposit rows followed by all six loan rows. |
| BankScenarios.DepositUnionQuery | Bank.java:58 | The sample `deposit` and `loan` tables are compatible, and their union holds the deposit rows followed by the loan rows. |
| BankScenarios.UnionSkipsPresentRow | Table.java:290-301 | On adapted data (a second operand that repeats the deposit row `Main902`, which the sample's loans never do), the union appends the new row and skips the repeated one. |
| BankScenarios.IncompatibleUnionIsNull | Table.java:282-284 | A union the driver does not perform: `deposit` with the three-column `customer` is incompatible, so the result is `null` and the counter is unchanged. |
| BankScenarios.DepositCustomerJoin | Bank.java:60 | `deposit.join ("cname", "cname", customer)` has the concatenated schema and, as written, no rows. |

## Left out

- Console output is left out: `show`, `printTup`, and the `println` calls in `flaw`, `findClass` and `getDom`.
- `Serializable` is left out.
- `HashMap` internals are not modelled: `col` is a Dafny `map`.
- Values.FindClass: `Class.forName` is reflection. Only the six value classes the code converts literals for are resolved. Any other `java.lang` class, such as `Short` or `Byte`, is treated like a failed lookup, and no cell of those classes can be stored. A condition on such a column still takes the String branch of `satifies`, as in Java.
- Tables.Table.Compatible, Tables.Table.Union, Tables.Table.Minus: because `Short`, `Byte` and a failed lookup share one tag, the model calls a `Short` column compatible with a `Byte` column or with an unresolved one. Java compares the `Class` objects and finds them incompatible, so there `union` and `minus` return `null` where the model builds a table.
- Values.ConvertLiteral: `Integer.valueOf`, `Long.valueOf`, `Double.valueOf` and `Float.valueOf` are passed in as partial functions (`Parsers`). Their own parsing rules are not modelled; the conversion succeeds exactly when the parser does and keeps the parsed value.
- Values.CompareTo: Double and Float cells are abstract ranks in the order `Double.compareTo` and `Float.compareTo` define, so floating-point arithmetic is not modelled.
- Values.ConvertLiteral: `charAt (0)` yields the first UTF-16 code unit, but the model takes the first Unicode scalar value, and `CharacterV` holds a scalar value rather than a UTF-16 unit. For a literal starting outside the Basic Multilingual Plane, Java gets a high surrogate and the model gets the whole character.
- Values.CompareStrings: compares Unicode scalar values. Java compares UTF-16 code units, and the two orders differ for characters outside the Basic Multilingual Plane.
- Values.CompareStrings: returns only the sign of `String.compareTo`, which is all `satifies` uses.
- `null` cells and `null` tuples are not modelled: every row is a sequence of non-null values.
- Aliasing is not modelled. Rows are values. Java shares row arrays between tables: `selt` shares them, `union` clones them. Java also keeps the caller's list when a table is built from a tuple list. The model does not capture later in-place changes to a shared row or list.
- Tables.NameCounter: the static `count` becomes an object passed to every operator. Sharing one counter across all tables is up to the caller.
- Tables.Table.EquiJoin: `attributes1` and `attributes2` are split by the code and then unused, so the model ignores them.
- Tables.Table.ThetaJoin: the code ignores `condition`, and so does the model.
- Tables.Table.SeltPredicate: the predicate is a total `Row -> bool`, so it never throws. In Java, `name + count++` runs before the stream filter, so a throwing predicate (an unboxing `NullPointerException`, or a short row) advances the counter and yields no table. The model does not capture that case.
- Rows of the stub operators are not modelled beyond the documented intent in `DocumentedIntent`: the code of `proj`, `minus` and the joins builds none.

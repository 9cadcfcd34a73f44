# ePortfolio engine in Dafny

A model of the holding-management engine of the ePortfolio application, with
proofs about it. The engine consists of four classes.

- **Investment, Stock and MutualFund:** an investment holds a symbol, a
  name, a quantity, a current price and a book value (its cost basis).
  - A Stock pays a 9.99 commission on every buy and every sell.
  - A MutualFund pays a 45.00 redemption fee on every sell.
  - A sell removes book value at the average cost per unit.
- **Portfolio:** an ordered list of investments plus a keyword index. The
  index maps each lower-case token of an investment's name to the positions
  of the investments that carry it. The Portfolio class provides:
  - buy and sell;
  - the total gain;
  - a search by symbol, name keywords and a price-range expression;
  - a line-based text format for saving and loading.

The model is split into six modules, one file each:

| file | module | what it holds |
|---|---|---|
| `text.dfy` | `Text` | The parts of `java.lang.String` the engine relies on: `trim`, ASCII case mapping, `equalsIgnoreCase`, `startsWith`, `replace` of one character, `split` on a character and on `\s+`. |
| `investment.dfy` | `Investments` | The value of an investment (`Holding`), the input checks, the fee arithmetic as functions on values, and the class `Investment`. Its `Buy`, `Sell` and `UpdatePrice` methods update the fields in place and are proved against those functions. |
| `price_range.dfy` | `PriceRanges` | The price-range grammar of `matchesPriceRange`, its meaning, and the search form's `buildPriceRange`. |
| `keyword_index.dfy` | `KeywordIndex` | The keyword index as a function of the names' token lists (`IndexOf`), the two updates the portfolio applies to it, and the multi-keyword intersection. |
| `codec.dfy` | `Codec` | The lines `saveToFile` writes, the loop of `loadFromFile` as a fold over lines, and the save-then-load round trip. |
| `portfolio.dfy` | `Portfolios` | Buy, sell and search as functions on the list of values, with the lemmas about them. Also the class `Portfolio`: a `seq<Investment>` and a `map<string, seq<int>>` whose methods are proved against those functions. |

The invariant of `Portfolio` (`Valid`) has two parts. Every investment passes
the constructor's checks. The index equals `IndexOf` of the token lists of
the names: position `x` is in the bucket of `t` exactly when the name at `x`
has the token `t`. A name with a repeated token puts its position in that
bucket once per occurrence. Every method that changes the portfolio keeps
this invariant.

## Behaviour of the code worth knowing

The model follows the code in each of these cases.

- `buyInvestment` is documented as "Adds or updates an investment"
  (Portfolio.java:150). Yet `findInvestment` returns a copy
  (Portfolio.java:219-241), so a buy on a symbol already held updates only
  that copy. The stored investment, the list and the index stay as they
  were. The same holds for a partial `sellInvestment` (Portfolio.java:184-201):
  only a sale of the whole quantity changes the portfolio.
- A search whose keyword tokens have no common position does not return an
  empty result. It falls back to every position (Portfolio.java:134-136) and
  then applies the symbol and price-range filters.
- Loading recomputes the book value from quantity and price and ignores the
  value written in the file (Portfolio.java:54-59). So a saved book value
  survives a reload only when it still equals the initial book value.
- A saved record is six key lines followed by a blank line, so it takes
  seven lines of the file (Portfolio.java:83-88).

## Model

| member | source | states |
|---|---|---|
| Text.TrimFacts | Investment.java:116-121 | `trim` keeps the slice of the string from its first to its last character above U+0020. Every character cut off is at most U+0020; the kept ends are not. |
| Text.TrimIdempotent | Investment.java:120 | Trimming a trimmed name changes nothing. |
| Text.TrimmedUnchanged | Portfolio.java:42 | A string whose first and last characters are above U+0020 is its own trim. |
| Text.BlankIffAllTrimmable | Portfolio.java:296 | `trim().isEmpty()` holds exactly when every character is at most U+0020. |
| Text.ToLower | Portfolio.java:299 | `toLowerCase` keeps the length and maps each character by the ASCII case mapping. |
| Text.ToUpper | Investment.java:107 | `toUpperCase` keeps the length and maps each character by the ASCII case mapping. |
| Text.EqualsIgnoreCaseIffSameUpper | Portfolio.java:221 | `equalsIgnoreCase` holds exactly when the two upper-cased strings are equal. |
| Text.RemoveChar | Portfolio.java:44 | `replace("\"", "")` leaves no quote, never lengthens, and leaves a string without quotes as it is. |
| Text.RemoveCharConcat | Portfolio.java:44 | Removing a character from a concatenation removes it from each part. |
| Text.DropTrailingEmpty | Portfolio.java:299 | `split` drops exactly the empty pieces at the end of its result. |
| Text.SplitOnOne | Portfolio.java:339 | Splitting on the one separator a line holds gives the text before it and the text after it. |
| Text.InnerPiecesNonEmpty | Portfolio.java:299 | `split("\\s+")` gives no empty piece except a first one, which appears exactly when the string starts with whitespace. |
| Text.SplitWordsConcat | Portfolio.java:295-300 | `splitWords` yields no token exactly when the input is blank. Otherwise the tokens, put together, spell the lower-cased input with its whitespace removed. |
| Text.SplitWordsChars | Portfolio.java:299 | Every token of `splitWords` is lower case and free of whitespace. |
| Text.NoEmptyToken | Portfolio.java:249-252 | A name that does not start with whitespace (a trimmed name) yields no empty token. |
| Text.SplitSpacesJoin | Portfolio.java:299 | `split("\\s+")` undoes joining: non-empty words free of whitespace, written out with one space between each pair, split back into exactly those words. |
| Text.SplitWordsJoin | Portfolio.java:295-300 | `splitWords` breaks exactly at whitespace: lower-case words free of whitespace, joined by single spaces, come back as those words, or as no tokens when the text is blank. |
| Investments.KindNamed | Portfolio.java:168-170 | The type names a Stock exactly when it equals "stock" ignoring case; every other type gives a MutualFund. |
| Investments.ValidateSymbol | Investment.java:103-108 | A symbol passes exactly when it matches `^[A-Z0-9]+$`, and is then returned unchanged, because upper-casing it changes nothing. Otherwise it fails with the symbol error. |
| Investments.ValidateName | Investment.java:116-121 | A name passes exactly when it is not blank, and is then returned trimmed. Otherwise it fails with the name error. |
| Investments.ValidateQuantity | Investment.java:129-134 | A quantity passes exactly when it is positive, and is returned unchanged. |
| Investments.ValidatePrice | Investment.java:142-147 | A price passes exactly when it is positive, and is returned unchanged. |
| Investments.NewHolding | Investment.java:20-26 | Construction succeeds exactly when all four checks pass. Otherwise it reports the first failing check, in the order symbol, name, quantity, price. A new holding is valid, stores the trimmed name, and has the book value of its class. Its gain is minus the buy fee: -9.99 for a stock, 0 for a fund. |
| Investments.AfterSell | Stock.java:66-74 | A sell fails exactly when it asks for more than is held or the price is not positive, and in that order. |
| Investments.AfterUpdatePrice | Investment.java:62-64 | `updatePrice` succeeds exactly when the new price is positive. It then changes the price and nothing else. |
| Investments.BuyArithmetic | Stock.java:50-53 | A buy with a bad quantity changes nothing. A buy with a good quantity and a bad price throws the price error with the quantity already raised and the book value kept. A valid buy adds the quantity and the cost plus the buy fee of the class, leaves identity and price alone, and moves the gain by `a * (price - p)` minus the fee. |
| Investments.SellArithmetic | MutualFund.java:53-61 | After a sell, symbol, name, class and price are unchanged and the quantity is lower by the amount sold. The proceeds are the sale value less the class's fee. A partial sell keeps the average cost per unit; selling everything leaves a book value of 0. |
| Investments.RoundTripCost | Stock.java:37-39 | Buying and at once selling everything at the same price costs a stock twice the commission and a fund the redemption fee once. |
| Investments.Investment.constructor | Investment.java:20-26 | Given arguments that pass the checks, the new object holds exactly what `NewHolding` builds. |
| Investments.Investment.Copy | Investment.java:33-42 | The copy constructor copies the class and all five fields. |
| Investments.Investment.Create | Stock.java:15-18 | `new Stock(...)` or `new MutualFund(...)` gives a fresh object when the checks pass. Otherwise it gives the exception of the first failing check. |
| Investments.Investment.UpdatePrice | Investment.java:62-64 | The object's fields afterwards are those `AfterUpdatePrice` gives, or unchanged when it throws. |
| Investments.Investment.Buy | Stock.java:50-53 | The object's fields and the outcome are those `AfterBuy` gives. A bad price throws after the quantity has already been raised. |
| Investments.Investment.Sell | MutualFund.java:53-61 | The object's fields and the proceeds are those `AfterSell` gives. When it throws, nothing changes. |
| Investments.IdentityKept | Investment.java:156-164 | `buy` (whether it succeeds or throws), a successful `sell` and a successful `updatePrice` keep class, symbol and name, the three fields `equals` compares. So an investment stays equal to itself across them. |
| PriceRanges.Parse | Portfolio.java:320-324 | A range matches every price exactly when it is blank. |
| PriceRanges.ParseUntrimmed | Portfolio.java:321-324 | A range text whose ends are above U+0020 is read as it stands, with no trimming. |
| PriceRanges.ParseTrimmed | Portfolio.java:325-344 | A non-blank range never matches every price. |
| PriceRanges.ParsePair | Portfolio.java:338-343 | The fourth pattern yields either a closed interval or a range that matches nothing. |
| PriceRanges.NumberTrimmed | Portfolio.java:321-324 | A number of the grammar is not blank and is its own trim. |
| PriceRanges.DashNotNumber | Portfolio.java:326 | Text that holds a dash is not a number of the grammar. |
| PriceRanges.ParseExact | Portfolio.java:326-329 | A number `P` matches exactly the price `P`. |
| PriceRanges.ParseAtLeast | Portfolio.java:330-333 | `P-` matches the prices from `P` up. |
| PriceRanges.ParseAtMost | Portfolio.java:334-337 | `-P` matches the prices up to `P`. |
| PriceRanges.ParseBetween | Portfolio.java:338-343 | `P1-P2` matches the closed interval from `P1` to `P2`. |
| PriceRanges.ParsePairForm | Portfolio.java:338-343 | The fourth pattern gives an interval exactly when the text is two numbers around a dash. |
| PriceRanges.ParseTrimmedForm | Portfolio.java:325-347 | A trimmed range matches nothing exactly when it has none of the forms `P`, `P-`, `-P` and `P1-P2`. |
| PriceRanges.ParseNoForm | Portfolio.java:320-347 | A non-blank range matches no price at all exactly when its trimmed text has none of the four forms. |
| PriceRanges.ExamplesWithTen | Portfolio.java:326-337 | "10" matches 10 and not 10.01; "10-" matches 10 and 250.5 and not 9.99; "-10" matches 10 and not 10.01. |
| PriceRanges.ExampleInterval | Portfolio.java:338-343 | "5-10" matches 5 and 10 and not 4.99 or 10.5. |
| PriceRanges.ExampleTwoDecimals | Portfolio.java:326-329 | "12.34" matches 12.34 and not 12.3. |
| PriceRanges.ExampleThreeDecimals | Portfolio.java:344 | "12.345" matches nothing, not even 12.345: at most two decimals are allowed. |
| PriceRanges.ExampleInvalid | Portfolio.java:344 | "abc" matches nothing. |
| PriceRanges.PointedNumber | Portfolio.java:326 | Digits, a point and one or two decimals form a number of the grammar, whose value is the decimal they write. |
| PriceRanges.ShowCentsParses | Portfolio.java:326 | Every amount in whole cents can be written as a number of the grammar that reads back as that amount. |
| PriceRanges.BuildPriceRangeMatches | SearchInterface.java:115-126 | When the two bounds are empty or numbers, the range the search form builds from them matches exactly the prices within the bounds that were given. |
| KeywordIndex.IndexMembership | Portfolio.java:249-253 | In the index of a list of names, position `x` is in the bucket of `t` exactly when the name at `x` has token `t`. A key is present exactly when its bucket is not empty. |
| KeywordIndex.BucketEmpty | Portfolio.java:270-272 | A token's bucket is empty exactly when no name has that token, so the consistent index has no empty bucket. |
| KeywordIndex.BucketSorted | Portfolio.java:249-253 | Every bucket of the consistent index lists its positions in ascending order. |
| KeywordIndex.AddWordsLookup | Portfolio.java:249-253 | After `indexKeywords(name, pos)`, each token's bucket is the old bucket followed by `pos`, once per occurrence of the token in the name. A key is present exactly when it was before or is a token of the name. |
| KeywordIndex.IndexAppend | Portfolio.java:249-253 | Indexing an appended name at the new last position turns the index of the old list into the index of the new one. |
| KeywordIndex.Without | Portfolio.java:264 | `removeIf(pos == removed)` keeps exactly the other positions. |
| KeywordIndex.Renumber | Portfolio.java:265-269 | The renumbering loop lowers by one every position above the removed one and keeps the rest, in place. |
| KeywordIndex.RemoveFromIndex | Portfolio.java:261-274 | After `updateIndexOnRemoval`, a key stays exactly when its adjusted bucket is not empty. |
| KeywordIndex.AdjustBucket | Portfolio.java:263-269 | Adjusting one bucket of the consistent index for the removal at `j` gives the bucket of the names that are left. |
| KeywordIndex.IndexRemove | Portfolio.java:261-274 | `updateIndexOnRemoval(j)` turns the index of the list into the index of the list without position `j`. |
| KeywordIndex.RetainAll | Portfolio.java:125 | `retainAll` keeps exactly the elements found in the other list, and never lengthens the list. |
| KeywordIndex.RetainAllSorted | Portfolio.java:125 | `retainAll` on an ascending list leaves it ascending. |
| KeywordIndex.MatchedStaysEmpty | Portfolio.java:127-129 | Once the intersection is empty it stays empty, so the `break` changes nothing. |
| KeywordIndex.MatchedMembership | Portfolio.java:120-130 | With the consistent index, `x` is in the intersection of the keywords' buckets exactly when the name at `x` has every keyword. |
| KeywordIndex.MatchedSorted | Portfolio.java:120-130 | With the consistent index, the intersection is in ascending order. |
| Codec.ShowInt | Portfolio.java:86 | The quantity text is not empty and holds neither `=` nor a quote. |
| Codec.ParseInt | Portfolio.java:50 | A text that `Integer.parseInt` accepts is not empty, and its value lies in the 32-bit range. |
| Codec.ParseShowInt | Portfolio.java:50 | `Integer.parseInt` reads back every int that `Integer.toString` writes. |
| Codec.ParseIntOverflow | Portfolio.java:50 | A number above the int range makes `Integer.parseInt` throw a NumberFormatException. |
| Codec.ParseIntExamples | Portfolio.java:50 | "+7" reads as 7; "-" and "" throw. |
| Codec.RecordLines | Portfolio.java:83-88 | Each investment is written as seven lines, the last of them blank. |
| Codec.SaveLines | Portfolio.java:82-89 | A save writes seven lines per investment. |
| Codec.SaveLinesAppend | Portfolio.java:82-89 | Saving one more investment adds its record at the end. |
| Codec.FieldOf | Portfolio.java:44 | The value read from a line holds no quote. |
| Codec.ParseAll | Portfolio.java:41-42 | Every line is trimmed and read on its own. |
| Codec.Commit | Portfolio.java:56-62 | A committed record resets the pending values and is one valid investment. It has the pending symbol, quantity and price, the trimmed name, and the initial book value of its class. |
| Codec.StepLine | Portfolio.java:43-68 | Only a `bookValue` line commits anything. It commits one valid investment whose book value is recomputed, and resets the pending values. |
| Codec.Run | Portfolio.java:41-72 | Every investment a load commits passed the constructor's checks. |
| Codec.SkippedLine | Portfolio.java:43-53 | A line that starts with none of the six keys, a blank line included, changes nothing. |
| Codec.RunPrefix | Portfolio.java:70-72 | What a load commits from the first lines stays committed whatever follows, and after a stop nothing more is read. |
| Codec.Reloaded | Portfolio.java:54-59 | A reloaded investment keeps class, symbol, name, quantity and price. |
| Codec.ReloadedAll | Portfolio.java:54-59 | Reloading maps every investment, in order, to its reloaded value. |
| Codec.QuotedValue | Portfolio.java:44 | The value of a line `key = "value"` is read back as `value` when it holds no quote. |
| Codec.RecordParses | Portfolio.java:83-88 | The seven lines written for an investment are read back as its six keys, each with the value written, then a skipped blank line. |
| Codec.TypeNameKind | Portfolio.java:57 | The type written for a class is read back as that class. |
| Codec.CommitRecord | Portfolio.java:56-67 | The pending values of a saved record commit that record, with its book value recomputed. |
| Codec.RecordSteps | Portfolio.java:43-53 | Each line of a saved record except the book-value line moves the pending values one field on and commits nothing, when `read` gives back the record's saved price. |
| Codec.CommitStep | Portfolio.java:53-67 | The book-value line of a saved record commits the record, reloaded, and resets the pending values, when `read` gives back the record's saved book value. |
| Codec.RecordRuns | Portfolio.java:41-68 | Reading a saved record and then any other lines commits that record first, then whatever the other lines commit, when `read` gives back the record's saved price and book value. |
| Codec.LoadSave | Portfolio.java:41-88 | Loading what was saved gives back every investment, in order, with its book value recomputed, and reads to the end. This needs names free of `"`, `=` and line breaks (`readLine` ends a line at `\n` or `\r`), int quantities, number text with no quote, `=` or line break, and a `read` that gives back each saved price and book value from `show`'s text. |
| Portfolios.TokensRemove | Portfolio.java:194-195 | The token lists of the list without position `j` are the token lists without position `j`. |
| Portfolios.SymbolsIgnoreCase | Portfolio.java:221 | Two valid symbols are equal ignoring case only when they are equal. |
| Portfolios.FindPos | Portfolio.java:219-226 | `findInvestment` stops at the first investment whose symbol equals the given one ignoring case, or finds none when no symbol does. |
| Portfolios.IndexOfValue | Investment.java:156-164 | `indexOf` on values stops at the first investment of the same class with the same symbol and name, or finds none when there is no such investment. |
| Portfolios.IndexOfFound | Portfolio.java:189-195 | `indexOf` of the sold copy, which keeps class, symbol and name, stops at the position `findInvestment` found. So `sellInvestment` removes the investment it sold from. |
| Portfolios.TotalGainConcat | Portfolio.java:100-106 | The total gain of two lists put together is the sum of their total gains. |
| Portfolios.TotalGainRemove | Portfolio.java:192-196 | Removing an investment takes its gain out of the total. |
| Portfolios.BuyChecks | Portfolio.java:158-162 | A purchase fails exactly when an argument fails its check, reporting the first failure in the order symbol, name, quantity, price. |
| Portfolios.BuyEffect | Portfolio.java:164-173 | A symbol already held, ignoring case, leaves the list unchanged. A new symbol appends exactly one investment at the end, of the class the type names, with the trimmed name and its class's initial book value. |
| Portfolios.AppendPreserves | Portfolio.java:171 | Appending a valid investment keeps the list valid; appending a new symbol keeps the symbols unique. |
| Portfolios.RemovePreserves | Portfolio.java:194 | Removing an investment keeps the list valid and the symbols unique. |
| Portfolios.ConsistentAfterAdd | Portfolio.java:171-172 | `add` followed by `indexKeywords` at the last position keeps the index consistent. |
| Portfolios.ConsistentAfterRemove | Portfolio.java:194-195 | `remove(index)` followed by `updateIndexOnRemoval(index)` keeps the index consistent. |
| Portfolios.BuyPreserves | Portfolio.java:158-174 | A purchase keeps every investment valid and keeps the symbols unique. |
| Portfolios.BuyGain | Portfolio.java:158-174 | A purchase of a new symbol lowers the total gain by its class's buy fee. A purchase of a held symbol leaves the total as it was. |
| Portfolios.SellChecks | Portfolio.java:184-201 | A sale fails exactly when an argument is rejected, the symbol is not held, or more is sold than held. The error is the first of these, in the order symbol, quantity, price, not found, insufficient quantity. |
| Portfolios.SellEffect | Portfolio.java:189-197 | A sale returns the sale value less the class's fee. It removes the investment exactly when its whole quantity is sold, and otherwise leaves the list as it was. |
| Portfolios.SellPreserves | Portfolio.java:184-201 | A sale keeps every investment valid and keeps the symbols unique. |
| Portfolios.SellGain | Portfolio.java:184-201 | Selling everything takes the investment's gain out of the total; a partial sale leaves the total as it was. |
| Portfolios.Positions | Portfolio.java:281-287 | `getAllPositions` lists `0` to `n-1` in order. |
| Portfolios.CandidatesMembership | Portfolio.java:117-136 | If the keyword is blank, or no name has every keyword token, every position is searched. Otherwise exactly the positions whose names have every token are searched. |
| Portfolios.CandidatesInRange | Portfolio.java:133-136 | Every position searched is a position of the list, and they come in ascending order. |
| Portfolios.SearchByCandidates | Portfolio.java:133-136 | With the consistent index, the search is the filter applied to the positions it searches. |
| Portfolios.SelectMembership | Portfolio.java:138-144 | The filter keeps an investment exactly when it sits at one of the positions and passes both the symbol filter and the price-range filter. |
| Portfolios.SearchMembership | Portfolio.java:116-147 | An investment is in the search result exactly when it passes both filters and it is either in the keyword match or the keyword match is empty or blank. The keyword match means its name has every keyword token. |
| Portfolios.LowerTokens | Portfolio.java:121 | The `toLowerCase` applied to each keyword token changes nothing. |
| Portfolios.RemoveIfEqual | Portfolio.java:264 | The `removeIf` loop leaves the bucket without the removed position. |
| Portfolios.LowerAbove | Portfolio.java:265-269 | The loop with `positions.set` lowers by one every position above the removed one. |
| Portfolios.ValuesRemove | Portfolio.java:194 | The values of the list without one object are the values without that position. |
| Portfolios.Rebuilt | Portfolio.java:57-59 | A committed record is exactly what the constructor builds from its fields. |
| Portfolios.RemovalThrowsIff | Portfolio.java:262-272 | With each key iterated once, the loop as written throws exactly when a bucket other than the last one iterated becomes empty. |
| Portfolios.RemovalCounterexample | Portfolio.java:262-272 | With holdings "Fund" (position 0) and "Gold" (position 1), selling all of "Gold" throws: the HashMap visits "gold" first, its bucket empties while "fund" is still to come. |
| Portfolios.RemovalIntended | Portfolio.java:261-274 | The same removal as intended leaves only "fund", still at position 0. |
| Portfolios.Portfolio.constructor | Portfolio.java:14-21 | A new portfolio is empty, with an empty index, and consistent. |
| Portfolios.Portfolio.FindInvestment | Portfolio.java:219-241 | `findInvestment` returns a fresh copy of the first investment whose symbol equals the given one ignoring case, or null. |
| Portfolios.Portfolio.IndexOfInvestment | Portfolio.java:193 | `indexOf` returns the first position whose investment `equals` the target, or -1. That is `IndexOfValue` of the values, because `equals` looks only at class, symbol and name. |
| Portfolios.Portfolio.IndexKeywords | Portfolio.java:249-254 | The index afterwards is the old index with the position appended to the bucket of every token of the name. |
| Portfolios.Portfolio.UpdateIndexOnRemoval | Portfolio.java:261-274 | The index afterwards has every bucket adjusted for the removal and every emptied bucket deleted. |
| Portfolios.Portfolio.AdjustKey | Portfolio.java:263-272 | One pass of that loop adjusts the bucket of one key, and deletes it once it is empty. |
| Portfolios.Portfolio.GetAllPositions | Portfolio.java:281-287 | The positions `0` to `n-1`, in order. |
| Portfolios.Portfolio.GetTotalGain | Portfolio.java:100-106 | The sum of the investments' gains, in list order. |
| Portfolios.Portfolio.BuyInvestment | Portfolio.java:158-174 | The portfolio afterwards is what `Bought` gives, and stays consistent. When a check fails, the list and the index are unchanged and the error is reported. |
| Portfolios.Portfolio.BuyChecked | Portfolio.java:164-173 | After the checks: a held symbol leaves the list as it was, and a new one is appended. |
| Portfolios.Portfolio.Add | Portfolio.java:171-172 | The investment is appended at the end and the index stays consistent. |
| Portfolios.Portfolio.RemoveAtIndex | Portfolio.java:194-195 | The investment at `index` is removed and the index stays consistent. |
| Portfolios.Portfolio.SellInvestment | Portfolio.java:184-201 | The portfolio and the proceeds afterwards are what `SoldFrom` gives, and the portfolio stays consistent. When the sale fails, nothing changes and the error is reported. |
| Portfolios.Portfolio.SearchInvestments | Portfolio.java:116-147 | The result is `Search` of the current investments, whose meaning `SearchMembership` states. |
| Portfolios.Portfolio.SearchPositions | Portfolio.java:117-136 | The positions searched are the keyword's matches, or every position when the keyword is blank or matches nothing (`Candidates`). |
| Portfolios.Portfolio.IntersectKeywords | Portfolio.java:117-131 | The keyword loop, with its early `break`, computes the intersection of the buckets, or nothing for a blank keyword. |
| Portfolios.Portfolio.FilterPositions | Portfolio.java:138-144 | The result loop keeps, in order, the investments at the positions that pass both filters. |
| Portfolios.Portfolio.LoadFromLines | Portfolio.java:35-72 | The investments a load commits are appended in order, up to the line that stops it, and that stop is returned. The portfolio stays consistent. |
| Portfolios.Portfolio.ApplyLine | Portfolio.java:42-68 | One pass of the loop does what `StepLine` says: it sets one pending value, or commits and indexes one investment, or stops the load. |
| Portfolios.Portfolio.SaveToLines | Portfolio.java:80-93 | The lines written are `SaveLines` of the current investments. |
| Portfolios.Portfolio.WriteRecord | Portfolio.java:83-88 | The seven writes for one investment are its record as `RecordLines` defines it. |

## Left out

- The Swing forms (EPortfolioGUI, BuyInterface, SellInterface, UpdateInterface, SearchInterface, GainInterface) are user interface. Only `buildPriceRange` from SearchInterface is modelled, so that it can be composed with the price-range filter.
- `updatePrices` and `promptForPrice` read prices from standard input in a retry loop. Only the per-investment `updatePrice` is modelled.
- File handling in `loadFromFile` and `saveToFile` is left out: the `File.exists` check, readers, writers and console messages. The model loads from and saves to a sequence of lines. A missing file leaves the portfolio as it is, and so does an empty sequence of lines.
- IEEE-754 doubles are modelled as exact reals. So neither the rounding of `quantity * price` nor the `%.2f` of the `toString` methods is modelled.
- `Double.toString` and `Double.parseDouble` are the parameters `show` and `read`. The round-trip lemma requires only that `read` gives back each saved price and book value from `show`'s text, and that `show` never writes a quote, `=` or line break. `Codec.ReadsBackMet` shows a pair that meets this for any investment.
- `Integer.toString` is modelled. `Integer.parseInt` is modelled with its sign handling and its 32-bit range, but only for ASCII digits.
- Codec.ParseInt: accepts only the ASCII digits `0` to `9`. Java's `parseInt` also accepts the other Unicode decimal digits, so a quantity line such as "١٢" loads as 12 in Java but stops the model's load with a bad number. Files written by `saveToFile` hold only ASCII digits.
- `searchInvestments` returns the matching investments' values, not their `toString` strings.
- Strings are never null in the model. The null checks of `splitWords`, `matchesPriceRange`, the validators and the copy constructor are not modelled.
- Case mapping (`toLowerCase`, `toUpperCase`, `equalsIgnoreCase`) covers ASCII letters only.
- The regular-expression class `\s` is taken as the six ASCII whitespace characters.
- HashMap's iteration order is not modelled. The as-written loop of `updateIndexOnRemoval` is modelled for any given key order; the portfolio uses the intended update (see Findings).
- `createCopy` returns null for an investment that is neither a Stock nor a MutualFund. No such investment exists, so that branch is not modelled.
- `hashCode` and the getters are not modelled separately; the getters are the fields themselves.
- Investments.Investment.Sell: requires a positive quantity held. Every investment in a portfolio has one; called on an empty holding with a non-positive amount to sell, Java would divide by zero.
- Investments.Investment.Buy: the quantity is an unbounded integer, so Java's int wrap-around of `quantity += additionalQuantity` on overflow is not modelled. The same holds for the portfolio's buy and load.
- Portfolios.Select: takes the price range already parsed. `matchesPriceRange` parses the same string for every candidate and depends on nothing else, so the result is the same.

## Findings

| source | as written | input that shows it | evidently intended | confidence | as-written member | corrected member |
|---|---|---|---|---|---|---|
| Portfolio.java:261-274 | An emptied bucket is deleted with `keywordIndex.remove` inside the `entrySet()` loop. The iterator's next step then throws a ConcurrentModificationException, after `sellInvestment` has already removed the investment (Portfolio.java:194-195), so no proceeds are returned and any bucket the loop had not yet reached is left without its renumbering. | Two holdings named "Fund" and "Gold"; sell all of "Gold" (position 1). The HashMap visits "gold" first (String.hashCode puts "gold" in bucket 0 and "fund" in bucket 5 of the default table), so its bucket empties while "fund" is still to come. The exception escapes after "Gold" is removed; "fund" needed no renumbering here, so the harm this input shows is the lost sale result. | Every bucket adjusted and every emptied bucket deleted, whatever the iteration order. | not executed; HashMap order depends on the keys' hashes | Portfolios.RemovalCounterexample | Portfolios.Portfolio.UpdateIndexOnRemoval |

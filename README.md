# Price tracker: price normalisation and alert decision

A Dafny model of the logic of a polling price tracker
(`automatic_price_taker.py`). The program fetches a product page, reads the
text of the price element, turns it into a number, and sends an e-mail alert
when the price is at or below a configured threshold and either no alert
has been sent yet or it is lower than the last alerted price. This project models the parts of that program
that can be stated without I/O:

- `PriceParse` (`price_parse.dfy`): `parse_price` — keep the digits, `.` and
  `,` of the text in order, delete the `,` thousands separators, and read the
  rest as a decimal number, or give `None` ("unavailable") when it is not a
  number. Numbers are exact `real`s. Also the part of `get_price` after the
  element lookup: no element gives `None`, otherwise the stripped text is
  parsed.
- `Monitor` (`monitor.dfy`): the body of `main`. `Step` is one poll cycle on
  the last alerted price (the loop's only state, initially unset);
  `RunFrom`/`Run` run cycles over a finite sequence of observations;
  `MonitorLoop` is the loop itself, as a method whose `while` loop updates
  the last alerted price and appends each alerted price to a list, proved
  equal to `Run` and to keep the alert list strictly decreasing and within
  the threshold.
- `AlertEmail` (`alert_email.dfy`): the alert message text — a `Subject:`
  header line, a blank line, and a body naming the price and the URL — with
  a function that reads a message back into subject and body.
- `Wrappers` (`wrappers.dfy`): the `Option` type used for "unavailable" and
  for the unset last alerted price.

The threshold is a parameter, not a configuration value. Each observation of
the monitor is an abstract `Option<real>`: what `get_price` returned for that
cycle (`PriceParse.PriceOfElement` says how it is obtained from the element
text). Sending an alert is recorded as appending the price to the alert list.

## Model

| member | source | states |
|---|---|---|
| PriceParse.Filter | automatic_price_taker.py:37 | the filtered text is no longer than the input and holds only digits, `.` and `,` |
| PriceParse.FilterIsKeptSubsequence | automatic_price_taker.py:37 | the filtered text is exactly the subsequence of kept characters: its j-th character is the input character at the j-th kept position, the positions strictly increase, and a position is kept exactly when its character is a digit, `.` or `,` |
| PriceParse.FilterConcat | automatic_price_taker.py:37 | filtering works character by character in order: the filter of a concatenation is the concatenation of the filtered parts |
| PriceParse.FilterOfKept | automatic_price_taker.py:37 | text made only of digits, `.` and `,` passes the filter unchanged |
| PriceParse.RemoveCommas | automatic_price_taker.py:38 | comma removal leaves no `,` and is no longer than its input; applied to filtered text it leaves only digits and `.` |
| PriceParse.RemoveCommasCounts | automatic_price_taker.py:38 | comma removal keeps every character other than `,` exactly as often as it occurs in the input |
| PriceParse.RemoveCommasConcat | automatic_price_taker.py:38 | comma removal works character by character in order: on a concatenation it is the concatenation of the parts with commas removed |
| PriceParse.RemoveCommasOfCommaFree | automatic_price_taker.py:38 | text without `,` is unchanged by comma removal |
| PriceParse.Normalize | automatic_price_taker.py:37-38 | after filtering and comma removal only digits and `.` remain |
| PriceParse.NormalizeIdempotent | automatic_price_taker.py:37-38 | filtering and comma removal applied a second time change nothing |
| PriceParse.NormalizeIsKeepNumerals | automatic_price_taker.py:37-38 | filter-then-remove-commas equals keeping exactly the digits and `.` of the input in one pass |
| PriceParse.KeepNumeralsDigitsAndDots | automatic_price_taker.py:37-38 | the normalised text has a digit exactly when the input has one, and as many `.` as the input |
| PriceParse.ParseDecimal | automatic_price_taker.py:40-42 | reading digits and `.` as a number gives a non-negative value or `None` |
| PriceParse.ParseDecimalSomeIff | automatic_price_taker.py:39-42 | on digits and `.`, the number reader succeeds exactly when there is at least one digit and at most one `.` |
| PriceParse.ParseDecimalOfDigits | automatic_price_taker.py:40 | a non-empty digit string reads as its integer value |
| PriceParse.ParseDecimalOfPoint | automatic_price_taker.py:40 | integer digits, one `.`, and fraction digits (not both empty) read as integer part plus fraction digits over 10 to the number of fraction digits |
| PriceParse.ParsePrice | automatic_price_taker.py:35-42 | `parse_price` gives a number exactly when the input has at least one digit and at most one `.` (so empty or symbol-only text is unavailable); every number it gives is non-negative |
| PriceParse.ParsePriceIsStrippedValue | automatic_price_taker.py:36-40 | the price is the decimal value of the input with every character other than digits and `.` stripped |
| PriceParse.ParsePriceDollarExample | automatic_price_taker.py:36 | `"$1,234.56"` reads as 1234.56 |
| PriceParse.ParsePriceEuroExample | automatic_price_taker.py:37-40 | `"€999"` reads as 999 |
| PriceParse.ParsePriceNoDigitExample | automatic_price_taker.py:37-42 | `"Sold out"` is unavailable |
| PriceParse.ParsePriceTwoPointsExample | automatic_price_taker.py:37-42 | `"1.2.3"` is unavailable, not truncated |
| PriceParse.TrimStart | automatic_price_taker.py:30 | the leading half of `str.strip()`; specified by TrimStartIsSuffix and FilterTrimStart |
| PriceParse.TrimEnd | automatic_price_taker.py:30 | the trailing half of `str.strip()`; specified by TrimEndIsPrefix and FilterTrimEnd |
| PriceParse.Strip | automatic_price_taker.py:30 | `str.strip()` over the whitespace of `str.isspace`; specified by TrimStartIsSuffix, TrimEndIsPrefix, FilterTrimStart and FilterTrimEnd |
| PriceParse.TrimStartIsSuffix | automatic_price_taker.py:30 | removing leading whitespace leaves a suffix of the input that does not start with whitespace, and only whitespace is removed |
| PriceParse.TrimEndIsPrefix | automatic_price_taker.py:30 | removing trailing whitespace leaves a prefix of the input that does not end with whitespace, and only whitespace is removed |
| PriceParse.FilterTrimStart | automatic_price_taker.py:30-31 | removing leading whitespace does not change the filtered text |
| PriceParse.FilterTrimEnd | automatic_price_taker.py:30-31 | removing trailing whitespace does not change the filtered text |
| PriceParse.PriceOfElement | automatic_price_taker.py:28-33 | no matching element gives `None`; otherwise the price of the stripped element text equals the price of the unstripped text |
| Monitor.ShouldAlert | automatic_price_taker.py:59-60 | the alert condition of a cycle; Step alerts exactly when it holds |
| Monitor.Step | automatic_price_taker.py:57-69 | a cycle alerts exactly when the price is present, at most the threshold (equality counts), and there was no earlier alert or the price is strictly below the last alerted one; the status is "unavailable", "above threshold" or "no new drop" exactly in the other cases; the last alerted price becomes the observed price on an alert and is unchanged otherwise |
| Monitor.StepNeverRaises | automatic_price_taker.py:59-63 | a cycle never raises or unsets the last alerted price, and an alert strictly lowers it |
| Monitor.StepRepeatNoAlert | automatic_price_taker.py:59-63 | the same observation in the very next cycle sends no alert and changes no state |
| Monitor.RunFrom | automatic_price_taker.py:54-71 | the cycles of the loop over a finite observation sequence from a given last alerted price; specified by RunFromAlertsDecrease, RunFromAlertObserved, RunFromConcat and RunSnoc |
| Monitor.Run | automatic_price_taker.py:53-71 | the monitor from start-up, with no alert sent; specified by the RunFrom lemmas, NoRealertWithoutNewMinimum and the scenarios, and implemented by MonitorLoop |
| Monitor.RunFromAlertsDecrease | automatic_price_taker.py:54-63 | over any finite observation sequence the alerted prices strictly decrease, all lie within the threshold and below the starting last alerted price, the final last alerted price is the last alert, and there are at most as many alerts as cycles |
| Monitor.RunFromAlertObserved | automatic_price_taker.py:56-63 | every alerted price is one of the observed prices |
| Monitor.RunFromConcat | automatic_price_taker.py:55-71 | running the cycles of p and then those of q from the state p left is the same as running p + q |
| Monitor.RunSnoc | automatic_price_taker.py:55-71 | one more cycle at the end of a run adds that cycle's alert, if any, to the alert list and moves to the state that cycle leaves |
| Monitor.RunFromLastAtMostObserved | automatic_price_taker.py:59-63 | once a price within the threshold has been observed, the last alerted price is set and at most that price |
| Monitor.NoRealertWithoutNewMinimum | automatic_price_taker.py:59-63 | after a price x within the threshold has been observed, every later alert is strictly below x, even if the price rose above the threshold in between; earlier alerts are kept as they were |
| Monitor.RepeatedObservationNoAlert | automatic_price_taker.py:59-63 | repeating the latest observation adds no alert and no state change |
| Monitor.FallingPricesScenario | automatic_price_taker.py:54-63 | threshold 50 and prices 60, 45, 45, 40, 42, 38 alert exactly at 45, 40 and 38 |
| Monitor.UnavailableThenDropScenario | automatic_price_taker.py:56-69 | three unavailable cycles and then 49.99 under threshold 50 alert once, at 49.99 |
| Monitor.ThresholdInclusiveScenario | automatic_price_taker.py:59-60 | a first price equal to the threshold alerts |
| Monitor.MonitorLoop | automatic_price_taker.py:53-71 | the loop over a finite prefix of cycles produces the alert list and last alerted price of `Run`; its alerts strictly decrease and lie within the threshold, and the last alerted price is the last alert, or unset when none was sent |
| AlertEmail.AlertBody | automatic_price_taker.py:49 | the body is the opening words, the price text, the `.` and the line introducing the link, and the URL, in that order |
| AlertEmail.MessageText | automatic_price_taker.py:50 | a `Subject:` header line, a blank line and the body; specified by MessageRoundTrip |
| AlertEmail.AlertMessage | automatic_price_taker.py:48-50 | the message with the fixed subject and the alert body; specified by AlertMessageRoundTrip |
| AlertEmail.MessageRoundTrip | automatic_price_taker.py:50 | a message made of a `Subject:` line with a newline-free subject, a blank line and a body reads back as that subject and that body |
| AlertEmail.AlertMessageRoundTrip | automatic_price_taker.py:48-50 | the alert message reads back as the fixed subject and the body naming the price and the URL |

## Left out

- Configuration loading (automatic_price_taker.py:8-21): external file I/O; the threshold is a parameter and the URL a string argument.
- The HTTP request and the HTML element lookup (automatic_price_taker.py:24-28): network and foreign libraries; the element text is an `Option<string>` argument of `PriceOfElement`, and each monitor observation an `Option<real>`. A network exception at line 24 is not caught and ends `main`; runs are modelled only up to such a cycle.
- The SMTP session (automatic_price_taker.py:45-47, 51): network I/O; an alert is an entry of the alert list. A failing send raises out of `main` before line 63; the model takes every send as successful, so a run that fails at a send corresponds to the model run on the cycles before it.
- Sleeping and the status lines (automatic_price_taker.py:58-71): timing and console output; the status line a cycle prints is the `Monitor.Status` of `Step`.
- The endless `while True` (automatic_price_taker.py:55): runs are verified over every finite prefix of observations.
- Floating point (automatic_price_taker.py:13, 40): prices and the threshold are exact reals, so rounding of `float()` is not modelled.
- ParseDecimal: models `float()` only on text made of ASCII digits and `.`, the only text it receives after normalisation; signs, exponents, `inf`/`nan` and surrounding whitespace never reach it.
- Filter: `str.isdigit` also accepts non-ASCII digits (such as superscripts), which `float()` may then refuse; the model keeps only `0`-`9`.
- AlertBody: takes the price as text; Python's `f"{price}"` formatting of a float is not modelled.

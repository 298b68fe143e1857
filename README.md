# Listing normalisation of the BrokerageBD scraper and cleaner

This project models in Dafny the part of the real-estate scraper and cleaner that
turns scraped text into table rows. The browser and the file layers are removed. The
model covers six parts:

- the two price normalisers: `normalize_price` in the scraper and `clean_price` in
  the cleaner;
- the fact extractors for a card's title and a listing's address, and the cleaner's
  `extract_area`;
- the text rules of `scrape_property_detail`. Every DOM query becomes the sequence
  of its elements' texts. Each field is then "the first element whose text passes
  the test, query after query, until the field is truthy";
- the reconciliation of one listing's sources into an output row, with the reduced
  row used when the price cannot be read;
- the URL accumulator (`all_urls`, `all_card_data`) and the final de-duplication by URL;
- `clean_dataset`: the three column assignments, then `drop_duplicates` and
  `dropna(subset=["price_clean"])`.

The modules follow the program:

- `Base`: `Option`, and keep-first de-duplication, selection and subsequence facts
  shared by both tables;
- `Text`: ASCII lower-casing, substring tests, `strip`, `.title()`;
- `Patterns`: one hand-written scanner per regular expression, with leftmost-match
  semantics;
- `Prices`, `Listing`, `Detail`, `Collector`, `Records`, `Cleaning`: one module per
  part above.

Modelling choices:

- Python's `None` is `Option.None`.
- An exception escaping a normaliser is the outcome `Raises`:
  - `float(".")` in `normalize_price`;
  - `[0]` of an empty match list in `clean_price`.
- Python floats are exact `real` numbers. `round(x, 2)` is the nearest hundredth,
  ties upward.
- Whether a page loaded, and what each query returned, are parameters. A failed page
  is `None`.
- Everything is in the source's own form:
  - the search loops of the detail page, the accumulator and the cleaner's column
    assignments are methods with loops;
  - those methods are proved against the functions that specify them;
  - the rest is functions.

## Model

| member | source | states |
|---|---|---|
| Prices.NormalizePrice | src/scraping.py:20-42 | `None` exactly for a non-string or a text without a `[\d.]+` token after lower-casing and removing `,`, `bdt`, `tk` and whitespace. Raises exactly when the first token is not a number. A price is never negative. Its value is given by `NormalizePhrase`. |
| Prices.ParseDecimalAccepts | src/scraping.py:41 | `float` accepts a `[\d.]+` token exactly when it has at most one dot and at least one digit. |
| Prices.Round2 | src/scraping.py:42 | `round(x, 2)` is within half a hundredth of `x` and keeps non-negative amounts non-negative. |
| Prices.Round2Exact | src/scraping.py:42 | An amount with at most two decimals is left unchanged by the rounding. |
| Prices.PriceTextOfPhrase | src/scraping.py:25 | For "<currency><digits><sep><unit>", the inspected text is "<digits><sep><unit>" in lower case. |
| Prices.MultiplierOfPhrase | src/scraping.py:29-35 | The multiplier found in such a text is the unit's value: crore, then lakh/lac, then thousand/k, else 1. |
| Prices.FirstTokenOfPhrase | src/scraping.py:37 | The first `[\d.]+` token of "<digits><sep><unit>" is the digits. |
| Prices.NormalizePhrase | src/scraping.py:20-42 | For `"<tk \| bdt \| ><number>[ ]<unit>"` with any `[\d.]+` number, such as "1.2 Crore": raises when `float` refuses the number, otherwise the number times 10,000,000, 100,000, 1,000 or 1, rounded. |
| Prices.NormalizeWholePhrase | src/scraping.py:20-42 | With a whole number of units, the price is exactly the integer product: rounding keeps it. |
| Prices.CleanPrice | src/cleaning.py:5-21 | `None` exactly for a non-string, or for a text with no crore, no lakh and no token. Raises exactly when crore or lakh is present without a token, or when the token is not a number. |
| Prices.CleanPhrase | src/cleaning.py:5-21 | `clean_price` of such a phrase, with any `[\d.]+` number: raises when `float` refuses it, otherwise the number times a crore or a lakh only. "lac", "thousand" and "k" are not scaled. |
| Prices.CleanWholePhrase | src/cleaning.py:5-21 | With a whole number, the result is the integer product. |
| Prices.NormalizersAgreeOnPhrase | src/scraping.py:29-35 | For a positive amount, the two normalisers agree exactly when the unit is crore, lakh or absent. |
| Prices.Tk45LakhExample | src/scraping.py:25-42 | "Tk 45 Lakh" is 4,500,000 for both normalisers. |
| Prices.FifteenKExample | src/scraping.py:34-35 | "15k" is 15,000 for `normalize_price` and 15 for `clean_price`. |
| Prices.LacExample | src/scraping.py:32-33 | "45 lac" is 4,500,000 for `normalize_price` and 45 for `clean_price`. |
| Prices.FortyFiveLakhExample | src/cleaning.py:6 | The documented example "45 lakh" is 4,500,000. |
| Prices.ParseOnePointTwo | src/cleaning.py:13 | `float("1.2")` is 1.2. |
| Prices.CroreDecimalExample | src/cleaning.py:5-14 | "1.2 Crore" and "Tk 1.2 Crore" are 12,000,000 for `normalize_price`. "Tk 1.2 Crore", the documented example of `clean_price`, is 12,000,000 for it too. |
| Patterns.LeftmostFrom | src/scraping.py:54 | `re.search` is the leftmost start at which the pattern matches. No earlier start matches, and `None` means no start matches. |
| Patterns.LeftmostIsWholeRun | src/scraping.py:54-61 | For a pattern starting with `(\d+)`, the captured number is a whole digit run of the text. |
| Patterns.DecimalIsFirstRun | src/scraping.py:37 | The first `[\d.]+` token is a maximal run of digits and dots, with no such character before it. |
| Patterns.AreaGroupBounded | src/cleaning.py:25-26 | The `(\d{3,5})` group has 3 to 5 digits, so its value is at most 99999. |
| Listing.ExtractInfoFromTitle | src/scraping.py:45-74 | An empty or "N/A" title gives no facts. The area and bedroom count are present exactly when their patterns match the lower-cased title, and the location exactly when its pattern matches the title. |
| Listing.TitleRentWinsOverSale | src/scraping.py:69-72 | Rent exactly when "rent" occurs; Sell exactly when "sale" occurs and "rent" does not; none otherwise. |
| Listing.TitleNumbersAreWholeRuns | src/scraping.py:54-61 | The area and bedroom numbers are whole digit runs, each followed by a non-digit, and they are the values of those runs. |
| Listing.TitleLocationIsPiece | src/scraping.py:64-66 | The title's location has no comma and is a piece of the title. |
| Listing.UrlNumbersAreWholeRuns | src/scraping.py:83-89 | The address's area and bedroom numbers are whole digit runs followed directly by "-sft" or "-bedroom", and they are the values of those runs. |
| Listing.ExtractInfoFromUrl | src/scraping.py:76-108 | An empty or "N/A" address gives no facts. Area, bedrooms and location are present exactly when their patterns match. No property type exactly when none of flat, apartment, house occurs. |
| Listing.UrlRentWinsOverSale | src/scraping.py:95-98 | The same Rent-over-Sell rule on the lower-cased address. |
| Listing.PropertyTypeIn | src/scraping.py:101-106 | No type exactly when none of the three words occurs. Otherwise Flat, Apartment or House. |
| Listing.UrlLocationIsSegment | src/scraping.py:85-92 | The location is non-empty and has no slash or hyphen. Lower-cased, it is the text after the first "in-" up to the next slash, hyphens read as spaces. Each word starts with a capital. |
| Listing.UrlLocationNameShape | src/scraping.py:92 | `.replace('-', ' ').title()` keeps the length. Lower-casing gives back the segment with hyphens as spaces. |
| Listing.UrlLocationNameCapitalised | src/scraping.py:92 | Every word that starts with a letter starts with a capital. |
| Detail.FindField | src/scraping.py:137-146 | The nested query/element loops give the value that `SearchQueries` specifies. |
| Detail.SearchFindsFirst | src/scraping.py:137-146 | When every accepted value is truthy, the field is the first accepted element over all queries in order. |
| Detail.SearchFindsNothing | src/scraping.py:137-146 | The field stays `None` exactly when no element of any query is accepted. |
| Detail.SearchStartValue | src/scraping.py:145-146 | A search started from a falsy value ends with what the remaining queries find, or keeps that value when they find nothing. |
| Detail.AreaAccept | src/scraping.py:139-143 | An element is accepted exactly when the first digit run of its text without commas has a value in [100, 10000], and the area is that value. |
| Detail.DetailAreaIsFirstInRange | src/scraping.py:137-146 | The area is the first element whose first number lies in [100, 10000]. A later number in the same element is never tried. |
| Detail.FloorAccept | src/scraping.py:238-242 | "floor/level then number" decides whenever it matches. The floor is missing exactly when neither pattern matches. |
| Detail.DetailCountFound | src/scraping.py:158-168 | A 0 does not end the search. When the first query's first match reads 0, the later queries' result replaces it, and the 0 stays only when they find nothing. |
| Detail.PriceAccept | src/scraping.py:191-195 | A text is taken as the price exactly when, once stripped, it has a price keyword (case-sensitive). The price is the stripped text and is non-empty. |
| Detail.DetailPriceIsFirstWithKeyword | src/scraping.py:184-198 | The price is the first element with a keyword, stripped. |
| Detail.LocationAccept | src/scraping.py:333-337 | A location is taken exactly when, once stripped, it is longer than two characters and not "N/A". |
| Detail.DetailLocationIsFirstLongEnough | src/scraping.py:326-340 | The location is the first such element, stripped. |
| Detail.DealFromUrl | src/scraping.py:255-258 | Rent exactly when the address has "rent". Nothing exactly when it has none of rent, sale, sell. |
| Detail.DealOf | src/scraping.py:255-275 | The detail page's Rent/Sell is always "Rent", "Sell" or nothing. |
| Detail.AddressThenPageText | src/scraping.py:252-266 | With no rent or sale word in the price, the address decides, and the page text decides only when the address is silent. |
| Detail.NoBodyNoDeal | src/scraping.py:260-261 | A silent address on a page without `<body>` leaves Rent/Sell undecided, whatever the price says, because the exception ends the block. |
| Detail.RentPriceOverrides | src/scraping.py:269-272 | A "per month", "monthly" or "rent" price forces Rent over what the address or page said. |
| Detail.SalePriceOnlyFills | src/scraping.py:273-275 | A crore or lakh price sets Sell only when nothing was decided before. |
| Detail.ScrapePropertyDetail | src/scraping.py:110-337 | Scraping a page runs the field searches in the scraper's order and yields `DetailOf`. The property type falls back to the address. |
| Collector.BeforeHash | src/scraping.py:526-527 | `split("#")[0]` is a prefix without '#'. It stops at the first '#', and is the whole text when there is none. |
| Collector.DirectLinkUrl | src/scraping.py:524-528 | A direct link is added exactly when it is present, non-empty, unlisted, contains "/property/", and its fragment-free form is unlisted. The added address has no '#'. |
| Collector.CardLinkUrl | src/scraping.py:602-605 | A card link is added exactly when it is present, non-empty and unlisted, unchanged. |
| Collector.DirectStep | src/scraping.py:524-559 | The list grows by at most one address at its end. Stored card facts are never replaced. |
| Collector.CardStep | src/scraping.py:602-650 | The list grows by at most one address at its end. The card facts of a new address are stored. With a valid accumulator, old card facts survive. |
| Collector.StepsKeepValid | src/scraping.py:524-529 | Both paths keep the addresses distinct and card facts only for listed addresses. |
| Collector.LinksKeepValid | src/scraping.py:521-529 | Over a page, both paths keep the accumulator valid, and the old list is a prefix of the new one. |
| Collector.DirectLinksHaveNoFragment | src/scraping.py:526-529 | Every address added by the direct-link search is free of '#'. |
| Collector.MarkerMayLieInFragment | src/scraping.py:524-527 | "a#/property/" passes the marker test and is added as "a". |
| Collector.UrlCollector.AddDirectLink | src/scraping.py:524-559 | The direct-link step, in place on `all_urls`/`all_card_data`, keeping the class invariant. |
| Collector.UrlCollector.AddCardLink | src/scraping.py:602-650 | The card step, in place, keeping the class invariant. |
| Collector.UrlCollector.AddDirectLinks | src/scraping.py:521-565 | The loop over a page's links gives `DirectLinks`. It returns the number of new addresses. |
| Collector.UrlCollector.AddCardLinks | src/scraping.py:579-655 | The loop over a page's cards gives `CardLinks`. It returns the number of new addresses. |
| Records.FirstTruthyIsFirst | src/scraping.py:1007-1016 | An `or` chain is `None` exactly when every source is falsy. Otherwise it is the value at the first truthy source, with every earlier source falsy. |
| Records.CountChain | src/scraping.py:1007-1008 | A Python `or` chain of counts is the first truthy count. |
| Records.TextChain | src/scraping.py:1009-1016 | A Python `or` chain of texts is the first truthy text. |
| Records.FullRecord | src/scraping.py:1007-1029 | Area and bedrooms: detail > title > address. Price: detail > card. Location: detail > card > title > address. For: detail > title > address. Type: detail > address. Bathroom and floor: detail only. A falsy value, 0 included, becomes "N/A", and URL is the address. The row is missing exactly when the chosen price makes `normalize_price` raise. |
| Records.ReducedRecord | src/scraping.py:1033-1056 | Bathroom and floor are "N/A". The other columns use card > title > address. The price column is "N/A" exactly when the card has no usable price. Missing exactly when the card's price makes `normalize_price` raise. |
| Records.RecordFor | src/scraping.py:1007-1057 | A row written for an address has that address, and none of its cells is falsy. |
| Records.DetailAreaWins | src/scraping.py:1007 | A truthy detail-page area decides the column. A 0 there gives way to the title and then the address. |
| Records.LocationPrecedence | src/scraping.py:1011 | The location column is "N/A" when no source has one. Otherwise it is the first non-empty source in the order detail, card, title, address. |
| Records.Rows | src/scraping.py:987-1057 | The run aborts exactly when some address aborts. Otherwise there is one row per address. |
| Records.RowsFollowUrls | src/scraping.py:987-1057 | Row i is built for address i, and no cell of any row is falsy. |
| Records.DedupByUrl | src/scraping.py:1073 | No two rows share a URL, no URL is lost, and each row kept is the first row with its URL. |
| Records.DedupKeepsCollectedRows | src/scraping.py:1073 | Because collected addresses are distinct, de-duplicating by URL removes nothing. |
| Records.CollectRows | src/scraping.py:986-1057 | The loop over the addresses gives `Rows`. So it stops exactly at an address that aborts, and otherwise appends one row per address in order. |
| Records.ScrapeTable | src/scraping.py:986-1073 | The loop, then de-duplication by URL: `None` exactly when an address aborts, otherwise the de-duplicated rows of `Rows`. |
| Base.KeepFirstDistinct | src/scraping.py:1073 | After `drop_duplicates(keep='first')` no two rows share a key. |
| Base.KeepFirstKeys | src/scraping.py:1073 | De-duplication loses no key. |
| Base.KeepFirstKeepsFirst | src/scraping.py:1073 | Each kept row is the first row of the input with its key. |
| Base.FirstIndices | src/scraping.py:1073 | The first-occurrence positions of the input, strictly increasing. A position is listed exactly when no earlier row has its key. |
| Base.KeepFirstAtFirstIndices | src/scraping.py:1073 | `keep='first'` by position: de-duplication gives the rows at the first occurrences of their keys, in the order of those positions. |
| Base.KeepFirstOfDistinct | src/scraping.py:1073 | Rows with distinct keys are all kept, in order. |
| Base.KeepFirstIsSubseq | src/cleaning.py:37 | De-duplication keeps the surviving rows in their original order. |
| Base.FilterIsSubseq | src/cleaning.py:38 | `dropna` keeps the surviving rows in their original order. |
| Base.FilterMembers | src/cleaning.py:38 | `dropna` keeps exactly the rows that have the value. |
| Cleaning.ExtractArea | src/cleaning.py:23-26 | `None` exactly when no 3-to-5-digit run followed by optional whitespace and sqft/sft/ft occurs in the lower-cased title. Otherwise the value of that group, at most 99999. |
| Cleaning.AreaIsNumberBeforeUnit | src/cleaning.py:25 | The area is the rest of a digit run, 3 to 5 digits long, followed by the gap and a unit. |
| Cleaning.AreaExample | src/cleaning.py:24 | "1200 sqft" has area 1200. |
| Cleaning.PriceValue | src/cleaning.py:32 | `price_clean` is present exactly when `clean_price` gives a number, and is that number. |
| Cleaning.CleanRow | src/cleaning.py:32-35 | `price`, `title` and the other columns pass through. `price_clean` is present exactly when the price reads as a number. `area_sqft` is at most 99999. `location` is missing only when it was. |
| Cleaning.CleanRowIdempotent | src/cleaning.py:32-35 | Applying the column assignments twice is applying them once. |
| Cleaning.DropDuplicatesShape | src/cleaning.py:37 | `drop_duplicates()` leaves no two equal rows, keeps every distinct row, and keeps the original order. The output is the input's rows at their first occurrences, in the order of those positions (`keep='first'`), so `[a, b, a]` gives `[a, b]`. |
| Cleaning.CleanTableShape | src/cleaning.py:32-38 | Every output row has `price_clean`. No two output rows are equal. The output is a subsequence of the cleaned input, holding exactly the cleaned rows with a price. It is exactly the cleaned rows at their first occurrences, in order, less those without a price. |
| Cleaning.OutputSettled | src/cleaning.py:28-38 | The output table has no failing price or title, every row has `price_clean`, each row is already clean, and no two rows are equal. |
| Cleaning.SettledIsFixed | src/cleaning.py:28-38 | A table in that state comes out of `clean_dataset` unchanged. |
| Cleaning.CleanTableIdempotent | src/cleaning.py:28-38 | Cleaning the output table again gives the same table. |
| Cleaning.CleanDataset | src/cleaning.py:28-38 | The in-place column assignments, then de-duplication and the price filter, give `CleanTable`. It fails on an unreadable price before a missing title. |
| Cleaning.AssignPrices | src/cleaning.py:32 | The `price_clean` column is assigned in place. It fails exactly when some price makes `clean_price` raise. |
| Cleaning.AssignAreas | src/cleaning.py:33 | The `area_sqft` column is assigned in place. It fails exactly when some title is missing. |
| Cleaning.StripLocations | src/cleaning.py:35 | Every `location` cell is stripped in place. |

## Left out

- The browser is not modelled: the Selenium driver, `driver.get`, `find_elements`,
  clicking, scrolling and `time.sleep`. Each DOM query is a given sequence of element
  texts. An exception inside one query makes that query empty. A page that fails to
  load yields every field as `None`.
- The page loop and the search for a next-page button are not modelled. This
  includes the URL-based paging built with `urllib`. It is trial-and-error DOM
  navigation.
- The card walk's choice of link among its selectors is not modelled. The link each
  card yields is an input of `AddCardLinks`. The same holds for how a card's title,
  address and price texts are read.
- File input and output are not modelled: `read_csv`, `to_csv`, `save_raw_data` and
  `save_clean_data`. Neither is the hand-off from the scraper's columns to the
  cleaner's. Console printing and summary statistics are left out too.
- Floating point is not modelled. Prices are exact reals. `round(x, 2)` rounds ties
  upward, where Python rounds the binary value half to even.
- Only ASCII is handled: lower-casing, `.title()`, `strip` and `\s` cover ASCII
  letters and whitespace. Digits are ASCII too: `\d` and `[\d.]` match only `0`-`9`,
  and `int()` and `float()` read only those. Python's versions also accept other
  Unicode decimal digits, such as the Bengali digits ০-৯, which the model treats as
  ordinary characters.
- pandas column types are not modelled. A missing cell is `None`, and every present
  cell is text. Not modelled:
  - numeric column inference;
  - `.str` on a column with no text, which raises;
  - NaN equality details of `drop_duplicates`.
- An exception in the reconciliation other than `normalize_price` raising is not
  modelled. The record is pure text logic and cannot raise elsewhere.
- Listing.ExtractInfoFromTitle: the documented example
  "1437 sft 3-bedroom flat is ready for sale in Uttara" is not proved as a concrete
  instance, because evaluating the long literal is too costly for the verifier. The
  general lemmas cover the rules it illustrates. The same holds for the address
  example `...-for-sale-in-uttara-k8/` (src/scraping.py:82).

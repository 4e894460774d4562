# Data pipeline core: extractor, reader and transformer

A Dafny model of the three core stages of the `data_pipeline` package. The model covers the
following stages:

- **Extractor** (`extractor.py`) reads a raw JSON-lines file of one entity (sales, products,
  orders, customers or countries). It cleans each line: it drops a trailing comma, parses the
  line, and replaces the undesired characters in the attribute names with `_`. It then checks
  each line against the entity's schema and stores it with the valid lines or with the
  broken ones.
- **Reader** (`reader.py`) lists a folder and keeps the files ending with
  `{file_name}.{file_type}`. It picks the one whose timestamp prefix (the text before the
  first `_`) is the latest.
- **Transformer** (`transformer.py`) builds the consumable analytics table in these steps:
  - prefixes every curated table's columns with its entity name (`Sale`, `Product`, `Order`,
    `Customer`, `Country`);
  - restores the sales key `SaleId`;
  - left-joins the four other entities onto sales;
  - totals the sale quantities per country and currency;
  - derives four ratio features;
  - selects the requested columns.

Modules:

| module | file | contents |
|---|---|---|
| `Common` | `common.dfy` | `Option`, `Result` (failure-compatible), `Distinct`, `ToSet` |
| `Tables` | `tables.dfy` | cell values, rows as maps, frames (a polars DataFrame), the transformer's errors, the numeric cast of a ratio |
| `Frames` | `frames.dfy` | the polars operations the transformer uses: `rename`, left `join`, cross `join`, `with_columns`, `select` |
| `Transformer` | `transformer.dfy` | `transformer.py`: prefixes, the renaming loop over a mutable dictionary (`class CuratedFlatStructures`), the join chain, the totals, the features and the builder method |
| `TransformerProperties` | `transformer_properties.dfy` | what the transformer promises: distinct prefixes, the joins keep every sale, totals add up, shares sum to one, every feature cell is its ratio, the shape of the output |
| `Extractor` | `extractor.dfy` | `extractor.py`: comma removal, key normalisation, schema routing into `class Storage`, the line loop |
| `ExtractorProperties` | `extractor_properties.dfy` | normalised keys are clean and idempotent, the cleaned dictionary keeps the last value per key in first-seen order, extraction succeeds exactly when every line cleans, and the two lists partition the lines |
| `Reader` | `reader.dfy` | `reader.py`: candidate files, the sort key, the latest file and its path |

Conventions:

- A table is a `Frame`, which holds an ordered list of column names and a sequence of rows.
- A row is a `map<string, Value>`. A column missing from a row reads as `Null`.
- Every exception the source can raise is a `Failure` value:
  - `KeyError` on a dictionary, the `IndexError` of a line shorter than two characters, and a
    JSON decode error;
  - in the transformer: a missing entity, a missing column, or a duplicate column name.
- Things outside the program are passed in as parameters:
  - the file's lines, the folder listing and `DATA_ROOT_FOLDER` (`dataRoot`);
  - the JSON parser (`parse`), the pydantic schema check (`accepts`), and the cast to a
    scale-6 decimal (`round6`).

## Model

| member | source | states |
|---|---|---|
| `Transformer.ColumnPrefix` | projects/data-pipeline/data_pipeline/transformer.py:20-25 | "countries" gives "Country". Any other name gives its capitalised form without its last character: first letter upper-case, the rest lower-case, and one character shorter (empty stays empty). |
| `TransformerProperties.EntityPrefixes` | projects/data-pipeline/data_pipeline/transformer.py:20-25 | The five entity files give the prefixes Sale, Product, Order, Customer and Country. |
| `TransformerProperties.PrefixInitials` | projects/data-pipeline/data_pipeline/transformer.py:20-25 | Each entity's prefix starts with two letters that differ from entity to entity. |
| `TransformerProperties.PrefixedNamesDisjoint` | projects/data-pipeline/data_pipeline/transformer.py:43-44 | Columns of two different entities can never get the same prefixed name, whatever the original names are. |
| `Transformer.CreateColumnsRenaming` | projects/data-pipeline/data_pipeline/transformer.py:43-46 | The loop adds exactly the frame's columns to the mapping. Each column maps to prefix + column. Entries for other names are unchanged. |
| `Transformer.PrefixRenameSucceeds` | projects/data-pipeline/data_pipeline/transformer.py:273-275 | On a table with distinct columns the prefix renaming cannot fail. The new columns are the old ones prefixed, in the same order. |
| `TransformerProperties.PrefixRenamedCells` | projects/data-pipeline/data_pipeline/transformer.py:266-276 | The renamed table is well formed and keeps its rows. Each row's cell under prefix + c is the old cell under c. |
| `Transformer.CuratedFlatStructures.constructor` | projects/data-pipeline/data_pipeline/transformer.py:248 | The caller's dictionary of curated tables, which the builder overwrites in place. |
| `Transformer.RenameColumns` | projects/data-pipeline/data_pipeline/transformer.py:263-276 | The loop over the dictionary replaces every entry with its prefix-renamed table. It resets the renaming dictionary to empty each time. |
| `Frames.Rename` | projects/data-pipeline/data_pipeline/transformer.py:279-281 | polars `rename`. It fails when a mapped name is not a column, or when the new names would clash. Otherwise each column is renamed in place and every cell moves with its column. |
| `TransformerProperties.SalesKeyRestored` | projects/data-pipeline/data_pipeline/transformer.py:279-281 | The special case succeeds exactly when sales has a `SaleId` column and no `Id` column; with both, the rename would produce a duplicate `SaleId`. On success it yields `SaleId` plus every other column prefixed with `Sale`, and keeps every row. |
| `Frames.Matching` | projects/data-pipeline/data_pipeline/transformer.py:63-68 | The right rows a left row joins to all come from the right table and have an equal, non-null key. |
| `Frames.MatchingComplete` | projects/data-pipeline/data_pipeline/transformer.py:63-68 | Every right row whose key equals the left key, and is not null, is among the rows joined to it. |
| `Frames.MatchingConcat` | projects/data-pipeline/data_pipeline/transformer.py:63-68 | The rows joined to a left row are the matching right rows, each once per occurrence, in right-table order: matching a concatenation is the concatenation of the matches. |
| `Frames.LeftJoinKeepsEveryRow` | projects/data-pipeline/data_pipeline/transformer.py:63-68 | A left join never loses a left row. |
| `Frames.LeftJoinUnique` | projects/data-pipeline/data_pipeline/transformer.py:63-68 | When the right key is unique, the join has one row per left row. Each row keeps the left cells, and the right cells come from the matching right row, or are null when none matches. |
| `TransformerProperties.JoinKeepsEverySale` | projects/data-pipeline/data_pipeline/transformer.py:61-87 | A successful chain of four left joins needs sales to exist and yields at least one row per sale. |
| `TransformerProperties.JoinedRowCount` | projects/data-pipeline/data_pipeline/transformer.py:61-87 | When the products, orders, customers and countries keys are unique, the joined table has exactly one row per sale. |
| `Transformer.GroupKeys` | projects/data-pipeline/data_pipeline/transformer.py:105-107 | The groups are distinct. A key is a group exactly when some row has that (CountryName, CountryCurrency). |
| `Transformer.TotalQuantitiesPerCountryAndCurrency` | projects/data-pipeline/data_pipeline/transformer.py:105-112 | Fails exactly when a grouped or summed column is missing. Otherwise: the columns are (CountryName, CountryCurrency, TotalSaleQuantityPerCountry), there is one row per distinct group present in the input, and each total is the sum of its group's SaleQuantity. |
| `TransformerProperties.TotalsAddUp` | projects/data-pipeline/data_pipeline/transformer.py:105-112 | For any choice of groups, the totals of those groups add up to the SaleQuantity of the input rows in them. |
| `TransformerProperties.CountryTotalsAddUp` | projects/data-pipeline/data_pipeline/transformer.py:105-112 | All the totals add up to the sum of SaleQuantity over the whole table. |
| `TransformerProperties.RowSharesSumToOne` | projects/data-pipeline/data_pipeline/transformer.py:178 | Within a group with a non-zero total, each row's SaleQuantity over the group total, exact, sums to 1. This is the arithmetic core of the column, not the column itself. |
| `TransformerProperties.RowShareColumnSumsToOne` | projects/data-pipeline/data_pipeline/transformer.py:172-183 | With no rounding, the QuantityOverTotalCountryQuantityPercentage column of the looped features sums to 1 over the rows of any country with a name and a non-zero total. This assumes one currency per country. |
| `TransformerProperties.CountrySharesSumToOne` | projects/data-pipeline/data_pipeline/transformer.py:135-146 | With a non-zero grand total, each totals row's total over the grand total, exact, sums to 1 over the totals table. That table has one row per (country, currency) group, including the group of rows without a country. |
| `Tables.Ratio` | projects/data-pipeline/data_pipeline/transformer.py:146-147 | A division cast to a scale-6 decimal. It is null exactly when an operand is null or non-numeric or the denominator is zero. Otherwise it is the rounded quotient. |
| `Frames.WithColumn` | projects/data-pipeline/data_pipeline/transformer.py:238-242 | polars `with_columns`. It fails when a column it reads is missing. Otherwise an existing column is replaced in place or a new one is appended, the rows are kept, and every other cell is unchanged. |
| `Frames.Select` | projects/data-pipeline/data_pipeline/transformer.py:313-315 | polars `select`. It fails when a name is missing or repeated. Otherwise it yields exactly the listed columns, in order, with every row's cells. |
| `Frames.CrossJoinWithOneRow` | projects/data-pipeline/data_pipeline/transformer.py:212-215 | A cross join has |left| × |right| rows. Against a one-row frame, every left row keeps its cells and gains the single right row's cells. |
| `TransformerProperties.TotalsAreLookup` | projects/data-pipeline/data_pipeline/transformer.py:136-144 | When each country has one currency, the totals hold each country once, with its group's total. |
| `TransformerProperties.CountryShareFeature` | projects/data-pipeline/data_pipeline/transformer.py:135-151 | Every row gets its country's total, and CountryQuantityOverTotalQuantityPercentage = country total / sum of SaleQuantity. No row is added or lost and no other cell changes. |
| `TransformerProperties.RowShareFeature` | projects/data-pipeline/data_pipeline/transformer.py:172-183 | QuantityOverTotalCountryQuantityPercentage = SaleQuantity / the total already in the row. The re-joined totals only add `_right` columns. Rows and the other cells are unchanged. |
| `TransformerProperties.LoopedFeatures` | projects/data-pipeline/data_pipeline/transformer.py:290-298 | After the loop over the two feature functions, every joined row carries its country total and both country ratios. Every other column except the `_right` copies is unchanged. |
| `TransformerProperties.MainCountriesTotal` | projects/data-pipeline/data_pipeline/transformer.py:206-210 | The main-countries total equals the SaleQuantity of the joined rows whose currency is selected. |
| `TransformerProperties.MainCountriesFeature` | projects/data-pipeline/data_pipeline/transformer.py:206-221 | Every row gets TotalSaleQuantity = the main-countries total, and QuantityOverMainCountriesQuantityPercentage = SaleQuantity / that total. Rows and the other cells are unchanged. |
| `TransformerProperties.ProductWeightFeature` | projects/data-pipeline/data_pipeline/transformer.py:238-244 | ProductWeightGramsPerSaleQuantity = ProductWeightGrams / SaleQuantity. Rows and the other cells are unchanged. |
| `Transformer.ApplyFeaturesStops` | projects/data-pipeline/data_pipeline/transformer.py:295-298 | Once a feature function raises, the rest of the loop is not reached. |
| `Transformer.AddFeatures` | projects/data-pipeline/data_pipeline/transformer.py:295-298 | The loop feeds each feature function the previous one's output, and stops at the first that raises. |
| `Transformer.CreateConsumableFlatStructure` | projects/data-pipeline/data_pipeline/transformer.py:247-319 | Returns the consumable table, or the first exception. It also leaves in the caller's dictionary the prefix-renamed tables, with sales' key restored. |
| `TransformerProperties.ConsumableShape` | projects/data-pipeline/data_pipeline/transformer.py:247-319 | A built consumable table is well formed and has exactly the requested columns. It has at least one row per sale. |
| `TransformerProperties.ConsumableRowCount` | projects/data-pipeline/data_pipeline/transformer.py:247-319 | It has exactly one row per sale when product, order, customer and country keys are unique and the joined table has one currency per country. |
| `TransformerProperties.LoopedFeaturesRowCount` | projects/data-pipeline/data_pipeline/transformer.py:290-298 | With one currency per country, the two looped feature joins keep the row count. |
| `TransformerProperties.KeyUniqueRenamed` | projects/data-pipeline/data_pipeline/transformer.py:266-276 | Prefix renaming keeps a unique key unique under its new name. |
| `Extractor.EntityOf` | projects/data-pipeline/data_pipeline/extractor.py:138-147 | A schema exists exactly for the five entity file names. |
| `Extractor.TextToParse` | projects/data-pipeline/data_pipeline/extractor.py:94-97 | A line shorter than two characters raises IndexError. |
| `Extractor.CommaLineLosesCommaAndNewline` | projects/data-pipeline/data_pipeline/extractor.py:94-95 | A line ending in `,\n` is parsed without its comma and newline. |
| `Extractor.OtherLineUnchanged` | projects/data-pipeline/data_pipeline/extractor.py:96-97 | A line whose next-to-last character is not a comma is parsed as it is. |
| `Extractor.FinalLineKeepsComma` | projects/data-pipeline/data_pipeline/extractor.py:94-97 | A last line ending in a comma with no newline keeps that comma. |
| `Extractor.RemoveUndesiredCharactersFromSchema` | projects/data-pipeline/data_pipeline/extractor.py:113-122 | The nested loop gives the insertion-ordered dictionary with each pair stored under its normalised key. |
| `ExtractorProperties.NormalisedKeyIsClean` | projects/data-pipeline/data_pipeline/extractor.py:113-119 | A normalised key keeps its length and has none of the six undesired characters. |
| `ExtractorProperties.NormaliseKeyIdempotent` | projects/data-pipeline/data_pipeline/extractor.py:113-119 | Normalising a key twice is the same as normalising it once. |
| `ExtractorProperties.CleanKeyUnchanged` | projects/data-pipeline/data_pipeline/extractor.py:113-119 | A key without undesired characters is left as it is. |
| `ExtractorProperties.LookupPut` | projects/data-pipeline/data_pipeline/extractor.py:120 | After storing a value under a key, that key reads the new value and every other key reads as before. |
| `ExtractorProperties.NormalisedLookup` | projects/data-pipeline/data_pipeline/extractor.py:116-122 | A cleaned key holds the value of the last original pair whose key normalises to it. |
| `ExtractorProperties.NormalisedKeyOrder` | projects/data-pipeline/data_pipeline/extractor.py:116-122 | The cleaned keys are the normalised keys in order of first appearance, without repeats. |
| `ExtractorProperties.CleanObjectUnchanged` | projects/data-pipeline/data_pipeline/extractor.py:116-122 | An object whose keys are already clean and distinct comes back unchanged. |
| `ExtractorProperties.NormalisedObjectIdempotent` | projects/data-pipeline/data_pipeline/extractor.py:116-122 | Cleaning a cleaned object changes nothing. |
| `Extractor.Storage.constructor` | projects/data-pipeline/data_pipeline/extractor.py:75-80 | A fresh storage has two empty lists. |
| `Extractor.ValidateJsonLineSchema` | projects/data-pipeline/data_pipeline/extractor.py:138-153 | An unknown file name raises KeyError and the storage is unchanged. A valid line is appended to the valid list, an invalid one to the broken list, and the method returns the list it grew. |
| `Extractor.ExtractLinesStops` | projects/data-pipeline/data_pipeline/extractor.py:178-182 | Once a line raises, the later lines are never processed. |
| `Extractor.ExtractLinesStep` | projects/data-pipeline/data_pipeline/extractor.py:178-182 | A line that cleans and routes is appended to exactly one of the two lists. |
| `Extractor.ExtractDataFromJsonFile` | projects/data-pipeline/data_pipeline/extractor.py:171-184 | The loop over the lines of a fresh storage returns the two lists, or the first exception, as the specification function does. |
| `ExtractorProperties.ExtractionSucceeds` | projects/data-pipeline/data_pipeline/extractor.py:171-184 | Extraction succeeds exactly when every line cleans and, if there is any line, the file name has a schema. |
| `ExtractorProperties.ExtractionPartitions` | projects/data-pipeline/data_pipeline/extractor.py:171-184 | A successful extraction splits the cleaned lines into the schema-valid ones and the others. Each list is in file order, and together they account for every line. |
| `ExtractorProperties.FilterSplit` | projects/data-pipeline/data_pipeline/extractor.py:146-153 | Every line lands in exactly one of the two lists. |
| `Reader.Candidates` | projects/data-pipeline/data_pipeline/reader.py:30-34 | A name is a candidate exactly when it is listed and ends with the suffix. |
| `Reader.GetFilesToSort` | projects/data-pipeline/data_pipeline/reader.py:27-36 | The loop returns the listed names ending with `{file_name}.{file_type}`, in listing order. |
| `Reader.SuffixHasNoSeparatorCheck` | projects/data-pipeline/data_pipeline/reader.py:30-33 | The suffix test does not require a separator, so `x_presales.parquet` matches the file name `sales`. |
| `Reader.SortKey` | projects/data-pipeline/data_pipeline/reader.py:60 | The key is the longest prefix without `_`. It is the whole name, or it is followed by `_`. |
| `Reader.LexLeTotal` | projects/data-pipeline/data_pipeline/reader.py:60 | String order is total. |
| `Reader.LexLeAntisymmetric` | projects/data-pipeline/data_pipeline/reader.py:60 | String order is antisymmetric. |
| `Reader.LexLeTransitive` | projects/data-pipeline/data_pipeline/reader.py:60 | String order is transitive. |
| `Reader.LatestIndex` | projects/data-pipeline/data_pipeline/reader.py:60-61 | The first element of the stable reverse sort: its key is the greatest, and no earlier file has the same key. |
| `Reader.InputFilePath` | projects/data-pipeline/data_pipeline/reader.py:56-61 | Fails exactly when no listed file ends with the suffix. Otherwise it is `{data_root}/{folder}/{chosen}`, where the chosen file is listed, ends with the suffix, and has a key no other candidate's key exceeds. |
| `Reader.TieGoesToFirstListed` | projects/data-pipeline/data_pipeline/reader.py:60-61 | Of two files with the same timestamp, the one listed first is read. |

## Left out

- File and folder I/O are parameters: the extractor's `open` of `data/raw_data/{name}.json` becomes the sequence of its lines, and the reader's `os.listdir` becomes the listing.
- The final `getattr(pl, read_method)(path)` is not modelled: the reader stops at the path it would read. The parquet and csv readers are outside this program.
- `DATA_ROOT_FOLDER` is the parameter `dataRoot`: `reader.py` imports it, but `params.py` does not define it.
- With no matching file, `sorted_files[0]` raises IndexError. The model names this `NoFileToRead`.
- `json.loads` is the parameter `parse`, which either yields a flat insertion-ordered object or fails. Nested JSON values are not modelled.
- Each pydantic schema (`SalesSchema` and the others) is the predicate `accepts(entity, line)`. Their field lists and type coercions are not modelled.
- The schema check's `print` of the validation error, and the transformer's `logger.info`, are left out as output only.
- `extract_data_from_json_file` takes an optional `storage` argument but never reads it: it always starts from a fresh `Storage()`. The model has no such parameter.
- The two-element `cleaning_functions` loop is unrolled into `CleanLine`: comma removal, then key normalisation.
- Python's `str.capitalize` is modelled on ASCII letters only; the entity names are ASCII.
- `Tables.Ratio`: polars' floating-point division and the decimal cast are the abstract `round6` applied to the exact quotient. The model treats a division by zero, which polars would turn into an infinity or NaN, as null. It also gives null for a non-numeric operand, where polars raises a schema error at the division; the model does not track column types.
- `TransformerProperties.LoopedFeatures`: the feature lemmas assume each country has one currency, and that the joined table does not already have a `TotalSaleQuantityPerCountry` column. Without the first, the first feature's join fans out rows.
- `Frames.LeftJoinUnique`: the left joins keep the left table's row order, and each left row's matches in right-table order. polars gives no such order promise without `maintain_order`; the row-by-row lemmas rely on that order.
- `TransformerProperties.CountrySharesSumToOne`: it sums over the totals table, not over the CountryQuantityOverTotalQuantityPercentage column. That column repeats a country's share on each of its rows, so its plain sum is not 1. `TransformerProperties.LoopedFeatures` links the two: each row's cell is its country total over the grand total.
- `TransformerProperties.RowShareColumnSumsToOne`: the sum is stated for `round6` as the identity. The decimal cast's rounding would make it only approximately 1.
- `Transformer.GroupKeys`: polars leaves the row order of `group_by` unspecified. The model fixes it to the order of first appearance; the lemmas about totals do not depend on it.
- `Transformer.RenameColumns`: the source iterates the dictionary while assigning to existing keys. The model visits the keys in an unspecified order. The result does not depend on it, because each entry is renamed from its own original table.
- The errors the transformer raises carry no column name: polars' message text is not modelled.
- `checker.py`, `curator.py`, `profiler.py`, `writer.py`, `main.py` and the settings modules are not part of this model.

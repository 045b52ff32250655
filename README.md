# Address-level resolution and scoring helpers, modelled in Dafny

This project models the decision logic of a contact-extraction pipeline:

- **`contact.py`.** A `Contact` declares a subdistrict ("kecamatan") name. `init_level` decides which administrative tier that name really belongs to, using a four-column boundary table (village, subdistrict, city, province).
  - If the name is a subdistrict, the city of the first matching row is classified by `_find_level`. A first word "kota" takes a shortcut to `"KOTA"`. Otherwise the rank token is taken from the first entry of a second table whose name, without its first word, matches the city.
  - If the name is not a subdistrict, village, city and province are tried in that order. The first tier that knows the name receives it in the contact's `address`, `city` or `province` field.
- **`model_stats.py`.** Per-column normalisers (phone number, persona, education, marital status, attitude) and `compare_columns`. That function counts, header by header, the row pairs of two spreadsheets that agree after normalisation.
- **`utility.py`.** `clean_json` keeps the text of a model reply from the first `{` to the last `}`. `validate_excel` adds `.xlsx` to a workbook name that does not already contain it. `get_file_id` extracts the conversation identifier from a file path. `parse_json_to_contact` maps the keys of a decoded reply to contact fields.

Files:

| file | module | contents |
|---|---|---|
| `wrappers.dfy` | `Wrappers` | `Option`, `Result` |
| `seqs.dfy` | `Seqs` | `FirstWhere` (first index satisfying a predicate) and `Filter` (order-preserving selection) |
| `strings.dfy` | `Strings` | Python's `lower`/`upper` on ASCII letters, the whitespace of `str.isspace`, `split()`, `" ".join`, the substring test `p in s` |
| `contact.dfy` | `Contacts` | `Category`, boundary rows, `Validate`, `FindLevel`, the resolution function `ResolveLevel` and its lemmas, class `Contact`, class `DistrictTable` |
| `model_stats.dfy` | `ModelStats` | the normalisers, the agreement count, method `CompareColumns` |
| `utility.dfy` | `Utility` | `CleanJson`, `ValidateExcel`, `GetFileId`, the key mapping, method `ParseJsonToContact` |

The two tables are not read from files. They are parameters:
- the boundary table is a `seq<Row>`;
- the classification table of full city names is a `seq<string>`.

Their "load once, then reuse" caches are modelled too:
- `Contact.database` is the per-contact `_df_database`;
- a shared `DistrictTable` object is the class-level `_kota_kab_df`.

Method `Contact.InitLevel` is proved against the function `ResolveLevel`. The lemmas about `ResolveLevel` then state what `init_level` does in each case.

Points where the code's behaviour is not obvious:
- **Exceptions in `init_level`.** The `_validate` call at contact.py:172 is guarded. If it raised, `isValid` would be unbound at line 184. The fallback calls at line 193 are not guarded at all. `init_level` only ever passes the four valid categories. The model therefore has no error path inside resolution.
- **The level getter never resolves.** The class attribute `_level = None` makes the getter's `hasattr` test always true. Reading `level` therefore only returns the stored value, and the setter stores any value. `GetLevel` and `SetLevel` model exactly that.
- **Level after a fallback match.** On the fallback path the local `level` is set to `None` (contact.py:190). It is then stored by `self._level = level` (contact.py:214), which overwrites any value set earlier. The model does the same.
- **Failed validation result.** A failed `_validate` returns `(False, None)`, modelled as `NotFound`.

## Model

| member | source | states |
|---|---|---|
| Contacts.MatchingRows | contact.py:110-120 | `Column` picks the table column of the tier, as the `categories` map does; every row whose tier column equals the input up to case is kept, with its multiplicity, and no other row is kept; the result is empty exactly when no row matches |
| Contacts.MatchingRowsAppend | contact.py:118-120 | the matching rows keep table order: the matches of a table split in two are those of the first part followed by those of the second, and a single row is kept exactly when it matches |
| Contacts.MatchingRowsHead | contact.py:118-120 | the first kept row is the first matching row in table order |
| Contacts.Validate | contact.py:117-125 | `Found` exactly when some row's column for the tier equals the input up to case; a `Found` result carries the non-empty list of all matching rows in table order |
| Contacts.PresentIffFound | contact.py:117-125 | `Found` exactly when some row holds the name at that tier, and `NotFound` exactly when none does |
| Contacts.ValidateArg | contact.py:110-127 | an unrecognised category fails with "Invalid category provided: ...", and only it fails; a known category gives `Validate`'s answer |
| Contacts.FirstBareMatch | contact.py:77-84 | the least index whose entry, upper-cased without its first word, equals the name up to case; None exactly when there is no such entry |
| Contacts.BareMatchHasWords | contact.py:79-85 | an entry matching a non-blank name has at least two words, so its rank token exists |
| Contacts.FindLevel | contact.py:57-91 | None gives None; a first word "kota" (lower-cased) gives "KOTA"; otherwise the result is None exactly when no entry matches; any result is a non-empty upper-case token |
| Contacts.FindLevelFirstMatch | contact.py:76-88 | without the shortcut, the level is the rank token of the first matching entry in table order |
| Contacts.ShortcutIgnoresTable | contact.py:69-74 | with the shortcut the answer is "KOTA" whatever the classification table holds |
| Contacts.BareNameCaseInsensitive | contact.py:77-82 | matching gives the same answer for an entry and for its upper-cased form |
| Contacts.KotaPrefixIsShortcut | contact.py:70-71 | helper for `ResolveToKota`: a city whose first five characters are "kota " up to case is non-blank and takes the shortcut |
| Contacts.StartsWithKota | contact.py:70 | helper about `split()`: a string starting with "kota " splits with "kota" as its first word |
| Contacts.FirstFallback | contact.py:192-207 | the least position in the tier order at which the name is found; None exactly when no tier knows it |
| Contacts.FirstFallbackAt | contact.py:192-207 | a found tier before which no tier was found is the one the loop stops at |
| Contacts.FallbackOrderCases | contact.py:192 | the order is village, then city, then province: the first of the three that knows the name is chosen |
| Contacts.Correct | contact.py:198-205 | after the correction the field of tier `c` holds the confirmed name |
| Contacts.CorrectFields | contact.py:198-205 | village corrects `address`, city corrects `city`, province corrects `province`, and nothing else changes |
| Contacts.CorrectTwice | contact.py:198-205 | correcting the same field twice with the same name is correcting it once |
| Contacts.Fallback | contact.py:189-212 | the fallback never changes the subdistrict field |
| Contacts.FallbackIdempotent | contact.py:189-212 | falling back twice on the same name gives the state of falling back once |
| Contacts.ResolveLevel | contact.py:157-214 | resolution never changes the subdistrict field |
| Contacts.ResolveSkipped | contact.py:158-160 | an empty or missing subdistrict leaves all four fields and the level unchanged |
| Contacts.ResolveSubdistrict | contact.py:184-188 | for a genuine subdistrict, the level becomes `FindLevel` of the city in the first matching row, and no locality field changes |
| Contacts.ResolveFallback | contact.py:189-214 | when the name is not a subdistrict, the first of village, city and province that knows it copies it into `address`, `city` or `province` and sets the level to None; later tiers are not applied; if no tier knows it, nothing changes |
| Contacts.ResolveIdempotent | contact.py:157-214 | resolving again with the same tables changes nothing more, and the result can still be resolved |
| Contacts.ResolveToKota | contact.py:184-188 | a subdistrict whose first matching row, wherever it is in the table, names a city such as "Kota Makassar" resolves to the level "KOTA" whatever the classification table holds |
| Contacts.DistrictTable.constructor | contact.py:48 | the shared classification cache starts empty |
| Contacts.DistrictTable.Load | contact.py:50-54 | the first call stores its source; every later call answers with the stored table |
| Contacts.Contact.constructor | contact.py:14-36 | the fields are those given; the level and the boundary cache start empty |
| Contacts.Contact.GetLevel | contact.py:36-42 | reading the level returns the stored value and changes nothing |
| Contacts.Contact.SetLevel | contact.py:44-46 | the setter stores the given value and touches no other field |
| Contacts.Contact.GetDb | contact.py:130-131 | returns the cached boundary table |
| Contacts.Contact.InitDb | contact.py:133-148 | the boundary cache holds the given table |
| Contacts.Contact.ValidateWithCache | contact.py:93-127 | loads the boundary table only when it is not cached, then answers as `ValidateArg` on the cached table |
| Contacts.Contact.FindLevelWithCache | contact.py:57-91 | answers as `FindLevel`; the classification table is loaded exactly when there is a city and the shortcut does not apply |
| Contacts.Contact.SetField | contact.py:198-205 | the assignment for tier `c` is `Correct` on the locality fields |
| Contacts.Contact.CorrectFallback | contact.py:192-207 | reports a match exactly when some fallback tier knows the name; on a match, the fields are corrected for the first such tier; otherwise they are unchanged |
| Contacts.Contact.InitLevel | contact.py:157-214 | the new locality fields and level are `ResolveLevel` of the old ones and the tables; the boundary table is loaded unless resolution is skipped; the classification table is loaded exactly when a subdistrict matched and its city does not take the shortcut |
| ModelStats.NormalizeAttitude | model_stats.py:13-16 | a value equal to "open" up to case becomes "Open (Terbuka)"; every other value is returned unchanged |
| ModelStats.AttitudeIdempotent | model_stats.py:13-16 | normalising an attitude twice is normalising it once |
| ModelStats.Digits | model_stats.py:23 | the result holds only digits; it is empty exactly when the input has no digit; an all-digit input is kept whole |
| ModelStats.DigitsAppend | model_stats.py:23 | the digits of a concatenation are the digits of the first part followed by those of the second, so digits keep their order |
| ModelStats.DigitsOne | model_stats.py:23 | a single character is kept exactly when it is a digit; with `DigitsAppend` this fixes `Digits` as the input with every non-digit removed |
| ModelStats.NormalizePhoneNumber | model_stats.py:20-32 | "Not a phone number" exactly when the input has no digit; otherwise the input's digits, with a leading 0 replaced by 62 or a leading 8 prefixed with 62; such a result is all digits and never starts with 0 or 8 |
| ModelStats.PhoneNumberIdempotent | model_stats.py:20-32 | normalising a phone number twice is normalising it once |
| ModelStats.ReplaceChar | model_stats.py:36 | every "/" becomes "&" and every other character is kept in place |
| ModelStats.BeforeFirst | model_stats.py:37 | the result is the prefix before the first separator, or the whole string when there is none |
| ModelStats.NormalizePersona | model_stats.py:35-37 | the result contains no "/" and no space; it is the prefix of the replaced text that ends at the first space |
| ModelStats.PersonaIdempotent | model_stats.py:35-37 | normalising a persona twice is normalising it once |
| ModelStats.NormalizeEducation | model_stats.py:40-47 | a missing value or "Tidak Dikenal" becomes "Tidak Diketahui"; anything containing "SMA" becomes "SMA"; everything else is unchanged |
| ModelStats.NoSmaInUnknown | model_stats.py:41-45 | helper about literal strings: neither spelling of "unknown" contains "SMA", so the first rule cannot produce "SMA" |
| ModelStats.EducationIdempotent | model_stats.py:40-47 | normalising an education value twice is normalising it once |
| ModelStats.MarriageWordsLowerCase | model_stats.py:52-59 | helper about literal strings: the three Indonesian statuses are lower-case |
| ModelStats.NormalizeMarriage | model_stats.py:50-60 | the result is always lower-case; it is the lower-cased input or one of "menikah", "lajang", "janda/duda" |
| ModelStats.MarriageCases | model_stats.py:50-60 | married → menikah, single → lajang, cerai or anything containing widow → janda/duda, anything else → the lower-cased input |
| ModelStats.NoWidowInStatuses | model_stats.py:53-59 | helper about literal strings: no produced status contains "widow" |
| ModelStats.MarriageIdempotent | model_stats.py:50-60 | normalising a marital status twice is normalising it once |
| ModelStats.NormalizeCellByHeader | model_stats.py:91-110 | `NormalizeCell`, the per-header choice of normaliser, depends only on the lower-cased header, and a header naming none of the five normalised columns leaves the cell unchanged |
| ModelStats.AgreesProperties | model_stats.py:117-121 | `Agrees`, the test of model_stats.py:117-121, is symmetric and reflexive, and holds exactly when one lower-cased value contains the other |
| ModelStats.Differences | model_stats.py:114-127 | the number of disagreeing pairs is at most the number of pairs |
| ModelStats.DifferencesZeroIff | model_stats.py:117-127 | no difference is counted exactly when every pair agrees after normalisation |
| ModelStats.DifferencesAllIff | model_stats.py:117-127 | every pair is counted as a difference exactly when no pair agrees after normalisation |
| ModelStats.NoDifferencesWithSelf | model_stats.py:117-122 | a column compared with itself has no disagreeing pair |
| ModelStats.Accuracy | model_stats.py:129-138 | None exactly when the header is missing from a frame or no pair was compared; otherwise the number of comparisons is the length of the shortest zipped column, and agreements are between 0 and that number, so the ratio lies in [0, 1] |
| ModelStats.SelfComparisonIsExact | model_stats.py:87-138 | a frame scored against itself has accuracy 1 on every column it has, when the frame has an "M13 ID" column and at least one row |
| ModelStats.ScoreColumn | model_stats.py:87-127 | the loop compares as many pairs as the shortest of the four zipped columns, and counts the disagreeing ones among them |
| ModelStats.ScoreIsAccuracy | model_stats.py:129-138 | the counts of the loop give the header's `Accuracy`, and differences never exceed comparisons |
| ModelStats.ScoredStep | model_stats.py:132-138 | recording one more header keeps the map equal to `Accuracy` on exactly the headers seen |
| ModelStats.CompareColumns | model_stats.py:79-140 | the result has exactly the selected headers as keys, and each value is that header's `Accuracy` |
| ModelStats.OutputPath | model_stats.py:143-147 | the path starts with "output/" and the name after it contains ".xlsx"; ".xlsx" is appended exactly when missing |
| Utility.FirstIndex | utility.py:141 | the position of the first "{", or None exactly when there is none (where Python raises) |
| Utility.LastIndex | utility.py:142 | the position of the last "}", or None exactly when there is none (where Python raises) |
| Utility.CleanJson | utility.py:133-146 | "" exactly when a brace is missing or the last "}" precedes the first "{"; otherwise the text from the first "{" to the last "}" inclusive, which starts with "{" and ends with "}" |
| Utility.CleanJsonIsSlice | utility.py:140-143 | a non-empty result is a contiguous substring of the input |
| Utility.CleanJsonIdempotent | utility.py:133-146 | cleaning a cleaned reply changes nothing |
| Utility.ValidateExcel | utility.py:163-167 | the result contains ".xlsx"; ".xlsx" is appended exactly when it is not already a substring |
| Utility.ValidateExcelIdempotent | utility.py:163-167 | validating a workbook name twice is validating it once |
| Utility.Basename | utility.py:152 | the result holds no "/" and is the suffix of the path after its last "/" |
| Utility.FirstIdAt | utility.py:151-154 | the leftmost position where letter, whitespace, four digits match; None exactly when there is none |
| Utility.GetFileId | utility.py:150-160 | None exactly when the base name has no letter–whitespace–four-digit occurrence; otherwise the leftmost occurrence's letter, one space, and its four digits |
| Utility.FileIdShape | utility.py:151-157 | an identifier is always six characters: a letter A–Z, a single space and four digits, even when the file name used another whitespace character or a longer digit run |
| Utility.JsonFieldsRoundTrip | utility.py:25-45 | `JsonFields` is the key map of utility.py:25-43; reading the fields back from a reply that holds every field under its own key gives the contact back, `id` apart: no two fields share a key |
| Utility.JsonFieldsDefaults | utility.py:25-45 | keys outside the mapping do not matter, and a reply with no keys gives "" in every field |
| Utility.ParseJsonToContact | utility.py:20-50 | None exactly for a reply that is not a decoded JSON object; otherwise a new contact whose fields are the mapped keys, with no level and no boundary cache |

## Left out

- File input and output are not modelled. This covers reading the boundary workbook (contact.py:140-146), the classification CSV (contact.py:53) and the two spreadsheets of `model_stats.py`. The tables are parameters, and a cache holds whichever table it is given first.
- Logging and `print` calls are left out. They change no state that the core reads.
- Contacts.Contact.InitLevel: requires that a matching subdistrict's first row has a non-blank city (`Resolvable`). In the source, `split()[0]` raises `IndexError` on such a city (contact.py:70). This crash path is not modelled.
- Contacts.FindLevel: requires a non-blank city name, for the same `IndexError` reason.
- The handler `except (TypeError, AttributeError, ValueError)` in `init_level` (contact.py:175-181) is not modelled. Only `_validate` with the four valid categories runs inside it. `ValidateArg` models the `ValueError` of an unknown category on its own.
- The pandas index is assumed to be the default 0, 1, 2, … . `idxmax()` of the matches is then the position of the first match.
- Case mapping covers ASCII letters only. Python's full Unicode `lower`/`upper` (for example "ß" becoming "SS") is not modelled.
- ModelStats.NormalizePhoneNumber: treats only the ASCII digits 0–9 as digits. Python's `\D` keeps every Unicode decimal digit.
- Utility.GetFileId: treats only ASCII digits as `\d`. The whitespace of `\s` is modelled as the whitespace of `str.isspace`.
- A spreadsheet cell is modelled as a string. Non-string cells (numbers, NaN) and their `str()` conversions are not modelled. `NormalizeEducation` on its own takes an `Option` whose `None` stands for a missing value. `CompareColumns` always passes it a present value, so the `pd.isna` branch of model_stats.py:41 cannot be reached from `CompareColumns`: a blank education cell in a spreadsheet is not modelled.
- ModelStats.CompareColumns: requires the "M13 ID" column in both frames whenever a selected header is in both. Otherwise pandas raises `KeyError` (model_stats.py:89), and that crash is not modelled.
- ModelStats.Accuracy: gives the accuracy as the pair (agreements, comparisons) rather than the floating-point quotient of model_stats.py:134-136.
- `get_user_selection` (interactive prompt) and `main` with its argument parsing in `model_stats.py` are not modelled: they are user interface and I/O.
- Utility.ParseJsonToContact: takes the reply already decoded, because JSON decoding is not modelled. Values are strings only: a reply holding a number, a list or null in a field is not represented. A missing `address_kecamatan_result` therefore gives the kecamatan `""`, never `None`.
- The first, identical definition of `get_file_id` (utility.py:120-130) is shadowed by the second and is not modelled separately.
- `Basename` splits on "/" only, that is POSIX `os.path.basename`.
- `contacts_to_excel`, and `anonymize` with the rest of main.py, are not modelled. So are the database modules (databasemanager.py, databaseconnection.py, queryexecutor.py) and test_main.py: they are I/O and test glue outside the core.

# InputReader: attribute roles and experiment manifest

This project models the input layer of a k-anonymization experiment runner, the class
`io.InputReader`. It has two loaders.

- **loadData / getTarget.** A JSON data-definition document says which columns are
  quasi-identifiers (each with a hierarchy file), which are insensitive (`IS`) and which are
  sensitive (`SA`), and which column is the target. `loadData` writes these roles into the
  data definition of a freshly created ARX dataset. It makes three passes: QID, then IS, then
  SA. Every write overwrites the column's previous role, so SA beats IS and IS beats QID. The
  `ldiv` flag decides whether SA columns become sensitive or insensitive. `getTarget` reads
  only the target.
- **readSampleInput.** A semicolon-separated manifest is read under a fixed eight-column
  header. The first record is always skipped. Five fields of the last remaining record are
  kept. The `k` field is parsed as a bracketed list of ints. The result is the immutable
  `SampleInput` record, which also carries the configured folds path.

Modules:

- `Wrappers` (wrappers.dfy): `Option` and `Result`. Java exceptions become `Err` values.
- `JsonValue` (json_value.dfy): the Gson element tree as a datatype.
  - `AsString` follows `JsonElement.getAsString`. A string, number or boolean gives its text.
    A one-element array gives its element's text. `null`, an object, or any other array fails.
  - `MemberString` and `MemberArray` are `get(key).getAsString()` and `getAsJsonArray(key)`.
    An absent member is the null reference being dereferenced.
- `Roles` (roles.dfy): the role specification.
  - `Decode` makes every read `loadData` makes, in the same order, and returns the first
    failure.
  - `Encode` writes a specification back as a document.
  - `WriteQids`, `WriteAll` and `Assign` are the three write passes on a role map.
  - The lemmas state the precedence rule and what stays unchanged.
- `RoleLoader` (role_loader.dfy): the imperative side.
  - A `DataDefinition` class holds the role map, updated in place by `SetAttributeType`.
  - `ApplyQids` and `ApplyNames` are the loops.
  - `LoadData` is proved equal to `Assign` over the decoded document.
  - `GetTarget` reads the target only.
- `JavaText` (java_text.dfy): the Java string operations behind the k parser.
  - `Split` is `String.split(", ")`. Matches are found leftmost first without overlap. A string
    with no match comes back whole, even when it is empty. Trailing empty strings are dropped.
  - `ParseInt` is `Integer.parseInt`: an optional sign, at least one digit, and a value in the
    32-bit range.
  - `Show` is `Integer.toString`, the partner that `ParseInt` inverts.
- `KList` (klist.dfy): the k-field parser (`substring(1, len-1)`, split, `parseInt` on each
  token).
  - Its partner is `FormatKList`, the `Arrays.toString(int[])` format.
  - The round trip holds for every non-empty sweep. It fails for the empty one.
- `Manifest` (manifest.dfy): the record loop as a method, `ReadSampleInput`.
  - The loop is proved equal to the specification `SampleInputOf`.
  - Lemmas show that the manifest is the last record's.
  - With no data record, the call fails.

## Model

| member | source | states |
|---|---|---|
| `RoleLoader.DataDefinition.constructor` | src/main/java/io/InputReader.java:25 | a new dataset's definition starts with the given role map |
| `RoleLoader.DataDefinition.SetAttributeType` | src/main/java/io/InputReader.java:44-47 | binds one column to a role, replacing its previous role and nothing else |
| `RoleLoader.ApplyQids` | src/main/java/io/InputReader.java:27-33 | the QID loop reads each entry in order and fails at the first unreadable one; otherwise each entry's column is bound to a hierarchy of that entry's own path, in order |
| `RoleLoader.ApplyNames` | src/main/java/io/InputReader.java:35-48 | the IS and SA loops read each element as a string (first failure is the error) and overwrite that column's role, in order |
| `RoleLoader.LoadData` | src/main/java/io/InputReader.java:19-53 | loading fails exactly when the document cannot be read, with the first failing read's error; otherwise the new definition's roles are the three passes QID, IS, SA over the initial roles, and the returned target is the one getTarget reads |
| `RoleLoader.TargetAgreement` | src/main/java/io/InputReader.java:50-59 | for a document that loads, getTarget returns the loaded target; a document getTarget fails on also fails to load |
| `Roles.DecodeQidEntry` | src/main/java/io/InputReader.java:28-31 | a QID entry is read exactly when it is an object whose colName and hierarchyPath members getAsString reads, and the entry holds those two strings |
| `Roles.Decode` | src/main/java/io/InputReader.java:23-50 | a document that loads is an object whose QID, IS and SA arrays and target read, element by element and in order, as the loaded specification |
| `Roles.DecodeExact` | src/main/java/io/InputReader.java:23-50 | a document loads as a specification exactly when it reads that way, so the loaded specification is the only one the document describes |
| `Roles.DecodeEachOk` | src/main/java/io/InputReader.java:28-37 | DecodeEach, the read loop over a role array: it succeeds exactly when each element reads, and yields the elements' values in order |
| `Roles.DecodeEachPrefixError` | src/main/java/io/InputReader.java:28-31 | DecodeEach: an element that fails stops the loop, so the error of a prefix is the error of the whole array |
| `Roles.DecodeEncode` | src/main/java/io/InputReader.java:27-50 | every role specification written as a document reads back unchanged |
| `Roles.MissingTargetFails` | src/main/java/io/InputReader.java:50 | a document without target does not load |
| `Roles.MissingHierarchyPathFails` | src/main/java/io/InputReader.java:29-31 | a QID entry without hierarchyPath makes the document fail to load |
| `Roles.WriteQids` | src/main/java/io/InputReader.java:27-33 | the QID pass removes no column's role, and every role it changes is the hierarchy of a QID entry naming that column |
| `Roles.WriteAll` | src/main/java/io/InputReader.java:35-48 | an IS or SA pass removes no column's role, and changes only the columns it names, each to that pass's role |
| `Roles.Assign` | src/main/java/io/InputReader.java:27-48 | the three passes remove no column's role, and every role that changes comes from a group naming that column: the SA role from SA, insensitive from IS, or the hierarchy of a QID entry |
| `Roles.WriteQidsAt` | src/main/java/io/InputReader.java:28-33 | after the QID pass a column has a role iff it had one or some entry names it; the last entry naming it decides its hierarchy; unnamed columns keep their role |
| `Roles.WriteAllAt` | src/main/java/io/InputReader.java:36-38 | after an IS or SA pass every named column has that pass's role and every other column is as before |
| `Roles.SensitiveWins` | src/main/java/io/InputReader.java:42-48 | a column in SA ends with the SA role whatever QID and IS say |
| `Roles.InsensitiveBeatsQid` | src/main/java/io/InputReader.java:35-48 | a column in IS but not in SA ends insensitive even if QID names it |
| `Roles.QidLastEntryWins` | src/main/java/io/InputReader.java:27-33 | a column named only in QID ends bound to the hierarchy path of the last QID entry naming it |
| `Roles.UnnamedUntouched` | src/main/java/io/InputReader.java:19-48 | a column the document does not name keeps exactly the role it had, or stays without one |
| `Roles.AssignKeys` | src/main/java/io/InputReader.java:27-48 | the columns with a role afterwards are those that had one plus those the document names |
| `Roles.FlipLdivOnlySensitive` | src/main/java/io/InputReader.java:42-47 | flipping ldiv changes the role of no column outside SA |
| `Roles.ExampleAssignment` | src/main/java/io/InputReader.java:27-48 | age and zip as QID with h1.csv and h2.csv and income as SA, with ldiv on, give exactly those two hierarchies and income sensitive |
| `JavaText.Pieces` | src/main/java/io/InputReader.java:92 | cutting at the matches of ", " always yields at least one segment |
| `JavaText.DropTrailingEmpty` | src/main/java/io/InputReader.java:92 | the result is the longest prefix that does not end with an empty string; everything dropped is empty |
| `JavaText.JoinPieces` | src/main/java/io/InputReader.java:92 | joining the segments with ", " gives back the string that was cut |
| `JavaText.Split` | src/main/java/io/InputReader.java:92 | no token of split(", ") contains ", ", and the last token is empty only when the whole string is empty |
| `JavaText.PiecesJoin` | src/main/java/io/InputReader.java:92 | cutting a join of strings free of ", " gives back those strings |
| `JavaText.SplitJoin` | src/main/java/io/InputReader.java:92 | split(", ") inverts a join of strings free of ", " whose last string is not empty |
| `JavaText.ParseInt` | src/main/java/io/InputReader.java:96 | a string that parses is non-empty, starts with a sign or a digit, and is digits after that (no whitespace); the exact accepted strings and values are stated by ParseIntExact |
| `JavaText.ParseIntExact` | src/main/java/io/InputReader.java:96 | parseInt returns v exactly when v is a 32-bit int and the string is its ASCII digits after any number of zeros, with an optional sign that agrees with v ("+7", "007", "-0" included) |
| `JavaText.ParseIntShow` | src/main/java/io/InputReader.java:96 | parseInt reads back every 32-bit int that Integer.toString writes |
| `JavaText.ParseIntRejectsOutOfRange` | src/main/java/io/InputReader.java:96 | the decimal text of any value outside the 32-bit range does not parse |
| `KList.ParseAll` | src/main/java/io/InputReader.java:95-97 | a failure is a format error naming one of the tokens |
| `KList.ParseAllOk` | src/main/java/io/InputReader.java:95-97 | the tokens parse exactly when each does, and the values keep the tokens' order and repeats |
| `KList.ParseAllFirstError` | src/main/java/io/InputReader.java:95-97 | on failure the error names the first token that does not parse |
| `KList.ParseKList` | src/main/java/io/InputReader.java:92 | the substring error happens exactly when the field is shorter than two characters |
| `KList.ParseKListFormat` | src/main/java/io/InputReader.java:92-97 | every non-empty sweep in the Arrays.toString format parses back to itself, in order and with repeats |
| `KList.EmptySweepRejected` | src/main/java/io/InputReader.java:92-97 | the empty sweep is written "[]", and "[]" fails on its single empty token |
| `KList.EndsIgnored` | src/main/java/io/InputReader.java:92 | the first and last characters are discarded unread, brackets or not |
| `KList.ExampleThreeValues` | src/main/java/io/InputReader.java:92-97 | "[3, 5, 10]" parses to 3, 5, 10 |
| `KList.ExampleOneValue` | src/main/java/io/InputReader.java:92-97 | "[7]" parses to 7 |
| `KList.ExampleNonPositive` | src/main/java/io/InputReader.java:92-97 | "[-3, 0]" parses to -3, 0: k values are not checked to be positive |
| `KList.ExampleBadToken` | src/main/java/io/InputReader.java:92-97 | "[3, x, 10]" fails with a format error on "x" |
| `KList.ExampleTooShort` | src/main/java/io/InputReader.java:92 | "" and "[" fail in substring |
| `KList.ExampleOnlyDelimiter` | src/main/java/io/InputReader.java:92-97 | "[, ]" parses to the empty sweep, because split drops the trailing empty tokens |
| `KList.ExampleTrailingDelimiter` | src/main/java/io/InputReader.java:92-97 | "[3, 5, ]" parses to 3, 5 |
| `Manifest.Column` | src/main/java/io/InputReader.java:64-73 | every header name stands for the column at its position in the fixed eight-name header |
| `Manifest.FieldsOfRecord` | src/main/java/io/InputReader.java:84-88 | FieldsOf, one pass of the record loop (record.get under the fixed header): it succeeds exactly when the record has six values, and takes columns 0, 2, 3, 4, 5 |
| `Manifest.LastFieldsPrefixError` | src/main/java/io/InputReader.java:83-89 | a record that fails stops the loop with its error |
| `Manifest.LastFieldsOfRecords` | src/main/java/io/InputReader.java:81-89 | LastFields, the record loop: it succeeds exactly when every record has six values, and then leaves the last record's fields, or the empty strings it starts from when there is no record |
| `Manifest.ReadSampleInput` | src/main/java/io/InputReader.java:62-101 | the record loop, after skipping the first record, and the k parse return exactly the manifest, or the error, that SampleInputOf gives for the file's records and the folds path |
| `Manifest.NoDataRecordsFails` | src/main/java/io/InputReader.java:81-92 | with no record after the first, the call fails in substring instead of returning an empty manifest |
| `Manifest.HeaderSkipped` | src/main/java/io/InputReader.java:74-79 | DataRecords drops the first record: whatever it holds never affects the result |
| `Manifest.SampleInputOfLastRecord` | src/main/java/io/InputReader.java:83-118 | a manifest that loads carries the parsed k field and the four path fields of the file's last record, plus the folds path unchanged |
| `Manifest.LoadsWrittenSweep` | src/main/java/io/InputReader.java:81-118 | a file whose records all have six values and whose last k field is a non-empty sweep in Arrays.toString format loads as that sweep with the last record's paths |

## Left out

- File opening and reading (`FileReader`), and the readers that are never closed. The model
  takes the parsed document and the tokenised records as values.
- Gson's parsing of the text into a tree (syntax errors, duplicate keys). `Json` stands for
  the tree Gson returns. A file whose top-level value is not an object is modelled as an error.
- `Data.create` loading the dataset, and `AttributeType.Hierarchy.create` loading each
  hierarchy file (with the I/O errors either can throw). The dataset's definition starts from
  a role map passed in, and a hierarchy is kept as its path.
- ARX keeps the attribute type and the hierarchy in separate tables of its data definition.
  The model keeps one role per column.
- Apache Commons CSV tokenisation: the `;` delimiter, quoting, escapes, line breaks and
  skipped blank lines. Records arrive already split into values.
- The `Configuration` lookup of `foldsPath`, including a missing key: the folds path is a plain
  parameter.
- `SampleInput.toString`: display only. Its list format, `Arrays.toString`, is modelled as
  `KList.FormatKList`, the partner of the k parser.
- `SampleInput.kArr` is a Java `int[]` that is never changed after construction. It is
  modelled as a sequence.
- KList.ParseKList: strings are modelled as sequences of Unicode code points, while Java's
  `substring(1, length() - 1)` counts UTF-16 code units. When the first or last character lies
  outside the Basic Multilingual Plane the two differ. For example, for "\u{1F600}7]" Java keeps
  half of a surrogate pair and `parseInt` fails, but the model gives [7]. A lone "\u{1F600}" is a
  substring error in the model and a number-format error in Java.
- KList.EndsIgnored: it holds only for first and last characters inside the Basic
  Multilingual Plane, for the same reason. Outside it, Java cuts a surrogate pair in half.
- JavaText.ParseInt: only ASCII digits are accepted. Java's `Character.digit` also accepts the
  decimal digits of other Unicode scripts, which the model rejects.

## Where the code does less than its callers might expect

The model follows the code in each case.

- The k values are used as k-anonymity parameters, but the code checks neither that they are
  positive nor that there is at least one (InputReader.java:92-97). For example, `"[-3, 0]"` and
  `"[, ]"` (the empty sweep) are both accepted.
- The comment at InputReader.java:91 says the brackets are removed. The code discards the first
  and last characters whatever they are.
- The header is imposed by `setHeader` and `setSkipHeaderRecord(true)` (InputReader.java:74-78),
  so the file's first record is always skipped, even when it is not a header line.
- A manifest with only a header leaves `kValues` as `""` (InputReader.java:81), and
  `substring(1, -1)` then throws a string index error instead of a clearer malformed-manifest
  error. This is modelled as `KError.SubstringOutOfRange`.
- The `FileReader`s opened at InputReader.java:21, :56 and :63 are never closed.

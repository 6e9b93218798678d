/**
 * readSampleInput: the experiment manifest is read as records under a fixed eight-column
 * header, the first record is skipped, five fields of the last record are kept, and the k
 * field is parsed into the sweep of k values.
 */
module Manifest {
  import opened Wrappers
  import opened JavaText
  import opened KList

  /** The header readSampleInput imposes, whatever the file's own first line says. */
  const Header: seq<string> := [
    "k", "b", "experimentBasePath", "kAnonFolderPath", "inputDatasetPath",
    "inputDataDefenitionPath", "inputDataDefenitionAbsolutePath", "QID"]

  /** The immutable result of readSampleInput. */
  datatype SampleInput = SampleInput(
    kArr: seq<Int32>,
    experimentBasePath: string,
    kAnonFolderPath: string,
    inputDatasetPath: string,
    inputDataDefenitionPath: string,
    foldsDirPath: string)

  /** The exception readSampleInput ends in. */
  datatype ManifestError =
    // CSVRecord.get(name) on a record with too few values for name's column
    | MissingValue(name: string)
    // the k field could not be parsed
    | KListError(cause: KError)

  /** The five local variables the record loop reassigns. */
  datatype Fields = Fields(
    k: string,
    experimentBasePath: string,
    kAnonFolderPath: string,
    inputDatasetPath: string,
    inputDataDefenitionPath: string)

  /** The header map of the parser: the column each header name stands for. */
  function Column(name: string): (i: nat)
    requires name in Header
    ensures i < |Header| && Header[i] == name
  {
    if name == "k" then 0
    else if name == "b" then 1
    else if name == "experimentBasePath" then 2
    else if name == "kAnonFolderPath" then 3
    else if name == "inputDatasetPath" then 4
    else if name == "inputDataDefenitionPath" then 5
    else if name == "inputDataDefenitionAbsolutePath" then 6
    else 7
  }

  /** CSVRecord.get(name): the value in name's column of the header. */
  function Get(record: seq<string>, name: string): (r: Result<string, ManifestError>)
    requires name in Header
    ensures r.Ok? <==> Column(name) < |record|
    ensures r.Ok? ==> r.value == record[Column(name)]
    ensures r.Err? ==> r.error == MissingValue(name)
  {
    var i := Column(name);
    if i < |record| then Ok(record[i]) else Err(MissingValue(name))
  }

  /** The five reads the loop body makes of one record, in order. */
  function FieldsOf(record: seq<string>): Result<Fields, ManifestError>
  {
    var k :- Get(record, "k");
    var experimentBasePath :- Get(record, "experimentBasePath");
    var kAnonFolderPath :- Get(record, "kAnonFolderPath");
    var inputDatasetPath :- Get(record, "inputDatasetPath");
    var inputDataDefenitionPath :- Get(record, "inputDataDefenitionPath");
    Ok(Fields(k, experimentBasePath, kAnonFolderPath, inputDatasetPath, inputDataDefenitionPath))
  }

  /** The five variables after the loop has run over records: each pass overwrites them all. */
  function LastFields(records: seq<seq<string>>): Result<Fields, ManifestError>
  {
    if |records| == 0 then Ok(Fields("", "", "", "", ""))
    else match LastFields(records[..|records| - 1])
      case Err(e) => Err(e)
      case Ok(_) => FieldsOf(records[|records| - 1])
  }

  /** The records the loop visits: the first record is taken as the header and skipped. */
  function DataRecords(lines: seq<seq<string>>): seq<seq<string>>
  {
    if |lines| == 0 then [] else lines[1..]
  }

  /** What readSampleInput returns for the records of the file and the configured folds path. */
  function SampleInputOf(lines: seq<seq<string>>, foldsPath: string): Result<SampleInput, ManifestError>
  {
    match LastFields(DataRecords(lines))
    case Err(e) => Err(e)
    case Ok(f) =>
      match ParseKList(f.k)
      case Err(e) => Err(KListError(e))
      case Ok(ks) => Ok(SampleInput(ks, f.experimentBasePath, f.kAnonFolderPath, f.inputDatasetPath,
                                    f.inputDataDefenitionPath, foldsPath))
  }

  /** An error on a prefix of the records is the error of the whole loop. */
  lemma {:induction false} LastFieldsPrefixError(records: seq<seq<string>>, n: nat)
    requires n <= |records|
    requires LastFields(records[..n]).Err?
    ensures LastFields(records) == LastFields(records[..n])
    decreases |records| - n
  {
    if n < |records| {
      assert records[..n + 1][..n] == records[..n];
      LastFieldsPrefixError(records, n + 1);
    } else {
      assert records[..n] == records;
    }
  }

  /**
   * readSampleInput over already-split records: lines holds every record of the file,
   * and foldsPath is the configuration's foldsPath.
   */
  method ReadSampleInput(lines: seq<seq<string>>, foldsPath: string) returns (r: Result<SampleInput, ManifestError>)
    ensures r == SampleInputOf(lines, foldsPath)
  {
    var records := if |lines| == 0 then [] else lines[1..];
    var kValues := "";
    var experimentBasePath, kAnonFolderPath, inputDatasetPath, inputDataDefenitionPath := "", "", "", "";
    for i := 0 to |records|
      invariant LastFields(records[..i])
             == Ok(Fields(kValues, experimentBasePath, kAnonFolderPath, inputDatasetPath, inputDataDefenitionPath))
    {
      var record := records[i];
      assert records[..i + 1][..i] == records[..i];
      if FieldsOf(record).Err? {
        LastFieldsPrefixError(records, i + 1);
      }
      kValues :- Get(record, "k");
      experimentBasePath :- Get(record, "experimentBasePath");
      kAnonFolderPath :- Get(record, "kAnonFolderPath");
      inputDatasetPath :- Get(record, "inputDatasetPath");
      inputDataDefenitionPath :- Get(record, "inputDataDefenitionPath");
    }
    assert records[..|records|] == records;

    var kArr := ParseKList(kValues);
    if kArr.Err? {
      return Err(KListError(kArr.error));
    }
    return Ok(SampleInput(kArr.value, experimentBasePath, kAnonFolderPath, inputDatasetPath,
                          inputDataDefenitionPath, foldsPath));
  }

  /** A record can be read exactly when it has the six columns up to inputDataDefenitionPath. */
  lemma FieldsOfRecord(record: seq<string>)
    ensures FieldsOf(record).Ok? <==> |record| >= 6
    ensures FieldsOf(record).Ok? ==>
      FieldsOf(record).value == Fields(record[0], record[2], record[3], record[4], record[5])
  {
  }

  /**
   * The loop succeeds exactly when every record has six values, and then leaves the fields of
   * the last record, or the empty strings it started with when there is none.
   */
  lemma {:induction false} LastFieldsOfRecords(records: seq<seq<string>>)
    ensures LastFields(records).Ok? <==> forall i :: 0 <= i < |records| ==> |records[i]| >= 6
    ensures |records| == 0 ==> LastFields(records) == Ok(Fields("", "", "", "", ""))
    ensures |records| > 0 && LastFields(records).Ok? ==>
      var last := records[|records| - 1];
      LastFields(records).value == Fields(last[0], last[2], last[3], last[4], last[5])
  {
    if |records| > 0 {
      var init := records[..|records| - 1];
      var last := records[|records| - 1];
      LastFieldsOfRecords(init);
      FieldsOfRecord(last);
      assert forall i :: 0 <= i < |init| ==> init[i] == records[i];
      if LastFields(init).Ok? {
        assert LastFields(records) == FieldsOf(last);
      } else {
        var j :| 0 <= j < |init| && |init[j]| < 6;
        assert |records[j]| < 6;
      }
    }
  }

  /** With no record after the first, k stays empty and its parse fails: no empty manifest is returned. */
  lemma NoDataRecordsFails(lines: seq<seq<string>>, foldsPath: string)
    requires |lines| <= 1
    ensures SampleInputOf(lines, foldsPath) == Err(KListError(SubstringOutOfRange))
  {
    assert DataRecords(lines) == [];
  }

  /** Whatever the first record holds, it is skipped. */
  lemma HeaderSkipped(first: seq<string>, other: seq<string>, rest: seq<seq<string>>, foldsPath: string)
    ensures SampleInputOf([first] + rest, foldsPath) == SampleInputOf([other] + rest, foldsPath)
  {
    assert ([first] + rest)[1..] == rest == ([other] + rest)[1..];
  }

  /**
   * A manifest that loads is the last record's: its k field parsed, its four path fields, and
   * the folds path passed in.
   */
  lemma SampleInputOfLastRecord(lines: seq<seq<string>>, foldsPath: string)
    requires SampleInputOf(lines, foldsPath).Ok?
    ensures |lines| >= 2 && |lines[|lines| - 1]| >= 6
    ensures var last := lines[|lines| - 1];
      var s := SampleInputOf(lines, foldsPath).value;
      && ParseKList(last[0]) == Ok(s.kArr)
      && s.experimentBasePath == last[2]
      && s.kAnonFolderPath == last[3]
      && s.inputDatasetPath == last[4]
      && s.inputDataDefenitionPath == last[5]
      && s.foldsDirPath == foldsPath
  {
    if |lines| <= 1 {
      NoDataRecordsFails(lines, foldsPath);
    } else {
      var records := DataRecords(lines);
      LastFieldsOfRecords(records);
      assert records[|records| - 1] == lines[|lines| - 1];
    }
  }

  /**
   * A file whose records all have six values and whose last record holds a sweep written by
   * Arrays.toString loads as that sweep with the last record's paths.
   */
  lemma LoadsWrittenSweep(header: seq<string>, rows: seq<seq<string>>, last: seq<string>,
                          ks: seq<Int32>, foldsPath: string)
    requires forall i :: 0 <= i < |rows| ==> |rows[i]| >= 6
    requires |last| >= 6 && last[0] == FormatKList(ks) && |ks| >= 1
    ensures SampleInputOf([header] + rows + [last], foldsPath)
         == Ok(SampleInput(ks, last[2], last[3], last[4], last[5], foldsPath))
  {
    var lines := [header] + rows + [last];
    var records := DataRecords(lines);
    assert records == rows + [last];
    LastFieldsOfRecords(records);
    ParseKListFormat(ks);
  }
}

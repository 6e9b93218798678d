/**
 * The parse of the manifest's k field: the first and last characters are cut off, the rest is
 * split on ", " and every token goes through Integer.parseInt. Arrays.toString writes the
 * format the parser expects.
 */
module KList {
  import opened Wrappers
  import opened JavaText

  /** The exception the parse ends in. */
  datatype KError =
    // substring(1, length - 1) on a field shorter than two characters
    | SubstringOutOfRange
    // Integer.parseInt on a token that is not a decimal int
    | NumberFormat(token: string)

  /** mapToInt(Integer::parseInt) over the tokens in order: the first bad token is the error. */
  function ParseAll(tokens: seq<string>): (r: Result<seq<Int32>, KError>)
    ensures r.Err? ==> r.error.NumberFormat? && r.error.token in tokens
  {
    if |tokens| == 0 then Ok([])
    else match ParseInt(tokens[0])
      case None => Err(NumberFormat(tokens[0]))
      case Some(v) =>
        var rest :- ParseAll(tokens[1..]);
        Ok([v] + rest)
  }

  /** The k values of the field k, or the exception readSampleInput ends in. */
  function ParseKList(k: string): (r: Result<seq<Int32>, KError>)
    ensures r == Err(SubstringOutOfRange) <==> |k| < 2
  {
    if |k| < 2 then Err(SubstringOutOfRange)
    else ParseAll(Split(k[1..|k| - 1]))
  }

  /** The tokens parse exactly when each of them does; the values keep their order and repeats. */
  lemma {:induction false} ParseAllOk(tokens: seq<string>)
    ensures ParseAll(tokens).Ok? <==> forall i :: 0 <= i < |tokens| ==> ParseInt(tokens[i]).Some?
    ensures ParseAll(tokens).Ok? ==>
      |ParseAll(tokens).value| == |tokens| &&
      forall i :: 0 <= i < |tokens| ==> ParseAll(tokens).value[i] == ParseInt(tokens[i]).value
  {
    if |tokens| > 0 {
      ParseAllOk(tokens[1..]);
      assert forall i :: 1 <= i < |tokens| ==> tokens[1..][i - 1] == tokens[i];
    }
  }

  /** On failure the error names the first token that does not parse. */
  lemma {:induction false} ParseAllFirstError(tokens: seq<string>)
    requires ParseAll(tokens).Err?
    ensures exists j :: (0 <= j < |tokens| && ParseInt(tokens[j]).None? &&
      ParseAll(tokens).error == NumberFormat(tokens[j]) &&
      forall i :: 0 <= i < j ==> ParseInt(tokens[i]).Some?)
  {
    if ParseInt(tokens[0]).Some? {
      ParseAllFirstError(tokens[1..]);
      var j :| 0 <= j < |tokens[1..]| && ParseInt(tokens[1..][j]).None? &&
        ParseAll(tokens[1..]).error == NumberFormat(tokens[1..][j]) &&
        forall i :: 0 <= i < j ==> ParseInt(tokens[1..][i]).Some?;
      assert forall i :: 1 <= i < j + 1 ==> tokens[i] == tokens[1..][i - 1];
      assert ParseInt(tokens[j + 1]).None?;
    } else {
      assert ParseInt(tokens[0]).None?;
    }
  }

  /** Integer.toString of each value. */
  function ShowAll(ks: seq<int>): (r: seq<string>)
    ensures |r| == |ks| && forall i :: 0 <= i < |ks| ==> r[i] == Show(ks[i])
  {
    if |ks| == 0 then [] else [Show(ks[0])] + ShowAll(ks[1..])
  }

  /** Arrays.toString(int[]): the values between brackets, separated by ", ". */
  function FormatKList(ks: seq<int>): string
  {
    "[" + Join(ShowAll(ks)) + "]"
  }

  /** Every non-empty sweep written by Arrays.toString parses back to itself. */
  lemma ParseKListFormat(ks: seq<Int32>)
    requires |ks| >= 1
    ensures ParseKList(FormatKList(ks)) == Ok(ks)
  {
    var strs := ShowAll(ks);
    forall i | 0 <= i < |strs| ensures NoDelim(strs[i]) && strs[i] != "" {
      ShowNoDelim(ks[i]);
    }
    SplitJoin(strs);
    var k := FormatKList(ks);
    assert k[1..|k| - 1] == Join(strs);
    forall i | 0 <= i < |strs| ensures ParseInt(strs[i]) == Some(ks[i]) {
      ParseIntShow(ks[i]);
    }
    ParseAllOk(strs);
    assert ParseAll(strs).value == ks;
  }

  /** The empty sweep does not round-trip: Arrays.toString writes "[]", whose one token is empty. */
  lemma EmptySweepRejected()
    ensures FormatKList([]) == "[]"
    ensures ParseKList("[]") == Err(NumberFormat(""))
  {
    assert NoDelim("");
  }

  /** The first and last characters are cut off unread: they need not be brackets. */
  lemma EndsIgnored(k: string, first: char, last: char)
    requires |k| >= 2
    ensures ParseKList([first] + k[1..|k| - 1] + [last]) == ParseKList(k)
  {
    var k' := [first] + k[1..|k| - 1] + [last];
    assert k'[1..|k'| - 1] == k[1..|k| - 1];
  }

  lemma ExampleThreeValues()
    ensures ParseKList("[3, 5, 10]") == Ok([3, 5, 10])
  {
    assert FormatKList([3, 5, 10]) == "[3, 5, 10]";
    ParseKListFormat([3, 5, 10]);
  }

  lemma ExampleOneValue()
    ensures ParseKList("[7]") == Ok([7])
  {
    assert FormatKList([7]) == "[7]";
    ParseKListFormat([7]);
  }

  /** Negative values and zero are accepted: nothing checks that k is positive. */
  lemma ExampleNonPositive()
    ensures ParseKList("[-3, 0]") == Ok([-3, 0])
  {
    assert FormatKList([-3, 0]) == "[-3, 0]";
    ParseKListFormat([-3, 0]);
  }

  lemma SplitBadToken()
    ensures Split("3, x, 10") == ["3", "x", "10"]
  {
    var inner := "3, x, 10";
    assert DelimAt(inner, 1);
    var tail := "x, 10";
    assert inner == "3" + ", " + tail;
    assert tail == "x" + ", " + "10";
    assert NoDelim("3") && NoDelim("x") && NoDelim("10");
    PiecesAfter("3", tail);
    PiecesAfter("x", "10");
    PiecesNoDelim("10");
    assert Pieces(inner) == ["3", "x", "10"];
  }

  lemma ExampleBadToken()
    ensures ParseKList("[3, x, 10]") == Err(NumberFormat("x"))
  {
    var inner := "3, x, 10";
    assert "[3, x, 10]"[1..9] == inner;
    SplitBadToken();
    ParseIntShow(3);
    assert Show(3) == "3";
    var tokens := ["3", "x", "10"];
    assert ParseInt(tokens[1]) == None;
    assert tokens[1..][1..] == ["10"];
    assert ParseAll(tokens[1..]) == Err(NumberFormat("x"));
    assert ParseAll(tokens) == Err(NumberFormat("x"));
  }

  /** Only a field of at least two characters can be cut. */
  lemma ExampleTooShort()
    ensures ParseKList("") == Err(SubstringOutOfRange)
    ensures ParseKList("[") == Err(SubstringOutOfRange)
  {
  }

  /** A lone ", " splits into empty tokens only, which split drops: the sweep is empty. */
  lemma ExampleOnlyDelimiter()
    ensures ParseKList("[, ]") == Ok([])
  {
    assert "[, ]"[1..3] == ", ";
    assert DelimAt(", ", 0);
    assert Pieces(", ") == ["", ""];
  }

  /** A trailing ", " leaves an empty last token, which split drops. */
  lemma SplitTrailing()
    ensures Split("3, 5, ") == ["3", "5"]
  {
    var inner := "3, 5, ";
    assert DelimAt(inner, 1);
    var tail := "5, ";
    assert inner == "3" + ", " + tail;
    assert tail == "5" + ", " + "";
    assert NoDelim("3") && NoDelim("5");
    PiecesAfter("3", tail);
    PiecesAfter("5", "");
    assert Pieces(inner) == ["3", "5", ""];
  }

  lemma ExampleTrailingDelimiter()
    ensures ParseKList("[3, 5, ]") == Ok([3, 5])
  {
    var inner := "3, 5, ";
    assert "[3, 5, ]"[1..7] == inner;
    SplitTrailing();
    ParseIntShow(3);
    ParseIntShow(5);
    assert Show(3) == "3" && Show(5) == "5";
    var tokens := ["3", "5"];
    assert ParseInt(tokens[0]) == Some(3) && ParseInt(tokens[1]) == Some(5);
    ParseAllOk(tokens);
    assert ParseAll(tokens).value == [3, 5];
  }
}

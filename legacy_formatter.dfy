/** The formatter of the earlier library revision (libs/formatter.go): one
    output record per lookup record, rendered as a CSV row or as JSON bytes.
    Its records have the same fields as the current ones, and its attachPrefix
    is the same rule as `Types.AttachPrefix`, so both are shared. In this
    revision GetCIDR has no error result (a range it cannot convert ends the
    process instead), and json.Marshal is a parameter. */
module LegacyFormatter {
  import opened Base
  import opened Text
  import opened Strconv
  import opened Types
  import RunnerOutput

  newtype byte = b: int | 0 <= b < 256

  /** GetCIDR of this revision: the CIDR blocks (as text) covering the ranges
      of a list of records. It returns no error; the process exit it takes
      when a range cannot be converted is outside the model. */
  type LegacyCidrOracle = seq<Response> -> seq<string>

  /** json.Marshal of one output record; a record of strings cannot fail to
      encode, so the fatal branch is never taken. */
  type Encoder = Result -> seq<byte>

  /** intializeResult: the output record of one lookup record. */
  function InitializeResult(resp: Response, cidrOf: LegacyCidrOracle, now: string): (r: Result)
    ensures r.asn == "AS" + Itoa(resp.asn)
    ensures r.input == AttachPrefix(resp.input) && r.timestamp == now
    ensures r.asnOrg == resp.org && r.asCountry == resp.country && r.asRange == cidrOf([resp])
  {
    AttachPrefixOfNumber(resp.asn);
    Result(now, AttachPrefix(resp.input), AttachPrefix(Itoa(resp.asn)), resp.org, resp.country, cidrOf([resp]))
  }

  /** Whenever the current GetCIDR succeeds with the blocks the old one
      returns, the current mapToResult builds the same record as intializeResult. */
  lemma InitializeResultAsToday(resp: Response, cidrOf: LegacyCidrOracle, current: CidrOracle, now: string)
    requires current([resp]) == Ok(cidrOf([resp]))
    ensures MapToResult(resp, current, now) == Ok(InitializeResult(resp, cidrOf, now))
  {
  }

  /** prepareFormattedCSV: the six columns of one record, ranges joined by ",". */
  function PrepareFormattedCSV(resp: Response, cidrOf: LegacyCidrOracle, now: string): (record: seq<string>)
    ensures |record| == |RunnerOutput.CsvHeaders[0]|
    ensures record[0] == now && record[1] == AttachPrefix(resp.input)
    ensures record[2] == "AS" + Itoa(resp.asn) && record[3] == resp.org && record[4] == resp.country
    ensures record[5] == Join(cidrOf([resp]), ",")
  {
    var result := InitializeResult(resp, cidrOf, now);
    [result.timestamp, result.input, result.asn, result.asnOrg, result.asCountry, Join(result.asRange, ",")]
  }

  /** The rows of `xs` under `f`: one per element, in order. */
  function Rows<A>(xs: seq<A>, f: A -> seq<string>): (rows: seq<seq<string>>)
    ensures |rows| == |xs|
    ensures forall i :: 0 <= i < |xs| ==> rows[i] == f(xs[i])
  {
    seq(|xs|, i requires 0 <= i < |xs| => f(xs[i]))
  }

  /** prepareFormattedCSV with its oracles fixed. */
  function RowOf(cidrOf: LegacyCidrOracle, now: string): Response -> seq<string>
  {
    (resp: Response) => PrepareFormattedCSV(resp, cidrOf, now)
  }

  /** GetFormattedDataInCSV: the loop that appends one row per record. */
  method GetFormattedDataInCSV(output: seq<Response>, cidrOf: LegacyCidrOracle, now: string)
    returns (records: seq<seq<string>>)
    ensures records == Rows(output, RowOf(cidrOf, now))
  {
    var f := RowOf(cidrOf, now);
    records := [];
    for i := 0 to |output|
      invariant records == Rows(output[..i], f)
    {
      var record := PrepareFormattedCSV(output[i], cidrOf, now);
      assert record == f(output[i]);
      records := records + [record];
    }
    assert output[..|output|] == output;
  }

  /** The old CSV rows are the rows the runner writes today, whenever the
      current GetCIDR succeeds on every record with the blocks the old one
      returns. */
  lemma {:induction false} CsvRowsAsToday(output: seq<Response>, cidrOf: LegacyCidrOracle, current: CidrOracle, now: string)
    requires forall k :: 0 <= k < |output| ==> current([output[k]]) == Ok(cidrOf([output[k]]))
    ensures MapAll(output, MapOne(current, now)).Ok?
    ensures RunnerOutput.CsvRecords(MapAll(output, MapOne(current, now)).value) == Rows(output, RowOf(cidrOf, now))
  {
    var f := MapOne(current, now);
    MapAllMeaning(output, f);
    var rs := MapAll(output, f).value;
    forall k | 0 <= k < |output|
      ensures rs[k] == InitializeResult(output[k], cidrOf, now)
    {
      assert f(output[k]) == Ok(rs[k]);
    }
  }

  /** The encodings of `xs` under `f`, in order, with nothing between them. */
  function Concat<A>(xs: seq<A>, f: A -> seq<byte>): seq<byte>
  {
    if xs == [] then [] else Concat(xs[..|xs| - 1], f) + f(xs[|xs| - 1])
  }

  /** prepareFormattedJSON: the encoding of one record's output record. */
  function EncodeOne(encode: Encoder, cidrOf: LegacyCidrOracle, now: string): Response -> seq<byte>
  {
    (resp: Response) => encode(InitializeResult(resp, cidrOf, now))
  }

  /** GetFormattedDataInJson: the loop that appends each record's encoding. */
  method GetFormattedDataInJson(output: seq<Response>, encode: Encoder, cidrOf: LegacyCidrOracle, now: string)
    returns (jsonOutput: seq<byte>)
    ensures jsonOutput == Concat(output, EncodeOne(encode, cidrOf, now))
  {
    var f := EncodeOne(encode, cidrOf, now);
    jsonOutput := [];
    for i := 0 to |output|
      invariant jsonOutput == Concat(output[..i], f)
    {
      assert output[..i + 1][..i] == output[..i];
      jsonOutput := jsonOutput + f(output[i]);
    }
    assert output[..|output|] == output;
  }

  /** The encoding of two batches is that of the first followed by that of the
      second: no separator, no framing. */
  lemma {:induction false} ConcatAppend<A>(a: seq<A>, b: seq<A>, f: A -> seq<byte>)
    ensures Concat(a + b, f) == Concat(a, f) + Concat(b, f)
    decreases |b|
  {
    if b == [] {
      assert a + b == a;
    } else {
      var n := |b| - 1;
      var ab := a + b;
      assert ab[..|ab| - 1] == a + b[..n];
      assert ab[|ab| - 1] == b[n];
      ConcatAppend(a, b[..n], f);
    }
  }

  /** The JSON of a batch is its records' encodings laid end to end: around
      the encoding of record `k` lie those of the records before and after it. */
  lemma JsonLayout(output: seq<Response>, k: nat, encode: Encoder, cidrOf: LegacyCidrOracle, now: string)
    requires k < |output|
    ensures var f := EncodeOne(encode, cidrOf, now);
            Concat(output, f) ==
              Concat(output[..k], f) + encode(InitializeResult(output[k], cidrOf, now)) + Concat(output[k + 1..], f)
  {
    ConcatAround(output, k, EncodeOne(encode, cidrOf, now));
  }

  /** The encoding of `xs` split around its element `k`. */
  lemma ConcatAround<A>(xs: seq<A>, k: nat, f: A -> seq<byte>)
    requires k < |xs|
    ensures Concat(xs, f) == Concat(xs[..k], f) + f(xs[k]) + Concat(xs[k + 1..], f)
  {
    var before := xs[..k];
    var after := xs[k + 1..];
    assert xs == before + [xs[k]] + after;
    assert [xs[k]][..0] == [];
    ConcatAppend(before, [xs[k]], f);
    ConcatAppend(before + [xs[k]], after, f);
  }

  /** Digits of the AS numbers in the library's CSV example. */
  lemma ExampleDigits()
    ensures Itoa(14421) == "14421" && Itoa(13335) == "13335"
  {
    assert DecimalDigits(1) == "1";
    assert DecimalDigits(14) == "14";
    assert DecimalDigits(144) == "144";
    assert DecimalDigits(1442) == "1442";
    assert DecimalDigits(13) == "13";
    assert DecimalDigits(133) == "133";
    assert DecimalDigits(1333) == "1333";
  }

  /** A row from the library's CSV example: an AS number input gains its prefix. */
  lemma AsnRowExample(cidrOf: LegacyCidrOracle)
    requires cidrOf([Response("216.101.17.0", "216.101.17.255", "14421", 14421, "US", "THERAVANCE")]) == ["216.101.17.0/24"]
    ensures PrepareFormattedCSV(Response("216.101.17.0", "216.101.17.255", "14421", 14421, "US", "THERAVANCE"), cidrOf, "") ==
            ["", "AS14421", "AS14421", "THERAVANCE", "US", "216.101.17.0/24"]
  {
    ExampleDigits();
    AtoiItoa(14421);
    assert Atoi("14421").Some?;
    assert AttachPrefix("14421") == "AS14421";
  }

  /** A row from the library's CSV example: an address input is kept as it is,
      and the blocks share one column, joined by commas. */
  lemma IpRowExample(cidrOf: LegacyCidrOracle)
    requires cidrOf([Response("104.16.0.0", "104.21.127.255", "104.16.99.52", 13335, "US", "CLOUDFLARENET")]) ==
             ["104.16.0.0/14", "104.20.0.0/16", "104.21.0.0/17"]
    ensures PrepareFormattedCSV(Response("104.16.0.0", "104.21.127.255", "104.16.99.52", 13335, "US", "CLOUDFLARENET"), cidrOf, "") ==
            ["", "104.16.99.52", "AS13335", "CLOUDFLARENET", "US", "104.16.0.0/14,104.20.0.0/16,104.21.0.0/17"]
  {
    ExampleDigits();
    ExampleAddressNotNumber();
    ExampleRangesJoined();
    assert "AS" + Itoa(13335) == "AS13335";
  }

  /** An address is not a number, so attachPrefix leaves it alone. */
  lemma ExampleAddressNotNumber()
    ensures AttachPrefix("104.16.99.52") == "104.16.99.52"
  {
    var input := "104.16.99.52";
    assert !IsDigit(input[3]);
  }

  /** Three blocks in one column. */
  lemma ExampleRangesJoined()
    ensures Join(["104.16.0.0/14", "104.20.0.0/16", "104.21.0.0/17"], ",") == "104.16.0.0/14,104.20.0.0/16,104.21.0.0/17"
  {
    var ranges := ["104.16.0.0/14", "104.20.0.0/16", "104.21.0.0/17"];
    assert ranges[..2][..1] == [ranges[0]];
    assert Join(ranges[..2], ",") == ranges[0] + "," + ranges[1];
  }
}

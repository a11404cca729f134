/** What the runner writes for a batch of records (runner/output.go): the
    callback, the JSON, CSV and plain CIDR renderings, and the IPv4 filter.
    The writer is a `Sink` that keeps every batch handed to the callback and
    every line written; byte encoding is outside the model. */
module RunnerOutput {
  import opened Base
  import opened Text
  import opened Types
  import IpAddr
  import opened RunnerOptions

  /** csvHeaders: the one header row of the CSV output. */
  const CsvHeaders: seq<seq<string>> := [["timestamp", "input", "as_number", "as_name", "as_country", "as_range"]]

  /** One unit of output: a JSON-encoded record, a CSV row, or a CIDR line. */
  datatype Line = JsonRecord(result: Result) | CsvRecord(fields: seq<string>) | CidrLine(cidr: string)

  /** The observable effect of writing: the batches passed to OnResult and the
      lines sent to Output, oldest first. */
  datatype Sink = Sink(delivered: seq<seq<Response>>, lines: seq<Line>)

  /** The sink after a writeOutput call, and the error that call returned. */
  datatype Written = Written(sink: Sink, err: Option<string>)

  /** A CIDR block whose address part (the text before the first '/') is IPv4. */
  predicate ShowsIPv4(cidr: string)
  {
    IpAddr.IsIPv4(Before(cidr, '/'))
  }

  /** The IPv4 blocks of `cidrs`, in order. */
  function KeepIPv4(cidrs: seq<string>): seq<string>
  {
    if cidrs == [] then []
    else
      var rest := KeepIPv4(cidrs[..|cidrs| - 1]);
      if ShowsIPv4(cidrs[|cidrs| - 1]) then rest + [cidrs[|cidrs| - 1]] else rest
  }

  /** KeepIPv4 keeps exactly the IPv4 blocks, in their order, and keeping them
      again changes nothing. */
  lemma {:induction false} KeepIPv4Meaning(cidrs: seq<string>)
    ensures IsSubsequence(KeepIPv4(cidrs), cidrs)
    ensures forall c :: c in KeepIPv4(cidrs) <==> c in cidrs && ShowsIPv4(c)
    ensures KeepIPv4(KeepIPv4(cidrs)) == KeepIPv4(cidrs)
    decreases |cidrs|
  {
    if cidrs != [] {
      var n := |cidrs| - 1;
      var rest := KeepIPv4(cidrs[..n]);
      KeepIPv4Meaning(cidrs[..n]);
      assert cidrs == cidrs[..n] + [cidrs[n]];
      if ShowsIPv4(cidrs[n]) {
        assert (rest + [cidrs[n]])[..|rest|] == rest;
      }
    }
  }

  /** One CSV row: timestamp, input, AS number, AS name, country and the ranges
      joined by commas. */
  function CsvRecordOf(r: Result): seq<string>
  {
    [r.timestamp, r.input, r.asn, r.asnOrg, r.asCountry, Join(r.asRange, ",")]
  }

  /** The rows for a list of results: one per result, in order, each with one
      field per header column. */
  function CsvRecords(results: seq<Result>): (records: seq<seq<string>>)
    ensures |records| == |results|
    ensures forall i :: 0 <= i < |records| ==>
              |records[i]| == |CsvHeaders[0]| && records[i][0] == results[i].timestamp &&
              records[i][1] == results[i].input && records[i][2] == results[i].asn &&
              records[i][3] == results[i].asnOrg && records[i][4] == results[i].asCountry &&
              records[i][5] == Join(results[i].asRange, ",")
  {
    seq(|results|, i requires 0 <= i < |results| => CsvRecordOf(results[i]))
  }

  /** The loop of writeOutput's CSV case that builds the rows. */
  method BuildCsvRecords(results: seq<Result>) returns (records: seq<seq<string>>)
    ensures records == CsvRecords(results)
  {
    records := [];
    for i := 0 to |results|
      invariant records == CsvRecords(results[..i])
    {
      records := records + [CsvRecordOf(results[i])];
    }
    assert results[..|results|] == results;
  }

  /** The lines a batch renders to when Output is set, or the error that stops
      it before anything is written: JSON wins over CSV, and plain mode prints
      the CIDR blocks of the batch, the IPv6 ones only when asked to. */
  function Render(o: Options, output: seq<Response>, cidrOf: CidrOracle, now: string): Outcome<seq<Line>>
  {
    if o.displayInJSON then
      match MapAll(output, MapOne(cidrOf, now))
      case Err(e) => Err(e)
      case Ok(rs) => Ok(seq(|rs|, i requires 0 <= i < |rs| => JsonRecord(rs[i])))
    else if o.displayInCSV then
      match MapAll(output, MapOne(cidrOf, now))
      case Err(e) => Err(e)
      case Ok(rs) =>
        var records := CsvRecords(rs);
        Ok(seq(|records|, i requires 0 <= i < |records| => CsvRecord(records[i])))
    else
      match cidrOf(output)
      case Err(e) => Err(e)
      case Ok(cidrs) =>
        var kept := if o.displayIPv6 then cidrs else KeepIPv4(cidrs);
        Ok(seq(|kept|, i requires 0 <= i < |kept| => CidrLine(kept[i])))
  }

  /** writeOutput as a value: the callback sees the batch first, in every mode;
      without an Output nothing is written and no error returned; otherwise the
      rendered lines are written, or the rendering error is returned with
      nothing written. */
  function WriteOutputSpec(o: Options, s: Sink, output: seq<Response>, cidrOf: CidrOracle, now: string): (w: Written)
    ensures w.sink.delivered == s.delivered + (if o.hasOnResult then [output] else [])
    ensures !o.hasOutput ==> w.err.None? && w.sink.lines == s.lines
    ensures o.hasOutput ==> (w.err.None? <==> Render(o, output, cidrOf, now).Ok?)
    ensures w.err.Some? ==> w.sink.lines == s.lines && w.err == Some(Render(o, output, cidrOf, now).msg)
    ensures o.hasOutput && w.err.None? ==> w.sink.lines == s.lines + Render(o, output, cidrOf, now).value
  {
    var s1 := if o.hasOnResult then s.(delivered := s.delivered + [output]) else s;
    if !o.hasOutput then Written(s1, None)
    else
      match Render(o, output, cidrOf, now)
      case Err(e) => Written(s1, Some(e))
      case Ok(lines) => Written(s1.(lines := s1.lines + lines), None)
  }

  /** The error of a writeOutput call depends on the batch only, not on what
      was written before. */
  lemma WriteErrorIgnoresSink(o: Options, s: Sink, s2: Sink, output: seq<Response>, cidrOf: CidrOracle, now: string)
    ensures WriteOutputSpec(o, s, output, cidrOf, now).err == WriteOutputSpec(o, s2, output, cidrOf, now).err
  {
  }

  /** JSON takes precedence: with both flags set the CSV flag is ignored. */
  lemma JsonOverCsv(o: Options, output: seq<Response>, cidrOf: CidrOracle, now: string)
    requires o.displayInJSON
    ensures Render(o, output, cidrOf, now) == Render(o.(displayInCSV := false), output, cidrOf, now)
    ensures Render(o, output, cidrOf, now).Ok? ==>
              forall k :: 0 <= k < |Render(o, output, cidrOf, now).value| ==>
                Render(o, output, cidrOf, now).value[k].JsonRecord?
  {
  }

  /** In JSON and CSV mode a batch either fails with the error of the first
      record that cannot be mapped, writing nothing, or yields one line per
      record in order; a CSV line is the record's six columns. */
  lemma StructuredLines(o: Options, output: seq<Response>, cidrOf: CidrOracle, now: string)
    requires o.displayInJSON || o.displayInCSV
    ensures var r := Render(o, output, cidrOf, now);
            r.Err? ==> exists k :: FirstFailure(output, MapOne(cidrOf, now), k) &&
                                   r.msg == MapToResult(output[k], cidrOf, now).msg
    ensures var r := Render(o, output, cidrOf, now);
            r.Ok? ==> |r.value| == |output| &&
                      forall k :: 0 <= k < |output| ==>
                        MapToResult(output[k], cidrOf, now).Ok? &&
                        r.value[k] == if o.displayInJSON then JsonRecord(MapToResult(output[k], cidrOf, now).value)
                                      else CsvRecord(CsvRecordOf(MapToResult(output[k], cidrOf, now).value))
  {
    MapAllMeaning(output, MapOne(cidrOf, now));
  }

  /** Plain mode prints the CIDR blocks GetCIDR returns, in its order: all of
      them with IPv6 display, otherwise exactly the IPv4 filter's blocks, one
      line each (KeepIPv4Meaning says which those are). */
  lemma PlainLines(o: Options, output: seq<Response>, cidrOf: CidrOracle, now: string)
    requires !o.displayInJSON && !o.displayInCSV && cidrOf(output).Ok?
    ensures var r := Render(o, output, cidrOf, now);
            var cidrs := cidrOf(output).value;
            r.Ok? &&
            (forall k :: 0 <= k < |r.value| ==> r.value[k].CidrLine?) &&
            (o.displayIPv6 ==> |r.value| == |cidrs| && forall k :: 0 <= k < |cidrs| ==> r.value[k] == CidrLine(cidrs[k])) &&
            (!o.displayIPv6 ==> forall c :: CidrLine(c) in r.value <==> c in cidrs && ShowsIPv4(c))
    ensures var r := Render(o, output, cidrOf, now);
            var kept := KeepIPv4(cidrOf(output).value);
            !o.displayIPv6 ==> |r.value| == |kept| && forall k :: 0 <= k < |kept| ==> r.value[k] == CidrLine(kept[k])
  {
    var cidrs := cidrOf(output).value;
    KeepIPv4Meaning(cidrs);
    var r := Render(o, output, cidrOf, now);
    if !o.displayIPv6 {
      var kept := KeepIPv4(cidrs);
      forall c
        ensures CidrLine(c) in r.value <==> c in kept
      {
        if c in kept {
          var k :| 0 <= k < |kept| && kept[k] == c;
          assert r.value[k] == CidrLine(c);
        }
      }
    }
  }
}

/** The records of the lookup service and of the tool's output, the
    classification of a query string, and the mapping from one to the other
    (libs/types.go). */
module Types {
  import opened Base
  import opened Text
  import opened Strconv
  import IpAddr

  /** One announced address range of one AS, as the lookup service returns it;
      `input` is never decoded and is filled in by the client. */
  datatype Response = Response(firstIp: string, lastIp: string, input: string,
                               asn: Int64, country: string, org: string)

  /** One output record (JSON or CSV). */
  datatype Result = Result(timestamp: string, input: string, asn: string,
                           asnOrg: string, asCountry: string, asRange: seq<string>)

  datatype InputType = ASN | ASNID | IP | Org | Domain | Unknown

  /** GetCIDR: the CIDR blocks (in text form) covering the ranges of a list of
      records, or an error; the reduction itself is outside this model. */
  type CidrOracle = seq<Response> -> Outcome<seq<string>>

  /** Response.Equal: same AS number and same organisation up to case. */
  predicate Equal(r: Response, r2: Response)
  {
    r.asn == r2.asn && EqualFoldAscii(r.org, r2.org)
  }

  /** Equal looks at the AS number and the organisation only, ignoring case. */
  lemma EqualIgnoresRangeInputCountry(r: Response, r2: Response, first: string, last: string,
                                      input: string, country: string)
    ensures Equal(r, r2) <==> Equal(r.(firstIp := first, lastIp := last, input := input, country := country), r2)
    ensures Equal(r, r2) <==> r.asn == r2.asn && ToLowerAscii(r.org) == ToLowerAscii(r2.org)
  {
  }

  /** Equal is an equivalence relation. */
  lemma EqualIsEquivalence(a: Response, b: Response, c: Response)
    ensures Equal(a, a)
    ensures Equal(a, b) ==> Equal(b, a)
    ensures Equal(a, b) && Equal(b, c) ==> Equal(a, c)
  {
  }

  /** checkIfASNId: a non-empty run of ASCII digits. */
  predicate CheckIfASNId(s: string)
  {
    |s| > 0 && AllDigits(s)
  }

  /** checkIfASN: "AS" in any case, then a non-empty run of ASCII digits. */
  predicate CheckIfASN(s: string)
  {
    |s| > 0 &&
    var hasPrefix := |s| >= 2 && ToLowerAscii(s[..2]) == "as";
    hasPrefix && CheckIfASNId(s[2..])
  }

  /** A character of the class [a-z0-9-] under (?i): Go's regexp folds case with
      Unicode simple folding, which also puts the Kelvin sign (U+212A, folds to k)
      and the long s (U+017F, folds to s) into the class. */
  predicate IsDomainChar(c: char)
  {
    IsDigit(c) || 'a' <= c <= 'z' || 'A' <= c <= 'Z' || c == '-' || c == '\U{212A}' || c == '\U{017F}'
  }

  predicate IsLabel(l: string) { |l| > 0 && forall i :: 0 <= i < |l| ==> IsDomainChar(l[i]) }

  /** domainRegex `^(?i)[a-z0-9-]+(\.[a-z0-9-]+)+\.?$`: two or more non-empty labels
      separated by dots, with one optional trailing dot. */
  predicate DomainMatch(s: string)
  {
    var body := if |s| > 0 && s[|s| - 1] == '.' then s[..|s| - 1] else s;
    var labels := Split(body, '.');
    |labels| >= 2 && forall i :: 0 <= i < |labels| ==> IsLabel(labels[i])
  }

  /** "AS" in any ASCII case followed by one or more digits. */
  predicate IsPrefixedNumber(s: string)
  {
    |s| >= 3 && (s[0] == 'a' || s[0] == 'A') && (s[1] == 's' || s[1] == 'S') && AllDigits(s[2..])
  }

  lemma CheckIfASNMeaning(s: string)
    ensures CheckIfASN(s) <==> IsPrefixedNumber(s)
  {
    if |s| >= 2 {
      var p := ToLowerAscii(s[..2]);
      assert p == [LowerAscii(s[0]), LowerAscii(s[1])];
    }
  }

  /** IdentifyInput: the first test that holds among IP, ASN, ASNID and Domain;
      anything else is an organisation name. */
  function IdentifyInput(s: string): (r: InputType)
    ensures r != Unknown
    ensures r == IP <==> IpAddr.IsIP(s)
    ensures r == ASN <==> IsPrefixedNumber(s)
    ensures r == ASNID <==> |s| > 0 && AllDigits(s)
    ensures r == Domain <==> !IpAddr.IsIP(s) && DomainMatch(s)
    ensures r == Org <==> !IpAddr.IsIP(s) && !IsPrefixedNumber(s) && !(|s| > 0 && AllDigits(s)) && !DomainMatch(s)
  {
    CheckIfASNMeaning(s);
    if IpAddr.IsIP(s) then
      IP
    else if CheckIfASN(s) then
      ASN
    else if CheckIfASNId(s) then
      ASNID
    else if DomainMatch(s) then
      DomainIsNotNumber(s);
      Domain
    else
      Org
  }

  /** A string that matches the domain pattern holds a dot, so it is neither an
      "AS"-prefixed number nor a bare number: the ASN, ASNID and Domain tests
      never overlap, and only the IP test has to come first. */
  lemma DomainIsNotNumber(s: string)
    requires DomainMatch(s)
    ensures !IsPrefixedNumber(s) && !(|s| > 0 && AllDigits(s))
  {
    var body := if |s| > 0 && s[|s| - 1] == '.' then s[..|s| - 1] else s;
    assert '.' in body;
    var k :| 0 <= k < |body| && body[k] == '.';
    assert s[k] == '.';
  }

  /** A string with neither '.' nor ':' is an "AS"-prefixed number, a bare number
      or an organisation name. */
  lemma {:induction false} UndottedIsNumberOrOrg(s: string)
    requires '.' !in s && ':' !in s
    ensures IdentifyInput(s) in {ASN, ASNID, Org}
  {
    if IpAddr.IsIP(s) {
      IpAddr.IPHasSeparator(s);
    }
    SplitNoSep(s, '.');
  }

  /** Inputs from the classifier's unit tests that have no dot: "AS14421" is an
      ASN, while "AS" and "AS-CHOOPA" (no digits after the prefix) and
      "PPLINKNET" are organisation names. */
  lemma ClassifierExamples(s: string)
    requires s in {"AS14421", "PPLINKNET", "AS", "AS-CHOOPA"}
    ensures IdentifyInput(s) == if s == "AS14421" then ASN else Org
  {
    if s == "AS14421" {
      assert IsPrefixedNumber(s);
    } else {
      UndottedIsNumberOrOrg(s);
      assert !IsDigit(s[0]);
      if s == "AS-CHOOPA" {
        assert !IsDigit(s[2..][0]);
      }
    }
  }

  /** A label holds neither a dot nor a colon. */
  lemma LabelHasNoSeparator(l: string)
    requires IsLabel(l)
    ensures '.' !in l && ':' !in l
  {
  }

  /** Two or more labels joined by dots match the domain pattern, split back
      into those labels, and hold no colon. */
  lemma JoinedLabelsMatch(labels: seq<string>)
    requires |labels| >= 2 && forall i :: 0 <= i < |labels| ==> IsLabel(labels[i])
    ensures Split(Join(labels, "."), '.') == labels
    ensures DomainMatch(Join(labels, ".")) && ':' !in Join(labels, ".")
  {
    var s := Join(labels, ".");
    var n := |labels| - 1;
    forall i | 0 <= i < |labels|
      ensures '.' !in labels[i] && ':' !in labels[i]
    {
      LabelHasNoSeparator(labels[i]);
    }
    SplitJoin(labels, '.');
    JoinAvoids(labels, ".", ':');
    assert s == Join(labels[..n], ".") + "." + labels[n];
    assert s[|s| - 1] == labels[n][|labels[n]| - 1];
  }

  /** Two or more labels joined by dots are classified as a domain, unless
      they spell a dotted quad, which is an address. */
  lemma LabelsClassify(labels: seq<string>)
    requires |labels| >= 2 && forall i :: 0 <= i < |labels| ==> IsLabel(labels[i])
    ensures Split(Join(labels, "."), '.') == labels
    ensures IdentifyInput(Join(labels, ".")) == if IpAddr.IsIPv4(Join(labels, ".")) then IP else Domain
  {
    var s := Join(labels, ".");
    JoinedLabelsMatch(labels);
    if IpAddr.IsIPv6(s) {
      IpAddr.IPv6HasTwoColons(s);
    }
  }

  /** Labels joined by dots whose first label does not start with a digit
      form a domain. */
  lemma DottedDomain(labels: seq<string>)
    requires |labels| >= 2 && forall i :: 0 <= i < |labels| ==> IsLabel(labels[i])
    requires |labels[0]| > 0 && !IsDigit(labels[0][0])
    ensures IdentifyInput(Join(labels, ".")) == Domain
  {
    LabelsClassify(labels);
    assert !IpAddr.IsDecOctet(labels[0]);
  }

  /** The address case of the classifier's unit tests. */
  lemma ClassifierAddressExample(s: string)
    requires s == "10.101.101.10"
    ensures IdentifyInput(s) == IP
  {
    assert Strconv.DigitsValue("10") == 10;
    assert Strconv.DigitsValue("101") == 101;
    IpAddr.DottedQuad(s, "10", "101", "101", "10");
  }

  /** The domain cases of the classifier's unit tests with two labels. */
  lemma ClassifierTwoLabelExamples(s: string)
    requires s in {"google.com", "cornell.edu"}
    ensures IdentifyInput(s) == Domain
  {
    var labels := if s == "google.com" then ["google", "com"] else ["cornell", "edu"];
    assert Join(labels, ".") == s;
    DottedDomain(labels);
  }

  /** Three labels joined by dots, the first not starting with a digit, form a domain. */
  lemma ThreeLabels(s: string, a: string, b: string, c: string)
    requires s == a + "." + b + "." + c
    requires IsLabel(a) && IsLabel(b) && IsLabel(c) && !IsDigit(a[0])
    ensures IdentifyInput(s) == Domain
  {
    JoinThree(a, b, c, ".");
    DottedDomain([a, b, c]);
  }

  /** The domain cases of the classifier's unit tests with three labels, one
      of them starting with digits. */
  lemma ClassifierThreeLabelExamples(s: string)
    requires s in {"bbc.co.uk", "bigstuff.cornell.edu", "www.99acres.com"}
    ensures IdentifyInput(s) == Domain
  {
    if s == "bbc.co.uk" {
      ThreeLabels(s, "bbc", "co", "uk");
    } else if s == "bigstuff.cornell.edu" {
      ThreeLabels(s, "bigstuff", "cornell", "edu");
    } else {
      ThreeLabels(s, "www", "99acres", "com");
    }
  }

  /** The domain case of the classifier's unit tests with four labels: four
      fields, like a dotted quad, but not numeric. */
  lemma ClassifierFourLabelExample(s: string)
    requires s == "www.bass.blm.gov"
    ensures IdentifyInput(s) == Domain
  {
    JoinFour("www", "bass", "blm", "gov", ".");
    assert "www" + "." + "bass" + "." + "blm" + "." + "gov" == s;
    DottedDomain(["www", "bass", "blm", "gov"]);
  }

  /** attachPrefix: "AS" in front of anything strconv.Atoi accepts. */
  function AttachPrefix(s: string): string
  {
    if Atoi(s).Some? then "AS" + s else s
  }

  /** attachPrefix prepends "AS" exactly when strconv.Atoi accepts the text,
      and otherwise returns it unchanged. */
  lemma AttachPrefixIff(s: string)
    ensures AttachPrefix(s) == "AS" + s <==> Atoi(s).Some?
    ensures Atoi(s).None? ==> AttachPrefix(s) == s
  {
    assert |"AS" + s| == |s| + 2;
  }

  /** A decimal AS number always gets its prefix. */
  lemma AttachPrefixOfNumber(n: Int64)
    ensures AttachPrefix(Itoa(n)) == "AS" + Itoa(n)
  {
    AtoiItoa(n);
  }

  /** attachPrefix never prefixes twice: what it returns is left alone by a second call. */
  lemma AttachPrefixIdempotent(s: string)
    ensures AttachPrefix(AttachPrefix(s)) == AttachPrefix(s)
  {
    if Atoi(s).Some? {
      assert ("AS" + s)[0] == 'A';
    }
  }

  /** mapToResult: the output record for one response. */
  function MapToResult(resp: Response, cidrOf: CidrOracle, now: string): (r: Outcome<Result>)
    ensures r.Err? <==> cidrOf([resp]).Err?
    ensures r.Err? ==> r.msg == cidrOf([resp]).msg
    ensures r.Ok? ==> r.value.asn == "AS" + Itoa(resp.asn)
    ensures r.Ok? ==> r.value.input == AttachPrefix(resp.input) && r.value.timestamp == now
    ensures r.Ok? ==> r.value.asnOrg == resp.org && r.value.asCountry == resp.country
    ensures r.Ok? ==> r.value.asRange == cidrOf([resp]).value
  {
    AttachPrefixOfNumber(resp.asn);
    var result := Result(now, AttachPrefix(resp.input), AttachPrefix(Itoa(resp.asn)), resp.org, resp.country, []);
    match cidrOf([resp])
    case Err(e) => Err(e)
    case Ok(cidrs) => Ok(result.(asRange := cidrs))
  }

  /** MapToResults, as a value: `f` applied to each element in order, stopping at
      the first failure, whose error is returned alone. */
  function MapAll<A, B>(xs: seq<A>, f: A -> Outcome<B>): Outcome<seq<B>>
    decreases |xs|
  {
    if xs == [] then Ok([])
    else
      var n := |xs| - 1;
      match MapAll(xs[..n], f)
      case Err(e) => Err(e)
      case Ok(rs) =>
        match f(xs[n])
        case Err(e) => Err(e)
        case Ok(x) => Ok(rs + [x])
  }

  /** The element at `k` is the first one `f` fails on. */
  predicate FirstFailure<A, B>(xs: seq<A>, f: A -> Outcome<B>, k: int)
  {
    0 <= k < |xs| && f(xs[k]).Err? && forall j :: 0 <= j < k ==> f(xs[j]).Ok?
  }

  /** MapAll succeeds with one result per element, in input order, or fails with
      the error of the first element that cannot be mapped and no results. */
  lemma {:induction false} MapAllMeaning<A, B>(xs: seq<A>, f: A -> Outcome<B>)
    ensures var r := MapAll(xs, f);
            r.Ok? ==> |r.value| == |xs| && forall i :: 0 <= i < |xs| ==> f(xs[i]) == Ok(r.value[i])
    ensures var r := MapAll(xs, f);
            r.Err? ==> exists k :: FirstFailure(xs, f, k) && r.msg == f(xs[k]).msg
    decreases |xs|
  {
    if xs != [] {
      var n := |xs| - 1;
      var prefix := xs[..n];
      MapAllMeaning(prefix, f);
      match MapAll(prefix, f)
      case Err(e) =>
        var k :| FirstFailure(prefix, f, k) && e == f(prefix[k]).msg;
        assert FirstFailure(xs, f, k);
      case Ok(rs) =>
        if f(xs[n]).Err? {
          assert FirstFailure(xs, f, n);
        }
    }
  }

  /** Once a prefix fails to map, the whole sequence fails with the same error. */
  lemma {:induction false} PrefixErrorPropagates<A, B>(xs: seq<A>, i: nat, f: A -> Outcome<B>)
    requires i <= |xs|
    requires MapAll(xs[..i], f).Err?
    ensures MapAll(xs, f) == MapAll(xs[..i], f)
    decreases |xs| - i
  {
    if i < |xs| {
      assert xs[..i + 1][..i] == xs[..i];
      PrefixErrorPropagates(xs, i + 1, f);
    } else {
      assert xs[..i] == xs;
    }
  }

  /** mapToResult with its oracles fixed, as the function MapToResults applies. */
  function MapOne(cidrOf: CidrOracle, now: string): Response -> Outcome<Result>
  {
    (resp: Response) => MapToResult(resp, cidrOf, now)
  }

  /** MapToResults: maps the responses one by one and stops at the first failure,
      returning that error and no results. */
  method MapToResults(output: seq<Response>, cidrOf: CidrOracle, now: string) returns (r: Outcome<seq<Result>>)
    ensures r == MapAll(output, MapOne(cidrOf, now))
  {
    var f := MapOne(cidrOf, now);
    var results: seq<Result> := [];
    for i := 0 to |output|
      invariant MapAll(output[..i], f) == Ok(results)
    {
      assert output[..i + 1][..i] == output[..i];
      var result := MapToResult(output[i], cidrOf, now);
      if result.Err? {
        PrefixErrorPropagates(output, i + 1, f);
        return Err(result.msg);
      }
      results := results + [result.value];
    }
    assert output[..|output|] == output;
    return Ok(results);
  }
}
